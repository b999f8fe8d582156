/**
  * Properties that relate several content-service calls: the invariant every mutation
  * keeps, the order block columns accumulate in, the destructive re-create, the persisted
  * sort order, and the rollback of failed mutations.
  */
module ContentServiceProofs {
  import opened Results
  import opened Strings
  import opened Seqs
  import opened Schema
  import opened ContentService

  /**
    * The state invariant: every entry-data table keeps the system/block/system layout,
    * and every stored id, and every section a junction row points to, lies below the next
    * auto-increment value.
    */
  predicate Inv(s: State) {
    && (forall t :: t in s.tables ==> WellFormed(s.tables[t]))
    && IdsBelow(s.sections, s.nextSectionId)
    && (forall k :: 0 <= k < |s.sectionBlocks| ==> s.sectionBlocks[k].sectionId < s.nextSectionId)
    && (forall k :: 0 <= k < |s.blocks| ==> s.blocks[k].id.Some? && s.blocks[k].id.value < s.nextBlockId)
    && (forall k :: 0 <= k < |s.foreignKeys| ==> s.foreignKeys[k].table in s.tables)
    && (forall k :: 0 <= k < |s.foreignKeys| ==> IsTableKey(s.foreignKeys[k]))
    && (forall t :: t in s.tables ==> Lower(t) == t)
  }

  /** The keys the service creates: one of the two keys `createSection` gives its table. */
  predicate IsTableKey(fk: ForeignKey) {
    fk == EntriesForeignKey(fk.table) || fk == VersionsForeignKey(fk.table)
  }

  /** Every section row has an id, and each lies below `next`. */
  predicate IdsBelow(sections: seq<Section>, next: nat) {
    forall k :: 0 <= k < |sections| ==> sections[k].id.Some? && sections[k].id.value < next
  }

  lemma InitialInv()
    ensures Inv(Initial())
  {
  }

  // ---------------------------------------------------------------------------------------
  // createSection

  /**
    * `createSection` keeps the invariant, whether or not it checks the result of `save()`;
    * its new table holds only the system columns.
    */
  lemma CreateSectionPreservesInv(s: State, env: Env, site: Site, req: SectionRequest, checkSaved: bool)
    requires Inv(s)
    ensures Inv(CreateSectionWith(s, env, site, req, checkSaved).state)
  {
    var o := CreateSectionWith(s, env, site, req, checkSaved);
    if o.result.Success? {
      var t := EntryDataTableName(site.handle, req.handle);
      if env.validSection(NewSectionFor(site, req)) {
        AppendKeepsIds(s.sections, o.result.value, s.nextSectionId);
      }
      TableNameIsLower(site.handle, req.handle);
      InvAfterNewTable(s, o.state, t);
    }
  }

  /**
    * The invariant survives replacing table `t` (a lower-case name) by the system columns,
    * changing the section rows with every id kept below the (not decreasing) next id, and
    * adding only the two keys of `t`.
    */
  lemma InvAfterNewTable(s: State, s': State, t: string)
    requires Inv(s) && Lower(t) == t
    requires s' == s.(tables := s.tables[t := SystemColumns()], foreignKeys := s'.foreignKeys,
                      sections := s'.sections, nextSectionId := s'.nextSectionId)
    requires s.nextSectionId <= s'.nextSectionId && IdsBelow(s'.sections, s'.nextSectionId)
    requires forall fk :: fk in s'.foreignKeys ==>
               fk in s.foreignKeys || fk == EntriesForeignKey(t) || fk == VersionsForeignKey(t)
    ensures Inv(s')
  {
    SystemColumnsWellFormed();
    forall k | 0 <= k < |s'.foreignKeys|
      ensures s'.foreignKeys[k].table in s'.tables && IsTableKey(s'.foreignKeys[k])
    {
      var fk := s'.foreignKeys[k];
      if fk in s.foreignKeys {
        var j :| 0 <= j < |s.foreignKeys| && s.foreignKeys[j] == fk;
      }
    }
  }

  /**
    * The DDL of `createSection` on a lower-case table name goes through when none of its
    * steps throws: under the invariant no other table's key can have the new keys' names.
    */
  lemma PrepareTableSucceeds(s: State, env: Env, t: string)
    requires Inv(s) && Lower(t) == t
    requires forall st :: st in TableSteps(s, t) ==> !env.faulty(st)
    ensures PrepareTable(s, env, t).Success?
  {
    assert t in s.tables ==> DropTable(t) in TableSteps(s, t);
    var s1 := if t in s.tables then DropTableStep(s, env, t).value else s;
    forall fk | fk in s1.foreignKeys
      ensures fk.name != EntriesForeignKey(t).name && fk.name != VersionsForeignKey(t).name
    {
      var k :| 0 <= k < |s.foreignKeys| && s.foreignKeys[k] == fk;
      assert fk.table in s.tables && IsTableKey(fk) && fk.table != t;
      KeyNamesDiffer(fk.table, t);
    }
    BuildTableSucceeds(s1, env, t);
  }

  /** With lower-case table names, the key names are the table name plus a fixed suffix. */
  lemma KeyNamesOfLowerTable(t: string)
    requires Lower(t) == t
    ensures EntriesForeignKey(t).name == t + "_entries_fk" && VersionsForeignKey(t).name == t + "_entryversions_fk"
  {
    LowerAppend(t, "_entries_fk");
    LowerAppend(t, "_entryversions_fk");
    SuffixesAreLowerCase();
  }

  /** Two different lower-case tables never get keys of the same name. */
  lemma KeyNamesDiffer(u: string, t: string)
    requires Lower(u) == u && Lower(t) == t && u != t
    ensures EntriesForeignKey(u).name != EntriesForeignKey(t).name && EntriesForeignKey(u).name != VersionsForeignKey(t).name
    ensures VersionsForeignKey(u).name != EntriesForeignKey(t).name && VersionsForeignKey(u).name != VersionsForeignKey(t).name
  {
    KeyNamesOfLowerTable(u);
    KeyNamesOfLowerTable(t);
    SuffixedDiffer(u, t, "_entries_fk");
    SuffixedDiffer(u, t, "_entryversions_fk");
    EntriesNotVersions(u, t);
    EntriesNotVersions(t, u);
  }

  lemma SuffixedDiffer(u: string, t: string, x: string)
    requires u != t
    ensures u + x != t + x
  {
    assert (u + x)[..|u|] == u && (t + x)[..|t|] == t;
  }

  /** `_entries_fk` and `_entryversions_fk` differ where the second has its `v`. */
  lemma EntriesNotVersions(u: string, t: string)
    ensures u + "_entries_fk" != t + "_entryversions_fk"
  {
    assert (u + "_entries_fk")[|u|] == '_';
    assert |t + "_entryversions_fk"| == |u| + 11 ==> (t + "_entryversions_fk")[|u|] == 'v';
  }

  /** Building a table that does not exist succeeds when no step throws and its key names are free. */
  lemma BuildTableSucceeds(s: State, env: Env, t: string)
    requires t !in s.tables
    requires forall fk :: fk in s.foreignKeys ==>
               fk.name != EntriesForeignKey(t).name && fk.name != VersionsForeignKey(t).name
    requires && !env.faulty(CreateTable(t))
             && !env.faulty(AddForeignKey(EntriesForeignKey(t).name))
             && !env.faulty(AddForeignKey(VersionsForeignKey(t).name))
             && !env.faulty(InsertAuditTrigger(t)) && !env.faulty(UpdateAuditTrigger(t))
    ensures BuildTable(s, env, t).Success?
  {
    var e := EntriesForeignKey(t);
    var v := VersionsForeignKey(t);
    ForeignKeyNamesDiffer(t);
    var s2 := CreateTableStep(s, env, t, SystemColumns()).value;
    SystemColumnsWellFormed();
    assert e.column in Names(s2.tables[t]) && v.column in Names(s2.tables[t]);
    assert e.name !in FkNames(s2.foreignKeys);
    var s3 := AddForeignKeyStep(s2, env, e).value;
    assert FkNames(s3.foreignKeys) == FkNames(s2.foreignKeys) + [e.name];
    assert v.name !in FkNames(s3.foreignKeys);
  }

  /**
    * Under the invariant, `createSection` commits when no step throws and, when it checks the
    * result of `save()`, the section validates.
    */
  lemma CreateSectionSucceeds(s: State, env: Env, site: Site, req: SectionRequest, checkSaved: bool)
    requires Inv(s)
    requires forall st :: st in CreateSectionSteps(s, site, req) ==> !env.faulty(st)
    requires checkSaved ==> env.validSection(NewSectionFor(site, req))
    ensures CreateSectionWith(s, env, site, req, checkSaved).result.Success?
  {
    var t := EntryDataTableName(site.handle, req.handle);
    assert !env.faulty(SaveSectionRow);
    TableNameIsLower(site.handle, req.handle);
    PrepareTableSucceeds(s, env, t);
  }

  /** The two foreign keys of one table never share a name. */
  lemma ForeignKeyNamesDiffer(t: string)
    ensures EntriesForeignKey(t).name != VersionsForeignKey(t).name
  {
    assert |EntriesForeignKey(t).name| == |t| + 11;
    assert |VersionsForeignKey(t).name| == |t| + 17;
  }

  /** An entry-data table name is already lower-case, so its key names are plain suffixes. */
  lemma ForeignKeyNames(siteHandle: string, sectionHandle: string)
    ensures var t := EntryDataTableName(siteHandle, sectionHandle);
            EntriesForeignKey(t).name == t + "_entries_fk" && VersionsForeignKey(t).name == t + "_entryversions_fk"
  {
    var t := EntryDataTableName(siteHandle, sectionHandle);
    LowerAppend(t, "_entries_fk");
    LowerAppend(t, "_entryversions_fk");
    LowerOfLowerIsIdentity(t);
    SuffixesAreLowerCase();
  }

  lemma SuffixesAreLowerCase()
    ensures Lower("_entries_fk") == "_entries_fk" && Lower("_entryversions_fk") == "_entryversions_fk"
  {
    EntriesSuffixIsLowerCase();
    VersionsSuffixIsLowerCase();
  }

  lemma EntriesSuffixIsLowerCase()
    ensures Lower("_entries_fk") == "_entries_fk"
  {
    var e := "_entries_fk";
    assert e == ['_', 'e', 'n', 't', 'r', 'i', 'e', 's', '_', 'f', 'k'];
    forall i | 0 <= i < |e|
      ensures !IsUpperChar(e[i])
    {
    }
    LowerOfLowerIsIdentity(e);
  }

  lemma VersionsSuffixIsLowerCase()
    ensures Lower("_entryversions_fk") == "_entryversions_fk"
  {
    var v := "_entryversions_fk";
    assert v == ['_', 'e', 'n', 't', 'r', 'y', 'v', 'e', 'r', 's', 'i', 'o', 'n', 's', '_', 'f', 'k'];
    forall i | 0 <= i < |v|
      ensures !IsUpperChar(v[i])
    {
    }
    LowerOfLowerIsIdentity(v);
  }

  /**
    * Re-creating a section is destructive: whatever block columns its table had, a committed
    * `createSection` leaves exactly the six system columns.
    */
  lemma RecreateDiscardsBlocks(s: State, env: Env, site: Site, req: SectionRequest, checkSaved: bool)
    requires EntryDataTableName(site.handle, req.handle) in s.tables
    ensures var o := CreateSectionWith(s, env, site, req, checkSaved);
            var t := EntryDataTableName(site.handle, req.handle);
            o.result.Success? ==> Names(o.state.tables[t]) == ["id", "entry_id", "version_id", "date_created", "date_updated", "uid"]
  {
    var o := CreateSectionWith(s, env, site, req, checkSaved);
    var t := EntryDataTableName(site.handle, req.handle);
    if o.result.Success? {
      assert o.state.tables[t] == SystemColumns();
      SystemColumnsWellFormed();
    }
  }

  /**
    * Because table names collide (`TableNamesCollide`), creating section `b_c` on site `a`
    * wipes the block columns of section `c` on site `a_b`.
    */
  lemma CollidingCreateWipesOtherTable(s: State, env: Env, id: nat, x: string, y: string, z: string,
                                      req: SectionRequest, checkSaved: bool)
    requires req.handle == y + "_" + z
    requires EntryDataTableName(x + "_" + y, z) in s.tables
    ensures var o := CreateSectionWith(s, env, Site(id, x), req, checkSaved);
            o.result.Success? ==> o.state.tables[EntryDataTableName(x + "_" + y, z)] == SystemColumns()
  {
    TableNamesCollide(x, y, z);
  }

  /**
    * A failed `createSection` of a new section leaves neither its table nor a section row,
    * even when the table had already been created inside the transaction.
    */
  lemma FailedCreateLeavesNothing(s: State, env: Env, site: Site, req: SectionRequest, checkSaved: bool)
    requires EntryDataTableName(site.handle, req.handle) !in s.tables
    ensures var o := CreateSectionWith(s, env, site, req, checkSaved);
            o.result.Failure? ==> EntryDataTableName(site.handle, req.handle) !in o.state.tables
                                  && o.state.sections == s.sections && o.state.foreignKeys == s.foreignKeys
  {
  }

  /**
    * A failure after the old table was dropped and recreated (here: the insert audit trigger)
    * rolls back to the old table, block columns included.
    */
  lemma RollbackRestoresDroppedTable(s: State, env: Env, site: Site, req: SectionRequest, checkSaved: bool)
    requires EntryDataTableName(site.handle, req.handle) in s.tables
    requires env.faulty(InsertAuditTrigger(EntryDataTableName(site.handle, req.handle)))
    ensures var o := CreateSectionWith(s, env, site, req, checkSaved);
            var t := EntryDataTableName(site.handle, req.handle);
            o.result.Failure? && o.state.tables[t] == s.tables[t]
  {
    var t := EntryDataTableName(site.handle, req.handle);
    assert InsertAuditTrigger(t) in TableSteps(s, t);
  }

  // ---------------------------------------------------------------------------------------
  // createBlock

  /** `createBlock` keeps the invariant, whether or not it checks the result of `save()`. */
  lemma CreateBlockPreservesInv(s: State, env: Env, site: Site, req: BlockRequest, checkSaved: bool)
    requires Inv(s)
    ensures Inv(CreateBlockWith(s, env, site, req, checkSaved).state)
  {
    var o := CreateBlockWith(s, env, site, req, checkSaved);
    if o.result.Success? {
      CreateBlockKeepsLayout(s, env, site, req, checkSaved);
      var t := EntryDataTableName(site.handle, req.sectionHandle);
      InvAfterNewColumn(s, o.state, t, o.result.value);
    }
  }

  /**
    * The invariant survives replacing an existing table by a well-formed one and either
    * keeping the block rows or appending block row `b` under the next block id.
    */
  lemma InvAfterNewColumn(s: State, s': State, t: string, b: Block)
    requires Inv(s) && t in s.tables
    requires t in s'.tables && WellFormed(s'.tables[t])
    requires s' == s.(tables := s.tables[t := s'.tables[t]], blocks := s'.blocks, nextBlockId := s'.nextBlockId)
    requires || (s'.blocks == s.blocks && s'.nextBlockId == s.nextBlockId)
             || (b.id == Some(s.nextBlockId) && s'.blocks == s.blocks + [b] && s'.nextBlockId == s.nextBlockId + 1)
    ensures Inv(s')
  {
  }

  /**
    * A committed `createBlock` on a well-formed table appends `block_<handle>` to the block
    * columns: it lands right after the previous last block column (after `version_id` when
    * there was none), before `date_created`, and every other column keeps its place.
    */
  lemma CreateBlockKeepsLayout(s: State, env: Env, site: Site, req: BlockRequest, checkSaved: bool)
    requires Inv(s)
    ensures var o := CreateBlockWith(s, env, site, req, checkSaved);
            var t := EntryDataTableName(site.handle, req.sectionHandle);
            o.result.Success? ==>
              && WellFormed(o.state.tables[t])
              && BlockColumns(o.state.tables[t]) == BlockColumns(s.tables[t]) + [BlockColumn(req)]
  {
    var o := CreateBlockWith(s, env, site, req, checkSaved);
    var t := EntryDataTableName(site.handle, req.sectionHandle);
    if o.result.Success? {
      assert IsPrefix(BlockMarker, BlockColumn(req).name);
      AddBlockColumnKeepsLayout(s.tables[t], BlockColumn(req));
    }
  }

  /**
    * `createBlock` commits when the table exists without that column, nothing throws and,
    * when it checks the result of `save()`, the block validates.
    */
  lemma CreateBlockSucceeds(s: State, env: Env, site: Site, req: BlockRequest, checkSaved: bool)
    requires Inv(s)
    requires var t := EntryDataTableName(site.handle, req.sectionHandle);
             t in s.tables && BlockColumnName(req.handle) !in Names(s.tables[t])
    requires !env.faulty(AddColumn(EntryDataTableName(site.handle, req.sectionHandle), BlockColumnName(req.handle)))
    requires !env.faulty(SaveBlockRow)
    requires checkSaved ==> env.validBlock(NewBlockFor(FindSectionByHandle(s.sections, site.id, req.sectionHandle), req))
    ensures CreateBlockWith(s, env, site, req, checkSaved).result.Success?
  {
    var t := EntryDataTableName(site.handle, req.sectionHandle);
    var cols := s.tables[t];
    assert Names(cols)[2] == Sentinel by {
      assert cols[..3][2] == cols[2];
    }
    assert LastBlockColumn(Names(cols)) in Names(cols);
  }

  /** A run of `createBlock` calls, each in its own transaction, stopping at the first failure. */
  function CreateBlocks(s: State, env: Env, site: Site, reqs: seq<BlockRequest>, checkSaved: bool): Outcome<seq<Block>>
    decreases |reqs|
  {
    if reqs == [] then Outcome(s, Success([]))
    else
      var o := CreateBlockWith(s, env, site, reqs[0], checkSaved);
      if o.result.Failure? then Outcome(o.state, Failure(o.result.error))
      else
        var rest := CreateBlocks(o.state, env, site, reqs[1..], checkSaved);
        if rest.result.Failure? then Outcome(rest.state, Failure(rest.result.error))
        else Outcome(rest.state, Success([o.result.value] + rest.result.value))
  }

  function BlockColumnsOf(reqs: seq<BlockRequest>): (cs: seq<Column>)
    ensures |cs| == |reqs| && forall i :: 0 <= i < |reqs| ==> cs[i] == BlockColumn(reqs[i])
  {
    seq(|reqs|, i requires 0 <= i < |reqs| => BlockColumn(reqs[i]))
  }

  /** A run of `createBlock` calls keeps the invariant and never removes a table. */
  lemma {:induction false} CreateBlocksPreservesInv(s: State, env: Env, site: Site, reqs: seq<BlockRequest>, checkSaved: bool)
    requires Inv(s)
    ensures Inv(CreateBlocks(s, env, site, reqs, checkSaved).state)
    ensures s.tables.Keys <= CreateBlocks(s, env, site, reqs, checkSaved).state.tables.Keys
    decreases |reqs|
  {
    if reqs != [] {
      var o := CreateBlockWith(s, env, site, reqs[0], checkSaved);
      CreateBlocksCons(s, env, site, reqs, checkSaved);
      CreateBlockPreservesInv(s, env, site, reqs[0], checkSaved);
      if o.result.Success? {
        CreateBlocksPreservesInv(o.state, env, site, reqs[1..], checkSaved);
      }
    }
  }

  /**
    * Append-only column order: after any run of committed `createBlock` calls on one section,
    * its block columns are the old ones followed by the new ones in call order.
    */
  lemma {:induction false} BlocksFollowCreationOrder(s: State, env: Env, site: Site, sectionHandle: string,
                                                      reqs: seq<BlockRequest>, checkSaved: bool)
    requires Inv(s) && EntryDataTableName(site.handle, sectionHandle) in s.tables
    requires forall i :: 0 <= i < |reqs| ==> reqs[i].sectionHandle == sectionHandle
    ensures var o := CreateBlocks(s, env, site, reqs, checkSaved);
            var t := EntryDataTableName(site.handle, sectionHandle);
            o.result.Success? ==> t in o.state.tables && WellFormed(o.state.tables[t])
                                  && BlockColumns(o.state.tables[t]) == BlockColumns(s.tables[t]) + BlockColumnsOf(reqs)
    decreases |reqs|
  {
    var t := EntryDataTableName(site.handle, sectionHandle);
    if reqs == [] {
      assert BlockColumnsOf(reqs) == [];
      assert BlockColumns(s.tables[t]) + [] == BlockColumns(s.tables[t]);
    } else {
      var o := CreateBlockWith(s, env, site, reqs[0], checkSaved);
      var tail := reqs[1..];
      CreateBlocksCons(s, env, site, reqs, checkSaved);
      if o.result.Success? {
        assert Inv(o.state) && t in o.state.tables
               && BlockColumns(o.state.tables[t]) == BlockColumns(s.tables[t]) + [BlockColumn(reqs[0])] by {
          CreateBlockPreservesInv(s, env, site, reqs[0], checkSaved);
          CreateBlockKeepsLayout(s, env, site, reqs[0], checkSaved);
        }
        assert forall i :: 0 <= i < |tail| ==> tail[i].sectionHandle == sectionHandle by {
          forall i | 0 <= i < |tail|
            ensures tail[i].sectionHandle == sectionHandle
          {
            assert tail[i] == reqs[i + 1];
          }
        }
        BlocksFollowCreationOrder(o.state, env, site, sectionHandle, tail, checkSaved);
        var run := CreateBlocks(s, env, site, reqs, checkSaved);
        if run.result.Success? {
          var rest := CreateBlocks(o.state, env, site, tail, checkSaved);
          BlockColumnsOfCons(reqs);
          AppendAssociates(BlockColumns(s.tables[t]), [BlockColumn(reqs[0])], BlockColumnsOf(tail));
          assert BlockColumns(rest.state.tables[t]) == BlockColumns(o.state.tables[t]) + BlockColumnsOf(tail);
        }
      }
    }
  }

  lemma AppendAssociates<T>(a: seq<T>, b: seq<T>, c: seq<T>)
    ensures (a + b) + c == a + (b + c)
  {
  }

  lemma BlockColumnsOfCons(reqs: seq<BlockRequest>)
    requires reqs != []
    ensures BlockColumnsOf(reqs) == [BlockColumn(reqs[0])] + BlockColumnsOf(reqs[1..])
  {
  }

  /** One step of a run: the first call, then the rest of the run from its state. */
  lemma CreateBlocksCons(s: State, env: Env, site: Site, reqs: seq<BlockRequest>, checkSaved: bool)
    requires reqs != []
    ensures var o := CreateBlockWith(s, env, site, reqs[0], checkSaved);
            var run := CreateBlocks(s, env, site, reqs, checkSaved);
            && (o.result.Failure? ==> run.state == o.state && run.result.Failure?)
            && (o.result.Success? ==>
                  run.state == CreateBlocks(o.state, env, site, reqs[1..], checkSaved).state
                  && (run.result.Success? <==> CreateBlocks(o.state, env, site, reqs[1..], checkSaved).result.Success?))
  {
  }

  // ---------------------------------------------------------------------------------------
  // saveSection

  lemma {:induction false} RowsOfNone(rows: seq<SectionBlock>, id: nat)
    requires forall k :: 0 <= k < |rows| ==> rows[k].sectionId != id
    ensures RowsOf(rows, id) == []
  {
    if rows != [] {
      RowsOfNone(rows[1..], id);
    }
  }

  /**
    * With the invariant, a committed `saveSection` leaves the section with exactly one
    * junction row per supplied block id, in list order, not required, sort order = index + 1;
    * earlier rows of that section are gone and other sections' rows are untouched.
    */
  lemma SaveSectionReplacesSelection(s: State, env: Env, site: Site, settings: SectionSettings, blockIds: seq<nat>, sectionId: Option<nat>)
    requires Inv(s)
    ensures var o := SaveSection(s, env, site, settings, blockIds, sectionId);
            var section := AssignSettings(GetSection(s, sectionId), settings, site);
            o.result.Success? && env.validSection(section) ==>
              && o.result.value.id.Some?
              && var rows := RowsOf(o.state.sectionBlocks, o.result.value.id.value);
              && |rows| == |blockIds|
              && (forall i :: 0 <= i < |rows| ==> rows[i] == SectionBlock(o.result.value.id.value, blockIds[i], false, i + 1))
              && (forall other :: other != o.result.value.id.value ==> RowsOf(o.state.sectionBlocks, other) == RowsOf(s.sectionBlocks, other))
  {
    var o := SaveSection(s, env, site, settings, blockIds, sectionId);
    var section := AssignSettings(GetSection(s, sectionId), settings, site);
    if o.result.Success? && env.validSection(section) {
      var id := o.result.value.id.value;
      var rows := RowsOf(o.state.sectionBlocks, id);
      if section.isNewRecord {
        assert id == s.nextSectionId;
        RowsOfNone(s.sectionBlocks, s.nextSectionId);
        assert RowsOf(s.sectionBlocks, id) == [];
      }
      assert rows == JunctionRows(id, blockIds);
    }
  }

  /**
    * `saveSection` commits exactly when the section does not validate (nothing is written)
    * or none of its writes throws: the row save, the delete of an existing section's old
    * selection, and the insert of the new one.
    */
  lemma SaveSectionSucceeds(s: State, env: Env, site: Site, settings: SectionSettings, blockIds: seq<nat>, sectionId: Option<nat>)
    ensures var o := SaveSection(s, env, site, settings, blockIds, sectionId);
            var section := AssignSettings(GetSection(s, sectionId), settings, site);
            o.result.Success? <==>
              || !env.validSection(section)
              || (&& !env.faulty(SaveSectionRow) && !env.faulty(InsertSectionBlocks)
                  && (section.isNewRecord || (section.id.Some? && !env.faulty(DeleteSectionBlocks(section.id.value)))))
  {
    var section := AssignSettings(GetSection(s, sectionId), settings, site);
    if env.validSection(section) {
      SaveSectionBodyEffect(s, env, section, blockIds);
    }
  }

  /** `saveSection` keeps the invariant. */
  lemma SaveSectionPreservesInv(s: State, env: Env, site: Site, settings: SectionSettings, blockIds: seq<nat>, sectionId: Option<nat>)
    requires Inv(s)
    ensures Inv(SaveSection(s, env, site, settings, blockIds, sectionId).state)
  {
    var o := SaveSection(s, env, site, settings, blockIds, sectionId);
    var section := AssignSettings(GetSection(s, sectionId), settings, site);
    if o.result.Success? && env.validSection(section) {
      var id := o.result.value.id.value;
      if section.isNewRecord {
        AppendKeepsIds(s.sections, o.result.value, s.nextSectionId);
      } else {
        var k :| 0 <= k < |s.sections| && s.sections[k].id == sectionId;
        UpdateKeepsIds(s.sections, section, s.nextSectionId);
      }
      InvAfterSave(s, o.state, id);
    }
  }

  /** Appending a row under the next id keeps every id present and below the next one. */
  lemma AppendKeepsIds(sections: seq<Section>, sec: Section, next: nat)
    requires IdsBelow(sections, next) && sec.id == Some(next)
    ensures IdsBelow(sections + [sec], next + 1)
  {
  }

  /** Updating a row in place keeps every id present and below the bound. */
  lemma UpdateKeepsIds(sections: seq<Section>, sec: Section, next: nat)
    requires IdsBelow(sections, next) && sec.id.Some? && sec.id.value < next
    ensures IdsBelow(UpdateSection(sections, sec), next)
  {
  }

  /**
    * The invariant survives a write that touches only section rows, junction rows and the
    * next section id, as long as ids stay below it and only section `id`'s rows change.
    */
  lemma InvAfterSave(s: State, s': State, id: nat)
    requires Inv(s)
    requires s' == s.(sections := s'.sections, sectionBlocks := s'.sectionBlocks, nextSectionId := s'.nextSectionId)
    requires s.nextSectionId <= s'.nextSectionId && id < s'.nextSectionId
    requires IdsBelow(s'.sections, s'.nextSectionId)
    requires forall other :: other != id ==> RowsOf(s'.sectionBlocks, other) == RowsOf(s.sectionBlocks, other)
    ensures Inv(s')
  {
    forall k | 0 <= k < |s'.sectionBlocks|
      ensures s'.sectionBlocks[k].sectionId < s'.nextSectionId
    {
      var x := s'.sectionBlocks[k];
      if x.sectionId != id {
        assert x in RowsOf(s'.sectionBlocks, x.sectionId);
        assert x in s.sectionBlocks;
      }
    }
  }

  /** The sort order stored for `blockId` among `rows`, if it is there. */
  function StoredSortOrder(rows: seq<SectionBlock>, blockId: nat): Option<nat> {
    if rows == [] then None
    else if rows[0].blockId == blockId then Some(rows[0].sortOrder)
    else StoredSortOrder(rows[1..], blockId)
  }

  lemma {:induction false} StoredSortOrderOfJunction(id: nat, blockIds: seq<nat>, i: nat)
    requires NoDuplicates(blockIds) && i < |blockIds|
    ensures StoredSortOrder(JunctionRows(id, blockIds), blockIds[i]) == Some(i + 1)
  {
    var rows := JunctionRows(id, blockIds);
    if i > 0 {
      assert blockIds[0] != blockIds[i];
      var tail := blockIds[1..];
      assert NoDuplicates(tail);
      assert tail[i - 1] == blockIds[i];
      StoredSortOrderOfJunction(id, tail, i - 1);
      StoredSortOrderShift(id, blockIds, blockIds[i]);
    }
  }

  lemma StoredSortOrderShift(id: nat, blockIds: seq<nat>, b: nat)
    requires |blockIds| > 0 && blockIds[0] != b
    ensures StoredSortOrder(JunctionRows(id, blockIds), b) == ShiftSome(StoredSortOrder(JunctionRows(id, blockIds[1..]), b))
  {
    StoredSortOrderOffset(JunctionRows(id, blockIds)[1..], JunctionRows(id, blockIds[1..]), b);
  }

  function ShiftSome(o: Option<nat>): Option<nat> {
    if o.Some? then Some(o.value + 1) else None
  }

  lemma {:induction false} StoredSortOrderOffset(a: seq<SectionBlock>, b: seq<SectionBlock>, blockId: nat)
    requires |a| == |b|
    requires forall k :: 0 <= k < |a| ==> a[k].blockId == b[k].blockId && a[k].sortOrder == b[k].sortOrder + 1
    ensures StoredSortOrder(a, blockId) == ShiftSome(StoredSortOrder(b, blockId))
  {
    if a != [] {
      StoredSortOrderOffset(a[1..], b[1..], blockId);
    }
  }

  /**
    * Sort-order round trip: saving a selection of distinct block ids and reading the stored
    * rows back gives every block its 1-based position in the list.
    */
  lemma SortOrderRoundTrip(s: State, env: Env, site: Site, settings: SectionSettings, blockIds: seq<nat>, sectionId: Option<nat>)
    requires Inv(s) && NoDuplicates(blockIds)
    ensures var o := SaveSection(s, env, site, settings, blockIds, sectionId);
            var section := AssignSettings(GetSection(s, sectionId), settings, site);
            o.result.Success? && env.validSection(section) ==>
              forall i :: 0 <= i < |blockIds| ==>
                StoredSortOrder(RowsOf(o.state.sectionBlocks, o.result.value.id.value), blockIds[i]) == Some(i + 1)
  {
    var o := SaveSection(s, env, site, settings, blockIds, sectionId);
    var section := AssignSettings(GetSection(s, sectionId), settings, site);
    if o.result.Success? && env.validSection(section) {
      SaveSectionReplacesSelection(s, env, site, settings, blockIds, sectionId);
      var id := o.result.value.id.value;
      assert RowsOf(o.state.sectionBlocks, id) == JunctionRows(id, blockIds);
      forall i | 0 <= i < |blockIds|
        ensures StoredSortOrder(RowsOf(o.state.sectionBlocks, id), blockIds[i]) == Some(i + 1)
      {
        StoredSortOrderOfJunction(id, blockIds, i);
      }
    }
  }

  /** The selection `[B, A, C]` (ids 20, 10, 30) is stored as B = 1, A = 2, C = 3. */
  lemma SortOrderExample(s: State, env: Env, site: Site, settings: SectionSettings, sectionId: Option<nat>)
    requires Inv(s)
    ensures var o := SaveSection(s, env, site, settings, [20, 10, 30], sectionId);
            var section := AssignSettings(GetSection(s, sectionId), settings, site);
            o.result.Success? && env.validSection(section) ==>
              var rows := RowsOf(o.state.sectionBlocks, o.result.value.id.value);
              StoredSortOrder(rows, 20) == Some(1) && StoredSortOrder(rows, 10) == Some(2) && StoredSortOrder(rows, 30) == Some(3)
  {
    var ids := [20, 10, 30];
    assert NoDuplicates(ids);
    SortOrderRoundTrip(s, env, site, settings, ids, sectionId);
    assert ids[0] == 20 && ids[1] == 10 && ids[2] == 30;
  }
}
