/**
  * The section/block part of the content service: every section owns an entry-data table
  * whose columns follow its blocks, a registry keeps the section and block rows, and the
  * `sectionblocks` junction table records which blocks a section shows, in order.
  *
  * Every mutating operation runs in one transaction: it either commits all of its steps or
  * rolls back and rethrows, leaving the state as it was. The database, the ORM's validation
  * rules and the black-box helpers (audit triggers) are the parameter `env`.
  */
module ContentService {
  import opened Results
  import opened Strings
  import opened Seqs
  import opened Php
  import opened Schema

  /** The site a section belongs to, already resolved from its handle. */
  datatype Site = Site(id: nat, handle: string)

  /** A section record as the ORM holds it; `id` is absent until it is inserted. */
  datatype Section = Section(
    id: Option<nat>,
    siteId: Option<nat>,
    parentId: Option<nat>,
    handle: string,
    name: string,
    displayLabel: string,
    urlFormat: Option<string>,
    template: Option<string>,
    maxEntries: Option<int>,
    sortable: Value,
    isNewRecord: bool)

  /** `new Section`: every attribute at its default, not yet stored. */
  function NewSection(): Section {
    Section(None, None, None, "", "", "", None, None, None, Null, true)
  }

  /** An entry block (field) definition row. */
  datatype Block = Block(
    id: Option<nat>,
    sectionId: Option<nat>,
    handle: string,
    displayLabel: string,
    blockType: string,
    sortOrder: int,
    instructions: Option<string>,
    required: int)

  /** A row of the `sectionblocks` junction table. */
  datatype SectionBlock = SectionBlock(sectionId: nat, blockId: nat, required: bool, sortOrder: nat)

  /** A foreign key; the service always creates them with NO ACTION on delete and on update. */
  datatype ForeignKey = ForeignKey(name: string, table: string, column: string, refTable: string, refColumn: string)

  /**
    * The stored state: the entry-data tables by name, the foreign keys, the section and
    * block registries, the junction rows, and the next auto-increment ids.
    */
  datatype State = State(
    tables: map<string, seq<Column>>,
    foreignKeys: seq<ForeignKey>,
    sections: seq<Section>,
    blocks: seq<Block>,
    sectionBlocks: seq<SectionBlock>,
    nextSectionId: nat,
    nextBlockId: nat)

  /** An empty database. */
  function Initial(): State {
    State(map[], [], [], [], [], 1, 1)
  }

  /** The individual writes a mutation performs; any of them may throw. */
  datatype Step =
    | DropTable(table: string)
    | CreateTable(table: string)
    | AddForeignKey(fkName: string)
    | InsertAuditTrigger(table: string)
    | UpdateAuditTrigger(table: string)
    | AddColumn(table: string, column: string)
    | SaveSectionRow
    | SaveBlockRow
    | DeleteSectionBlocks(sectionId: nat)
    | InsertSectionBlocks

  /**
    * What the model leaves to its surroundings: which steps the database makes throw, and
    * the validation rules of the section and block models.
    */
  datatype Env = Env(faulty: Step -> bool, validSection: Section -> bool, validBlock: Block -> bool)

  /** The exceptions a mutation can raise. */
  datatype Error =
    | Faulted(step: Step)
    | NoSuchTable(table: string)
    | TableExists(table: string)
    | SchemaFailure(table: string, cause: SchemaError)
    | DuplicateForeignKey(name: string)
    | NotSaved

  /** The state after a call, and its return value or the exception it raised. */
  datatype Outcome<T> = Outcome(state: State, result: Result<T, Error>)

  /** Begin a transaction, run `body`, commit on success; on an exception roll back and rethrow it. */
  function Atomically<T>(s: State, body: Result<(State, T), Error>): Outcome<T> {
    match body
    case Success(r) => Outcome(r.0, Success(r.1))
    case Failure(e) => Outcome(s, Failure(e))
  }

  // ---------------------------------------------------------------------------------------
  // Naming conventions

  /** `_getEntryDataTableName`: the entry-data table of a section on a site. */
  function EntryDataTableName(siteHandle: string, sectionHandle: string): (r: string)
    ensures |r| == 11 + |siteHandle| + |sectionHandle|
    ensures r[..10] == "entrydata_" && r[10 + |siteHandle|] == '_'
    ensures r[10..10 + |siteHandle|] == Lower(siteHandle)
    ensures r[11 + |siteHandle|..] == Lower(sectionHandle)
    ensures forall i :: 0 <= i < |r| ==> !IsUpperChar(r[i])
  {
    TableNameParts(siteHandle, sectionHandle);
    Lower("entrydata_" + siteHandle + "_" + sectionHandle)
  }

  /**
    * The name joins the two handles with `_`, which handles may contain themselves: site `a_b`
    * with section `c` and site `a` with section `b_c` share one entry-data table.
    */
  lemma TableNamesCollide(x: string, y: string, z: string)
    ensures EntryDataTableName(x + "_" + y, z) == EntryDataTableName(x, y + "_" + z)
  {
    JoinRegroups("entrydata_", x, y, z);
  }

  lemma JoinRegroups(p: string, x: string, y: string, z: string)
    ensures p + (x + "_" + y) + "_" + z == p + x + "_" + (y + "_" + z)
  {
  }

  /** Lower-casing an entry-data table name changes nothing. */
  lemma TableNameIsLower(siteHandle: string, sectionHandle: string)
    ensures Lower(EntryDataTableName(siteHandle, sectionHandle)) == EntryDataTableName(siteHandle, sectionHandle)
  {
    LowerOfLowerIsIdentity(EntryDataTableName(siteHandle, sectionHandle));
  }

  lemma TableNameParts(siteHandle: string, sectionHandle: string)
    ensures var x := "entrydata_" + siteHandle + "_" + sectionHandle;
            var r := Lower(x);
            && r[..10] == "entrydata_" && r[10 + |siteHandle|] == '_'
            && r[10..10 + |siteHandle|] == Lower(siteHandle)
            && r[11 + |siteHandle|..] == Lower(sectionHandle)
            && forall i :: 0 <= i < |r| ==> !IsUpperChar(r[i])
  {
    var x := "entrydata_" + siteHandle + "_" + sectionHandle;
    var n := |siteHandle|;
    assert x[..10] == "entrydata_";
    assert x[10..10 + n] == siteHandle;
    assert x[11 + n..] == sectionHandle;
    LowerSlice(x, 0, 10);
    LowerSlice(x, 10, 10 + n);
    LowerSlice(x, 11 + n, |x|);
    LowerHasNoUpper(x);
    LowerOfLowerIsIdentity("entrydata_");
  }

  /** The foreign key from an entry-data table's `entry_id` to `entries.id`. */
  function EntriesForeignKey(table: string): ForeignKey {
    ForeignKey(Lower(table + "_entries_fk"), table, "entry_id", "entries", "id")
  }

  /** The foreign key from an entry-data table's `version_id` to `entryversions.id`. */
  function VersionsForeignKey(table: string): ForeignKey {
    ForeignKey(Lower(table + "_entryversions_fk"), table, Sentinel, "entryversions", "id")
  }

  /** `$flag == false ? 0 : 1`. */
  function ZeroOne(flag: Value): (r: int)
    ensures r == 0 <==> Falsy(flag)
    ensures r == 0 || r == 1
  {
    if Falsy(flag) then 0 else 1
  }

  // ---------------------------------------------------------------------------------------
  // Registry and junction table rows

  /** The names of the foreign keys, in creation order. */
  function FkNames(fks: seq<ForeignKey>): (ns: seq<string>)
    ensures |ns| == |fks| && forall i :: 0 <= i < |fks| ==> ns[i] == fks[i].name
  {
    Map((fk: ForeignKey) => fk.name, fks)
  }

  /** The foreign keys that do not belong to `table`: dropping a table drops its keys. */
  function FksNotOn(fks: seq<ForeignKey>, table: string): (r: seq<ForeignKey>)
    ensures forall fk :: fk in r <==> fk in fks && fk.table != table
  {
    if fks == [] then []
    else if fks[0].table == table then FksNotOn(fks[1..], table)
    else [fks[0]] + FksNotOn(fks[1..], table)
  }

  /** `findByPk`: the section row with primary key `id`, loaded as a stored record. */
  function FindSectionById(sections: seq<Section>, id: nat): (r: Option<Section>)
    ensures r.None? <==> forall k :: 0 <= k < |sections| ==> sections[k].id != Some(id)
    ensures r.Some? ==> exists k :: 0 <= k < |sections| && sections[k].id == Some(id)
                                  && r.value == sections[k].(isNewRecord := false)
                                  && forall j :: 0 <= j < k ==> sections[j].id != Some(id)
  {
    if sections == [] then None
    else if sections[0].id == Some(id) then Some(sections[0].(isNewRecord := false))
    else FindSectionById(sections[1..], id)
  }

  /** `findByAttributes(handle, site_id)`: the first section of the site with that handle. */
  function FindSectionByHandle(sections: seq<Section>, siteId: nat, handle: string): (r: Option<Section>)
    ensures r.None? <==> forall k :: 0 <= k < |sections| ==> !(sections[k].siteId == Some(siteId) && sections[k].handle == handle)
    ensures r.Some? ==> exists k :: 0 <= k < |sections| && sections[k].siteId == Some(siteId) && sections[k].handle == handle
                                  && r.value == sections[k].(isNewRecord := false)
                                  && forall j :: 0 <= j < k ==> !(sections[j].siteId == Some(siteId) && sections[j].handle == handle)
  {
    if sections == [] then None
    else if sections[0].siteId == Some(siteId) && sections[0].handle == handle then Some(sections[0].(isNewRecord := false))
    else FindSectionByHandle(sections[1..], siteId, handle)
  }

  /** An update by primary key: every row with `sec`'s id becomes `sec`. */
  function UpdateSection(sections: seq<Section>, sec: Section): (r: seq<Section>)
    ensures |r| == |sections|
    ensures forall k :: 0 <= k < |r| ==> r[k] == (if sections[k].id == sec.id then sec else sections[k])
  {
    if sections == [] then [] else [if sections[0].id == sec.id then sec else sections[0]] + UpdateSection(sections[1..], sec)
  }

  /** The junction rows of section `id`, in stored order. */
  function RowsOf(rows: seq<SectionBlock>, id: nat): (r: seq<SectionBlock>)
    ensures forall x :: x in r <==> x in rows && x.sectionId == id
  {
    if rows == [] then []
    else if rows[0].sectionId == id then [rows[0]] + RowsOf(rows[1..], id)
    else RowsOf(rows[1..], id)
  }

  /** `deleteAllByAttributes(section_id)`: the junction rows of every other section. */
  function RowsNotOf(rows: seq<SectionBlock>, id: nat): (r: seq<SectionBlock>)
    ensures forall x :: x in r <==> x in rows && x.sectionId != id
  {
    if rows == [] then []
    else if rows[0].sectionId == id then RowsNotOf(rows[1..], id)
    else [rows[0]] + RowsNotOf(rows[1..], id)
  }

  /** The rows `saveSection` inserts: one per block id, not required, sort order = position + 1. */
  function JunctionRows(id: nat, blockIds: seq<nat>): (r: seq<SectionBlock>)
    ensures |r| == |blockIds|
    ensures forall i :: 0 <= i < |r| ==> r[i] == SectionBlock(id, blockIds[i], false, i + 1)
  {
    seq(|blockIds|, i requires 0 <= i < |blockIds| => SectionBlock(id, blockIds[i], false, i + 1))
  }

  // ---------------------------------------------------------------------------------------
  // Single steps

  function DropTableStep(s: State, env: Env, t: string): Result<State, Error> {
    if env.faulty(DropTable(t)) then Failure(Faulted(DropTable(t)))
    else if t !in s.tables then Failure(NoSuchTable(t))
    else Success(s.(tables := s.tables - {t}, foreignKeys := FksNotOn(s.foreignKeys, t)))
  }

  function CreateTableStep(s: State, env: Env, t: string, cols: seq<Column>): Result<State, Error> {
    if env.faulty(CreateTable(t)) then Failure(Faulted(CreateTable(t)))
    else if t in s.tables then Failure(TableExists(t))
    else Success(s.(tables := s.tables[t := cols]))
  }

  function AddForeignKeyStep(s: State, env: Env, fk: ForeignKey): (r: Result<State, Error>)
    ensures r.Success? ==> !env.faulty(AddForeignKey(fk.name)) && r.value == s.(foreignKeys := s.foreignKeys + [fk])
  {
    if env.faulty(AddForeignKey(fk.name)) then Failure(Faulted(AddForeignKey(fk.name)))
    else if fk.name in FkNames(s.foreignKeys) then Failure(DuplicateForeignKey(fk.name))
    else if fk.table !in s.tables then Failure(NoSuchTable(fk.table))
    else if fk.column !in Names(s.tables[fk.table]) then Failure(SchemaFailure(fk.table, NoSuchColumn(fk.column)))
    else Success(s.(foreignKeys := s.foreignKeys + [fk]))
  }

  /** A black-box helper that changes nothing the model tracks but may throw. */
  function OpaqueStep(s: State, env: Env, step: Step): (r: Result<State, Error>)
    ensures r.Success? <==> !env.faulty(step)
    ensures r.Success? ==> r.value == s
  {
    if env.faulty(step) then Failure(Faulted(step)) else Success(s)
  }

  function AddColumnStep(s: State, env: Env, t: string, col: Column, after: string): Result<State, Error> {
    if env.faulty(AddColumn(t, col.name)) then Failure(Faulted(AddColumn(t, col.name)))
    else if t !in s.tables then Failure(NoSuchTable(t))
    else
      match AddColumnAfter(s.tables[t], col, after)
      case Failure(e) => Failure(SchemaFailure(t, e))
      case Success(cols) => Success(s.(tables := s.tables[t := cols]))
  }

  /** What the ORM's `save()` leaves behind: the state, the record, and its boolean result. */
  datatype Saved<T> = Saved(state: State, record: T, saved: bool)

  /**
    * `$section->save()`: validates first and returns false without writing when that fails;
    * otherwise inserts a new record under the next id, or updates the stored one.
    */
  function SaveSectionRecord(s: State, env: Env, sec: Section): (r: Result<Saved<Section>, Error>)
    ensures r.Success? && !r.value.saved ==> r.value == Saved(s, sec, false)
    ensures r.Success? ==> r.value.saved == env.validSection(sec)
    ensures r.Success? && r.value.saved && sec.isNewRecord ==>
              r.value.record == sec.(id := Some(s.nextSectionId), isNewRecord := false)
              && r.value.state == s.(sections := s.sections + [r.value.record], nextSectionId := s.nextSectionId + 1)
    ensures r.Success? && r.value.saved && !sec.isNewRecord ==>
              r.value.record == sec && r.value.state == s.(sections := UpdateSection(s.sections, sec))
    ensures r.Failure? <==> env.validSection(sec) && env.faulty(SaveSectionRow)
  {
    if !env.validSection(sec) then Success(Saved(s, sec, false))
    else if env.faulty(SaveSectionRow) then Failure(Faulted(SaveSectionRow))
    else if sec.isNewRecord then
      var row := sec.(id := Some(s.nextSectionId), isNewRecord := false);
      Success(Saved(s.(sections := s.sections + [row], nextSectionId := s.nextSectionId + 1), row, true))
    else
      Success(Saved(s.(sections := UpdateSection(s.sections, sec)), sec, true))
  }

  /** `$block->save()` on a new block: validates, then inserts under the next id. */
  function SaveBlockRecord(s: State, env: Env, b: Block): (r: Result<Saved<Block>, Error>)
    ensures r.Success? && !r.value.saved ==> r.value == Saved(s, b, false)
    ensures r.Success? ==> r.value.saved == env.validBlock(b)
    ensures r.Success? && r.value.saved ==>
              r.value.record == b.(id := Some(s.nextBlockId))
              && r.value.state == s.(blocks := s.blocks + [r.value.record], nextBlockId := s.nextBlockId + 1)
    ensures r.Failure? <==> env.validBlock(b) && env.faulty(SaveBlockRow)
  {
    if !env.validBlock(b) then Success(Saved(s, b, false))
    else if env.faulty(SaveBlockRow) then Failure(Faulted(SaveBlockRow))
    else
      var row := b.(id := Some(s.nextBlockId));
      Success(Saved(s.(blocks := s.blocks + [row], nextBlockId := s.nextBlockId + 1), row, true))
  }

  // ---------------------------------------------------------------------------------------
  // Sections

  /** `getSection`: the stored section with a truthy id, or a new section. */
  function GetSection(s: State, sectionId: Option<nat>): (r: Section)
    ensures r.isNewRecord <==> sectionId.None? || sectionId.value == 0
                               || forall k :: 0 <= k < |s.sections| ==> s.sections[k].id != sectionId
    ensures r.isNewRecord ==> r == NewSection()
    ensures !r.isNewRecord ==> exists k :: 0 <= k < |s.sections| && s.sections[k].id == sectionId
                                          && r == s.sections[k].(isNewRecord := false)
  {
    if sectionId.Some? && sectionId.value != 0 then
      match FindSectionById(s.sections, sectionId.value)
      case Some(sec) => sec
      case None => NewSection()
    else NewSection()
  }

  /** The posted section settings `saveSection` copies onto the record. */
  datatype SectionSettings = SectionSettings(
    name: string,
    handle: string,
    maxEntries: Option<int>,
    sortable: Value,
    urlFormat: Option<string>,
    template: Option<string>)

  /** Copy the settings onto `sec` and attach it to the current site. */
  function AssignSettings(sec: Section, settings: SectionSettings, site: Site): Section {
    sec.(name := settings.name, handle := settings.handle, maxEntries := settings.maxEntries,
         sortable := settings.sortable, urlFormat := settings.urlFormat, template := settings.template,
         siteId := Some(site.id))
  }

  /** The writes of `saveSection` inside its transaction, for a section that passed validation. */
  function SaveSectionBody(s: State, env: Env, section: Section, blockIds: seq<nat>): Result<(State, Section), Error>
    requires env.validSection(section)
    requires section.isNewRecord || section.id.Some?
  {
    var r :- SaveSectionRecord(s, env, section);
    var id := r.record.id.value;
    var s2 :- if !section.isNewRecord then OpaqueStep(r.state, env, DeleteSectionBlocks(id)) else Success(r.state);
    var s3 := s2.(sectionBlocks := if section.isNewRecord then s2.sectionBlocks else RowsNotOf(s2.sectionBlocks, id));
    var s4 :- OpaqueStep(s3, env, InsertSectionBlocks);
    Success((s4.(sectionBlocks := s4.sectionBlocks + JunctionRows(id, blockIds)), r.record))
  }

  /**
    * `saveSection`: load or create the section, copy the settings, and when it validates
    * store it and replace its block selection by `blockIds`, in that order. When it does not
    * validate, nothing is written and the unsaved section is returned.
    */
  function SaveSection(s: State, env: Env, site: Site, settings: SectionSettings, blockIds: seq<nat>, sectionId: Option<nat>)
    : (o: Outcome<Section>)
    ensures var section := AssignSettings(GetSection(s, sectionId), settings, site);
            !env.validSection(section) ==> o == Outcome(s, Success(section))
    ensures o.result.Failure? ==> o.state == s
    ensures var section := AssignSettings(GetSection(s, sectionId), settings, site);
            o.result.Failure? ==>
              && env.validSection(section) && (section.isNewRecord || section.id.Some?)
              && SaveSectionBody(s, env, section, blockIds).Failure?
              && o.result.error == SaveSectionBody(s, env, section, blockIds).error
    ensures var section := AssignSettings(GetSection(s, sectionId), settings, site);
            env.validSection(section) ==>
              && (env.faulty(SaveSectionRow) ==> o.result == Failure(Faulted(SaveSectionRow)))
              && (!env.faulty(SaveSectionRow) && !section.isNewRecord && section.id.Some?
                  && env.faulty(DeleteSectionBlocks(section.id.value)) ==>
                    o.result == Failure(Faulted(DeleteSectionBlocks(section.id.value))))
              && (&& !env.faulty(SaveSectionRow)
                  && (section.isNewRecord || (section.id.Some? && !env.faulty(DeleteSectionBlocks(section.id.value))))
                  && env.faulty(InsertSectionBlocks) ==>
                    o.result == Failure(Faulted(InsertSectionBlocks)))
    ensures o.result.Success? && o.state != s ==> o.result.value.id.Some? && !o.result.value.isNewRecord
    ensures var section := AssignSettings(GetSection(s, sectionId), settings, site);
            o.result.Success? && env.validSection(section) ==>
              && o.result.value.id.Some?
              && var id := o.result.value.id.value;
              && RowsOf(o.state.sectionBlocks, id)
                 == (if section.isNewRecord then RowsOf(s.sectionBlocks, id) else []) + JunctionRows(id, blockIds)
              && (forall other :: other != id ==> RowsOf(o.state.sectionBlocks, other) == RowsOf(s.sectionBlocks, other))
              && o.state == s.(sections := o.state.sections, sectionBlocks := o.state.sectionBlocks,
                               nextSectionId := o.state.nextSectionId)
              && (section.isNewRecord ==>
                    && o.result.value == section.(id := Some(s.nextSectionId), isNewRecord := false)
                    && o.state.sections == s.sections + [o.result.value]
                    && o.state.nextSectionId == s.nextSectionId + 1)
              && (!section.isNewRecord ==>
                    && o.result.value == section
                    && o.state.sections == UpdateSection(s.sections, section)
                    && o.state.nextSectionId == s.nextSectionId)
    ensures var section := AssignSettings(GetSection(s, sectionId), settings, site);
            env.validSection(section)
            && (|| env.faulty(SaveSectionRow) || env.faulty(InsertSectionBlocks)
                || (!section.isNewRecord && section.id.Some? && env.faulty(DeleteSectionBlocks(section.id.value)))) ==>
              o == Outcome(s, o.result) && o.result.Failure?
  {
    var section := AssignSettings(GetSection(s, sectionId), settings, site);
    if !env.validSection(section) then Outcome(s, Success(section))
    else
      var body := SaveSectionBody(s, env, section, blockIds);
      SaveSectionBodyEffect(s, env, section, blockIds);
      Atomically(s, body)
  }

  lemma SaveSectionBodyEffect(s: State, env: Env, section: Section, blockIds: seq<nat>)
    requires env.validSection(section)
    requires section.isNewRecord || section.id.Some?
    ensures var body := SaveSectionBody(s, env, section, blockIds);
            body.Success? ==>
              && body.value.1.id.Some? && !body.value.1.isNewRecord
              && var id := body.value.1.id.value;
              && RowsOf(body.value.0.sectionBlocks, id)
                 == (if section.isNewRecord then RowsOf(s.sectionBlocks, id) else []) + JunctionRows(id, blockIds)
              && (forall other :: other != id ==> RowsOf(body.value.0.sectionBlocks, other) == RowsOf(s.sectionBlocks, other))
              && body.value.0 == s.(sections := body.value.0.sections, sectionBlocks := body.value.0.sectionBlocks,
                                    nextSectionId := body.value.0.nextSectionId)
              && (section.isNewRecord ==>
                    && body.value.1 == section.(id := Some(s.nextSectionId), isNewRecord := false)
                    && body.value.0.sections == s.sections + [body.value.1]
                    && body.value.0.nextSectionId == s.nextSectionId + 1)
              && (!section.isNewRecord ==>
                    && body.value.1 == section
                    && body.value.0.sections == UpdateSection(s.sections, section)
                    && body.value.0.nextSectionId == s.nextSectionId)
    ensures || env.faulty(SaveSectionRow) || env.faulty(InsertSectionBlocks)
            || (!section.isNewRecord && env.faulty(DeleteSectionBlocks(section.id.value))) ==>
              SaveSectionBody(s, env, section, blockIds).Failure?
    ensures env.faulty(SaveSectionRow) ==> SaveSectionBody(s, env, section, blockIds) == Failure(Faulted(SaveSectionRow))
    ensures !env.faulty(SaveSectionRow) && !section.isNewRecord && env.faulty(DeleteSectionBlocks(section.id.value)) ==>
              SaveSectionBody(s, env, section, blockIds) == Failure(Faulted(DeleteSectionBlocks(section.id.value)))
    ensures && !env.faulty(SaveSectionRow) && (section.isNewRecord || !env.faulty(DeleteSectionBlocks(section.id.value)))
            && env.faulty(InsertSectionBlocks) ==>
              SaveSectionBody(s, env, section, blockIds) == Failure(Faulted(InsertSectionBlocks))
    ensures SaveSectionBody(s, env, section, blockIds).Success? <==>
              && !env.faulty(SaveSectionRow) && !env.faulty(InsertSectionBlocks)
              && (section.isNewRecord || !env.faulty(DeleteSectionBlocks(section.id.value)))
  {
    var body := SaveSectionBody(s, env, section, blockIds);
    if body.Success? {
      var r := SaveSectionRecord(s, env, section).value;
      var id := r.record.id.value;
      var old' := r.state.sectionBlocks;
      assert forall other :: RowsOf(old', other) == RowsOf(s.sectionBlocks, other);
      var kept := if section.isNewRecord then old' else RowsNotOf(old', id);
      var rows := JunctionRows(id, blockIds);
      assert body.value.0.sectionBlocks == kept + rows;
      RowsOfAppend(kept, rows, id);
      RowsOfJunction(id, blockIds, id);
      if !section.isNewRecord {
        RowsOfRowsNotOf(old', id, id);
      }
      forall other | other != id
        ensures RowsOf(body.value.0.sectionBlocks, other) == RowsOf(s.sectionBlocks, other)
      {
        RowsOfAppend(kept, rows, other);
        RowsOfJunction(id, blockIds, other);
        if !section.isNewRecord {
          RowsOfRowsNotOf(old', id, other);
        }
      }
    }
  }

  /** Filtering distributes over concatenation. */
  lemma {:induction false} RowsOfAppend(a: seq<SectionBlock>, b: seq<SectionBlock>, id: nat)
    ensures RowsOf(a + b, id) == RowsOf(a, id) + RowsOf(b, id)
  {
    if a == [] {
      assert a + b == b;
    } else {
      assert (a + b)[0] == a[0];
      assert (a + b)[1..] == a[1..] + b;
      RowsOfAppend(a[1..], b, id);
    }
  }

  /** After deleting section `id`'s rows it has none, and every other section keeps its rows. */
  lemma {:induction false} RowsOfRowsNotOf(rows: seq<SectionBlock>, id: nat, other: nat)
    ensures RowsOf(RowsNotOf(rows, id), other) == if other == id then [] else RowsOf(rows, other)
  {
    if rows != [] {
      RowsOfRowsNotOf(rows[1..], id, other);
      if rows[0].sectionId != id {
        assert RowsNotOf(rows, id) == [rows[0]] + RowsNotOf(rows[1..], id);
        assert ([rows[0]] + RowsNotOf(rows[1..], id))[1..] == RowsNotOf(rows[1..], id);
      }
    }
  }

  /** The inserted rows all belong to section `id`. */
  lemma {:induction false} RowsOfJunction(id: nat, blockIds: seq<nat>, other: nat)
    ensures RowsOf(JunctionRows(id, blockIds), other) == if other == id then JunctionRows(id, blockIds) else []
  {
    var rows := JunctionRows(id, blockIds);
    RowsOfAllOrNone(rows, id, other);
  }

  lemma {:induction false} RowsOfAllOrNone(rows: seq<SectionBlock>, id: nat, other: nat)
    requires forall i :: 0 <= i < |rows| ==> rows[i].sectionId == id
    ensures RowsOf(rows, other) == if other == id then rows else []
  {
    if rows != [] {
      RowsOfAllOrNone(rows[1..], id, other);
      if other == id {
        assert rows == [rows[0]] + rows[1..];
      }
    }
  }

  /** What `createSection` is asked to create. */
  datatype SectionRequest = SectionRequest(
    handle: string,
    displayLabel: string,
    urlFormat: Option<string>,
    maxEntries: Option<int>,
    template: Option<string>,
    sortable: Value,
    parentId: Option<nat>)

  /** The section record `createSection` builds once the table is in place. */
  function NewSectionFor(site: Site, req: SectionRequest): (sec: Section)
    ensures sec.isNewRecord && sec.id.None? && sec.siteId == Some(site.id) && sec.parentId == req.parentId
    ensures sec.handle == req.handle && sec.displayLabel == req.displayLabel
    ensures sec.sortable == Int(if Falsy(req.sortable) then 0 else 1)
    ensures sec.urlFormat == req.urlFormat && sec.maxEntries == req.maxEntries && sec.template == req.template
  {
    var sec := NewSection().(siteId := Some(site.id));
    var sec := if req.parentId.Some? then sec.(parentId := req.parentId) else sec;
    var sec := sec.(displayLabel := req.displayLabel, sortable := Int(ZeroOne(req.sortable)), handle := req.handle);
    var sec := if req.urlFormat.Some? then sec.(urlFormat := req.urlFormat) else sec;
    var sec := if req.maxEntries.Some? then sec.(maxEntries := req.maxEntries) else sec;
    if req.template.Some? then sec.(template := req.template) else sec
  }

  /** Every DDL step of `createSection` on table `t`; each may throw. */
  function TableSteps(s: State, t: string): set<Step> {
    {CreateTable(t), AddForeignKey(EntriesForeignKey(t).name), AddForeignKey(VersionsForeignKey(t).name),
     InsertAuditTrigger(t), UpdateAuditTrigger(t)}
    + (if t in s.tables then {DropTable(t)} else {})
  }

  /**
    * The DDL of `createSection` once table `t` is gone: create it with the system columns
    * only, add its two foreign keys and install its two audit triggers.
    */
  function BuildTable(s: State, env: Env, t: string): (r: Result<State, Error>)
    ensures r.Success? ==> r.value == s.(tables := s.tables[t := SystemColumns()],
                                         foreignKeys := s.foreignKeys + [EntriesForeignKey(t), VersionsForeignKey(t)])
    ensures r.Success? ==> && !env.faulty(CreateTable(t))
                           && !env.faulty(AddForeignKey(EntriesForeignKey(t).name))
                           && !env.faulty(AddForeignKey(VersionsForeignKey(t).name))
                           && !env.faulty(InsertAuditTrigger(t)) && !env.faulty(UpdateAuditTrigger(t))
  {
    var s2 :- CreateTableStep(s, env, t, SystemColumns());
    var s3 :- AddForeignKeyStep(s2, env, EntriesForeignKey(t));
    var s4 :- AddForeignKeyStep(s3, env, VersionsForeignKey(t));
    var s5 :- OpaqueStep(s4, env, InsertAuditTrigger(t));
    OpaqueStep(s5, env, UpdateAuditTrigger(t))
  }

  /**
    * The DDL of `createSection`: drop table `t` if it exists (with its keys), then build it
    * afresh.
    */
  function PrepareTable(s: State, env: Env, t: string): (r: Result<State, Error>)
    ensures r.Success? ==> r.value == s.(tables := s.tables[t := SystemColumns()], foreignKeys := r.value.foreignKeys)
    ensures r.Success? ==> EntriesForeignKey(t) in r.value.foreignKeys && VersionsForeignKey(t) in r.value.foreignKeys
    ensures r.Success? ==> forall fk :: fk in s.foreignKeys && fk.table != t ==> fk in r.value.foreignKeys
    ensures r.Success? ==> forall fk :: fk in r.value.foreignKeys ==>
                             fk in s.foreignKeys || fk == EntriesForeignKey(t) || fk == VersionsForeignKey(t)
    ensures r.Success? ==> forall st :: st in TableSteps(s, t) ==> !env.faulty(st)
  {
    var s1 :- if t in s.tables then DropTableStep(s, env, t) else Success(s);
    BuildTable(s1, env, t)
  }

  /**
    * The steps of `createSection` inside its transaction. With `checkSaved` false the boolean
    * result of `save()` is ignored, as the source does.
    */
  function CreateSectionBody(s: State, env: Env, site: Site, req: SectionRequest, checkSaved: bool)
    : Result<(State, Section), Error>
  {
    var t := EntryDataTableName(site.handle, req.handle);
    var s6 :- PrepareTable(s, env, t);
    var r :- SaveSectionRecord(s6, env, NewSectionFor(site, req));
    if checkSaved && !r.saved then Failure(NotSaved) else Success((r.state, r.record))
  }

  /** Every step of `createSection` that can throw. */
  function CreateSectionSteps(s: State, site: Site, req: SectionRequest): set<Step> {
    TableSteps(s, EntryDataTableName(site.handle, req.handle)) + {SaveSectionRow}
  }

  /**
    * `createSection` with the result of `save()` either ignored (`checkSaved` false, as the
    * source does) or treated as a failure (`checkSaved` true). Either way the table is
    * (re)created with only the system columns and its keys; the section row is appended only
    * when it validates.
    */
  function CreateSectionWith(s: State, env: Env, site: Site, req: SectionRequest, checkSaved: bool): (o: Outcome<Section>)
    ensures o.result.Failure? ==> o.state == s
    ensures o.result.Failure? ==> CreateSectionBody(s, env, site, req, checkSaved).Failure?
                                  && o.result.error == CreateSectionBody(s, env, site, req, checkSaved).error
    ensures (exists st :: st in TableSteps(s, EntryDataTableName(site.handle, req.handle)) && env.faulty(st)) ==> o.result.Failure?
    ensures env.validSection(NewSectionFor(site, req)) && env.faulty(SaveSectionRow) ==> o.result.Failure?
    ensures checkSaved && !env.validSection(NewSectionFor(site, req)) ==> o.result.Failure?
    ensures o.result.Success? ==>
              var t := EntryDataTableName(site.handle, req.handle);
              var sec := NewSectionFor(site, req);
              && o.state == s.(tables := s.tables[t := SystemColumns()], foreignKeys := o.state.foreignKeys,
                               sections := o.state.sections, nextSectionId := o.state.nextSectionId)
              && EntriesForeignKey(t) in o.state.foreignKeys && VersionsForeignKey(t) in o.state.foreignKeys
              && (forall fk :: fk in s.foreignKeys && fk.table != t ==> fk in o.state.foreignKeys)
              && (forall fk :: fk in o.state.foreignKeys ==>
                    fk in s.foreignKeys || fk == EntriesForeignKey(t) || fk == VersionsForeignKey(t))
              && (env.validSection(sec) ==>
                    && o.result.value == sec.(id := Some(s.nextSectionId), isNewRecord := false)
                    && o.state.sections == s.sections + [o.result.value]
                    && o.state.nextSectionId == s.nextSectionId + 1)
              && (!env.validSection(sec) ==>
                    o.result.value == sec && o.state.sections == s.sections && o.state.nextSectionId == s.nextSectionId)
  {
    Atomically(s, CreateSectionBody(s, env, site, req, checkSaved))
  }

  /**
    * `createSection` as the source writes it: validation never decides the outcome. With an
    * invalid section it commits exactly when the DDL does, and then leaves a table whose
    * section row was never stored.
    */
  function CreateSectionAsWritten(s: State, env: Env, site: Site, req: SectionRequest): (o: Outcome<Section>)
    ensures var t := EntryDataTableName(site.handle, req.handle);
            !env.validSection(NewSectionFor(site, req)) ==>
              && (o.result.Success? <==> PrepareTable(s, env, t).Success?)
              && (o.result.Success? ==> t in o.state.tables && o.state.sections == s.sections && o.result.value.id.None?)
  {
    CreateSectionWith(s, env, site, req, false)
  }

  /**
    * `createSection`, corrected: (re)create the section's entry-data table with only the
    * system columns, wire its two foreign keys and audit triggers, and insert the section
    * row; a section row that cannot be saved aborts the whole transaction.
    */
  function CreateSection(s: State, env: Env, site: Site, req: SectionRequest): (o: Outcome<Section>)
    ensures o.result.Failure? ==> o.state == s
    ensures o.result.Failure? ==> CreateSectionBody(s, env, site, req, true).Failure?
                                  && o.result.error == CreateSectionBody(s, env, site, req, true).error
    ensures (exists st :: st in CreateSectionSteps(s, site, req) && env.faulty(st)) ==> o.result.Failure?
    ensures !env.validSection(NewSectionFor(site, req)) ==> o.state == s && o.result.Failure?
    ensures o.result.Success? ==>
              var t := EntryDataTableName(site.handle, req.handle);
              && o.result.value == NewSectionFor(site, req).(id := Some(s.nextSectionId), isNewRecord := false)
              && o.state == s.(tables := s.tables[t := SystemColumns()], foreignKeys := o.state.foreignKeys,
                               sections := s.sections + [o.result.value], nextSectionId := s.nextSectionId + 1)
              && EntriesForeignKey(t) in o.state.foreignKeys && VersionsForeignKey(t) in o.state.foreignKeys
              && (forall fk :: fk in s.foreignKeys && fk.table != t ==> fk in o.state.foreignKeys)
              && (forall fk :: fk in o.state.foreignKeys ==>
                    fk in s.foreignKeys || fk == EntriesForeignKey(t) || fk == VersionsForeignKey(t))
  {
    CreateSectionWith(s, env, site, req, true)
  }

  // ---------------------------------------------------------------------------------------
  // Blocks

  /** What `createBlock` is asked to create. */
  datatype BlockRequest = BlockRequest(
    handle: string,
    sectionHandle: string,
    displayLabel: string,
    blockType: string,
    sortOrder: int,
    dataType: ColumnType,
    instructions: Option<string>,
    required: Value)

  /** The block column `createBlock` adds. */
  function BlockColumn(req: BlockRequest): Column {
    Column(BlockColumnName(req.handle), req.dataType)
  }

  /** The block row `createBlock` inserts for the section found (if any). */
  function NewBlockFor(section: Option<Section>, req: BlockRequest): (b: Block)
    ensures b.id.None? && b.sectionId == (if section.Some? then section.value.id else None)
    ensures b.handle == req.handle && b.required == (if Falsy(req.required) then 0 else 1)
  {
    Block(None, if section.Some? then section.value.id else None, req.handle, req.displayLabel, req.blockType,
          req.sortOrder, req.instructions, ZeroOne(req.required))
  }

  /**
    * The steps of `createBlock`: the section is looked up before the transaction; inside it
    * the block column goes right after the last block column, then the block row is saved.
    */
  function CreateBlockBody(s: State, env: Env, site: Site, req: BlockRequest, checkSaved: bool)
    : Result<(State, Block), Error>
  {
    var section := FindSectionByHandle(s.sections, site.id, req.sectionHandle);
    var t := EntryDataTableName(site.handle, req.sectionHandle);
    if t !in s.tables then Failure(NoSuchTable(t))
    else
      var after := LastBlockColumn(Names(s.tables[t]));
      var s1 :- AddColumnStep(s, env, t, BlockColumn(req), after);
      var r :- SaveBlockRecord(s1, env, NewBlockFor(section, req));
      if checkSaved && !r.saved then Failure(NotSaved) else Success((r.state, r.record))
  }

  /**
    * `createBlock` with the result of `save()` either ignored (`checkSaved` false, as the
    * source does) or treated as a failure (`checkSaved` true). Either way the column lands
    * right after the last block column; the block row is appended only when it validates.
    */
  function CreateBlockWith(s: State, env: Env, site: Site, req: BlockRequest, checkSaved: bool): (o: Outcome<Block>)
    ensures o.result.Failure? ==> o.state == s
    ensures o.result.Failure? ==> CreateBlockBody(s, env, site, req, checkSaved).Failure?
                                  && o.result.error == CreateBlockBody(s, env, site, req, checkSaved).error
    ensures var t := EntryDataTableName(site.handle, req.sectionHandle);
            t !in s.tables ==> o == Outcome(s, Failure(NoSuchTable(t)))
    ensures var t := EntryDataTableName(site.handle, req.sectionHandle);
            t in s.tables && BlockColumnName(req.handle) in Names(s.tables[t]) ==> o.state == s && o.result.Failure?
    ensures env.faulty(AddColumn(EntryDataTableName(site.handle, req.sectionHandle), BlockColumnName(req.handle))) ==>
              o.state == s && o.result.Failure?
    ensures var b := NewBlockFor(FindSectionByHandle(s.sections, site.id, req.sectionHandle), req);
            (env.validBlock(b) && env.faulty(SaveBlockRow)) || (checkSaved && !env.validBlock(b)) ==>
              o.state == s && o.result.Failure?
    ensures o.result.Success? ==>
              var t := EntryDataTableName(site.handle, req.sectionHandle);
              var b := NewBlockFor(FindSectionByHandle(s.sections, site.id, req.sectionHandle), req);
              && t in s.tables && t in o.state.tables
              && AddColumnAfter(s.tables[t], BlockColumn(req), LastBlockColumn(Names(s.tables[t])))
                 == Success(o.state.tables[t])
              && o.state == s.(tables := s.tables[t := o.state.tables[t]], blocks := o.state.blocks,
                               nextBlockId := o.state.nextBlockId)
              && (env.validBlock(b) ==>
                    && o.result.value == b.(id := Some(s.nextBlockId))
                    && o.state.blocks == s.blocks + [o.result.value] && o.state.nextBlockId == s.nextBlockId + 1)
              && (!env.validBlock(b) ==>
                    o.result.value == b && o.state.blocks == s.blocks && o.state.nextBlockId == s.nextBlockId)
  {
    Atomically(s, CreateBlockBody(s, env, site, req, checkSaved))
  }

  /**
    * `createBlock` as the source writes it: validation never decides the outcome. With an
    * invalid block it commits exactly when the column can be added, and then leaves a
    * `block_<handle>` column that no block row describes.
    */
  function CreateBlockAsWritten(s: State, env: Env, site: Site, req: BlockRequest): (o: Outcome<Block>)
    ensures var t := EntryDataTableName(site.handle, req.sectionHandle);
            !env.validBlock(NewBlockFor(FindSectionByHandle(s.sections, site.id, req.sectionHandle), req)) ==>
              && (o.result.Success? <==>
                    t in s.tables && AddColumnStep(s, env, t, BlockColumn(req), LastBlockColumn(Names(s.tables[t]))).Success?)
              && (o.result.Success? ==>
                    t in o.state.tables && BlockColumnName(req.handle) in Names(o.state.tables[t]) && o.state.blocks == s.blocks
                    && o.result.value.id.None?)
  {
    CreateBlockWith(s, env, site, req, false)
  }

  /**
    * `createBlock`, corrected: add column `block_<handle>` to the section's table right after
    * its last block column and insert the block row; a block row that cannot be saved aborts.
    */
  function CreateBlock(s: State, env: Env, site: Site, req: BlockRequest): (o: Outcome<Block>)
    ensures o.result.Failure? ==> o.state == s
    ensures o.result.Failure? ==> CreateBlockBody(s, env, site, req, true).Failure?
                                  && o.result.error == CreateBlockBody(s, env, site, req, true).error
    ensures var t := EntryDataTableName(site.handle, req.sectionHandle);
            t !in s.tables ==> o == Outcome(s, Failure(NoSuchTable(t)))
    ensures var t := EntryDataTableName(site.handle, req.sectionHandle);
            t in s.tables && BlockColumnName(req.handle) in Names(s.tables[t]) ==> o.state == s && o.result.Failure?
    ensures (|| env.faulty(AddColumn(EntryDataTableName(site.handle, req.sectionHandle), BlockColumnName(req.handle)))
             || env.faulty(SaveBlockRow)) ==> o.state == s && o.result.Failure?
    ensures o.result.Success? ==>
              var t := EntryDataTableName(site.handle, req.sectionHandle);
              && t in s.tables && t in o.state.tables
              && AddColumnAfter(s.tables[t], BlockColumn(req), LastBlockColumn(Names(s.tables[t])))
                 == Success(o.state.tables[t])
              && o.result.value == NewBlockFor(FindSectionByHandle(s.sections, site.id, req.sectionHandle), req)
                                     .(id := Some(s.nextBlockId))
              && o.state == s.(tables := s.tables[t := o.state.tables[t]], blocks := s.blocks + [o.result.value],
                               nextBlockId := s.nextBlockId + 1)
  {
    CreateBlockWith(s, env, site, req, true)
  }
}
