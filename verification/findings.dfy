/**
  * `createSection` and `createBlock` call `save()` on the new record and ignore its boolean
  * result. When validation rejects the record nothing is thrown, so the transaction commits
  * the DDL without the registry row that describes it. The lemmas below show that on the
  * as-written model and show that the corrected model (which treats a false `save()` as a
  * failure) rolls everything back instead.
  */
module ContentServiceFindings {
  import opened Results
  import opened Schema
  import opened ContentService
  import opened ContentServiceProofs

  /**
    * As written: with every DDL step succeeding and the section row rejected by validation,
    * `createSection` reports success, and the committed state has the table (with only the
    * system columns) but the same section rows as before: no row names the new table.
    */
  lemma CreateSectionAsWrittenOrphansTable(s: State, env: Env, site: Site, req: SectionRequest)
    requires Inv(s)
    requires forall st :: st in CreateSectionSteps(s, site, req) ==> !env.faulty(st)
    requires !env.validSection(NewSectionFor(site, req))
    ensures var o := CreateSectionAsWritten(s, env, site, req);
            var t := EntryDataTableName(site.handle, req.handle);
            && o.result.Success?
            && o.result.value.id.None?
            && t in o.state.tables && o.state.tables[t] == SystemColumns()
            && o.state.sections == s.sections
  {
    var t := EntryDataTableName(site.handle, req.handle);
    TableNameIsLower(site.handle, req.handle);
    PrepareTableSucceeds(s, env, t);
  }

  /** Corrected: the same inputs make `createSection` fail with `NotSaved` and change nothing. */
  lemma CreateSectionRejectsUnsavedRow(s: State, env: Env, site: Site, req: SectionRequest)
    requires Inv(s)
    requires forall st :: st in CreateSectionSteps(s, site, req) ==> !env.faulty(st)
    requires !env.validSection(NewSectionFor(site, req))
    ensures CreateSection(s, env, site, req) == Outcome(s, Failure(NotSaved))
  {
    var t := EntryDataTableName(site.handle, req.handle);
    TableNameIsLower(site.handle, req.handle);
    PrepareTableSucceeds(s, env, t);
  }

  /**
    * As written: with the column step succeeding and the block row rejected by validation,
    * `createBlock` reports success and commits the new `block_<handle>` column, while the
    * block rows stay as they were: no row describes the new column.
    */
  lemma CreateBlockAsWrittenOrphansColumn(s: State, env: Env, site: Site, req: BlockRequest)
    requires Inv(s)
    requires var t := EntryDataTableName(site.handle, req.sectionHandle);
             t in s.tables && BlockColumnName(req.handle) !in Names(s.tables[t])
    requires !env.faulty(AddColumn(EntryDataTableName(site.handle, req.sectionHandle), BlockColumnName(req.handle)))
    requires !env.validBlock(NewBlockFor(FindSectionByHandle(s.sections, site.id, req.sectionHandle), req))
    ensures var o := CreateBlockAsWritten(s, env, site, req);
            var t := EntryDataTableName(site.handle, req.sectionHandle);
            && o.result.Success?
            && o.result.value.id.None?
            && t in o.state.tables && BlockColumnName(req.handle) in Names(o.state.tables[t])
            && o.state.blocks == s.blocks
  {
    var t := EntryDataTableName(site.handle, req.sectionHandle);
    var after := LastBlockColumn(Names(s.tables[t]));
    assert s.tables[t][..3][2] == s.tables[t][2];
    assert Names(s.tables[t])[2] == Sentinel;
    var r := AddColumnAfter(s.tables[t], BlockColumn(req), after);
    assert r.Success?;
    var k :| 0 <= k < |s.tables[t]| && r.value == s.tables[t][..k + 1] + [BlockColumn(req)] + s.tables[t][k + 1..];
    assert r.value[k + 1] == BlockColumn(req);
  }

  /** Corrected: the same inputs make `createBlock` fail with `NotSaved` and change nothing. */
  lemma CreateBlockRejectsUnsavedRow(s: State, env: Env, site: Site, req: BlockRequest)
    requires Inv(s)
    requires var t := EntryDataTableName(site.handle, req.sectionHandle);
             t in s.tables && BlockColumnName(req.handle) !in Names(s.tables[t])
    requires !env.faulty(AddColumn(EntryDataTableName(site.handle, req.sectionHandle), BlockColumnName(req.handle)))
    requires !env.validBlock(NewBlockFor(FindSectionByHandle(s.sections, site.id, req.sectionHandle), req))
    ensures CreateBlock(s, env, site, req) == Outcome(s, Failure(NotSaved))
  {
    var t := EntryDataTableName(site.handle, req.sectionHandle);
    assert s.tables[t][..3][2] == s.tables[t][2];
    assert Names(s.tables[t])[2] == Sentinel;
  }
}
