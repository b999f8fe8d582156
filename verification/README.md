# Content-table schema management and savable components, in Dafny

This project models two parts of the Blocks/Craft CMS PHP code base.

**ContentService** keeps one dynamic *entry-data* table per section, named
`entrydata_<site>_<section>` in lower case. Three tables describe those tables:
- a section registry (`sections`);
- a block registry (`entryblocks`);
- a junction table (`sectionblocks`) that links a section to the blocks it uses.

The service does five things:
- `createSection` drops and re-creates a section's table with six system columns. It adds two
  foreign keys and two audit triggers, then saves the section row.
- `createBlock` adds a column `block_<handle>` right after the table's last block column, then
  saves the block row.
- `saveSection` upserts a section and replaces its block selection with new junction rows.
- `getSection` loads a section or falls back to a new one.
- `_getLastBlockColumnName` finds the column after which new block columns go.

Each mutation runs in a database transaction. The transaction rolls back and rethrows on any
exception.

**SavableComponent** is the base class of savable components. Its helpers decide whether a
component is new (`isNew`) and collect its settings into an ordered map (`getSettings`).

The model is functional:
- A `ContentService.State` holds the schema as a map from table name to an ordered column list,
  plus the foreign keys, section rows, block rows, junction rows and auto-increment counters.
- Every operation returns `Outcome(state, result)`. `Atomically` turns a failed body into the
  pre-call state plus the same error, which is the rollback-and-rethrow.
- Which black-box step throws is a parameter, `Env.faulty`. The validation rules of the
  `Section` and `EntryBlocks` models are also parameters, `Env.validSection` and
  `Env.validBlock`.
- The site that `sites->getSiteByHandle` / `currentSite` would resolve is passed in as a
  `Site`.
- `createSection` and `createBlock` take a switch `checkSaved`. With `false` they ignore the
  result of `save()`, as the code does. With `true` they treat it as a failure, which is the
  corrected form described under Findings. The invariant, layout and re-create properties are
  proved for both.
- PHP's loose scalars are `Php.Value`. `Php.Falsy` is `!$v`, which is the same test as
  `$v == false`.

Files:
- `results.dfy`: `Option`, `Result` and sequence helpers.
- `strings.dfy`: substring search (`strpos`) and ASCII `strtolower`.
- `php.dfy`: the PHP value semantics used here, including `strncmp`.
- `schema.dfy`: the table layout, the last-block-column lookup and `addColumnAfter`.
- `content_service.dfy`: state, steps and the service operations.
- `content_service_proofs.dfy`: the state invariant and the properties that relate several
  calls.
- `findings.dfy`: the discrepancy described under Findings.
- `savable_component.dfy`: the savable-component helpers.

## Model

| member | source | states |
|---|---|---|
| ContentService.EntryDataTableName | src/business/services/ContentService.php:428-431 | The table name is `entrydata_`, then the lower-cased site handle, `_`, then the lower-cased section handle. It has exactly that length and contains no upper-case letter. |
| ContentService.TableNamesCollide | src/business/services/ContentService.php:428-431 | The handles are joined with `_`, so site `x_y` with section `z` and site `x` with section `y_z` get the same table name. |
| ContentServiceProofs.ForeignKeyNames | src/business/services/ContentService.php:271-279 | Because the table name is already lower case, the key names are exactly `<table>_entries_fk` and `<table>_entryversions_fk`. |
| ContentServiceProofs.ForeignKeyNamesDiffer | src/business/services/ContentService.php:271-279 | The two foreign keys of one table never share a name. |
| Schema.LastBlockColumn | src/business/services/ContentService.php:437-455 | The result is `version_id` or a name containing `block_`. When the table has `version_id`, the result is one of its column names. The fallback mirrors the loose `== null` test. |
| Schema.FallbackOnlyWithoutMatch | src/business/services/ContentService.php:451-452 | A matching name is never empty and never `version_id`, so the loose `== null` test falls back to `version_id` exactly when no column matched, and otherwise returns the match. |
| Schema.LastMatch | src/business/services/ContentService.php:444-449 | The result is none exactly when no name contains `block_`. Otherwise it is a matching name with no matching name after it. |
| Schema.FindLastBlockColumn | src/business/services/ContentService.php:444-454 | The forward loop that keeps the latest match computes the same value as `LastBlockColumn`. |
| Schema.SubstringMatchExample | src/business/services/ContentService.php:447 | The test is a substring test: `old_block_x` counts as a block column. |
| Schema.WellFormedLastBlockColumn | src/business/services/ContentService.php:437-455 | In a well-formed table, the lookup returns `version_id` when there are no block columns, and otherwise the last block column (the one just before `date_created`). |
| Schema.AddColumnAfter | src/business/services/ContentService.php:343-348 | Adding a column fails exactly when its name is taken or the `after` column is missing. Otherwise the column lands right after the first column with that name and nothing else moves. |
| Schema.SystemColumnsWellFormed | src/business/services/ContentService.php:262-269 | The six columns of a fresh table form the well-formed layout, with no block columns. |
| Schema.AddBlockColumnKeepsLayout | src/business/services/ContentService.php:341-348 | Inserting a new `block_` column after the last block column keeps the layout: system prefix, block columns, system suffix. The new column is appended to the block columns. |
| ContentService.ZeroOne | src/business/services/ContentService.php:292 | `$flag == false ? 0 : 1` is 0 exactly for falsy flags and 1 otherwise. |
| ContentService.FindSectionById | src/business/services/ContentService.php:142-145 | The result is found exactly when a row has that id, and it is that row, loaded as a stored record. |
| ContentService.FindSectionByHandle | src/business/services/ContentService.php:152-160 | The result is found exactly when a row of that site has that handle. It is the first such row, loaded as a stored record. |
| ContentService.GetSection | src/business/services/ContentService.php:126-135 | The result is a new section exactly when the id is absent, zero or unknown. Otherwise it is the stored row with that id. |
| ContentService.SaveSectionRecord | src/business/services/ContentService.php:205 | `save()` returns true exactly when the record validates, and writes nothing when it does not. A new record gets the next id and is appended. A stored record is updated in place. |
| ContentService.SaveBlockRecord | src/business/services/ContentService.php:362 | A valid block gets the next block id and is appended. An invalid one is not written, and `save()` returns false. |
| ContentService.JunctionRows | src/business/services/ContentService.php:216-220 | The rows built for the insert have one row per block id in list order. Each belongs to the section, is not required, and has sort order = position + 1. |
| ContentService.RowsNotOf | src/business/services/ContentService.php:210-212 | Deleting by `section_id` keeps exactly the rows of the other sections. |
| ContentService.SaveSection | src/business/services/ContentService.php:185-233 | An invalid section is returned unsaved and the state is unchanged. A failure leaves the state unchanged and reports the error of the step that threw: a throwing row save, delete of an existing section's old selection, or insert (checked in that order) is rethrown as that step's fault. On success, the section's junction rows are the new rows (after any stale ones for a fresh id), other sections' rows are untouched, tables, blocks and keys are unchanged, and the section is inserted under the next id or updated in place. A throwing save or insert fails with no change. |
| ContentServiceProofs.SaveSectionReplacesSelection | src/business/services/ContentService.php:207-221 | Under the invariant, after a committed `saveSection` the section has exactly one junction row per supplied id, in order, not required, with sort order index + 1. Earlier rows are gone and other sections keep theirs. |
| ContentServiceProofs.SortOrderRoundTrip | src/business/services/ContentService.php:217-221 | Saving distinct block ids and reading the stored rows back gives each block its 1-based list position. |
| ContentServiceProofs.SortOrderExample | src/business/services/ContentService.php:217-219 | The selection 20, 10, 30 is stored with sort orders 1, 2, 3. |
| ContentServiceProofs.SaveSectionSucceeds | src/business/services/ContentService.php:198-231 | `saveSection` commits exactly when the section does not validate, or when neither the row save, the delete of an existing section's old selection, nor the insert throws. |
| ContentServiceProofs.SaveSectionPreservesInv | src/business/services/ContentService.php:185-233 | `saveSection` keeps the state invariant. |
| ContentService.NewSectionFor | src/business/services/ContentService.php:285-302 | The new section belongs to the site, carries the handle, label and parent, has `sortable` normalised to 0/1, and has the optional settings only when they were given. |
| ContentService.BuildTable | src/business/services/ContentService.php:261-282 | On success the table holds exactly the six system columns, the two keys are appended, and the create, key and trigger steps did not throw. |
| ContentService.PrepareTable | src/business/services/ContentService.php:257-282 | On success the table holds only the system columns. Both of its keys exist, other tables' keys survive, no other key appears, and no DDL step threw. |
| ContentService.CreateSectionWith | src/business/services/ContentService.php:247-315 | `createSection` either as written (`checkSaved` false) or corrected (true). A failure leaves the state unchanged and reports the body's error. A throwing DDL step, or a valid section whose save throws, makes it fail, and so does an invalid section when `save()` is checked. On success the table holds only the system columns, its two keys exist and no other key appears. A valid section is appended under the next id. An invalid one is returned unsaved and no row is added. |
| ContentService.CreateSectionAsWritten | src/business/services/ContentService.php:247-315 | As written (see Findings): for an invalid section, the call commits exactly when the DDL does, and then the table exists with no new section row. |
| ContentService.CreateSection | src/business/services/ContentService.php:247-315 | Corrected (see Findings). A failure leaves the state unchanged and reports the body's error. Any throwing step, or an invalid section, makes it fail. On success the result is the new section under the next id, the table holds only the system columns, and its two keys exist. |
| ContentServiceProofs.CreateSectionSucceeds | src/business/services/ContentService.php:247-315 | For both versions, under the invariant, `createSection` commits when no step throws. The corrected version also needs the section to validate. |
| ContentServiceProofs.KeyNamesDiffer | src/business/services/ContentService.php:271-279 | Two different lower-case tables never get keys of the same name. Together with the invariant (table names are lower case and every key is one of its table's two keys), the new table's key names are free. |
| ContentServiceProofs.CreateSectionPreservesInv | src/business/services/ContentService.php:257-304 | Both versions of `createSection` keep the state invariant. |
| ContentServiceProofs.RecreateDiscardsBlocks | src/business/services/ContentService.php:257-269 | For both versions, re-creating an existing section leaves exactly `id, entry_id, version_id, date_created, date_updated, uid`, whatever block columns it had. |
| ContentServiceProofs.FailedCreateLeavesNothing | src/business/services/ContentService.php:310-314 | For both versions, a failed `createSection` of a new section leaves no table, no section row and no new key. |
| ContentServiceProofs.RollbackRestoresDroppedTable | src/business/services/ContentService.php:257-282 | For both versions, a throw after the old table was dropped restores the old table, block columns included. |
| ContentServiceProofs.CollidingCreateWipesOtherTable | src/business/services/ContentService.php:257-269 | Because the names collide, a committed `createSection` of section `b_c` on site `a` leaves the table of section `c` on site `a_b` with only the system columns. |
| ContentService.NewBlockFor | src/business/services/ContentService.php:351-361 | The block row points at the section found (or at none) and has `required` normalised to 0/1. |
| ContentService.CreateBlockWith | src/business/services/ContentService.php:332-373 | `createBlock` either as written (`checkSaved` false) or corrected (true). A failure leaves the state unchanged and reports the body's error. A missing table, a taken column name, a throwing column step, or a valid block whose save throws makes it fail, and so does an invalid block when `save()` is checked. On success the table is the old one with `block_<handle>` added after the last block column. A valid block row is appended under the next id. An invalid one is returned unsaved and no row is added. |
| ContentService.CreateBlockAsWritten | src/business/services/ContentService.php:332-373 | As written (see Findings): for an invalid block, the call commits exactly when the column can be added, and then the column exists with no new block row. |
| ContentService.CreateBlock | src/business/services/ContentService.php:332-373 | Corrected (see Findings). A failure leaves the state unchanged and reports the body's error. A missing table, a taken column name or a throwing step makes it fail. On success the table is the old one with `block_<handle>` added after the last block column, and the block row is appended under the next id. |
| ContentServiceProofs.CreateBlockSucceeds | src/business/services/ContentService.php:332-373 | For both versions, `createBlock` commits when the table exists without that column and nothing throws. The corrected version also needs the block to validate. |
| ContentServiceProofs.CreateBlockPreservesInv | src/business/services/ContentService.php:341-362 | Both versions of `createBlock` keep the state invariant. |
| ContentServiceProofs.CreateBlockKeepsLayout | src/business/services/ContentService.php:341-348 | For both versions, a committed `createBlock` appends `block_<handle>` to the block columns, before `date_created`, and keeps the layout. |
| ContentServiceProofs.CreateBlocksPreservesInv | src/business/services/ContentService.php:332-373 | For both versions, a run of `createBlock` calls keeps the invariant and removes no table. |
| ContentServiceProofs.BlocksFollowCreationOrder | src/business/services/ContentService.php:341-348 | For both versions, after a successful run of `createBlock` calls on one section, the block columns are the old ones followed by the new ones in creation order. |
| ContentServiceFindings.CreateSectionAsWrittenOrphansTable | src/business/services/ContentService.php:304-307 | As written, a section row rejected by validation still commits the new table, and no section row is added. |
| ContentServiceFindings.CreateSectionRejectsUnsavedRow | src/business/services/ContentService.php:304-314 | Corrected, the same inputs fail with `NotSaved` and leave the state unchanged. |
| ContentServiceFindings.CreateBlockAsWrittenOrphansColumn | src/business/services/ContentService.php:362-363 | As written, a block row rejected by validation still commits the new column, and no block row is added. |
| ContentServiceFindings.CreateBlockRejectsUnsavedRow | src/business/services/ContentService.php:362-372 | Corrected, the same inputs fail with `NotSaved` and leave the state unchanged. |
| Strings.ContainsIffOccurs | src/business/services/ContentService.php:447 | `strpos(...) !== false` holds exactly when the needle occurs at some position. |
| Strings.LowerHasNoUpper | src/business/services/ContentService.php:430 | `strtolower` leaves no upper-case ASCII letter. |
| Strings.LowerIdempotent | src/business/services/ContentService.php:271 | Lower-casing an already lower-cased name changes nothing. |
| SavableComponent.IsSelectable | src/base/SavableComponent.php:31-34 | Always true. |
| SavableComponent.GetSettingsHtml | src/base/SavableComponent.php:65-68 | Always null. |
| SavableComponent.IsNewIff | src/base/SavableComponent.php:42-45 | `isNew` holds exactly for falsy ids (null, false, 0, `""`, `"0"`) and for string ids that start with `new`, case-sensitively. No integer id qualifies through `strncmp`. |
| SavableComponent.IsNewExamples | src/base/SavableComponent.php:44 | `null`, `0`, `""`, `"0"`, `false`, `"new"` and `"new12"` are new. `5`, `"New1"`, `"ne"` and `true` are not. |
| Php.StrncmpNewIsPrefix | src/base/SavableComponent.php:44 | `strncmp($id, 'new', 3) === 0` is a case-sensitive prefix test. |
| SavableComponent.GetSettings | src/base/SavableComponent.php:50-60 | It succeeds exactly when every attribute is a defined property, and otherwise names the first one that is not. Its keys are the attributes in first-occurrence order, and each value is the property's current value. |
| SavableComponent.SettingsKeysAreAttributes | src/base/SavableComponent.php:50-60 | With distinct attribute names, the settings keys are exactly the attributes, in order. |

## Left out

- The plain finder methods (`getEntryById`, `getEntriesBySectionId`, `getAllEntriesBySiteId`,
  `doesEntryHaveSubEntries`, the version getters, `getSections`, `getSubSections`,
  `getSectionsBySiteIdHandles`, `getBlocksBySectionId`, `getBlocksByEntryId`,
  `getBlockByEntryIdHandle`) have no logic of their own beyond an ORM or SQL query. Only the
  two lookups the modelled operations call are modelled.
- Audit triggers are recorded only as steps that may throw. `DatabaseHelper` is not part of
  this model.
- Foreign keys are recorded by name, table and column only. Their enforcement is not
  modelled.
- Real SQL execution, the schema-cache refresh and the `Blocks::app()` singleton are left out.
  The state and the `Site` are explicit parameters.
- MySQL commits implicitly around DDL, so a real rollback cannot undo a dropped or created
  table. The model gives the transaction the all-or-nothing meaning the code evidently
  intends.
- Auto-increment counters are restored on rollback in the model. A real database does not
  restore them, so a later insert may get a higher id than the model predicts.
- The `Section` and `EntryBlocks` validation rules live in model classes that are not part of
  this model. They are the parameters `Env.validSection` and `Env.validBlock`.
- `$section->sites->_id = $site->id` is modelled as setting the section's site id. Whether
  the `sites` relation carries the id into `site_id` is decided by the `Section` model, which
  is not part of this model.
- An unknown site handle is not modelled. `getSiteByHandle` is not part of this model, and the
  resolved `Site` is a parameter.
- Reflection in `settingsAttributes` is left out. The attribute list is a parameter of
  `SavableComponent.GetSettings`, and so are the property values.
- Concurrent callers are left out: the model does not enforce uniqueness of (site, handle)
  under concurrency, nor DDL isolation.
- `src/web/assets/editentry/webpack.config.js` is front-end build configuration and is not
  modelled.
- PHP floats and arrays are not modelled as values. Ids, flags and properties are null,
  booleans, integers or strings.
- SQL compares names case-insensitively under the usual collation. The model compares names
  exactly.
- ContentService.SaveSection: `$sectionBlockIds` is taken as a list, so position i has sort
  order i + 1. The source uses each array key + 1, which differs for arrays with non-list
  keys.
- ContentService.SaveSection: an empty selection inserts nothing. The behaviour of
  `insertAll` on an empty list is not part of this model.
- ContentService.GetSection: ids are natural numbers or absent. String ids such as `"0"` are
  not modelled.
- ContentService.CreateBlock: a missing table is reported as `NoSuchTable` before any write.
  In the source `getTable` returns null, and `->columnNames` and the `foreach` over it
  (ContentService.php:442-445) run on null. Plain PHP raises a notice and goes on with no
  names. The lookup then falls back to `version_id` and `addColumnAfter` throws, giving the
  same unchanged state and a failure. Under an error handler that turns notices into
  exceptions, it fails one step earlier, also with nothing changed.
- ContentService.CreateBlock: when no section of the site has the handle,
  `getSectionBySiteIdHandle` returns null (ContentService.php:336). Line 352 then reads `->id`
  of null. The model follows plain PHP, which raises a notice and goes on with null: the block
  row gets a null `section_id`, and the call can commit a block that belongs to no section.
  Under an error handler that turns notices into exceptions, the transaction would instead
  roll back. The model does not promise that behaviour. The invariant admits such tables,
  because a table with no section row is reachable through `CreateSectionAsWritten` with an
  invalid section, or through `TableNamesCollide`.
- Strings.Lower: strings are sequences of characters, and PHP strings are bytes.
  `strtolower` is modelled as in the C locale: only ASCII `A`-`Z` change. Non-ASCII handles
  are left as they are, and multi-byte encodings are not modelled.

## Findings

| source | as written | input that shows it | evidently intended | confidence | as-written member | corrected member |
|---|---|---|---|---|---|---|
| src/business/services/ContentService.php:304-306 | `createSection` calls `$section->save()`, ignores its boolean result, and commits. | Every DDL step succeeds but the new section fails validation. The table and its keys are committed with no section row. | A section that cannot be saved aborts the transaction, so neither the table nor a row remains. | not executed | ContentService.CreateSectionAsWritten (shown by ContentServiceFindings.CreateSectionAsWrittenOrphansTable) | ContentService.CreateSection (proved by ContentServiceFindings.CreateSectionRejectsUnsavedRow) |
| src/business/services/ContentService.php:362-363 | `createBlock` calls `$block->save()`, ignores its boolean result, and commits. | The column is added but the new block fails validation. The `block_<handle>` column is committed with no block row. | A block that cannot be saved aborts the transaction, so the column is not added. | not executed | ContentService.CreateBlockAsWritten (shown by ContentServiceFindings.CreateBlockAsWrittenOrphansColumn) | ContentService.CreateBlock (proved by ContentServiceFindings.CreateBlockRejectsUnsavedRow) |
