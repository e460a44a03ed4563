# islandora_spreadsheet_ingest, modelled in Dafny

This project models two parts of the Drupal module `islandora_spreadsheet_ingest`:

- **The migration deriver** (`MigrationDeriver`). An ingest *request* names a template migration group and maps each output field to a process pipeline. The deriver clones the template's migrations into the request's own migration group. The clone of migration `t` in group `mg` is named `mg_t`.
  - Every `migration_lookup` step and every migration dependency that points at a migration of the template's own group is renamed to the clone's name. When a lookup names a list of migrations, the `source_ids` entry of each renamed one is moved to the new name; a lookup that names a single migration keeps its `source_ids` as they are.
  - References to migrations in other groups are left as they are.
  - `createAll` upserts one derived migration per mapping. `deleteAll` removes the whole group. `deleteAll` always invalidates the migration-plugin cache; `createAll` invalidates it only when its run completes.
  - `getUsedColumns` lists the spreadsheet columns the pipelines read. Names that start with `@` are pipeline-internal and are left out.
- **The `isi_spreadsheet` migrate source** (`Spreadsheet`). It merges its configuration with defaults and derives its id fields. It finds the worksheet and header row, and builds its field list, falling back to the header row when no columns are configured. It then yields one record per data row: `array_combine` of the field list with the row's cells, plus the row index when a row index column is configured.

Files:

| file | module | contents |
|---|---|---|
| `wrappers.dfy` | `Wrappers` | `Option` and `Result` |
| `php.dfy` | `Php` | PHP truthiness of strings, and null converted to text |
| `assoc.dfy` | `Assoc` | PHP arrays with string keys as ordered association lists: lookup, assignment, `unset`, `array_combine`'s pairing |
| `definitions.dfy` | `Definitions` | process steps, migrations, dependency declarations and requests as values |
| `remap.dfy` | `Remap` | the renaming of one template migration, and the used-columns scan, as functions, with lemmas |
| `synthesis.dfy` | `Synthesis` | `createAll` and `deleteAll` as functions over the migration store, with lemmas about whole runs |
| `migration_deriver.dfy` | `MigrationDeriver` | class `Deriver`: the store and the cache as fields, and each operation as a loop proved equal to its function |
| `spreadsheet.dfy` | `Spreadsheet` | configuration, ids, worksheet and header lookup, field list and records as functions, with lemmas |
| `spreadsheet_source.dfy` | `SpreadsheetSource` | class `Source`: the configuration, the `columns` memo and the reader as fields, and each method proved against the functions |

How the model represents the PHP code:

- Storage is a `map` from migration id to migration. A load of a missing id is a fatal error in PHP, because a method is then called on null. Each operation therefore requires, or reports, that every migration it loads is stored.
- PHP arrays keep insertion order. Assigning to an existing key replaces its value in place. `unset` followed by assigning a new key moves the entry to the end.
- A generator is modelled by the records it yields before it ends, together with the exception that ended it, if any.

Details of the code that the model keeps:

- `sameMigrationGroup` uses PHP truthiness, so a group named `""` or `"0"` never matches.
- A request's mappings are keyed by a migration name; the derived id is `<group>_<name>`. Each entry holds `original_migration_id` and a field-to-pipeline map (`mappings`), as `src/Entity/Request.php` documents.
- `closeReader` leaves the reader property uninitialised, not null (see Findings).

## Model

| member | source | states |
|---|---|---|
| Remap.DeriveMigrationName | src/MigrationDeriver.php:152-154 | (definition) the clone's id: the group name, `_`, the target name; its parts, injectivity and novelty are the three lemmas below |
| Remap.DerivedNameParts | src/MigrationDeriver.php:152-154 | a derived name is the group name, then `_`, then the target name, with exactly that length |
| Remap.DerivedNamesInjective | src/MigrationDeriver.php:152-154 | within one group, distinct targets get distinct derived names |
| Remap.DerivedNameIsNew | src/MigrationDeriver.php:152-154 | a derived name never equals the name it was derived from |
| Remap.SameMigrationGroup | src/MigrationDeriver.php:167-171 | true exactly when the loaded target's group equals the original's group and that group is truthy; an empty group never matches |
| Remap.SameGroupRenamed | src/MigrationDeriver.php:129-133 | the renamed list of one dependency type is never longer than the original list |
| Remap.SameGroupRenamedMembers | src/MigrationDeriver.php:129-133 | a name is in the renamed list iff it is the derived name of a listed dependency in the same group; other-group dependencies are dropped |
| Remap.RenamedLists | src/MigrationDeriver.php:126-136 | each dependency type keeps its key and position, and its list is the same-group renaming of the original list |
| Remap.MapDependencies | src/MigrationDeriver.php:122-139 | (definition) each dependency type, in order, assigned its renamed list in a fresh array; its shape is MapDependenciesShape |
| Remap.MapDependenciesStep | src/MigrationDeriver.php:126-136 | one outer iteration of mapDependencies assigns the renamed list of the next type to the result built so far |
| Remap.MapDependenciesShape | src/MigrationDeriver.php:122-139 | the result has the original's dependency types, in order, each with its renamed list |
| Remap.RenameEntry | src/MigrationDeriver.php:192-197 | (definition) a same-group entry becomes its derived name and its source_ids value is assigned to the new key and unset from the old one (a missing old key reads as null); any other entry is unchanged |
| Remap.RenameEntries | src/MigrationDeriver.php:191-199 | the by-reference loop entry by entry; the renamed list has the length of the original list (contents in RenameEntriesIds, moves in RenameEntriesMovesIds) |
| Remap.RenameEntriesStep | src/MigrationDeriver.php:191-198 | one iteration of the by-reference loop renames the next listed migration and moves its source_ids entry |
| Remap.RenameEntriesIds | src/MigrationDeriver.php:191-194 | every listed migration in the template's group is replaced in place by its derived name; every other one is kept |
| Remap.RenameEntryLookup | src/MigrationDeriver.php:192-196 | after one rename, the old source_ids key is gone, the new key holds the old ids, and every other key is unchanged |
| Remap.MovesOfPrefix | src/MigrationDeriver.php:191-198 | a key moved (from or to) by a prefix of the list is moved by the whole list |
| Remap.RenameEntriesKeepsOtherIds | src/MigrationDeriver.php:191-198 | a source_ids key that no rename moves from or to keeps its ids |
| Remap.CleanMovesPrefix | src/MigrationDeriver.php:191-198 | the conditions for clean moves hold for every prefix of the list |
| Remap.MovesIdsLast | src/MigrationDeriver.php:191-198 | renaming the last listed migration moves its ids to the derived key and removes the old key |
| Remap.MovesIdsPastLast | src/MigrationDeriver.php:191-198 | a move done earlier in the list survives the rename of the last listed migration |
| Remap.RenameEntriesMovesIds | src/MigrationDeriver.php:191-198 | for every renamed migration, source_ids under the derived name holds the ids that were under the old name, and the old name is gone |
| Remap.MapStep | src/MigrationDeriver.php:184-208 | only migration_lookup steps change, and only their migration and source_ids; a single migration is renamed iff it is in the same group; a list keeps its length |
| Remap.MapSteps | src/MigrationDeriver.php:183-210 | (definition) every step mapped, in order; stated pointwise in MapStepsPointwise |
| Remap.MapStepsPointwise | src/MigrationDeriver.php:183-210 | the mapped pipeline has the same length and each step is mapped on its own |
| Remap.RenamedPipelines | src/MigrationDeriver.php:222-226 | each field keeps its name and position and gets its pipeline mapped |
| Remap.MapPipelines | src/MigrationDeriver.php:222-226 | (definition) each field assigned its mapped pipeline in a fresh array, as iterator_to_array collects it; its shape is MapPipelinesShape |
| Remap.MapPipelinesStep | src/MigrationDeriver.php:222-226 | one iteration assigns the next field's mapped pipeline to the result built so far |
| Remap.MapPipelinesShape | src/MigrationDeriver.php:222-226 | the process map has the given fields, in order, each with its mapped pipeline |
| Remap.WithoutInternal | src/MigrationDeriver.php:100-104 | no kept name starts with `@` |
| Remap.WithoutInternalAppend | src/MigrationDeriver.php:95-106 | filtering a concatenation filters each part |
| Remap.WithoutInternalCounts | src/MigrationDeriver.php:100-104 | a name that does not start with `@` is kept as often as it occurs, duplicates included; an internal name never is |
| Remap.UsedColumns | src/MigrationDeriver.php:78-107 | (definition) every name every step reads, in traversal order, with internal names dropped; membership in UsedColumnsMembers, multiplicity in WithoutInternalCounts |
| Remap.UsedColumnsMembers | src/MigrationDeriver.php:78-107 | a name is a used column iff a get or migration_lookup step reads it (source, or source_ids for a lookup) and it does not start with `@` |
| Definitions.ConfigDependencyName | src/MigrationDeriver.php:266-267 | the request's config dependency name ends with the request's id |
| Synthesis.WithEnforced | src/MigrationDeriver.php:262-271 | (definition) array_merge_recursive of the original's dependencies with the request appended to the `enforced` list of its kind; what it keeps is WithEnforcedContains |
| Synthesis.WithEnforcedContains | src/MigrationDeriver.php:262-271 | the merged dependencies keep every declared and enforced dependency and add the request under the `config` key of `enforced` |
| Synthesis.DeriveMigration | src/MigrationDeriver.php:242-273 | a definition is derived iff every migration it loads is stored; it has the derived id, the group, the original's label and destination, no source columns, the mapped process, the merged dependencies and the remapped migration dependencies |
| Synthesis.Upsert | src/MigrationDeriver.php:275-279 | the store gains exactly the migration's id; under it is stored the derived migration, keeping only the other properties of the migration previously stored there (none for a new one); every other stored migration is unchanged |
| Synthesis.UpsertEach | src/MigrationDeriver.php:241-280 | the loop never reports a skip, never removes a stored migration, and a failure names one of the request's mappings |
| Synthesis.CreateAll | src/MigrationDeriver.php:231-283 | the call is skipped, leaving the store as it was, iff the request is disabled or inactive; no stored migration is removed; a failure names one of the request's mappings |
| Synthesis.DeleteAll | src/MigrationDeriver.php:288-297 | exactly the group's migrations are removed; every other migration is kept unchanged |
| Synthesis.UpsertEachFrame | src/MigrationDeriver.php:241-280 | a migration whose id no entry derives is neither added, removed nor changed by the loop |
| Synthesis.UpsertEachKeepsGrouped | src/MigrationDeriver.php:241-280 | a migration already stored in the group stays stored in the group |
| Synthesis.UpsertEachCreatesAll | src/MigrationDeriver.php:241-280 | a completed loop leaves every entry's derived migration stored under its derived id, in the group |
| Synthesis.SameGroupRenamedFrame | src/MigrationDeriver.php:129-133 | renaming a dependency list reads only the listed migrations |
| Synthesis.MapDependenciesFrame | src/MigrationDeriver.php:122-139 | mapDependencies gives the same result in two stores that agree on the migrations it loads |
| Synthesis.RenameEntriesFrame | src/MigrationDeriver.php:191-198 | renaming a list reads only the listed migrations |
| Synthesis.MapStepFrame | src/MigrationDeriver.php:184-208 | a step maps the same in two stores that agree on its targets |
| Synthesis.MapStepsFrame | src/MigrationDeriver.php:183-210 | a pipeline maps the same in two stores that agree on its targets |
| Synthesis.MapPipelinesFrame | src/MigrationDeriver.php:222-226 | the process map is the same in two stores that agree on every target |
| Synthesis.DeriveMigrationFrame | src/MigrationDeriver.php:242-273 | a derivation is the same in two stores that agree on every migration it loads |
| Synthesis.LastWith | src/MigrationDeriver.php:275-279 | the last definition with an id is one of them with that id; none means no definition has it |
| Synthesis.LastWithCons | src/MigrationDeriver.php:275-279 | the last definition with an id is found in the rest of the list first, then at the head |
| Synthesis.IdSetCons | src/MigrationDeriver.php:275-279 | the ids of a list are the head's id and the ids of the rest |
| Synthesis.OverlayStep | src/MigrationDeriver.php:275-279 | upserting one definition and then overlaying the rest equals overlaying the whole list |
| Synthesis.OverlayStepAt | src/MigrationDeriver.php:275-279 | the same as OverlayStep, for a single id |
| Synthesis.UpsertAllOverlay | src/MigrationDeriver.php:275-279 | upserting definitions one by one equals overlaying each id's last definition on the store |
| Synthesis.OverlayTwice | src/MigrationDeriver.php:275-279 | overlaying the same definitions twice equals overlaying them once |
| Synthesis.LastWithDistinct | src/MigrationDeriver.php:275-279 | with distinct ids, the last definition with an element's id is that element |
| Synthesis.ResolvablePrefix | src/MigrationDeriver.php:241-242 | every entry before the prefix's end derives, and the entry at its end, if any, does not |
| Synthesis.Derivations | src/MigrationDeriver.php:243-247 | one derived definition per entry, with that entry's derived id and the group |
| Synthesis.UpsertAllCons | src/MigrationDeriver.php:275-279 | upserting a list is upserting its head, then the rest |
| Synthesis.DerivationsCons | src/MigrationDeriver.php:241-280 | the derivations of a prefix are the head's derivation followed by those of the tail |
| Synthesis.UpsertEachFromAgreeing | src/MigrationDeriver.php:241-280 | when no entry loads a migration the run derives, the loop is the upsert of the derivations against the starting store, up to the first entry that does not derive |
| Synthesis.FromAgreeingCons | src/MigrationDeriver.php:241-280 | the step of UpsertEachFromAgreeing for one entry |
| Synthesis.UpsertEachStep | src/MigrationDeriver.php:275-279 | upserting a derived id keeps agreement outside the derived ids |
| Synthesis.RunAgreesOutside | src/MigrationDeriver.php:241-280 | a run changes only migrations whose ids it derives |
| Synthesis.CreateAllIdempotent | src/MigrationDeriver.php:231-283 | a second createAll with the same request leaves the store and the outcome as the first left them |
| Synthesis.CreateAllOutcome | src/MigrationDeriver.php:231-283 | createAll is skipped, and changes nothing, iff the request is disabled or inactive; it completes iff every entry derives; otherwise it fails at the first entry that does not |
| Synthesis.CreateAllOverlay | src/MigrationDeriver.php:241-280 | after an active request's run, the store is the old store with each derived definition laid over its id |
| Synthesis.DerivationsDistinct | src/MigrationDeriver.php:243 | distinct mapping names derive distinct ids |
| Synthesis.CreateAllStores | src/MigrationDeriver.php:275-279 | each entry the run gets through is stored under its derived id as derived, with the properties the stored migration already had that createAll does not set |
| Synthesis.DeleteAfterCreate | src/MigrationDeriver.php:288-297 | deleting the group after a completed createAll leaves what deleting it before would have, minus the derived ids |
| Synthesis.RunIdsGrouped | src/MigrationDeriver.php:241-280 | after a completed run, every derived id is stored in the group |
| Synthesis.DeleteAfterCreateAt | src/MigrationDeriver.php:288-297 | the per-id step of DeleteAfterCreate |
| MigrationDeriver.ReplaceAfter | src/MigrationDeriver.php:191-194 | writing an element through the by-reference loop variable replaces it in place |
| MigrationDeriver.Deriver.constructor | src/MigrationDeriver.php:61-73 | the deriver starts on the given migration storage, group deriver and existing groups, with no invalidation yet |
| MigrationDeriver.Deriver.GetUsedColumns | src/MigrationDeriver.php:78-107 | the nested loops yield exactly the used columns, in order |
| MigrationDeriver.Deriver.PipelineUsedColumns | src/MigrationDeriver.php:96-105 | the loop over one pipeline yields its non-internal source names |
| MigrationDeriver.Deriver.KeepColumns | src/MigrationDeriver.php:100-104 | the innermost loop keeps exactly the names without a leading `@` |
| MigrationDeriver.Deriver.MapDependencies | src/MigrationDeriver.php:122-139 | the loop computes the remapped dependency lists |
| MigrationDeriver.Deriver.RenameSameGroup | src/MigrationDeriver.php:129-133 | the inner loop computes the same-group renaming of one list |
| MigrationDeriver.Deriver.MapStepMigrations | src/MigrationDeriver.php:183-210 | the generator yields the mapped pipeline |
| MigrationDeriver.Deriver.MapStepMigration | src/MigrationDeriver.php:185-207 | the loop body maps one step |
| MigrationDeriver.Deriver.RenameLookups | src/MigrationDeriver.php:191-199 | the by-reference loop computes the renamed list and the moved source_ids |
| MigrationDeriver.Deriver.MapPipelineMigrations | src/MigrationDeriver.php:222-226 | the generator yields the mapped process map |
| MigrationDeriver.Deriver.CreateAll | src/MigrationDeriver.php:231-283 | the store and outcome are those of createAll for the request's group; the cache is invalidated once iff the run completes |
| MigrationDeriver.Deriver.DeleteAll | src/MigrationDeriver.php:288-297 | the group's migrations are removed and the cache is invalidated once |
| MigrationDeriver.Deriver.InvalidateTags | src/MigrationDeriver.php:302-306 | the cache is invalidated once and the store is unchanged |
| Spreadsheet.Merge | src/Plugin/migrate/source/Spreadsheet.php:67-96 | (definition) NestedArray::mergeDeep of the defaults with the supplied configuration; key by key in MergeOverrides |
| Spreadsheet.MergeOverrides | src/Plugin/migrate/source/Spreadsheet.php:67-96 | with nothing supplied, the merge is the defaults; a supplied key wins and an absent key keeps its default (header row 0, no columns, no keys) |
| Spreadsheet.StoredStable | src/Plugin/migrate/source/Spreadsheet.php:81-96 | getConfiguration after setConfiguration gives the merge given to setConfiguration; storing twice equals storing once |
| Spreadsheet.Describe | src/Plugin/migrate/source/Spreadsheet.php:101-103 | (definition) __toString on the stored configuration; its parts in DescribeParts |
| Spreadsheet.DescribeParts | src/Plugin/migrate/source/Spreadsheet.php:101-103 | the description is the file, a colon, then the worksheet, with null read as empty |
| Spreadsheet.DescribeInjective | src/Plugin/migrate/source/Spreadsheet.php:101-103 | when file names have no colon, equal descriptions mean equal file and worksheet |
| Spreadsheet.ColonAtAfter | src/Plugin/migrate/source/Spreadsheet.php:102 | in a description whose file has no colon, the first colon is right after the file |
| Spreadsheet.GetIds | src/Plugin/migrate/source/Spreadsheet.php:108-121 | configured keys are returned as they are; with none, a truthy row index column gives one integer id; otherwise the missing-row-index error |
| Spreadsheet.FieldNames | src/Plugin/migrate/source/Spreadsheet.php:129-137 | (definition) the names fields() combines: columns else headers, then the row index column when truthy; stated in FieldNamesOrder |
| Spreadsheet.FieldNamesOrder | src/Plugin/migrate/source/Spreadsheet.php:129-137 | the names are the configured columns (or the headers when none), in order, with the row index column appended when it is truthy |
| Spreadsheet.Combine | src/Plugin/migrate/source/Spreadsheet.php:138 | array_combine succeeds iff the counts match, and otherwise reports both counts |
| Spreadsheet.CombineDistinct | src/Plugin/migrate/source/Spreadsheet.php:138 | with distinct keys, array_combine pairs keys with values by position |
| Spreadsheet.FieldMap | src/Plugin/migrate/source/Spreadsheet.php:138 | (definition) array_combine of the names with themselves; stated in FieldMapShape |
| Spreadsheet.FieldMapShape | src/Plugin/migrate/source/Spreadsheet.php:138 | the field list maps each name to itself, holds each name once, and holds only the given names |
| Spreadsheet.FirstNamed | src/Plugin/migrate/source/Spreadsheet.php:179-183 | the position of the first sheet with exactly the configured name, or none when no sheet has it |
| Spreadsheet.FindSheet | src/Plugin/migrate/source/Spreadsheet.php:168-186 | a CSV file gives its first sheet; otherwise the first sheet with the configured name; the not-found error iff there is none |
| Spreadsheet.FirstRowAt | src/Plugin/migrate/source/Spreadsheet.php:189-193 | the position of the first row with the given index, or none |
| Spreadsheet.FindHeaders | src/Plugin/migrate/source/Spreadsheet.php:188-196 | the cells of the first row at the header index; the header-not-found error iff there is no such row |
| Spreadsheet.RowValues | src/Plugin/migrate/source/Spreadsheet.php:207-210 | the row's cell values in order, then the row index when the row index column is truthy |
| Spreadsheet.DataRows | src/Plugin/migrate/source/Spreadsheet.php:202-205 | exactly the rows with an index past the header row are kept, and never more rows than were given |
| Spreadsheet.DataRowsAppend | src/Plugin/migrate/source/Spreadsheet.php:202-205 | selecting the data rows distributes over concatenation, so the kept rows stay in their original order |
| Spreadsheet.Records | src/Plugin/migrate/source/Spreadsheet.php:202-213 | (definition) the generator over the rows: rows at or before the header skipped, each data row combined with the fields, the first error ending it; stated in RecordsOfDataRows and RecordsStopAtMisfit |
| Spreadsheet.ZipsDataCons | src/Plugin/migrate/source/Spreadsheet.php:212 | a fitting row's record can be put in front of records that pair data rows |
| Spreadsheet.RecordsHead | src/Plugin/migrate/source/Spreadsheet.php:202-213 | the records of a row list are the first row's record, if it is a data row, followed by the records of the rest |
| Spreadsheet.RecordsOfDataRows | src/Plugin/migrate/source/Spreadsheet.php:201-214 | with distinct field names, the records yielded pair the field names by position with the values of the data rows, in order; a run that ends without error yields exactly one record per data row |
| Spreadsheet.EndsAtMisfit | src/Plugin/migrate/source/Spreadsheet.php:212 | (predicate) the run stops with a count mismatch exactly at the first data row whose values do not match the field count; a run without error has one record per data row |
| Spreadsheet.EndsAtMisfitCons | src/Plugin/migrate/source/Spreadsheet.php:212 | a fitting row can be put in front of a run that ends at a misfit |
| Spreadsheet.RecordsStopAtMisfit | src/Plugin/migrate/source/Spreadsheet.php:201-214 | the iteration yields one record per data row before the first data row of the wrong width, and ends there with the count mismatch; with no such row it ends without error, having yielded one record for every data row |
| Spreadsheet.TitleDateScenario | src/Plugin/migrate/source/Spreadsheet.php:201-214 | a header row `title, date` and two data rows yield the two expected records |
| Spreadsheet.Iterate | src/Plugin/migrate/source/Spreadsheet.php:201-214 | (definition) the worksheet's error, or the records of its rows under the field list fields() gives; the class's InitializeIterator is proved equal to it |
| Spreadsheet.RecordsAt | src/Plugin/migrate/source/Spreadsheet.php:202-213 | the records from row `i` on depend on row `i` and the records from `i + 1` on |
| Spreadsheet.Join | src/Plugin/migrate/source/Spreadsheet.php:212 | records yielded earlier come before the rest, and the rest's error ends the run |
| Spreadsheet.RecordsSkip | src/Plugin/migrate/source/Spreadsheet.php:203-205 | skipping a row at or before the header yields nothing for it |
| Spreadsheet.RecordsTake | src/Plugin/migrate/source/Spreadsheet.php:207-212 | a data row either yields its record or ends the run with the error from fields() or array_combine |
| Spreadsheet.RecordsTakeHere | src/Plugin/migrate/source/Spreadsheet.php:207-212 | the records from a data row on start with that row's record or end with its error |
| Spreadsheet.JoinJoin | src/Plugin/migrate/source/Spreadsheet.php:212 | yielding in two batches equals yielding their concatenation |
| Spreadsheet.HasDataRowExtend | src/Plugin/migrate/source/Spreadsheet.php:203 | a prefix has a data row iff the shorter prefix has one or the new row is past the header |
| Spreadsheet.FieldListDistinct | src/Plugin/migrate/source/Spreadsheet.php:128-142 | the field list computed from the configuration or the headers has no repeated name |
| Spreadsheet.IsFieldMap | src/Plugin/migrate/source/Spreadsheet.php:138 | (predicate) a field list with each name once, mapped to itself |
| Spreadsheet.FieldsOfIsFieldMap | src/Plugin/migrate/source/Spreadsheet.php:128-142 | whatever field list fields() builds is a field map |
| Spreadsheet.RecordsOfFieldMap | src/Plugin/migrate/source/Spreadsheet.php:201-214 | a field map's names are distinct, so over any field map (a memoised one included) the records pair its names with each data row, one record per data row when the run ends without error |
| Spreadsheet.OpenReaderAt | src/Plugin/migrate/source/Spreadsheet.php:146-155 | (definition) openReader on the reader property: the held reader, or the file opened and held; an uninitialised property throws |
| Spreadsheet.CloseReaderAsWritten | src/Plugin/migrate/source/Spreadsheet.php:157-162 | (definition) closeReader as written: an open reader is closed and the property unset, leaving it uninitialised |
| Spreadsheet.CloseReaderAt | src/Plugin/migrate/source/Spreadsheet.php:157-162 | (definition) closeReader as intended: an open reader is closed and the property set back to null |
| Spreadsheet.CloseAsWrittenBreaksReuse | src/Plugin/migrate/source/Spreadsheet.php:157-162 | as written, closing an open reader leaves the property uninitialised; a later close or open then throws |
| Spreadsheet.CloseReaderReopens | src/Plugin/migrate/source/Spreadsheet.php:146-162 | as intended, closing from any reachable state succeeds, a second close does nothing, and a later open opens the file again |
| SpreadsheetSource.Source.constructor | src/Plugin/migrate/source/Spreadsheet.php:30-34 | the source starts with the given configuration and files, no field memo and no reader, and Valid |
| SpreadsheetSource.Source.Valid | src/Plugin/migrate/source/Spreadsheet.php:123 | (invariant) a memoised field list is a field map; established by the constructor and kept by Fields, InitializeIterator, EmitRows and NextRecord |
| SpreadsheetSource.Source.SetConfiguration | src/Plugin/migrate/source/Spreadsheet.php:81-86 | the stored configuration is the merge of the defaults with the one given; the memo and the reader are unchanged |
| SpreadsheetSource.Source.OpenReader | src/Plugin/migrate/source/Spreadsheet.php:146-155 | returns the held reader, or opens the configured file and holds it |
| SpreadsheetSource.Source.CloseReader | src/Plugin/migrate/source/Spreadsheet.php:157-162 | the reader is released (corrected form, see Findings); nothing else changes |
| SpreadsheetSource.Source.GetWorksheet | src/Plugin/migrate/source/Spreadsheet.php:168-186 | the sheet the configuration selects, or the error of opening or finding it; the reader is left open |
| SpreadsheetSource.Source.GetHeaders | src/Plugin/migrate/source/Spreadsheet.php:188-196 | the header row's cells, or the error of finding the sheet or the row |
| SpreadsheetSource.Source.Fields | src/Plugin/migrate/source/Spreadsheet.php:128-142 | a memoised field list is returned as it is; otherwise the field list is computed, memoised on success, and returned; Valid is kept |
| SpreadsheetSource.Source.InitializeIterator | src/Plugin/migrate/source/Spreadsheet.php:201-214 | the records yielded and the ending error are those of the iteration over the configured sheet; the field memo is set iff a data row was reached |
| SpreadsheetSource.Source.EmitRows | src/Plugin/migrate/source/Spreadsheet.php:202-213 | the loop over the rows yields the records of the rows; the memo is set iff a data row was reached |
| SpreadsheetSource.Source.NextRecord | src/Plugin/migrate/source/Spreadsheet.php:207-212 | one data row's record: the field list's error, or array_combine of the field list with the row's values |

## Left out

- Spout, the spreadsheet library, is not modelled. Format detection, cell types and the row iterator are not modelled either. A workbook is given as data: sheets of rows, each row with its iterator index and its cells as text. `toValues` is therefore the identity on text.
- `rewind`, `next` and the migrate framework's iteration around `initializeIterator` are not modelled. Re-entering the generator while it runs is not modelled either. Each call of InitializeIterator runs one whole iteration.
- Dependency injection is left out: `create`, the logger, the file system service and the entity type manager. Log messages are left out too.
- The cache backend is a counter of invalidations.
- The migration group deriver is a function field of the deriver, `groupName`. It is not part of this model.
- The `assert` that the group exists is stated as a precondition over the set of known groups (`groups`).
- `ConfigEntityBase::getConfigDependencyName` is not part of this model. It is taken to be the module's config prefix followed by the request's id.
- Loose `==` between mixed types is not modelled; group names and indexes are compared as strings and integers. Numeric-string keys in `array_combine` are not modelled either. `header_row` is assumed to be an integer.
- Spreadsheet.Combine: PHP 8 semantics are assumed, where a count mismatch in `array_combine` throws a ValueError that ends the generator. Under PHP 7.4, which the typed properties at Spreadsheet.php:123 and :144 already allow, it raises a warning and returns false; the generator then yields `false` for that row and goes on with the next one. The model's error also carries both counts, which PHP's message does not.
- Spreadsheet.Records: ends at a count mismatch under the same PHP 8 assumption, and so do RecordsStopAtMisfit and SpreadsheetSource.Source.EmitRows.
- PHP warnings are not modelled. A missing source_ids entry for a renamed migration is read as null (`IdList.NullIds`).
- The key order of `dependencies` maps is not modelled, because they are Dafny maps. `array_merge_recursive` is modelled only for the shape it is called with: the request is appended under `enforced`/`config`.
- `__destruct` only calls closeReader and is not modelled separately.
- The getters of `Request.php` are not modelled. Only the fields createAll reads are modelled: status, active and mappings.
- `SpreadsheetSource.Source.ToString`, `GetConfiguration` and `GetIds` delegate to `Spreadsheet.Describe`, `Merge` and `Spreadsheet.GetIds`. Their properties are stated there.
- The commented-out `columns` line of createAll is not modelled; a derived migration's source is empty.
- CreateAllIdempotent: proved only when no entry of the request loads a migration that the same run derives (`SelfContained`). Without that, a later entry can read a definition that an earlier entry just wrote.
- CreateAllOutcome: proved under the same `SelfContained` hypothesis.
- CreateAllOverlay: proved under the same `SelfContained` hypothesis.
- CreateAllStores: proved under the same `SelfContained` hypothesis, and with distinct mapping names.
- RenameEntriesMovesIds: proved only when the listed migrations are distinct, each renamed one has a source_ids entry, and no derived name is already listed or already a key (`CleanMoves`). Otherwise one move can overwrite another.
- GetUsedColumns: requires every source_ids value to be a list, as `yield from` does.
- Remap.MapStep: for a list of migrations, its own contract states only that the length is kept. The renaming of each element and the moves of source_ids entries are stated in RenameEntriesIds and RenameEntriesMovesIds.

## Findings

| source | as written | input that shows it | evidently intended | confidence | as-written member | corrected member |
|---|---|---|---|---|---|---|
| src/Plugin/migrate/source/Spreadsheet.php:157-162 | `closeReader` calls `unset($this->reader)` on a typed property. This leaves the property uninitialised, not null, so the next `openReader` or `closeReader` that reads it throws | open the reader, close it, then open it again (or close it a second time, for example from `__destruct`) | set the property back to null, so that closing is idempotent and a later open reopens the file | not executed | Spreadsheet.CloseAsWrittenBreaksReuse | Spreadsheet.CloseReaderReopens |
