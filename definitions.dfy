/**
 * The records the migration deriver reads and writes: process steps,
 * migration definitions (migrate_plus config entities) and the ingest
 * request entity.
 */
module Definitions {
  import opened Wrappers
  import opened Assoc

  /** A step's `source` parameter: one name, or a list of names. */
  datatype SourceValue = Scalar(name: string) | Names(names: seq<string>)

  /** A step's `migration` parameter: absent (or not a string or array), one id, or a list of ids. */
  datatype MigrationRef = NoRef | One(id: string) | Many(ids: seq<string>)

  /**
   * A value under a step's `source_ids`: the id fields of one looked-up
   * migration, or PHP null (what a read of a missing key produces).
   */
  datatype IdList = Ids(names: seq<string>) | NullIds

  /**
   * A process step. `plugin` is None when the step names no plugin; the
   * parameters the deriver does not look at are kept in `params`.
   */
  datatype Step = Step(
    plugin: Option<string>,
    source: Option<SourceValue>,
    sourceIds: Option<Assoc<IdList>>,
    migration: MigrationRef,
    params: map<string, string>)

  /**
   * The `dependencies` property: the plain kinds (module, config, ...) and
   * the `enforced` sub-array, each a map from kind to a list of names.
   */
  datatype Dependencies = Dependencies(
    declared: map<string, seq<string>>,
    enforced: map<string, seq<string>>)

  /**
   * A migration definition. `labelText` is its label, `group` is `migration_group`, the empty string
   * when unset; `other` holds the entity's remaining properties, which
   * the deriver never sets.
   */
  datatype Migration = Migration(
    id: string,
    labelText: string,
    group: string,
    source: map<string, string>,
    process: Assoc<seq<Step>>,
    destination: map<string, string>,
    dependencies: Dependencies,
    migrationDependencies: Assoc<seq<string>>,
    other: map<string, string>)

  /** One field's mapping inside a request: its process pipeline. */
  datatype FieldMapping = FieldMapping(pipeline: seq<Step>)

  /** What a request says about one derived migration. */
  datatype MigrationMapping = MigrationMapping(
    originalMigrationId: string,
    mappings: Assoc<FieldMapping>)

  /**
   * The ingest request: `status` is the config entity's enabled flag,
   * `mappings` maps a migration name to its mapping and is None until the
   * user has mapped the sheet.
   */
  datatype Request = Request(
    id: string,
    status: bool,
    active: bool,
    mappings: Option<Assoc<MigrationMapping>>)

  /** The dependency kind of a config entity. */
  const ConfigDependencyKey: string := "config"

  /** The config name of a request: provider, config prefix, id. */
  function ConfigDependencyName(r: Request): (name: string)
    ensures |name| > |r.id| && name[|name| - |r.id|..] == r.id
  {
    "islandora_spreadsheet_ingest.request." + r.id
  }
}
