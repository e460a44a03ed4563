/**
 * The MigrationDeriver service: the migration store it loads from and
 * saves to, and the cache invalidations it issues. Each method walks the
 * request and the stored migrations the way the service does and is proved
 * to compute what the functions of Remap and Synthesis specify.
 */
module MigrationDeriver {
  import opened Wrappers
  import opened Assoc
  import opened Definitions
  import opened Remap
  import Synthesis

  /** Writing the element right after a prefix: the prefix, the new element, the rest. */
  lemma ReplaceAfter<T>(prefix: seq<T>, rest: seq<T>, x: T)
    requires rest != []
    ensures (prefix + rest)[|prefix| := x] == prefix + [x] + rest[1..]
    ensures x == rest[0] ==> prefix + rest == prefix + [x] + rest[1..]
  {
    assert rest == [rest[0]] + rest[1..];
  }

  class Deriver {
    /** The migration config entities, by id. */
    var store: Store
    /** How many times the "migration_plugins" cache tag has been invalidated. */
    var invalidations: nat
    /** The migration group deriver's naming of a request's group. */
    const groupName: Request -> string
    /** The ids of the migration group config entities. */
    const groups: set<string>

    constructor(store: Store, groupName: Request -> string, groups: set<string>)
      ensures this.store == store && this.groupName == groupName && this.groups == groups && invalidations == 0
    {
      this.store := store;
      this.groupName := groupName;
      this.groups := groups;
      invalidations := 0;
    }

    /** getUsedColumns: every column the pipelines read, internal references left out. */
    method GetUsedColumns(mappings: Assoc<FieldMapping>) returns (columns: seq<string>)
      requires FieldsScrapable(mappings)
      ensures columns == UsedColumns(mappings)
    {
      columns := [];
      for i := 0 to |mappings|
        invariant columns == WithoutInternal(MappingColumns(mappings[..i]))
      {
        var pipelineColumns := PipelineUsedColumns(mappings[i].1.pipeline);
        columns := columns + pipelineColumns;
        assert mappings[..i + 1][..i] == mappings[..i];
        WithoutInternalAppend(MappingColumns(mappings[..i]), PipelineColumns(mappings[i].1.pipeline));
      }
      assert mappings[..|mappings|] == mappings;
    }

    /** The middle loop of getUsedColumns, over one field's pipeline. */
    method PipelineUsedColumns(pipeline: seq<Step>) returns (columns: seq<string>)
      requires PipelineScrapable(pipeline)
      ensures columns == WithoutInternal(PipelineColumns(pipeline))
    {
      columns := [];
      for j := 0 to |pipeline|
        invariant columns == WithoutInternal(PipelineColumns(pipeline[..j]))
      {
        var kept := KeepColumns(StepColumns(pipeline[j]));
        columns := columns + kept;
        assert pipeline[..j + 1][..j] == pipeline[..j];
        WithoutInternalAppend(PipelineColumns(pipeline[..j]), StepColumns(pipeline[j]));
      }
      assert pipeline[..|pipeline|] == pipeline;
    }

    /** The innermost loop of getUsedColumns: yield each name a mapper gives unless it starts with '@'. */
    method KeepColumns(names: seq<string>) returns (kept: seq<string>)
      ensures kept == WithoutInternal(names)
    {
      kept := [];
      for k := 0 to |names|
        invariant kept == WithoutInternal(names[..k])
      {
        assert names[..k + 1][..k] == names[..k];
        if !IsInternal(names[k]) {
          kept := kept + [names[k]];
        }
      }
      assert names[..|names|] == names;
    }

    /** mapDependencies: each kind's list keeps only the same-group migrations, renamed into `mg`. */
    method MapDependencies(mig: Migration, mg: string) returns (deps: Assoc<seq<string>>)
      requires ListsStored(store, mig.migrationDependencies)
      ensures deps == Remap.MapDependencies(store, mig, mg)
    {
      var types := mig.migrationDependencies;
      deps := [];
      for i := 0 to |types|
        invariant deps == PutAll(RenamedLists(store, mig, mg, types[..i]))
      {
        var renamed := RenameSameGroup(types[i].1, mig, mg);
        MapDependenciesStep(store, mig, mg, types, i);
        deps := Put(deps, types[i].0, renamed);
      }
      assert types[..|types|] == types;
    }

    /** The inner loop of mapDependencies, over one dependency type's list. */
    method RenameSameGroup(ids: seq<string>, mig: Migration, mg: string) returns (renamed: seq<string>)
      requires AllStored(store, ids)
      ensures renamed == SameGroupRenamed(store, mig, mg, ids)
    {
      renamed := [];
      for j := 0 to |ids|
        invariant renamed == SameGroupRenamed(store, mig, mg, ids[..j])
      {
        assert ids[..j + 1][..j] == ids[..j];
        if SameMigrationGroup(store, mig, ids[j]) {
          renamed := renamed + [DeriveMigrationName(mg, ids[j])];
        }
      }
      assert ids[..|ids|] == ids;
    }

    /** mapStepMigrations: the steps with their same-group lookups renamed into `mg`. */
    method MapStepMigrations(steps: seq<Step>, mig: Migration, mg: string) returns (mapped: seq<Step>)
      requires PipelineStored(store, steps)
      ensures mapped == MapSteps(store, mig, mg, steps)
    {
      mapped := [];
      for i := 0 to |steps|
        invariant mapped == MapSteps(store, mig, mg, steps[..i])
      {
        var step := MapStepMigration(steps[i], mig, mg);
        assert steps[..i + 1][..i] == steps[..i];
        mapped := mapped + [step];
      }
      assert steps[..|steps|] == steps;
    }

    /** The body of mapStepMigrations' loop, for one step. */
    method MapStepMigration(step: Step, mig: Migration, mg: string) returns (r: Step)
      requires StepTargetsStored(store, step)
      ensures r == MapStep(store, mig, mg, step)
    {
      r := step;
      if PluginOf(step) == LookupPlugin {
        match step.migration
        case Many(ids) =>
          var names, sids := RenameLookups(ids, step.sourceIds, mig, mg);
          r := step.(migration := Many(names), sourceIds := sids);
        case One(id) =>
          if SameMigrationGroup(store, mig, id) {
            r := step.(migration := One(DeriveMigrationName(mg, id)));
          }
        case NoRef =>
      }
    }

    /**
     * The by-reference loop of mapStepMigrations over a lookup's migration
     * list: each same-group name is renamed in place and its `source_ids`
     * entry moved to the new name.
     */
    method RenameLookups(ids: seq<string>, sourceIds: Option<Assoc<IdList>>, mig: Migration, mg: string)
      returns (names: seq<string>, sids: Option<Assoc<IdList>>)
      requires AllStored(store, ids)
      ensures (names, sids) == RenameEntries(store, mig, mg, ids, sourceIds)
    {
      names := ids;
      sids := sourceIds;
      for j := 0 to |ids|
        invariant names == RenameEntries(store, mig, mg, ids[..j], sourceIds).0 + ids[j..]
        invariant sids == RenameEntries(store, mig, mg, ids[..j], sourceIds).1
      {
        RenameEntriesStep(store, mig, mg, ids, sourceIds, j);
        ghost var done := RenameEntries(store, mig, mg, ids[..j], sourceIds).0;
        ghost var entry := RenameEntry(store, mig, mg, ids[j], sids);
        ReplaceAfter(done, ids[j..], entry.0);
        assert |done| == j && names[j] == ids[j];
        if SameMigrationGroup(store, mig, names[j]) {
          var oldName := names[j];
          names := names[j := DeriveMigrationName(mg, oldName)];
          var a := IdsOf(sids);
          sids := Some(Remove(Put(a, names[j], ReadIds(a, oldName)), oldName));
          assert sids == entry.1;
        } else {
          assert sids == entry.1;
        }
        assert ids[j..][1..] == ids[j + 1..];
        assert names == done + [entry.0] + ids[j + 1..];
      }
      assert ids[..|ids|] == ids;
      ghost var renamed := RenameEntries(store, mig, mg, ids, sourceIds).0;
      assert names == renamed + ids[|ids|..] == renamed;
    }

    /** mapPipelineMigrations: every field's pipeline mapped, keyed by field name. */
    method MapPipelineMigrations(fields: Assoc<FieldMapping>, mig: Migration, mg: string) returns (process: Assoc<seq<Step>>)
      requires FieldsStored(store, fields)
      ensures process == MapPipelines(store, mig, mg, fields)
    {
      process := [];
      for i := 0 to |fields|
        invariant process == PutAll(RenamedPipelines(store, mig, mg, fields[..i]))
      {
        var steps := MapStepMigrations(fields[i].1.pipeline, mig, mg);
        MapPipelinesStep(store, mig, mg, fields, i);
        process := Put(process, fields[i].0, steps);
      }
      assert fields[..|fields|] == fields;
    }

    /**
     * createAll: for an active request, derive and upsert a migration per
     * mapping entry into the request's group, then invalidate the cache.
     * A missing migration ends the call at that entry (`Failed`), with the
     * entries before it saved and no invalidation.
     */
    method CreateAll(request: Request) returns (outcome: Synthesis.CreateOutcome)
      requires request.status && request.active ==> groupName(request) in groups
      modifies this
      ensures var run := Synthesis.CreateAll(old(store), request, groupName(request));
        && store == run.store && outcome == run.outcome
        && invalidations == old(invalidations) + if outcome == Synthesis.Created then 1 else 0
    {
      if !request.status || !request.active {
        return Synthesis.Skipped;
      }
      var mg := groupName(request);
      var entries := Synthesis.MappingsOf(request);
      ghost var s0 := store;
      for i := 0 to |entries|
        invariant Synthesis.UpsertEach(s0, request, mg, entries) == Synthesis.UpsertEach(store, request, mg, entries[i..])
        invariant invalidations == old(invalidations)
      {
        var name := entries[i].0;
        var info := entries[i].1;
        assert entries[i..][0] == entries[i] && entries[i..][1..] == entries[i + 1..];
        if info.originalMigrationId !in store
          || !FieldsStored(store, info.mappings)
          || !ListsStored(store, store[info.originalMigrationId].migrationDependencies)
        {
          return Synthesis.Failed(name);
        }
        var original := store[info.originalMigrationId];
        var derived := DeriveMigrationName(mg, name);
        var process := MapPipelineMigrations(info.mappings, original, mg);
        var dependencies := MapDependencies(original, mg);
        var m := Migration(
          id := derived,
          labelText := original.labelText,
          group := mg,
          source := map[],
          process := process,
          destination := original.destination,
          dependencies := Synthesis.WithEnforced(original.dependencies, ConfigDependencyKey, ConfigDependencyName(request)),
          migrationDependencies := dependencies,
          other := if derived in store then store[derived].other else map[]);
        store := store[derived := m];
      }
      assert entries[|entries|..] == [];
      InvalidateTags();
      outcome := Synthesis.Created;
    }

    /** deleteAll: delete every migration of the request's group, then invalidate the cache. */
    method DeleteAll(request: Request)
      modifies this
      ensures store == Synthesis.DeleteAll(old(store), groupName(request))
      ensures invalidations == old(invalidations) + 1
    {
      var mg := groupName(request);
      var doomed := set k | k in store && store[k].group == mg;
      store := map k | k in store && k !in doomed :: store[k];
      InvalidateTags();
    }

    /** invalidateTags: invalidate the "migration_plugins" cache tag. */
    method InvalidateTags()
      modifies this
      ensures store == old(store) && invalidations == old(invalidations) + 1
    {
      invalidations := invalidations + 1;
    }
  }
}
