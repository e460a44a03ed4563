/**
 * createAll and deleteAll over the migration store: what one run derives,
 * upserts and deletes, and the properties a run has as a whole (it touches
 * only its own group, a second run changes nothing, deleting the group
 * removes everything a run created).
 */
module Synthesis {
  import opened Wrappers
  import opened Assoc
  import opened Definitions
  import opened Remap

  /** How a call to createAll ended. `Failed(name)` is the fatal error raised while deriving `name`. */
  datatype CreateOutcome = Skipped | Created | Failed(name: string)

  /** The store after a call, and how the call ended. */
  datatype Run = Run(store: Store, outcome: CreateOutcome)

  /**
   * array_merge_recursive of a migration's dependencies with
   * `['enforced' => [key => [name]]]`: the name is appended to the enforced
   * list of that kind.
   */
  function WithEnforced(deps: Dependencies, key: string, name: string): Dependencies {
    var before := if key in deps.enforced then deps.enforced[key] else [];
    deps.(enforced := deps.enforced[key := before + [name]])
  }

  /**
   * The merged dependencies still list everything the original lists, under
   * the same kind, and list `name` as an enforced dependency of kind `key`.
   */
  lemma WithEnforcedContains(deps: Dependencies, key: string, name: string)
    ensures var r := WithEnforced(deps, key, name);
      && r.declared == deps.declared
      && key in r.enforced && name in r.enforced[key]
      && forall k :: k in deps.enforced ==> k in r.enforced && forall x :: x in deps.enforced[k] ==> x in r.enforced[k]
  {
  }

  /**
   * Every migration that deriving from `info` loads is stored: the
   * original, the targets of its pipelines' lookups and the original's
   * migration dependencies. Otherwise createAll calls a method on null.
   */
  predicate Resolvable(store: Store, info: MigrationMapping) {
    && info.originalMigrationId in store
    && FieldsStored(store, info.mappings)
    && ListsStored(store, store[info.originalMigrationId].migrationDependencies)
  }

  /** The definition createAll assembles for the request's migration `name`. */
  function DeriveMigration(store: Store, request: Request, mg: string, name: string, info: MigrationMapping)
    : (r: Option<Migration>)
    ensures r.Some? <==> Resolvable(store, info)
    ensures r.Some? ==> r.value.id == DeriveMigrationName(mg, name) && r.value.group == mg
    ensures r.Some? ==>
      var original := store[info.originalMigrationId];
      && r.value.labelText == original.labelText && r.value.destination == original.destination
      && r.value.source == map[]
      && r.value.migrationDependencies == MapDependencies(store, original, mg)
      && r.value.process == MapPipelines(store, original, mg, info.mappings)
      && r.value.dependencies == WithEnforced(original.dependencies, ConfigDependencyKey, ConfigDependencyName(request))
  {
    if !Resolvable(store, info) then None
    else
      var original := store[info.originalMigrationId];
      Some(Migration(
        id := DeriveMigrationName(mg, name),
        labelText := original.labelText,
        group := mg,
        source := map[],
        process := MapPipelines(store, original, mg, info.mappings),
        destination := original.destination,
        dependencies := WithEnforced(original.dependencies, ConfigDependencyKey, ConfigDependencyName(request)),
        migrationDependencies := MapDependencies(store, original, mg),
        other := map[]))
  }

  /** The properties a stored migration under `k` keeps when it is loaded and re-set. */
  function OtherOf(store: Store, k: string): map<string, string> {
    if k in store then store[k].other else map[]
  }

  /** Load-or-create by id, set every derived property, save. */
  function Upsert(store: Store, m: Migration): (r: Store)
    ensures r.Keys == store.Keys + {m.id}
    ensures r[m.id] == m.(other := if m.id in store then store[m.id].other else map[])
    ensures forall k :: k in store && k != m.id ==> r[k] == store[k]
  {
    store[m.id := m.(other := OtherOf(store, m.id))]
  }

  /** The loop of createAll: derive and upsert entry after entry; stop at the first fatal error. */
  function UpsertEach(store: Store, request: Request, mg: string, entries: Assoc<MigrationMapping>): (r: Run)
    ensures r.outcome != Skipped
    ensures store.Keys <= r.store.Keys
    ensures r.outcome.Failed? ==> r.outcome.name in Keys(entries)
    decreases |entries|
  {
    if entries == [] then Run(store, Created)
    else
      match DeriveMigration(store, request, mg, entries[0].0, entries[0].1)
      case None => Run(store, Failed(entries[0].0))
      case Some(m) => UpsertEach(Upsert(store, m), request, mg, entries[1..])
  }

  /** The request's mappings; a request not yet mapped has none. */
  function MappingsOf(request: Request): Assoc<MigrationMapping> {
    match request.mappings
    case Some(entries) => entries
    case None => []
  }

  /** createAll for a request whose derived group is `mg`. */
  function CreateAll(store: Store, request: Request, mg: string): (r: Run)
    ensures r.outcome == Skipped <==> !request.status || !request.active
    ensures r.outcome == Skipped ==> r.store == store
    ensures store.Keys <= r.store.Keys
    ensures r.outcome.Failed? ==> r.outcome.name in Keys(MappingsOf(request))
  {
    if !request.status || !request.active then Run(store, Skipped)
    else UpsertEach(store, request, mg, MappingsOf(request))
  }

  /** deleteAll for a request whose derived group is `mg`. */
  function DeleteAll(store: Store, mg: string): (r: Store)
    ensures r.Keys <= store.Keys
    ensures forall k :: k in r ==> r[k].group != mg
    ensures forall k :: k in store && store[k].group != mg ==> k in r && r[k] == store[k]
  {
    map k | k in store && store[k].group != mg :: store[k]
  }

  // ---------------------------------------------------------------------
  // What a run touches

  /** `k` is the derived id of some entry. */
  ghost predicate DerivedId(mg: string, entries: Assoc<MigrationMapping>, k: string) {
    exists i :: 0 <= i < |entries| && DeriveMigrationName(mg, entries[i].0) == k
  }

  /** The store has `k` as a migration of group `mg` with id `k`. */
  predicate Grouped(store: Store, mg: string, k: string) {
    k in store && store[k].group == mg && store[k].id == k
  }

  /** A run changes no stored migration other than the derived ones. */
  lemma {:induction false} UpsertEachFrame(store: Store, request: Request, mg: string, entries: Assoc<MigrationMapping>, k: string)
    requires !DerivedId(mg, entries, k)
    ensures var s := UpsertEach(store, request, mg, entries).store;
      (k in s <==> k in store) && (k in store ==> s[k] == store[k])
    decreases |entries|
  {
    if entries != [] {
      match DeriveMigration(store, request, mg, entries[0].0, entries[0].1)
      case None =>
      case Some(m) =>
        UpsertEachFrame(Upsert(store, m), request, mg, entries[1..], k);
    }
  }

  /** A migration of the run's group stays one through the rest of the run. */
  lemma {:induction false} UpsertEachKeepsGrouped(store: Store, request: Request, mg: string, entries: Assoc<MigrationMapping>, k: string)
    requires Grouped(store, mg, k)
    ensures Grouped(UpsertEach(store, request, mg, entries).store, mg, k)
    decreases |entries|
  {
    if entries != [] {
      match DeriveMigration(store, request, mg, entries[0].0, entries[0].1)
      case None =>
      case Some(m) =>
        UpsertEachKeepsGrouped(Upsert(store, m), request, mg, entries[1..], k);
    }
  }

  /** After a run that completes, every entry's derived id holds a migration of the group. */
  lemma {:induction false} UpsertEachCreatesAll(store: Store, request: Request, mg: string, entries: Assoc<MigrationMapping>)
    requires UpsertEach(store, request, mg, entries).outcome == Created
    ensures forall i :: 0 <= i < |entries| ==>
      Grouped(UpsertEach(store, request, mg, entries).store, mg, DeriveMigrationName(mg, entries[i].0))
    decreases |entries|
  {
    if entries != [] {
      var m := DeriveMigration(store, request, mg, entries[0].0, entries[0].1).value;
      var rest := entries[1..];
      UpsertEachCreatesAll(Upsert(store, m), request, mg, rest);
      UpsertEachKeepsGrouped(Upsert(store, m), request, mg, rest, m.id);
      forall i | 0 <= i < |entries|
        ensures Grouped(UpsertEach(store, request, mg, entries).store, mg, DeriveMigrationName(mg, entries[i].0))
      {
        if i > 0 {
          assert entries[i] == rest[i - 1];
        }
      }
    }
  }

  // ---------------------------------------------------------------------
  // Runs over stores that differ only in the derived ids

  /** The two stores hold the same migrations under every id outside `D`. */
  ghost predicate AgreeOutside(s1: Store, s2: Store, D: set<string>) {
    forall k :: k !in D ==> (k in s1 <==> k in s2) && (k in s1 ==> s1[k] == s2[k])
  }

  predicate IdsAvoid(ids: seq<string>, D: set<string>) {
    forall i :: 0 <= i < |ids| ==> ids[i] !in D
  }

  predicate ListsAvoid(types: Assoc<seq<string>>, D: set<string>) {
    forall i :: 0 <= i < |types| ==> IdsAvoid(types[i].1, D)
  }

  predicate StepAvoids(step: Step, D: set<string>) {
    PluginOf(step) == LookupPlugin ==>
      match step.migration
      case NoRef => true
      case One(id) => id !in D
      case Many(ids) => IdsAvoid(ids, D)
  }

  predicate PipelineAvoids(steps: seq<Step>, D: set<string>) {
    forall i :: 0 <= i < |steps| ==> StepAvoids(steps[i], D)
  }

  predicate FieldsAvoid(fields: Assoc<FieldMapping>, D: set<string>) {
    forall i :: 0 <= i < |fields| ==> PipelineAvoids(fields[i].1.pipeline, D)
  }

  /** No migration that deriving from `info` loads has an id in `D`. */
  predicate MappingAvoids(store: Store, info: MigrationMapping, D: set<string>) {
    && info.originalMigrationId !in D
    && FieldsAvoid(info.mappings, D)
    && (info.originalMigrationId in store ==> ListsAvoid(store[info.originalMigrationId].migrationDependencies, D))
  }

  lemma {:induction false} SameGroupRenamedFrame(s1: Store, s2: Store, mig: Migration, mg: string, ids: seq<string>, D: set<string>)
    requires AgreeOutside(s1, s2, D) && IdsAvoid(ids, D) && AllStored(s1, ids)
    ensures AllStored(s2, ids)
    ensures SameGroupRenamed(s1, mig, mg, ids) == SameGroupRenamed(s2, mig, mg, ids)
    decreases |ids|
  {
    if ids != [] {
      var n := |ids| - 1;
      SameGroupRenamedFrame(s1, s2, mig, mg, ids[..n], D);
      assert ids[n] !in D;
    }
  }

  lemma MapDependenciesFrame(s1: Store, s2: Store, mig: Migration, mg: string, D: set<string>)
    requires AgreeOutside(s1, s2, D)
    requires ListsAvoid(mig.migrationDependencies, D) && ListsStored(s1, mig.migrationDependencies)
    ensures ListsStored(s2, mig.migrationDependencies)
    ensures MapDependencies(s1, mig, mg) == MapDependencies(s2, mig, mg)
  {
    var types := mig.migrationDependencies;
    forall i | 0 <= i < |types|
      ensures AllStored(s2, types[i].1)
      ensures SameGroupRenamed(s1, mig, mg, types[i].1) == SameGroupRenamed(s2, mig, mg, types[i].1)
    {
      SameGroupRenamedFrame(s1, s2, mig, mg, types[i].1, D);
    }
    assert RenamedLists(s1, mig, mg, types) == RenamedLists(s2, mig, mg, types);
  }

  lemma {:induction false} RenameEntriesFrame(
    s1: Store, s2: Store, mig: Migration, mg: string, ids: seq<string>, sids: Option<Assoc<IdList>>, D: set<string>)
    requires AgreeOutside(s1, s2, D) && IdsAvoid(ids, D) && AllStored(s1, ids)
    ensures AllStored(s2, ids)
    ensures RenameEntries(s1, mig, mg, ids, sids) == RenameEntries(s2, mig, mg, ids, sids)
    decreases |ids|
  {
    if ids != [] {
      var n := |ids| - 1;
      RenameEntriesFrame(s1, s2, mig, mg, ids[..n], sids, D);
      assert ids[n] !in D;
    }
  }

  lemma MapStepFrame(s1: Store, s2: Store, mig: Migration, mg: string, step: Step, D: set<string>)
    requires AgreeOutside(s1, s2, D) && StepAvoids(step, D) && StepTargetsStored(s1, step)
    ensures StepTargetsStored(s2, step)
    ensures MapStep(s1, mig, mg, step) == MapStep(s2, mig, mg, step)
  {
    if PluginOf(step) == LookupPlugin && step.migration.Many? {
      RenameEntriesFrame(s1, s2, mig, mg, step.migration.ids, step.sourceIds, D);
    }
  }

  lemma {:induction false} MapStepsFrame(s1: Store, s2: Store, mig: Migration, mg: string, steps: seq<Step>, D: set<string>)
    requires AgreeOutside(s1, s2, D) && PipelineAvoids(steps, D) && PipelineStored(s1, steps)
    ensures PipelineStored(s2, steps)
    ensures MapSteps(s1, mig, mg, steps) == MapSteps(s2, mig, mg, steps)
    decreases |steps|
  {
    if steps != [] {
      var n := |steps| - 1;
      MapStepsFrame(s1, s2, mig, mg, steps[..n], D);
      MapStepFrame(s1, s2, mig, mg, steps[n], D);
    }
  }

  lemma MapPipelinesFrame(s1: Store, s2: Store, mig: Migration, mg: string, fields: Assoc<FieldMapping>, D: set<string>)
    requires AgreeOutside(s1, s2, D) && FieldsAvoid(fields, D) && FieldsStored(s1, fields)
    ensures FieldsStored(s2, fields)
    ensures MapPipelines(s1, mig, mg, fields) == MapPipelines(s2, mig, mg, fields)
  {
    forall i | 0 <= i < |fields|
      ensures PipelineStored(s2, fields[i].1.pipeline)
      ensures MapSteps(s1, mig, mg, fields[i].1.pipeline) == MapSteps(s2, mig, mg, fields[i].1.pipeline)
    {
      MapStepsFrame(s1, s2, mig, mg, fields[i].1.pipeline, D);
    }
    assert RenamedPipelines(s1, mig, mg, fields) == RenamedPipelines(s2, mig, mg, fields);
  }

  /** Deriving reads the store only at ids the mapping names. */
  lemma DeriveMigrationFrame(s1: Store, s2: Store, request: Request, mg: string, name: string, info: MigrationMapping, D: set<string>)
    requires AgreeOutside(s1, s2, D) && MappingAvoids(s1, info, D)
    ensures DeriveMigration(s1, request, mg, name, info) == DeriveMigration(s2, request, mg, name, info)
  {
    var o := info.originalMigrationId;
    assert AgreeOutside(s2, s1, D);
    if o in s1 {
      var deps := s1[o].migrationDependencies;
      if FieldsStored(s1, info.mappings) {
        MapPipelinesFrame(s1, s2, s1[o], mg, info.mappings, D);
      }
      if FieldsStored(s2, info.mappings) {
        MapPipelinesFrame(s2, s1, s1[o], mg, info.mappings, D);
      }
      if ListsStored(s1, deps) {
        MapDependenciesFrame(s1, s2, s1[o], mg, D);
      }
      if ListsStored(s2, deps) {
        MapDependenciesFrame(s2, s1, s1[o], mg, D);
      }
    }
  }

  // ---------------------------------------------------------------------
  // A sequence of upserts, and its effect in one step

  /** Upsert the migrations one after the other. */
  function UpsertAll(store: Store, ms: seq<Migration>): Store
    decreases |ms|
  {
    if ms == [] then store else UpsertAll(Upsert(store, ms[0]), ms[1..])
  }

  /** The last of the migrations with id `k`. */
  function LastWith(ms: seq<Migration>, k: string): (r: Option<Migration>)
    ensures r.Some? ==> r.value in ms && r.value.id == k
    ensures r.None? ==> forall m :: m in ms ==> m.id != k
    decreases |ms|
  {
    if ms == [] then None
    else
      match LastWith(ms[1..], k)
      case Some(m) => Some(m)
      case None => if ms[0].id == k then Some(ms[0]) else None
  }

  function IdSet(ms: seq<Migration>): set<string> {
    set m | m in ms :: m.id
  }

  /**
   * What the upserts leave, stated at once: under every id they write, the
   * last migration written with that id, keeping the properties stored
   * there before; every other id as it was.
   */
  function Overlay(store: Store, ms: seq<Migration>): Store {
    map k | k in store.Keys + IdSet(ms) ::
      match LastWith(ms, k)
      case Some(m) => m.(other := OtherOf(store, k))
      case None => store[k]
  }

  lemma LastWithCons(m: Migration, rest: seq<Migration>, k: string)
    ensures LastWith([m] + rest, k) ==
      match LastWith(rest, k)
      case Some(x) => Some(x)
      case None => if m.id == k then Some(m) else None
  {
    assert ([m] + rest)[1..] == rest;
  }

  lemma IdSetCons(m: Migration, rest: seq<Migration>)
    ensures IdSet([m] + rest) == {m.id} + IdSet(rest)
  {
    assert forall x :: x in [m] + rest <==> x == m || x in rest;
  }

  /** One upsert followed by the overlay of the rest is the overlay of all of them. */
  lemma OverlayStep(store: Store, m: Migration, rest: seq<Migration>)
    ensures Overlay(Upsert(store, m), rest) == Overlay(store, [m] + rest)
  {
    var s := Upsert(store, m);
    IdSetCons(m, rest);
    forall k | k in s.Keys + IdSet(rest)
      ensures Overlay(s, rest)[k] == Overlay(store, [m] + rest)[k]
    {
      OverlayStepAt(store, m, rest, k);
    }
  }

  lemma OverlayStepAt(store: Store, m: Migration, rest: seq<Migration>, k: string)
    requires k in Upsert(store, m).Keys + IdSet(rest)
    ensures IdSet([m] + rest) == {m.id} + IdSet(rest)
    ensures Overlay(Upsert(store, m), rest)[k] == Overlay(store, [m] + rest)[k]
  {
    IdSetCons(m, rest);
    LastWithCons(m, rest, k);
    assert OtherOf(Upsert(store, m), k) == OtherOf(store, k) || k != m.id;
  }

  lemma {:induction false} UpsertAllOverlay(store: Store, ms: seq<Migration>)
    ensures UpsertAll(store, ms) == Overlay(store, ms)
    decreases |ms|
  {
    if ms == [] {
      assert Overlay(store, ms) == store;
    } else {
      UpsertAllOverlay(Upsert(store, ms[0]), ms[1..]);
      OverlayStep(store, ms[0], ms[1..]);
      assert [ms[0]] + ms[1..] == ms;
    }
  }

  lemma OverlayTwice(store: Store, ms: seq<Migration>)
    ensures Overlay(Overlay(store, ms), ms) == Overlay(store, ms)
  {
    var once := Overlay(store, ms);
    forall k | k in once.Keys
      ensures Overlay(once, ms)[k] == once[k]
    {
      if LastWith(ms, k).Some? {
        assert OtherOf(once, k) == OtherOf(store, k);
      }
    }
  }

  lemma {:induction false} LastWithDistinct(ms: seq<Migration>, i: int)
    requires forall a, b :: 0 <= a < b < |ms| ==> ms[a].id != ms[b].id
    requires 0 <= i < |ms|
    ensures LastWith(ms, ms[i].id) == Some(ms[i])
    decreases |ms|
  {
    var rest := ms[1..];
    if i == 0 {
      assert forall m :: m in rest ==> m.id != ms[0].id;
    } else {
      LastWithDistinct(rest, i - 1);
    }
  }

  // ---------------------------------------------------------------------
  // A whole run

  predicate AllResolvable(store: Store, entries: Assoc<MigrationMapping>) {
    forall i :: 0 <= i < |entries| ==> Resolvable(store, entries[i].1)
  }

  /** How many leading entries derive without a fatal error. */
  function ResolvablePrefix(store: Store, entries: Assoc<MigrationMapping>): (p: nat)
    ensures p <= |entries|
    ensures AllResolvable(store, entries[..p])
    ensures forall i :: 0 <= i < p ==> Resolvable(store, entries[i].1)
    ensures p < |entries| ==> !Resolvable(store, entries[p].1)
    decreases |entries|
  {
    if entries == [] || !Resolvable(store, entries[0].1) then 0
    else
      var p := 1 + ResolvablePrefix(store, entries[1..]);
      assert forall j :: 1 <= j < p ==> entries[..p][j] == entries[1..][..p - 1][j - 1];
      p
  }

  /** The definitions derived from the entries, all against the same store. */
  function Derivations(store: Store, request: Request, mg: string, entries: Assoc<MigrationMapping>): (ms: seq<Migration>)
    requires AllResolvable(store, entries)
    ensures |ms| == |entries|
    ensures forall i :: 0 <= i < |entries| ==> ms[i].id == DeriveMigrationName(mg, entries[i].0) && ms[i].group == mg
  {
    seq(|entries|, i requires 0 <= i < |entries| => DeriveMigration(store, request, mg, entries[i].0, entries[i].1).value)
  }

  /** The ids a run over `entries` derives. */
  ghost function RunIds(mg: string, entries: Assoc<MigrationMapping>): set<string> {
    set i | 0 <= i < |entries| :: DeriveMigrationName(mg, entries[i].0)
  }

  /** No entry of the run loads a migration the run itself derives. */
  ghost predicate SelfContained(store: Store, mg: string, entries: Assoc<MigrationMapping>) {
    forall i :: 0 <= i < |entries| ==> MappingAvoids(store, entries[i].1, RunIds(mg, entries))
  }

  lemma UpsertAllCons(store: Store, m: Migration, rest: seq<Migration>)
    ensures UpsertAll(store, [m] + rest) == UpsertAll(Upsert(store, m), rest)
  {
    assert ([m] + rest)[1..] == rest;
  }

  /** The derivations of a prefix are the first entry's followed by those of the rest of the prefix. */
  lemma DerivationsCons(store: Store, request: Request, mg: string, entries: Assoc<MigrationMapping>, p: nat)
    requires 1 <= p <= |entries| && AllResolvable(store, entries[..p])
    ensures AllResolvable(store, entries[1..][..p - 1])
    ensures Derivations(store, request, mg, entries[..p]) ==
      [DeriveMigration(store, request, mg, entries[0].0, entries[0].1).value]
        + Derivations(store, request, mg, entries[1..][..p - 1])
  {
    var pre, tail := entries[..p], entries[1..][..p - 1];
    forall j | 0 <= j < p - 1
      ensures Resolvable(store, tail[j].1)
    {
      assert tail[j] == pre[j + 1];
    }
    var L := Derivations(store, request, mg, pre);
    var R := [DeriveMigration(store, request, mg, entries[0].0, entries[0].1).value] + Derivations(store, request, mg, tail);
    forall j | 0 <= j < p
      ensures L[j] == R[j]
    {
      if j > 0 {
        assert pre[j] == tail[j - 1];
        assert L[j] == DeriveMigration(store, request, mg, tail[j - 1].0, tail[j - 1].1).value;
      } else {
        assert pre[0] == entries[0];
      }
    }
  }

  /**
   * A run from a store that differs from `s0` only in derived ids derives
   * exactly what a run from `s0` would, and stops at the same entry.
   */
  lemma {:induction false} UpsertEachFromAgreeing(
    s: Store, s0: Store, request: Request, mg: string, entries: Assoc<MigrationMapping>, D: set<string>)
    requires AgreeOutside(s, s0, D)
    requires forall i :: 0 <= i < |entries| ==>
      DeriveMigrationName(mg, entries[i].0) in D && MappingAvoids(s0, entries[i].1, D)
    ensures var p := ResolvablePrefix(s0, entries);
      UpsertEach(s, request, mg, entries) ==
        Run(UpsertAll(s, Derivations(s0, request, mg, entries[..p])),
            if p == |entries| then Created else Failed(entries[p].0))
    decreases |entries|
  {
    if entries != [] {
      var e := entries[0];
      var rest := entries[1..];
      assert AgreeOutside(s0, s, D);
      DeriveMigrationFrame(s0, s, request, mg, e.0, e.1, D);
      if Resolvable(s0, e.1) {
        var m := DeriveMigration(s0, request, mg, e.0, e.1).value;
        assert m.id in D;
        UpsertEachStep(s, s0, m, D);
        assert forall i :: 0 <= i < |rest| ==> rest[i] == entries[i + 1];
        UpsertEachFromAgreeing(Upsert(s, m), s0, request, mg, rest, D);
        FromAgreeingCons(s, s0, request, mg, entries, m);
      } else {
        assert entries[..0] == [];
      }
    }
  }

  /** The step case of UpsertEachFromAgreeing, once the first entry has been upserted. */
  lemma FromAgreeingCons(s: Store, s0: Store, request: Request, mg: string, entries: Assoc<MigrationMapping>, m: Migration)
    requires entries != [] && Resolvable(s0, entries[0].1)
    requires m == DeriveMigration(s0, request, mg, entries[0].0, entries[0].1).value
    requires UpsertEach(s, request, mg, entries) == UpsertEach(Upsert(s, m), request, mg, entries[1..])
    requires var rest := entries[1..];
      var p := ResolvablePrefix(s0, rest);
      UpsertEach(Upsert(s, m), request, mg, rest) ==
        Run(UpsertAll(Upsert(s, m), Derivations(s0, request, mg, rest[..p])),
            if p == |rest| then Created else Failed(rest[p].0))
    ensures var p := ResolvablePrefix(s0, entries);
      UpsertEach(s, request, mg, entries) ==
        Run(UpsertAll(s, Derivations(s0, request, mg, entries[..p])),
            if p == |entries| then Created else Failed(entries[p].0))
  {
    var p := ResolvablePrefix(s0, entries);
    DerivationsCons(s0, request, mg, entries, p);
    UpsertAllCons(s, m, Derivations(s0, request, mg, entries[1..][..p - 1]));
  }

  lemma UpsertEachStep(s: Store, s0: Store, m: Migration, D: set<string>)
    requires AgreeOutside(s, s0, D) && m.id in D
    ensures AgreeOutside(Upsert(s, m), s0, D)
  {
  }

  /** The stores before and after a run agree outside the run's derived ids. */
  lemma RunAgreesOutside(store: Store, request: Request, mg: string, entries: Assoc<MigrationMapping>)
    ensures AgreeOutside(UpsertEach(store, request, mg, entries).store, store, RunIds(mg, entries))
  {
    forall k | k !in RunIds(mg, entries)
      ensures var s := UpsertEach(store, request, mg, entries).store;
        (k in s <==> k in store) && (k in s ==> s[k] == store[k])
    {
      UpsertEachFrame(store, request, mg, entries, k);
    }
  }

  /** createAll is idempotent: a second call with the same request changes nothing and ends the same way. */
  lemma CreateAllIdempotent(store: Store, request: Request, mg: string)
    requires SelfContained(store, mg, MappingsOf(request))
    ensures var first := CreateAll(store, request, mg);
      CreateAll(first.store, request, mg) == first
  {
    if request.status && request.active {
      var entries := MappingsOf(request);
      var D := RunIds(mg, entries);
      var p := ResolvablePrefix(store, entries);
      var V := Derivations(store, request, mg, entries[..p]);
      UpsertEachFromAgreeing(store, store, request, mg, entries, D);
      var s1 := UpsertAll(store, V);
      RunAgreesOutside(store, request, mg, entries);
      UpsertEachFromAgreeing(s1, store, request, mg, entries, D);
      UpsertAllOverlay(store, V);
      UpsertAllOverlay(s1, V);
      OverlayTwice(store, V);
    }
  }

  /**
   * How createAll ends: skipped for an inactive request; otherwise it fails
   * at the first entry whose migrations are not all stored, and completes
   * when there is none.
   */
  lemma CreateAllOutcome(store: Store, request: Request, mg: string)
    requires SelfContained(store, mg, MappingsOf(request))
    ensures var run := CreateAll(store, request, mg);
      var entries := MappingsOf(request);
      && (run.outcome == Skipped <==> !request.status || !request.active)
      && (run.outcome == Skipped ==> run.store == store)
      && (run.outcome == Created <==> request.status && request.active && AllResolvable(store, entries))
      && (run.outcome.Failed? ==>
            exists p :: && 0 <= p < |entries| && run.outcome.name == entries[p].0
                        && AllResolvable(store, entries[..p]) && !Resolvable(store, entries[p].1))
  {
    var entries := MappingsOf(request);
    UpsertEachFromAgreeing(store, store, request, mg, entries, RunIds(mg, entries));
    var p := ResolvablePrefix(store, entries);
    assert entries[..|entries|] == entries;
  }

  /** The store after an active request's run, stated at once. */
  lemma CreateAllOverlay(store: Store, request: Request, mg: string)
    requires request.status && request.active
    requires SelfContained(store, mg, MappingsOf(request))
    ensures var entries := MappingsOf(request);
      var p := ResolvablePrefix(store, entries);
      CreateAll(store, request, mg).store == Overlay(store, Derivations(store, request, mg, entries[..p]))
  {
    var entries := MappingsOf(request);
    var p := ResolvablePrefix(store, entries);
    UpsertEachFromAgreeing(store, store, request, mg, entries, RunIds(mg, entries));
    UpsertAllOverlay(store, Derivations(store, request, mg, entries[..p]));
  }

  /** Entries with distinct names derive migrations with distinct ids. */
  lemma DerivationsDistinct(store: Store, request: Request, mg: string, entries: Assoc<MigrationMapping>)
    requires AllResolvable(store, entries) && UniqueKeys(entries)
    ensures var V := Derivations(store, request, mg, entries);
      forall a, b :: 0 <= a < b < |V| ==> V[a].id != V[b].id
  {
    var V := Derivations(store, request, mg, entries);
    forall a, b | 0 <= a < b < |V| ensures V[a].id != V[b].id {
      if V[a].id == V[b].id {
        DerivedNamesInjective(mg, entries[a].0, entries[b].0);
      }
    }
  }

  /**
   * Each entry createAll gets through stores the definition derived from it
   * under its derived id, keeping the properties that id held before.
   */
  lemma CreateAllStores(store: Store, request: Request, mg: string, i: int)
    requires request.status && request.active
    requires SelfContained(store, mg, MappingsOf(request)) && UniqueKeys(MappingsOf(request))
    requires 0 <= i < ResolvablePrefix(store, MappingsOf(request))
    ensures var entries := MappingsOf(request);
      var k := DeriveMigrationName(mg, entries[i].0);
      var after := CreateAll(store, request, mg).store;
      k in after && after[k] == DeriveMigration(store, request, mg, entries[i].0, entries[i].1).value.(other := OtherOf(store, k))
  {
    var entries := MappingsOf(request);
    var p := ResolvablePrefix(store, entries);
    var V := Derivations(store, request, mg, entries[..p]);
    var k := DeriveMigrationName(mg, entries[i].0);
    CreateAllOverlay(store, request, mg);
    DerivationsDistinct(store, request, mg, entries[..p]);
    LastWithDistinct(V, i);
    assert entries[..p][i] == entries[i];
    assert V[i].id == k && V[i] in V;
    assert k in IdSet(V);
    assert Overlay(store, V)[k] == V[i].(other := OtherOf(store, k));
  }

  /**
   * Deleting the group after a completed run removes what deleting it
   * before would have, and every migration the run derived.
   */
  lemma DeleteAfterCreate(store: Store, request: Request, mg: string)
    requires CreateAll(store, request, mg).outcome == Created
    ensures DeleteAll(CreateAll(store, request, mg).store, mg) == DeleteAll(store, mg) - RunIds(mg, MappingsOf(request))
  {
    var entries := MappingsOf(request);
    var after := CreateAll(store, request, mg).store;
    RunAgreesOutside(store, request, mg, entries);
    RunIdsGrouped(store, request, mg);
    var D := RunIds(mg, entries);
    var left := DeleteAll(after, mg);
    var right := DeleteAll(store, mg) - D;
    forall k ensures (k in left <==> k in right) && (k in left ==> left[k] == right[k]) {
      DeleteAfterCreateAt(store, after, mg, D, k);
    }
  }

  /** After a completed run, every derived id holds a migration of the group under that id. */
  lemma RunIdsGrouped(store: Store, request: Request, mg: string)
    requires CreateAll(store, request, mg).outcome == Created
    ensures forall d :: d in RunIds(mg, MappingsOf(request)) ==> Grouped(CreateAll(store, request, mg).store, mg, d)
  {
    var entries := MappingsOf(request);
    UpsertEachCreatesAll(store, request, mg, entries);
    forall d | d in RunIds(mg, entries)
      ensures Grouped(CreateAll(store, request, mg).store, mg, d)
    {
      var i :| 0 <= i < |entries| && DeriveMigrationName(mg, entries[i].0) == d;
    }
  }

  /** Key by key: a derived id is gone either way, any other id fares alike before and after. */
  lemma DeleteAfterCreateAt(store: Store, after: Store, mg: string, D: set<string>, k: string)
    requires AgreeOutside(after, store, D)
    requires forall d :: d in D ==> Grouped(after, mg, d)
    ensures var left, right := DeleteAll(after, mg), DeleteAll(store, mg) - D;
      (k in left <==> k in right) && (k in left ==> left[k] == right[k])
  {
    if k in D {
      assert Grouped(after, mg, k);
    }
  }
}
