/**
 * The pure part of the migration deriver: naming derived migrations,
 * deciding which references stay inside the template's group, and
 * rewriting dependency lists, process steps and pipelines so that a cloned
 * group refers to its own members. Also the scrape of spreadsheet columns
 * that a set of pipelines reads.
 */
module Remap {
  import opened Wrappers
  import opened Assoc
  import opened Definitions
  import opened Php

  /** The migration config storage, by id. */
  type Store = map<string, Migration>

  const LookupPlugin: string := "migration_lookup"

  /** A step's plugin; a step that names none is a plain `get`. */
  function PluginOf(step: Step): string {
    match step.plugin
    case Some(p) => p
    case None => "get"
  }

  // ---------------------------------------------------------------------
  // Names and groups

  /** The id of the clone of `target` inside group `mg`. */
  function DeriveMigrationName(mg: string, target: string): string {
    mg + "_" + target
  }

  /** A derived name is the group name, then "_", then the target name. */
  lemma DerivedNameParts(mg: string, target: string)
    ensures var name := DeriveMigrationName(mg, target);
      && |name| == |mg| + 1 + |target|
      && name[..|mg|] == mg && name[|mg|] == '_' && name[|mg| + 1..] == target
  {
  }

  /** Inside one group, distinct targets get distinct derived names. */
  lemma DerivedNamesInjective(mg: string, a: string, b: string)
    requires DeriveMigrationName(mg, a) == DeriveMigrationName(mg, b)
    ensures a == b
  {
    DerivedNameParts(mg, a);
    DerivedNameParts(mg, b);
  }

  /** A derived name never equals the name it was derived from. */
  lemma DerivedNameIsNew(mg: string, target: string)
    ensures DeriveMigrationName(mg, target) != target
  {
    DerivedNameParts(mg, target);
  }

  /**
   * Whether the stored migration `target` is in the same group as `mig`.
   * A group that is unset (or otherwise falsy) never matches.
   */
  function SameMigrationGroup(store: Store, mig: Migration, target: string): (same: bool)
    requires target in store
    ensures same <==> store[target].group == mig.group && Truthy(mig.group)
    ensures mig.group == "" ==> !same
  {
    Truthy(store[target].group) && store[target].group == mig.group
  }

  /** Every id in `ids` names a stored migration. */
  predicate AllStored(store: Store, ids: seq<string>) {
    forall i :: 0 <= i < |ids| ==> ids[i] in store
  }

  /** The id `ids[i]` is in the template's group. */
  predicate SameGroupAt(store: Store, mig: Migration, ids: seq<string>, i: int) {
    0 <= i < |ids| && ids[i] in store && SameMigrationGroup(store, mig, ids[i])
  }

  // ---------------------------------------------------------------------
  // mapDependencies

  /** One dependency list: the same-group entries, renamed, in order. */
  function SameGroupRenamed(store: Store, mig: Migration, mg: string, ids: seq<string>): (r: seq<string>)
    requires AllStored(store, ids)
    ensures |r| <= |ids|
    decreases |ids|
  {
    if ids == [] then []
    else
      var last := ids[|ids| - 1];
      SameGroupRenamed(store, mig, mg, ids[..|ids| - 1])
        + if SameMigrationGroup(store, mig, last) then [DeriveMigrationName(mg, last)] else []
  }

  /** A renamed list holds exactly the derived names of the same-group entries. */
  lemma {:induction false} SameGroupRenamedMembers(store: Store, mig: Migration, mg: string, ids: seq<string>, x: string)
    requires AllStored(store, ids)
    ensures x in SameGroupRenamed(store, mig, mg, ids)
        <==> exists i :: SameGroupAt(store, mig, ids, i) && x == DeriveMigrationName(mg, ids[i])
  {
    if ids != [] {
      var n := |ids| - 1;
      var pre := ids[..n];
      SameGroupRenamedMembers(store, mig, mg, pre, x);
      if exists i :: SameGroupAt(store, mig, pre, i) && x == DeriveMigrationName(mg, pre[i]) {
        var i :| SameGroupAt(store, mig, pre, i) && x == DeriveMigrationName(mg, pre[i]);
        assert SameGroupAt(store, mig, ids, i);
      }
      if exists i :: SameGroupAt(store, mig, ids, i) && x == DeriveMigrationName(mg, ids[i]) {
        var i :| SameGroupAt(store, mig, ids, i) && x == DeriveMigrationName(mg, ids[i]);
        if i < n {
          assert SameGroupAt(store, mig, pre, i);
        }
      }
    }
  }

  /** Every dependency list of `types` names stored migrations only. */
  predicate ListsStored(store: Store, types: Assoc<seq<string>>) {
    forall i :: 0 <= i < |types| ==> AllStored(store, types[i].1)
  }

  /** Each dependency type with its list rewritten. */
  function RenamedLists(store: Store, mig: Migration, mg: string, types: Assoc<seq<string>>): (r: Assoc<seq<string>>)
    requires ListsStored(store, types)
    ensures Keys(r) == Keys(types)
    ensures forall i :: 0 <= i < |r| ==> r[i].1 == SameGroupRenamed(store, mig, mg, types[i].1)
  {
    seq(|types|, i requires 0 <= i < |types| => (types[i].0, SameGroupRenamed(store, mig, mg, types[i].1)))
  }

  /**
   * mapDependencies: the original's `migration_dependencies`, each list
   * assigned under its type in a fresh array.
   */
  function MapDependencies(store: Store, mig: Migration, mg: string): Assoc<seq<string>>
    requires ListsStored(store, mig.migrationDependencies)
  {
    PutAll(RenamedLists(store, mig, mg, mig.migrationDependencies))
  }

  /** Assigning one more type's rewritten list extends the rewritten array by that type. */
  lemma MapDependenciesStep(store: Store, mig: Migration, mg: string, types: Assoc<seq<string>>, i: int)
    requires ListsStored(store, types) && 0 <= i < |types|
    ensures ListsStored(store, types[..i]) && ListsStored(store, types[..i + 1])
    ensures PutAll(RenamedLists(store, mig, mg, types[..i + 1]))
        == Put(PutAll(RenamedLists(store, mig, mg, types[..i])), types[i].0, SameGroupRenamed(store, mig, mg, types[i].1))
  {
    var X, Y := RenamedLists(store, mig, mg, types[..i + 1]), RenamedLists(store, mig, mg, types[..i]);
    forall j | 0 <= j < i
      ensures X[j] == Y[j]
    {
      assert types[..i + 1][j] == types[..i][j] == types[j];
      assert X[j].0 == Keys(X)[j] == Keys(Y)[j] == Y[j].0;
    }
    assert X[..i] == Y;
    assert X[i].0 == Keys(X)[i] == types[i].0;
    assert types[..i + 1][i] == types[i];
  }

  /**
   * Every dependency type survives, in order, and each list becomes the
   * input list filtered to same-group entries and renamed.
   */
  lemma MapDependenciesShape(store: Store, mig: Migration, mg: string)
    requires ListsStored(store, mig.migrationDependencies)
    requires UniqueKeys(mig.migrationDependencies)
    ensures var r := MapDependencies(store, mig, mg);
      && Keys(r) == Keys(mig.migrationDependencies)
      && forall i :: 0 <= i < |r| ==> r[i].1 == SameGroupRenamed(store, mig, mg, mig.migrationDependencies[i].1)
  {
    var lists := RenamedLists(store, mig, mg, mig.migrationDependencies);
    UniqueKeysByKeys(mig.migrationDependencies, lists);
    PutAllUnique(lists);
  }

  // ---------------------------------------------------------------------
  // mapStepMigrations

  /** `$step['source_ids']`, an absent array read as empty. */
  function IdsOf(sids: Option<Assoc<IdList>>): Assoc<IdList> {
    match sids
    case Some(a) => a
    case None => []
  }

  /** `$a[$k]`: a missing key reads as null. */
  function ReadIds(a: Assoc<IdList>, k: string): IdList {
    match Lookup(a, k)
    case Some(v) => v
    case None => NullIds
  }

  /**
   * One entry of a list-valued `migration`: a same-group entry is renamed and
   * its `source_ids` value moves from the old key to the new one.
   */
  function RenameEntry(store: Store, mig: Migration, mg: string, id: string, sids: Option<Assoc<IdList>>)
    : (string, Option<Assoc<IdList>>)
    requires id in store
  {
    if SameMigrationGroup(store, mig, id) then
      var renamed := DeriveMigrationName(mg, id);
      var a := IdsOf(sids);
      (renamed, Some(Remove(Put(a, renamed, ReadIds(a, id)), id)))
    else
      (id, sids)
  }

  /** The by-reference loop over a list-valued `migration`, entry by entry. */
  function RenameEntries(store: Store, mig: Migration, mg: string, ids: seq<string>, sids: Option<Assoc<IdList>>)
    : (r: (seq<string>, Option<Assoc<IdList>>))
    requires AllStored(store, ids)
    ensures |r.0| == |ids|
    decreases |ids|
  {
    if ids == [] then ([], sids)
    else
      var n := |ids| - 1;
      var done := RenameEntries(store, mig, mg, ids[..n], sids);
      var entry := RenameEntry(store, mig, mg, ids[n], done.1);
      (done.0 + [entry.0], entry.1)
  }

  /** The loop over one more entry: the entries before it, then that entry. */
  lemma RenameEntriesStep(store: Store, mig: Migration, mg: string, ids: seq<string>, sids: Option<Assoc<IdList>>, j: int)
    requires AllStored(store, ids) && 0 <= j < |ids|
    ensures AllStored(store, ids[..j]) && AllStored(store, ids[..j + 1])
    ensures var done := RenameEntries(store, mig, mg, ids[..j], sids);
      var entry := RenameEntry(store, mig, mg, ids[j], done.1);
      RenameEntries(store, mig, mg, ids[..j + 1], sids) == (done.0 + [entry.0], entry.1)
  {
    assert ids[..j + 1][..j] == ids[..j];
  }

  /** Each entry of a list-valued `migration` is renamed exactly when it is in the same group. */
  lemma {:induction false} RenameEntriesIds(store: Store, mig: Migration, mg: string, ids: seq<string>, sids: Option<Assoc<IdList>>)
    requires AllStored(store, ids)
    ensures var out := RenameEntries(store, mig, mg, ids, sids).0;
      forall i :: 0 <= i < |ids| ==>
        out[i] == if SameMigrationGroup(store, mig, ids[i]) then DeriveMigrationName(mg, ids[i]) else ids[i]
  {
    if ids != [] {
      var n := |ids| - 1;
      RenameEntriesIds(store, mig, mg, ids[..n], sids);
    }
  }

  /** No id occurs twice in `ids`. */
  predicate Distinct(ids: seq<string>) {
    forall i, j :: 0 <= i < j < |ids| ==> ids[i] != ids[j]
  }

  /** Some same-group entry of `ids` is `k`: its `source_ids` key moves away. */
  ghost predicate MovedFrom(store: Store, mig: Migration, ids: seq<string>, k: string) {
    exists i :: SameGroupAt(store, mig, ids, i) && ids[i] == k
  }

  /** Some same-group entry of `ids` is renamed to `k`: a `source_ids` key arrives there. */
  ghost predicate MovedTo(store: Store, mig: Migration, mg: string, ids: seq<string>, k: string) {
    exists i :: SameGroupAt(store, mig, ids, i) && DeriveMigrationName(mg, ids[i]) == k
  }

  /** What one entry does to `source_ids`, key by key. */
  lemma RenameEntryLookup(store: Store, mig: Migration, mg: string, x: string, sids: Option<Assoc<IdList>>, k: string)
    requires x in store
    ensures var out := IdsOf(RenameEntry(store, mig, mg, x, sids).1);
      Lookup(out, k) ==
        if !SameMigrationGroup(store, mig, x) then Lookup(IdsOf(sids), k)
        else if k == x then None
        else if k == DeriveMigrationName(mg, x) then Some(ReadIds(IdsOf(sids), x))
        else Lookup(IdsOf(sids), k)
  {
    if SameMigrationGroup(store, mig, x) {
      var d := DeriveMigrationName(mg, x);
      var a := IdsOf(sids);
      LookupPut(a, d, ReadIds(a, x), k);
      LookupRemove(Put(a, d, ReadIds(a, x)), x, k);
    }
  }

  /** Moves recorded for a prefix are moves of the whole list. */
  lemma MovesOfPrefix(store: Store, mig: Migration, mg: string, ids: seq<string>, n: nat, k: string)
    requires n <= |ids|
    ensures MovedFrom(store, mig, ids[..n], k) ==> MovedFrom(store, mig, ids, k)
    ensures MovedTo(store, mig, mg, ids[..n], k) ==> MovedTo(store, mig, mg, ids, k)
  {
    if MovedFrom(store, mig, ids[..n], k) {
      var i :| SameGroupAt(store, mig, ids[..n], i) && ids[..n][i] == k;
      assert SameGroupAt(store, mig, ids, i);
    }
    if MovedTo(store, mig, mg, ids[..n], k) {
      var i :| SameGroupAt(store, mig, ids[..n], i) && DeriveMigrationName(mg, ids[..n][i]) == k;
      assert SameGroupAt(store, mig, ids, i);
    }
  }

  /**
   * The loop leaves every `source_ids` key alone that no same-group entry
   * moves from or to.
   */
  lemma {:induction false} RenameEntriesKeepsOtherIds(
    store: Store, mig: Migration, mg: string, ids: seq<string>, sids: Option<Assoc<IdList>>, k: string)
    requires AllStored(store, ids)
    requires !MovedFrom(store, mig, ids, k) && !MovedTo(store, mig, mg, ids, k)
    ensures Lookup(IdsOf(RenameEntries(store, mig, mg, ids, sids).1), k) == Lookup(IdsOf(sids), k)
  {
    if ids != [] {
      var n := |ids| - 1;
      var x := ids[n];
      MovesOfPrefix(store, mig, mg, ids, n, k);
      RenameEntriesKeepsOtherIds(store, mig, mg, ids[..n], sids, k);
      var mid := RenameEntries(store, mig, mg, ids[..n], sids).1;
      RenameEntryLookup(store, mig, mg, x, mid, k);
      if SameMigrationGroup(store, mig, x) {
        assert SameGroupAt(store, mig, ids, n);
      }
    }
  }

  /**
   * The conditions under which the loop moves `source_ids` cleanly: distinct
   * entries, each same-group entry's old key present and its new key not yet
   * taken.
   */
  ghost predicate CleanMoves(store: Store, mig: Migration, mg: string, ids: seq<string>, sids: Option<Assoc<IdList>>)
    requires AllStored(store, ids)
  {
    && Distinct(ids)
    && (forall j :: SameGroupAt(store, mig, ids, j) ==> ids[j] in Keys(IdsOf(sids)))
    && (forall j :: SameGroupAt(store, mig, ids, j) ==>
          DeriveMigrationName(mg, ids[j]) !in ids && DeriveMigrationName(mg, ids[j]) !in Keys(IdsOf(sids)))
  }

  lemma CleanMovesPrefix(store: Store, mig: Migration, mg: string, ids: seq<string>, sids: Option<Assoc<IdList>>, n: nat)
    requires AllStored(store, ids) && CleanMoves(store, mig, mg, ids, sids) && n <= |ids|
    ensures AllStored(store, ids[..n]) && CleanMoves(store, mig, mg, ids[..n], sids)
  {
    var pre := ids[..n];
    forall j | SameGroupAt(store, mig, pre, j)
      ensures SameGroupAt(store, mig, ids, j) && pre[j] == ids[j]
    {
    }
  }

  /** The last entry's ids arrive at its new key and leave its old one. */
  lemma MovesIdsLast(store: Store, mig: Migration, mg: string, ids: seq<string>, sids: Option<Assoc<IdList>>)
    requires AllStored(store, ids) && CleanMoves(store, mig, mg, ids, sids)
    requires SameGroupAt(store, mig, ids, |ids| - 1)
    ensures var out := IdsOf(RenameEntries(store, mig, mg, ids, sids).1);
      var x := ids[|ids| - 1];
      && Lookup(out, DeriveMigrationName(mg, x)) == Lookup(IdsOf(sids), x)
      && Lookup(out, x) == None
  {
    var n := |ids| - 1;
    var pre := ids[..n];
    var x := ids[n];
    var mid := RenameEntries(store, mig, mg, pre, sids).1;
    var d := DeriveMigrationName(mg, x);
    RenameEntryLookup(store, mig, mg, x, mid, d);
    RenameEntryLookup(store, mig, mg, x, mid, x);
    assert !MovedFrom(store, mig, pre, x);
    assert !MovedTo(store, mig, mg, pre, x);
    RenameEntriesKeepsOtherIds(store, mig, mg, pre, sids, x);
    DerivedNameIsNew(mg, x);
  }

  /** An earlier entry's moved ids are left alone by the last entry. */
  lemma MovesIdsPastLast(store: Store, mig: Migration, mg: string, ids: seq<string>, sids: Option<Assoc<IdList>>, i: int)
    requires AllStored(store, ids) && CleanMoves(store, mig, mg, ids, sids)
    requires SameGroupAt(store, mig, ids, i) && i < |ids| - 1
    requires var mid := IdsOf(RenameEntries(store, mig, mg, ids[..|ids| - 1], sids).1);
      && Lookup(mid, DeriveMigrationName(mg, ids[i])) == Lookup(IdsOf(sids), ids[i])
      && Lookup(mid, ids[i]) == None
    ensures var out := IdsOf(RenameEntries(store, mig, mg, ids, sids).1);
      && Lookup(out, DeriveMigrationName(mg, ids[i])) == Lookup(IdsOf(sids), ids[i])
      && Lookup(out, ids[i]) == None
  {
    var n := |ids| - 1;
    var x := ids[n];
    var mid := RenameEntries(store, mig, mg, ids[..n], sids).1;
    var d := DeriveMigrationName(mg, ids[i]);
    RenameEntryLookup(store, mig, mg, x, mid, d);
    RenameEntryLookup(store, mig, mg, x, mid, ids[i]);
    assert ids[i] != x;
    DerivedNameIsNew(mg, x);
    if d == DeriveMigrationName(mg, x) {
      DerivedNamesInjective(mg, ids[i], x);
    }
  }

  /**
   * For distinct entries whose old keys are present and whose new keys are
   * not yet taken, the loop moves each same-group entry's ids to its
   * derived key and drops the old key.
   */
  lemma {:induction false} RenameEntriesMovesIds(
    store: Store, mig: Migration, mg: string, ids: seq<string>, sids: Option<Assoc<IdList>>, i: int)
    requires AllStored(store, ids)
    requires CleanMoves(store, mig, mg, ids, sids)
    requires SameGroupAt(store, mig, ids, i)
    ensures var out := IdsOf(RenameEntries(store, mig, mg, ids, sids).1);
      && Lookup(out, DeriveMigrationName(mg, ids[i])) == Lookup(IdsOf(sids), ids[i])
      && Lookup(out, ids[i]) == None
    decreases |ids|
  {
    var n := |ids| - 1;
    if i == n {
      MovesIdsLast(store, mig, mg, ids, sids);
    } else {
      CleanMovesPrefix(store, mig, mg, ids, sids, n);
      assert SameGroupAt(store, mig, ids[..n], i);
      RenameEntriesMovesIds(store, mig, mg, ids[..n], sids, i);
      MovesIdsPastLast(store, mig, mg, ids, sids, i);
    }
  }

  /** Every id a lookup step refers to names a stored migration. */
  predicate StepTargetsStored(store: Store, step: Step) {
    PluginOf(step) == LookupPlugin ==>
      match step.migration
      case NoRef => true
      case One(id) => id in store
      case Many(ids) => AllStored(store, ids)
  }

  /**
   * One step, rewritten. Only `migration` and `source_ids` of a
   * `migration_lookup` step can change.
   */
  function MapStep(store: Store, mig: Migration, mg: string, step: Step): (r: Step)
    requires StepTargetsStored(store, step)
    ensures r.plugin == step.plugin && r.source == step.source && r.params == step.params
    ensures PluginOf(step) != LookupPlugin ==> r == step
    ensures !step.migration.Many? ==> r.sourceIds == step.sourceIds
    ensures step.migration.NoRef? ==> r == step
    ensures PluginOf(step) == LookupPlugin && step.migration.One? ==>
      var id := step.migration.id;
      r.migration == One(if SameMigrationGroup(store, mig, id) then DeriveMigrationName(mg, id) else id)
    ensures PluginOf(step) == LookupPlugin && step.migration.Many? ==>
      r.migration.Many? && |r.migration.ids| == |step.migration.ids|
  {
    if PluginOf(step) != LookupPlugin then step
    else
      match step.migration
      case Many(ids) =>
        var renamed := RenameEntries(store, mig, mg, ids, step.sourceIds);
        step.(migration := Many(renamed.0), sourceIds := renamed.1)
      case One(id) =>
        if SameMigrationGroup(store, mig, id) then step.(migration := One(DeriveMigrationName(mg, id)))
        else step
      case NoRef => step
  }

  predicate PipelineStored(store: Store, steps: seq<Step>) {
    forall i :: 0 <= i < |steps| ==> StepTargetsStored(store, steps[i])
  }

  /** mapStepMigrations: every step of a pipeline, rewritten, in order. */
  function MapSteps(store: Store, mig: Migration, mg: string, steps: seq<Step>): seq<Step>
    requires PipelineStored(store, steps)
    decreases |steps|
  {
    if steps == [] then []
    else
      var n := |steps| - 1;
      MapSteps(store, mig, mg, steps[..n]) + [MapStep(store, mig, mg, steps[n])]
  }

  /** One step out per step in, in the same order. */
  lemma {:induction false} MapStepsPointwise(store: Store, mig: Migration, mg: string, steps: seq<Step>)
    requires PipelineStored(store, steps)
    ensures var r := MapSteps(store, mig, mg, steps);
      && |r| == |steps|
      && forall i :: 0 <= i < |steps| ==> r[i] == MapStep(store, mig, mg, steps[i])
  {
    if steps != [] {
      var n := |steps| - 1;
      MapStepsPointwise(store, mig, mg, steps[..n]);
    }
  }

  predicate FieldsStored(store: Store, fields: Assoc<FieldMapping>) {
    forall i :: 0 <= i < |fields| ==> PipelineStored(store, fields[i].1.pipeline)
  }

  /** Each field name with its pipeline rewritten. */
  function RenamedPipelines(store: Store, mig: Migration, mg: string, fields: Assoc<FieldMapping>): (r: Assoc<seq<Step>>)
    requires FieldsStored(store, fields)
    ensures Keys(r) == Keys(fields)
    ensures forall i :: 0 <= i < |r| ==> r[i].1 == MapSteps(store, mig, mg, fields[i].1.pipeline)
  {
    seq(|fields|, i requires 0 <= i < |fields| => (fields[i].0, MapSteps(store, mig, mg, fields[i].1.pipeline)))
  }

  /**
   * mapPipelineMigrations, collected with iterator_to_array: each field
   * name assigned its rewritten pipeline in a fresh array.
   */
  function MapPipelines(store: Store, mig: Migration, mg: string, fields: Assoc<FieldMapping>): Assoc<seq<Step>>
    requires FieldsStored(store, fields)
  {
    PutAll(RenamedPipelines(store, mig, mg, fields))
  }

  /** Assigning one more field's rewritten pipeline extends the rewritten array by that field. */
  lemma MapPipelinesStep(store: Store, mig: Migration, mg: string, fields: Assoc<FieldMapping>, i: int)
    requires FieldsStored(store, fields) && 0 <= i < |fields|
    ensures FieldsStored(store, fields[..i]) && FieldsStored(store, fields[..i + 1])
    ensures PutAll(RenamedPipelines(store, mig, mg, fields[..i + 1]))
        == Put(PutAll(RenamedPipelines(store, mig, mg, fields[..i])), fields[i].0, MapSteps(store, mig, mg, fields[i].1.pipeline))
  {
    var X, Y := RenamedPipelines(store, mig, mg, fields[..i + 1]), RenamedPipelines(store, mig, mg, fields[..i]);
    forall j | 0 <= j < i
      ensures X[j] == Y[j]
    {
      assert fields[..i + 1][j] == fields[..i][j] == fields[j];
      assert X[j].0 == Keys(X)[j] == Keys(Y)[j] == Y[j].0;
    }
    assert X[..i] == Y;
    assert X[i].0 == Keys(X)[i] == fields[i].0;
    assert fields[..i + 1][i] == fields[i];
  }

  /** Every field keeps its place and gets its pipeline rewritten. */
  lemma MapPipelinesShape(store: Store, mig: Migration, mg: string, fields: Assoc<FieldMapping>)
    requires FieldsStored(store, fields)
    requires UniqueKeys(fields)
    ensures var r := MapPipelines(store, mig, mg, fields);
      && Keys(r) == Keys(fields)
      && forall i :: 0 <= i < |r| ==> r[i].1 == MapSteps(store, mig, mg, fields[i].1.pipeline)
  {
    var pipelines := RenamedPipelines(store, mig, mg, fields);
    UniqueKeysByKeys(fields, pipelines);
    PutAllUnique(pipelines);
  }

  // ---------------------------------------------------------------------
  // getUsedColumns

  /** A name that refers to a value inside the pipeline, not to a column. */
  predicate IsInternal(name: string) {
    |name| > 0 && name[0] == '@'
  }

  /** `(array) ($step['source'] ?? [])`. */
  function SourceNames(step: Step): seq<string> {
    match step.source
    case None => []
    case Some(Scalar(n)) => [n]
    case Some(Names(ns)) => ns
  }

  /** Every `source_ids` value of a lookup step is an array. */
  predicate Scrapable(step: Step) {
    PluginOf(step) == LookupPlugin ==>
      forall i :: 0 <= i < |IdsOf(step.sourceIds)| ==> IdsOf(step.sourceIds)[i].1.Ids?
  }

  /** The id field names of a `source_ids` array, value after value. */
  function IdFieldNames(a: Assoc<IdList>): seq<string>
    requires forall i :: 0 <= i < |a| ==> a[i].1.Ids?
    decreases |a|
  {
    if a == [] then []
    else
      var n := |a| - 1;
      IdFieldNames(a[..n]) + a[n].1.names
  }

  /** The names one step reads, as its plugin's mapper yields them. */
  function StepColumns(step: Step): seq<string>
    requires Scrapable(step)
  {
    if PluginOf(step) == LookupPlugin then SourceNames(step) + IdFieldNames(IdsOf(step.sourceIds))
    else SourceNames(step)
  }

  predicate PipelineScrapable(steps: seq<Step>) {
    forall i :: 0 <= i < |steps| ==> Scrapable(steps[i])
  }

  function PipelineColumns(steps: seq<Step>): seq<string>
    requires PipelineScrapable(steps)
    decreases |steps|
  {
    if steps == [] then []
    else
      var n := |steps| - 1;
      PipelineColumns(steps[..n]) + StepColumns(steps[n])
  }

  predicate FieldsScrapable(fields: Assoc<FieldMapping>) {
    forall i :: 0 <= i < |fields| ==> PipelineScrapable(fields[i].1.pipeline)
  }

  /** Every name every step of every field reads, in traversal order. */
  function MappingColumns(fields: Assoc<FieldMapping>): seq<string>
    requires FieldsScrapable(fields)
    decreases |fields|
  {
    if fields == [] then []
    else
      var n := |fields| - 1;
      MappingColumns(fields[..n]) + PipelineColumns(fields[n].1.pipeline)
  }

  /**
   * `names` with the internal references dropped: every other name keeps
   * its order and its multiplicity.
   */
  function WithoutInternal(names: seq<string>): (r: seq<string>)
    ensures forall x :: x in r ==> !IsInternal(x)
    decreases |names|
  {
    if names == [] then []
    else
      var n := |names| - 1;
      assert names == names[..n] + [names[n]];
      WithoutInternal(names[..n]) + if IsInternal(names[n]) then [] else [names[n]]
  }

  /** getUsedColumns, as the sequence its generator yields. */
  function UsedColumns(fields: Assoc<FieldMapping>): seq<string>
    requires FieldsScrapable(fields)
  {
    WithoutInternal(MappingColumns(fields))
  }

  lemma {:induction false} WithoutInternalAppend(a: seq<string>, b: seq<string>)
    ensures WithoutInternal(a + b) == WithoutInternal(a) + WithoutInternal(b)
    decreases |b|
  {
    if b == [] {
      assert a + b == a;
    } else {
      var n := |b| - 1;
      var ab := a + b;
      assert ab[..|ab| - 1] == a + b[..n];
      assert ab[|ab| - 1] == b[n];
      var tail := if IsInternal(b[n]) then [] else [b[n]];
      calc {
        WithoutInternal(ab);
        WithoutInternal(a + b[..n]) + tail;
        { WithoutInternalAppend(a, b[..n]); }
        WithoutInternal(a) + WithoutInternal(b[..n]) + tail;
        WithoutInternal(a) + WithoutInternal(b);
      }
    }
  }

  /**
   * An internal reference is never yielded; every other name is yielded as
   * often as the pipelines mention it.
   */
  lemma {:induction false} WithoutInternalCounts(names: seq<string>, x: string)
    ensures multiset(WithoutInternal(names))[x] == if IsInternal(x) then 0 else multiset(names)[x]
    decreases |names|
  {
    if names != [] {
      var n := |names| - 1;
      WithoutInternalCounts(names[..n], x);
      assert names == names[..n] + [names[n]];
    }
  }

  /** A name is a used column exactly when some step reads it and it is not internal. */
  lemma UsedColumnsMembers(fields: Assoc<FieldMapping>, x: string)
    requires FieldsScrapable(fields)
    ensures x in UsedColumns(fields) <==> x in MappingColumns(fields) && !IsInternal(x)
  {
    WithoutInternalCounts(MappingColumns(fields), x);
  }
}
