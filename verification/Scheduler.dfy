/** Layering a dependency graph into parallel batches (`effects/scheduler.go`). */
module Scheduler {
  import opened Basics
  import opened Effects
  import opened Graph

  datatype Batch = Batch(effects: seq<Effect>, level: nat)

  /** A dependency chain of `k` edges starts at node `i`. */
  ghost predicate HasChain(nodes: seq<Node>, i: nat, k: nat)
    decreases k
  {
    i < |nodes| && (k == 0 || exists d: nat :: DependsOn(nodes, i, d) && HasChain(nodes, d, k - 1))
  }

  /** The longest dependency chain from node `i` has `k` edges. */
  ghost predicate AtLevel(nodes: seq<Node>, i: nat, k: nat) {
    HasChain(nodes, i, k) && !HasChain(nodes, i, k + 1)
  }

  lemma {:induction false} ShorterChain(nodes: seq<Node>, i: nat, k: nat, m: nat)
    requires HasChain(nodes, i, k) && m <= k
    ensures HasChain(nodes, i, m)
    decreases k
  {
    if m > 0 {
      var d: nat :| DependsOn(nodes, i, d) && HasChain(nodes, d, k - 1);
      ShorterChain(nodes, d, k - 1, m - 1);
    }
  }

  lemma {:induction false} LevelIsUnique(nodes: seq<Node>, i: nat, k: nat, m: nat)
    requires AtLevel(nodes, i, k) && AtLevel(nodes, i, m)
    ensures k == m
  {
    if k < m {
      ShorterChain(nodes, i, m, k + 1);
    } else if m < k {
      ShorterChain(nodes, i, k, m + 1);
    }
  }

  lemma {:induction false} LevelAbove(nodes: seq<Node>, i: nat, k: nat, d: nat, m: nat)
    requires AtLevel(nodes, i, k) && AtLevel(nodes, d, m) && DependsOn(nodes, i, d)
    ensures m < k
  {
    if k <= m {
      ShorterChain(nodes, d, m, k);
    }
  }

  /** The nodes scheduled before level `k`: those with no chain of `k` edges. */
  ghost function Below(nodes: seq<Node>, k: nat): set<nat> {
    set i: nat | i < |nodes| && !HasChain(nodes, i, k)
  }

  /** Not yet scheduled, with every dependency scheduled. */
  ghost predicate Ready(nodes: seq<Node>, scheduled: set<nat>, i: nat) {
    i < |nodes| && i !in scheduled && forall d :: d in nodes[i].dependencies ==> d in scheduled
  }

  /** `findReadyNodes` */
  method FindReadyNodes(nodes: seq<Node>, scheduled: set<nat>) returns (ready: seq<nat>)
    ensures NoDuplicates(ready)
    ensures forall i: nat :: i in ready <==> Ready(nodes, scheduled, i)
  {
    ready := [];
    for i := 0 to |nodes|
      invariant NoDuplicates(ready)
      invariant forall x: nat :: x in ready <==> x < i && Ready(nodes, scheduled, x)
    {
      if i in scheduled {
        continue;
      }
      var deps, allDepsScheduled := nodes[i].dependencies, true;
      for k := 0 to |deps|
        invariant allDepsScheduled
        invariant forall m :: 0 <= m < k ==> deps[m] in scheduled
      {
        if deps[k] !in scheduled {
          allDepsScheduled := false;
          break;
        }
      }
      if allDepsScheduled {
        assert i !in ready;
        ready := ready + [i];
      }
    }
  }

  /** What is ready once everything below level `k` is scheduled is exactly level `k`. */
  lemma {:induction false} ReadyIsLevel(nodes: seq<Node>, k: nat, i: nat)
    requires InRange(nodes) && i < |nodes|
    ensures AtLevel(nodes, i, k) <==> Ready(nodes, Below(nodes, k), i)
  {
    if Ready(nodes, Below(nodes, k), i) {
      forall d: nat | DependsOn(nodes, i, d) ensures !HasChain(nodes, d, k) {
        assert d in Below(nodes, k);
      }
    }
    if AtLevel(nodes, i, k) {
      forall d | d in nodes[i].dependencies ensures d in Below(nodes, k) {
        assert DependsOn(nodes, i, d);
      }
    }
  }

  /** While an acyclic graph has unscheduled nodes, some node is ready. */
  lemma {:induction false} SomethingIsReady(nodes: seq<Node>, order: seq<nat>, scheduled: set<nat>) returns (i: nat)
    requires InRange(nodes) && Topological(nodes, order) && Covers(nodes, order)
    requires scheduled < Indices(nodes)
    ensures Ready(nodes, scheduled, i)
  {
    var k := 0;
    while k < |order| && order[k] in scheduled
      invariant 0 <= k <= |order|
      invariant forall m :: 0 <= m < k ==> order[m] in scheduled
    {
      k := k + 1;
    }
    if k == |order| {
      forall x | x in Indices(nodes) ensures x in scheduled {
        assert x in order;
      }
    }
    i := order[k];
  }

  /** `effects` are those of the nodes `ids`. */
  ghost predicate EffectsOf(nodes: seq<Node>, effects: seq<Effect>, ids: seq<nat>) {
    |effects| == |ids| && forall k :: 0 <= k < |ids| ==> ids[k] < |nodes| && effects[k] == nodes[ids[k]].effect
  }

  /** `ids[l]` lists, each once, the nodes of level `l`; there are no empty levels and none is missing. */
  ghost predicate IsLayering(nodes: seq<Node>, ids: seq<seq<nat>>) {
    && (forall l :: 0 <= l < |ids| ==> ids[l] != [] && NoDuplicates(ids[l]))
    && (forall l, i: nat :: 0 <= l < |ids| ==> (i in ids[l] <==> AtLevel(nodes, i, l)))
  }

  ghost predicate Places(ids: seq<seq<nat>>, i: nat, l: nat) {
    l < |ids| && i in ids[l]
  }

  ghost predicate Placed(ids: seq<seq<nat>>, i: nat) {
    exists l: nat :: Places(ids, i, l)
  }

  ghost predicate PlacesAll(nodes: seq<Node>, ids: seq<seq<nat>>) {
    forall i: nat :: i < |nodes| ==> Placed(ids, i)
  }

  ghost predicate MatchesLayering(nodes: seq<Node>, batches: seq<Batch>, ids: seq<seq<nat>>) {
    && |batches| == |ids|
    && (forall l :: 0 <= l < |ids| ==> batches[l].level == l && EffectsOf(nodes, batches[l].effects, ids[l]))
  }

  /** All nodes in the given batches. */
  ghost function Union(ids: seq<seq<nat>>): set<nat> {
    if ids == [] then {} else Union(ids[..|ids| - 1]) + Elements(ids[|ids| - 1])
  }

  /** The batch lists, each once, the nodes that are ready after `scheduled`. */
  ghost predicate IsStage(nodes: seq<Node>, scheduled: set<nat>, batch: seq<nat>) {
    batch != [] && NoDuplicates(batch) && forall i: nat :: i in batch <==> Ready(nodes, scheduled, i)
  }

  /** Each batch holds what is ready after the batches before it. */
  ghost predicate IsStaged(nodes: seq<Node>, ids: seq<seq<nat>>) {
    ids == []
    || (IsStaged(nodes, ids[..|ids| - 1]) && IsStage(nodes, Union(ids[..|ids| - 1]), ids[|ids| - 1]))
  }

  /** The stage after everything below level `k` is exactly level `k`. */
  lemma {:induction false} StageIsLevel(nodes: seq<Node>, k: nat, batch: seq<nat>)
    requires InRange(nodes) && IsStage(nodes, Below(nodes, k), batch)
    ensures forall i: nat :: i in batch <==> AtLevel(nodes, i, k)
    ensures Below(nodes, k + 1) == Below(nodes, k) + Elements(batch)
  {
    forall i: nat ensures i in batch <==> AtLevel(nodes, i, k) {
      if i < |nodes| {
        ReadyIsLevel(nodes, k, i);
      }
    }
    forall i: nat ensures i in Below(nodes, k + 1) <==> i in Below(nodes, k) + Elements(batch) {
      if i < |nodes| && HasChain(nodes, i, k + 1) {
        ShorterChain(nodes, i, k + 1, k);
      }
    }
  }

  /** The batches so far are the levels so far. */
  lemma {:induction false} StagesAreLevels(nodes: seq<Node>, ids: seq<seq<nat>>)
    requires InRange(nodes) && IsStaged(nodes, ids)
    ensures Union(ids) == Below(nodes, |ids|)
    ensures IsLayering(nodes, ids)
  {
    if ids != [] {
      var k, init := |ids| - 1, ids[..|ids| - 1];
      StagesAreLevels(nodes, init);
      StageIsLevel(nodes, k, ids[k]);
      forall l | 0 <= l < k ensures ids[l] == init[l] {}
    }
  }

  lemma {:induction false} UnionPlaces(ids: seq<seq<nat>>, i: nat)
    requires i in Union(ids)
    ensures Placed(ids, i)
  {
    var k, init := |ids| - 1, ids[..|ids| - 1];
    if i in ids[k] {
      assert Places(ids, i, k);
    } else {
      UnionPlaces(init, i);
      var l: nat :| Places(init, i, l);
      assert Places(ids, i, l);
    }
  }

  /** The body of the main loop of `Schedule`: the next batch and the nodes then scheduled. */
  method NextBatch(nodes: seq<Node>, scheduled: set<nat>, ghost order: seq<nat>)
    returns (batch: seq<nat>, effects: seq<Effect>, scheduled': set<nat>)
    requires InRange(nodes) && Topological(nodes, order) && Covers(nodes, order)
    requires scheduled < Indices(nodes)
    ensures IsStage(nodes, scheduled, batch)
    ensures EffectsOf(nodes, effects, batch)
    ensures scheduled' == scheduled + Elements(batch)
    ensures scheduled < scheduled' <= Indices(nodes)
  {
    batch := FindReadyNodes(nodes, scheduled);
    ghost var i := SomethingIsReady(nodes, order, scheduled);
    assert i in batch;
    assert forall k :: 0 <= k < |batch| ==> batch[k] in batch;
    effects, scheduled' := [], scheduled;
    for k := 0 to |batch|
      invariant EffectsOf(nodes, effects, batch[..k])
      invariant scheduled' == scheduled + Elements(batch[..k])
    {
      effects := effects + [nodes[batch[k]].effect];
      scheduled' := scheduled' + {batch[k]};
      assert batch[..k + 1] == batch[..k] + [batch[k]];
    }
    assert batch[..|batch|] == batch;
    assert i in scheduled';
  }

  lemma {:induction false} BatchAdded(nodes: seq<Node>, batches: seq<Batch>, ids: seq<seq<nat>>, effects: seq<Effect>,
                                      batch: seq<nat>)
    requires MatchesLayering(nodes, batches, ids) && IsStaged(nodes, ids)
    requires EffectsOf(nodes, effects, batch) && IsStage(nodes, Union(ids), batch)
    ensures MatchesLayering(nodes, batches + [Batch(effects, |ids|)], ids + [batch])
    ensures IsStaged(nodes, ids + [batch])
    ensures Union(ids + [batch]) == Union(ids) + Elements(batch)
  {
    assert (ids + [batch])[..|ids|] == ids;
  }

  /** The main loop of `Schedule`, given that the cycle check found a topological order. */
  method ScheduleAcyclic(nodes: seq<Node>, ghost order: seq<nat>)
    returns (batches: Option<seq<Batch>>, ghost ids: seq<seq<nat>>)
    requires InRange(nodes) && Topological(nodes, order) && Covers(nodes, order)
    ensures batches.Some? && MatchesLayering(nodes, batches.value, ids)
    ensures IsStaged(nodes, ids) && Union(ids) == Indices(nodes)
  {
    ids := [];
    var scheduled: set<nat>, result: seq<Batch>, level := {}, [], 0;
    IndicesCount(nodes);
    while |scheduled| < |nodes|
      invariant level == |ids|
      invariant scheduled == Union(ids) && scheduled <= Indices(nodes)
      invariant MatchesLayering(nodes, result, ids) && IsStaged(nodes, ids)
      decreases Indices(nodes) - scheduled
    {
      assert scheduled != Indices(nodes);
      var batch, effects;
      batch, effects, scheduled := NextBatch(nodes, scheduled, order);
      if |batch| == 0 {
        return None, ids;
      }
      BatchAdded(nodes, result, ids, effects, batch);
      ids := ids + [batch];
      result := result + [Batch(effects, level)];
      level := level + 1;
    }
    SubsetCount(scheduled, Indices(nodes));
    batches := Some(result);
  }

  /**
   `Schedule`: fails exactly on cyclic graphs. Otherwise batch `l` holds exactly the effects whose
   longest dependency chain has `l` edges, so each effect is placed exactly once. The ghost `ids`
   are the node positions behind the effects.
   */
  method Schedule(nodes: seq<Node>) returns (batches: Option<seq<Batch>>, ghost ids: seq<seq<nat>>)
    requires InRange(nodes)
    ensures batches.None? <==> Cyclic(nodes)
    ensures batches.Some? ==>
              MatchesLayering(nodes, batches.value, ids) && IsLayering(nodes, ids) && PlacesAll(nodes, ids)
  {
    var cyclic, order := HasCycles(nodes);
    if cyclic {
      return None, [];
    }
    batches, ids := ScheduleAcyclic(nodes, order);
    StagesAreLevels(nodes, ids);
    forall i: nat | i < |nodes| ensures Placed(ids, i) {
      UnionPlaces(ids, i);
    }
  }

  /** Some way of assigning `count` levels in which every node comes after its dependencies. */
  ghost predicate ValidLevels(nodes: seq<Node>, level: seq<nat>, count: nat) {
    && |level| == |nodes|
    && (forall i :: 0 <= i < |level| ==> level[i] < count)
    && (forall i: nat, d: nat :: DependsOn(nodes, i, d) && d < |nodes| ==> level[d] < level[i])
  }

  lemma {:induction false} ChainNeedsLevels(nodes: seq<Node>, level: seq<nat>, count: nat, i: nat, k: nat)
    requires InRange(nodes) && ValidLevels(nodes, level, count) && HasChain(nodes, i, k)
    ensures k <= level[i]
    decreases k
  {
    if k > 0 {
      var d: nat :| DependsOn(nodes, i, d) && HasChain(nodes, d, k - 1);
      ChainNeedsLevels(nodes, level, count, d, k - 1);
    }
  }

  /** No valid batching has fewer batches, nor places any effect earlier. */
  lemma {:induction false} LayeringIsOptimal(nodes: seq<Node>, ids: seq<seq<nat>>, level: seq<nat>, count: nat)
    requires InRange(nodes) && IsLayering(nodes, ids) && ValidLevels(nodes, level, count)
    ensures |ids| <= count
    ensures forall l: nat, i: nat :: Places(ids, i, l) ==> i < |nodes| && l <= level[i]
  {
    forall l: nat, i: nat | Places(ids, i, l) ensures i < |nodes| && l <= level[i] {
      assert AtLevel(nodes, i, l);
      ChainNeedsLevels(nodes, level, count, i, l);
    }
    if ids != [] {
      var l := |ids| - 1;
      assert Places(ids, ids[l][0], l);
    }
  }

  /** In a layering, two effects one of which depends on the other are in ascending batches. */
  lemma {:induction false} LayeringRespectsEdges(nodes: seq<Node>, ids: seq<seq<nat>>, i: nat, k: nat, d: nat, m: nat)
    requires IsLayering(nodes, ids) && Places(ids, i, k) && Places(ids, d, m) && DependsOn(nodes, i, d)
    ensures m < k
  {
    LevelAbove(nodes, i, k, d, m);
  }

  ghost predicate IsClearPair(batch: seq<Effect>, i: nat, j: nat)
    requires i < |batch| && j < |batch|
  {
    DetectConflict(batch[i], batch[j]).None?
  }

  /** The pairs that start with the effect at `i` are not reported. */
  ghost predicate IsClearFrom(batch: seq<Effect>, i: nat)
    requires i < |batch|
  {
    forall j :: i < j < |batch| ==> IsClearPair(batch, i, j)
  }

  /** No pair in the batch is reported by the pairwise check. */
  ghost predicate ConflictFree(batch: seq<Effect>) {
    forall i :: 0 <= i < |batch| ==> IsClearFrom(batch, i)
  }

  /** The inner loop of `ValidateBatches`. */
  method ValidateFrom(effects: seq<Effect>, i: nat) returns (ok: bool)
    requires i < |effects|
    ensures ok <==> IsClearFrom(effects, i)
  {
    for j := i + 1 to |effects|
      invariant forall b :: i < b < j ==> IsClearPair(effects, i, b)
    {
      if DetectConflict(effects[i], effects[j]).Some? {
        assert !IsClearPair(effects, i, j);
        return false;
      }
    }
    return true;
  }

  /** The loop over the effects of one batch in `ValidateBatches`. */
  method ValidateBatch(effects: seq<Effect>) returns (ok: bool)
    ensures ok <==> ConflictFree(effects)
  {
    for i := 0 to |effects|
      invariant forall a :: 0 <= a < i ==> IsClearFrom(effects, a)
    {
      ok := ValidateFrom(effects, i);
      if !ok {
        return;
      }
    }
    return true;
  }

  /** `ValidateBatches` */
  method ValidateBatches(batches: seq<Batch>) returns (ok: bool)
    ensures ok <==> forall l :: 0 <= l < |batches| ==> ConflictFree(batches[l].effects)
  {
    for l := 0 to |batches|
      invariant forall m :: 0 <= m < l ==> ConflictFree(batches[m].effects)
    {
      ok := ValidateBatch(batches[l].effects);
      if !ok {
        return;
      }
    }
    return true;
  }

  /** Effects placed in the same batch of a conflict graph do not conflict. */
  lemma {:induction false} BatchmatesDoNotConflict(nodes: seq<Node>, effects: seq<Effect>, ids: seq<seq<nat>>, l: nat,
      i: nat, j: nat)
    requires |nodes| == |effects| && HasConflictEdges(nodes, effects, |effects|)
    requires IsLayering(nodes, ids) && Places(ids, i, l) && Places(ids, j, l) && i < j
    ensures j < |effects| && !Conflicting(effects[i], effects[j])
  {
    assert AtLevel(nodes, j, l);
    if Conflicting(effects[i], effects[j]) {
      assert DependsOn(nodes, j, i);
      LayeringRespectsEdges(nodes, ids, j, l, i, l);
    }
  }

  lemma {:induction false} BatchmatesPassCheck(nodes: seq<Node>, effects: seq<Effect>, ids: seq<seq<nat>>, l: nat,
      i: nat, j: nat)
    requires |nodes| == |effects| && HasConflictEdges(nodes, effects, |effects|)
    requires IsLayering(nodes, ids) && Places(ids, i, l) && Places(ids, j, l) && i != j
    requires i < |effects| && j < |effects|
    ensures DetectConflict(effects[i], effects[j]).None?
  {
    if DetectConflict(effects[i], effects[j]).Some? {
      DetectedConflictIsDeclared(effects[i], effects[j]);
      BatchmatesDoNotConflict(nodes, effects, ids, l, if i < j then i else j, if i < j then j else i);
    }
  }

  /** Every schedule of a conflict graph passes `ValidateBatches`. */
  lemma {:induction false} ScheduleIsConflictFree(nodes: seq<Node>, effects: seq<Effect>, batches: seq<Batch>,
      ids: seq<seq<nat>>, l: nat)
    requires |nodes| == |effects| && HasConflictEdges(nodes, effects, |effects|)
    requires MatchesLayering(nodes, batches, ids) && IsLayering(nodes, ids) && l < |batches|
    ensures ConflictFree(batches[l].effects)
  {
    var batch, at := batches[l].effects, ids[l];
    assert EffectsOf(nodes, batch, at);
    forall a, b | 0 <= a < b < |batch| ensures IsClearPair(batch, a, b) {
      assert Places(ids, at[a], l) && Places(ids, at[b], l);
      BatchmatesPassCheck(nodes, effects, ids, l, at[a], at[b]);
    }
  }
}
