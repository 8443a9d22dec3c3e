/**
 The dependency graph of an effect list, its depth-first cycle check and its
 depth-first topological sort (`effects/graph.go`).
 */
module Graph {
  import opened Basics
  import opened Effects

  /** A node; its index is its position in the node list. */
  datatype Node = Node(effect: Effect, dependencies: seq<nat>, dependents: seq<nat>)

  /** Every dependency index is a node. */
  ghost predicate InRange(nodes: seq<Node>) {
    forall i, d :: 0 <= i < |nodes| && d in nodes[i].dependencies ==> d < |nodes|
  }

  /** Each element depends on the next one. */
  ghost predicate IsPath(nodes: seq<Node>, p: seq<nat>) {
    && p != []
    && (forall i :: 0 <= i < |p| ==> p[i] < |nodes|)
    && (forall i :: 0 <= i < |p| - 1 ==> p[i + 1] in nodes[p[i]].dependencies)
  }

  ghost predicate IsCycle(nodes: seq<Node>, p: seq<nat>) {
    |p| >= 2 && IsPath(nodes, p) && p[0] == p[|p| - 1]
  }

  ghost predicate Cyclic(nodes: seq<Node>) {
    exists p :: IsCycle(nodes, p)
  }

  /** Distinct nodes, each preceded by all its dependencies. */
  ghost predicate Topological(nodes: seq<Node>, order: seq<nat>) {
    && NoDuplicates(order)
    && (forall i :: 0 <= i < |order| ==> order[i] < |nodes|)
    && (forall i, d :: 0 <= i < |order| && d in nodes[order[i]].dependencies ==> d in order[..i])
  }

  ghost predicate Covers(nodes: seq<Node>, order: seq<nat>) {
    forall i: nat :: i < |nodes| ==> i in order
  }

  ghost predicate IsNode(nodes: seq<Node>, i: nat) {
    i < |nodes|
  }

  ghost function Indices(nodes: seq<Node>): set<nat> {
    set i: nat | i < |nodes| && IsNode(nodes, i)
  }

  /** From the i-th element of a topological order, every path leads strictly back. */
  lemma {:induction false} PathsLeadBack(nodes: seq<Node>, order: seq<nat>, i: nat, p: seq<nat>)
    requires Topological(nodes, order) && i < |order|
    requires IsPath(nodes, p) && p[0] == order[i] && |p| >= 2
    ensures p[|p| - 1] in order[..i]
    decreases |p|
  {
    assert p[1] in order[..i];
    if |p| > 2 {
      var j :| 0 <= j < i && order[j] == p[1];
      assert IsPath(nodes, p[1..]) by {
        assert forall k :: 0 <= k < |p[1..]| ==> p[1..][k] == p[k + 1];
      }
      PathsLeadBack(nodes, order, j, p[1..]);
    }
  }

  /** A graph with a complete topological order has no cycle. */
  lemma {:induction false} TopologicalIsAcyclic(nodes: seq<Node>, order: seq<nat>)
    requires Topological(nodes, order) && Covers(nodes, order)
    ensures !Cyclic(nodes)
  {
    forall p | IsCycle(nodes, p) ensures false {
      assert p[0] in order;
      var i :| 0 <= i < |order| && order[i] == p[0];
      PathsLeadBack(nodes, order, i, p);
    }
  }

  /** Walking the stack from `n` back to `n` is a cycle. */
  lemma {:induction false} StackClosesCycle(nodes: seq<Node>, path: seq<nat>, n: nat)
    requires IsPath(nodes, path + [n]) && n in path
    ensures Cyclic(nodes)
  {
    var k :| 0 <= k < |path| && path[k] == n;
    var p := (path + [n])[k..];
    assert forall i :: 0 <= i < |p| ==> p[i] == (path + [n])[k + i];
    assert IsCycle(nodes, p);
  }

  /** One more finished node keeps the finishing order topological. */
  lemma {:induction false} FinishNode(nodes: seq<Node>, order: seq<nat>, n: nat)
    requires Topological(nodes, order) && n < |nodes| && n !in order
    requires forall d :: d in nodes[n].dependencies ==> d in order
    ensures Topological(nodes, order + [n])
  {
    var order' := order + [n];
    forall i, d | 0 <= i < |order'| && d in nodes[order'[i]].dependencies ensures d in order'[..i] {
      assert i < |order| ==> order'[..i] == order[..i];
      assert i == |order| ==> order'[..i] == order;
    }
  }

  lemma {:induction false} ExtendPath(nodes: seq<Node>, path: seq<nat>, n: nat, d: nat)
    requires IsPath(nodes, path + [n]) && n < |nodes| && d in nodes[n].dependencies && d < |nodes|
    ensures IsPath(nodes, (path + [n]) + [d])
  {
    var p := path + [n];
    forall i | 0 <= i < |p + [d]| - 1 ensures (p + [d])[i + 1] in nodes[(p + [d])[i]].dependencies {
      if i < |p| - 1 {
        assert p[i + 1] in nodes[p[i]].dependencies;
      }
    }
  }

  /**
   `hasCycleUtil`. The ghost `path` is the recursion stack in order, the ghost `fin` the
   nodes already left, in the order they were left.
   */
  method HasCycleUtil(nodes: seq<Node>, n: nat, visited: set<nat>, recStack: set<nat>, ghost path: seq<nat>,
                      ghost fin: seq<nat>)
    returns (found: bool, visited': set<nat>, recStack': set<nat>, ghost fin': seq<nat>)
    requires InRange(nodes) && n < |nodes|
    requires IsPath(nodes, path + [n]) && Elements(path) == recStack
    requires Topological(nodes, fin) && recStack !! Elements(fin)
    requires visited == recStack + Elements(fin)
    ensures found ==> Cyclic(nodes)
    ensures !found ==>
              && recStack' == recStack && Topological(nodes, fin') && recStack !! Elements(fin')
              && visited' == recStack + Elements(fin')
              && fin <= fin' && n in fin'
    decreases Indices(nodes) - visited
  {
    if n in recStack {
      StackClosesCycle(nodes, path, n);
      return true, visited, recStack, fin;
    }
    if n in visited {
      return false, visited, recStack, fin;
    }
    visited' := visited + {n};
    recStack' := recStack + {n};
    fin' := fin;
    var deps := nodes[n].dependencies;
    for k := 0 to |deps|
      invariant recStack' == recStack + {n} == Elements(path + [n])
      invariant Topological(nodes, fin') && recStack' !! Elements(fin')
      invariant visited' == recStack' + Elements(fin')
      invariant fin <= fin' && forall m :: 0 <= m < k ==> deps[m] in fin'
    {
      ExtendPath(nodes, path, n, deps[k]);
      ghost var fin0 := fin';
      found, visited', recStack', fin' :=
        HasCycleUtil(nodes, deps[k], visited', recStack', path + [n], fin');
      if found {
        return;
      }
      assert forall x :: x in fin0 ==> x in fin';
    }
    FinishNode(nodes, fin', n);
    recStack' := recStack' - {n};
    fin' := fin' + [n];
    found := false;
  }

  /** The depth-first search finds a cycle exactly when there is one. */
  method HasCycles(nodes: seq<Node>) returns (found: bool, ghost order: seq<nat>)
    requires InRange(nodes)
    ensures found <==> Cyclic(nodes)
    ensures !found ==> Topological(nodes, order) && Covers(nodes, order)
  {
    var visited: set<nat>, recStack: set<nat> := {}, {};
    order := [];
    for i := 0 to |nodes|
      invariant recStack == {}
      invariant Topological(nodes, order) && visited == Elements(order)
      invariant forall m: nat :: m < i ==> m in order
    {
      assert IsPath(nodes, [] + [i]);
      ghost var order0 := order;
      found, visited, recStack, order := HasCycleUtil(nodes, i, visited, recStack, [], order);
      if found {
        return;
      }
      assert forall x :: x in order0 ==> x in order;
    }
    TopologicalIsAcyclic(nodes, order);
    found := false;
  }

  /** Every dependency points to an earlier node, as in every graph built from a list. */
  ghost predicate PointsBack(nodes: seq<Node>) {
    forall i, d :: 0 <= i < |nodes| && d in nodes[i].dependencies ==> d < i
  }

  lemma {:induction false} PointsBackIsAcyclic(nodes: seq<Node>)
    requires PointsBack(nodes)
    ensures !Cyclic(nodes)
  {
    var identity := seq(|nodes|, i => i);
    forall i, d | 0 <= i < |identity| && d in nodes[identity[i]].dependencies ensures d in identity[..i] {
      assert d == identity[..i][d];
    }
    forall i: nat | i < |nodes| ensures i in identity {
      assert identity[i] == i;
    }
    TopologicalIsAcyclic(nodes, identity);
  }

  /** `topologicalSortUtil`, with the recursion stack as the ghost `path`. */
  method TopologicalSortUtil(nodes: seq<Node>, n: nat, visited: set<nat>, stack: seq<nat>, ghost path: seq<nat>)
    returns (visited': set<nat>, stack': seq<nat>)
    requires InRange(nodes) && !Cyclic(nodes) && n < |nodes|
    requires IsPath(nodes, path + [n])
    requires Topological(nodes, stack)
    requires visited == Elements(path) + Elements(stack) && Elements(path) !! Elements(stack)
    requires n !in visited
    ensures Topological(nodes, stack') && stack <= stack' && n in stack'
    ensures visited' == Elements(path) + Elements(stack') && Elements(path) !! Elements(stack')
    ensures (forall d :: d in nodes[n].dependencies ==> d in stack) ==> stack' == stack + [n]
    decreases Indices(nodes) - visited
  {
    visited' := visited + {n};
    stack' := stack;
    var deps := nodes[n].dependencies;
    for k := 0 to |deps|
      invariant Topological(nodes, stack') && stack <= stack'
      invariant visited' == Elements(path + [n]) + Elements(stack')
      invariant Elements(path + [n]) !! Elements(stack')
      invariant forall m :: 0 <= m < k ==> deps[m] in stack'
      invariant (forall d :: d in deps ==> d in stack) ==> stack' == stack
    {
      ExtendPath(nodes, path, n, deps[k]);
      if deps[k] !in visited' {
        var stack0 := stack';
        visited', stack' := TopologicalSortUtil(nodes, deps[k], visited', stack', path + [n]);
        assert forall x :: x in stack0 ==> x in stack';
      } else if deps[k] in path + [n] {
        StackClosesCycle(nodes, path + [n], deps[k]);
      }
    }
    FinishNode(nodes, stack', n);
    stack' := stack' + [n];
  }

  /**
   `TopologicalSort`: fails exactly on cyclic graphs; otherwise lists every node once with its
   dependencies first. When dependencies point back, that is the submission order.
   */
  method TopologicalSort(nodes: seq<Node>) returns (r: Option<seq<nat>>)
    requires InRange(nodes)
    ensures r.None? <==> Cyclic(nodes)
    ensures r.Some? ==> Topological(nodes, r.value) && Covers(nodes, r.value)
    ensures r.Some? ==> |r.value| == |nodes|
    ensures PointsBack(nodes) ==> r == Some(seq(|nodes|, i => i))
  {
    var cyclic, order := HasCycles(nodes);
    if PointsBack(nodes) {
      PointsBackIsAcyclic(nodes);
    }
    if cyclic {
      return None;
    }
    var visited: set<nat>, stack: seq<nat> := {}, [];
    for i := 0 to |nodes|
      invariant Topological(nodes, stack) && visited == Elements(stack)
      invariant forall m: nat :: m < i ==> m in stack
      invariant PointsBack(nodes) ==> stack == seq(i, k => k)
    {
      if i !in visited {
        assert IsPath(nodes, [] + [i]);
        var stack0 := stack;
        visited, stack := TopologicalSortUtil(nodes, i, visited, stack, []);
        assert forall x :: x in stack0 ==> x in stack;
      }
    }
    NoDuplicatesCount(stack);
    assert Elements(stack) == Indices(nodes);
    IndicesCount(nodes);
    r := Some(stack);
  }

  lemma {:induction false} IndicesCount(nodes: seq<Node>)
    ensures |Indices(nodes)| == |nodes|
  {
    if nodes != [] {
      var init := nodes[..|nodes| - 1];
      IndicesCount(init);
      assert Indices(nodes) == Indices(init) + {|nodes| - 1};
    }
  }

  /** `i` is recorded under `key`. */
  ghost predicate Recorded(index: map<Bytes, seq<nat>>, key: Bytes, i: nat) {
    key in index && i in index[key]
  }

  /** The index records, for every key, the first `n` effects that depend on it in the given way. */
  ghost predicate IndexOf(index: map<Bytes, seq<nat>>, effects: seq<Effect>, n: nat, readOnly: bool)
    requires n <= |effects|
  {
    forall key, i: nat ::
      Recorded(index, key, i) <==> i < n && key in KeysIn(Dependencies(effects[i]), readOnly)
  }

  /** `index[key] = append(index[key], i)` */
  function Record(index: map<Bytes, seq<nat>>, key: Bytes, i: nat): map<Bytes, seq<nat>> {
    index[key := (if key in index then index[key] else []) + [i]]
  }

  lemma {:induction false} RecordAdds(index: map<Bytes, seq<nat>>, key: Bytes, i: nat)
    ensures forall k, x: nat ::
              Recorded(Record(index, key, i), k, x) <==> Recorded(index, k, x) || (k == key && x == i)
  {
    var index' := Record(index, key, i);
    forall k, x: nat ensures Recorded(index', k, x) <==> Recorded(index, k, x) || (k == key && x == i) {
      if k == key && key in index {
        assert x in index'[k] <==> x in index[k] || x == i;
      }
    }
  }

  /** Dependency `d` of a later effect orders it after effect `e`. */
  ghost predicate Orders(d: Dependency, e: Effect) {
    d.key in WriteKeys(e) || (!d.readOnly && d.key in ReadKeys(e))
  }

  ghost predicate OrdersAny(deps: seq<Dependency>, e: Effect) {
    exists d :: d in deps && Orders(d, e)
  }

  lemma {:induction false} OrdersIsConflicting(a: Effect, b: Effect)
    ensures OrdersAny(Dependencies(b), a) <==> Conflicting(a, b)
  {
    if OrdersAny(Dependencies(b), a) {
      var d :| d in Dependencies(b) && Orders(d, a);
      assert d.key in KeysIn(Dependencies(b), d.readOnly);
      if d.key in WriteKeys(a) {
        assert d.key in WriteKeys(a) * (ReadKeys(b) + WriteKeys(b));
      } else {
        assert d.key in ReadKeys(a) * WriteKeys(b);
      }
    }
    if Conflicting(a, b) {
      if WriteKeys(a) * (ReadKeys(b) + WriteKeys(b)) != {} {
        var k :| k in WriteKeys(a) * (ReadKeys(b) + WriteKeys(b));
        var d :| d in Dependencies(b) && d.key == k;
        assert Orders(d, a);
      } else {
        var k :| k in ReadKeys(a) * WriteKeys(b);
        var d :| d in Dependencies(b) && d.key == k && !d.readOnly;
        assert Orders(d, a);
      }
    }
  }

  /** `nodes` with the edge added unless it is there already. */
  ghost function WithEdge(nodes: seq<Node>, dependent: nat, dependency: nat): seq<Node>
    requires dependent < |nodes| && dependency < |nodes| && dependent != dependency
  {
    var from, to := nodes[dependent], nodes[dependency];
    if dependency in from.dependencies then nodes
    else
      nodes[dependent := from.(dependencies := from.dependencies + [dependency])]
           [dependency := to.(dependents := to.dependents + [dependent])]
  }

  ghost predicate DependsOn(nodes: seq<Node>, i: nat, d: nat) {
    i < |nodes| && d in nodes[i].dependencies
  }

  ghost predicate HasDependent(nodes: seq<Node>, d: nat, i: nat) {
    d < |nodes| && i in nodes[d].dependents
  }

  /** Distinct edges, recorded at both ends. */
  ghost predicate Linked(nodes: seq<Node>) {
    && (forall i :: 0 <= i < |nodes| ==> NoDuplicates(nodes[i].dependencies) && NoDuplicates(nodes[i].dependents))
    && (forall i: nat, d: nat :: DependsOn(nodes, i, d) <==> HasDependent(nodes, d, i))
  }

  /** Node `i` has gained exactly the dependencies `added`; edges are still recorded at both ends. */
  ghost predicate GrownBy(before: seq<Node>, after: seq<Node>, i: nat, added: set<nat>) {
    && |after| == |before| && Linked(after)
    && (forall x :: 0 <= x < |before| ==> after[x].effect == before[x].effect)
    && (forall x: nat, d: nat :: DependsOn(after, x, d) <==> DependsOn(before, x, d) || (x == i && d in added))
  }

  lemma {:induction false} WithEdgeGrows(nodes: seq<Node>, dependent: nat, dependency: nat)
    requires dependent < |nodes| && dependency < |nodes| && dependent != dependency && Linked(nodes)
    ensures GrownBy(nodes, WithEdge(nodes, dependent, dependency), dependent, {dependency})
  {
    var nodes' := WithEdge(nodes, dependent, dependency);
    assert !DependsOn(nodes, dependent, dependency) ==> !HasDependent(nodes, dependency, dependent);
    forall x: nat, d: nat
      ensures DependsOn(nodes', x, d) <==> DependsOn(nodes, x, d) || (x == dependent && d == dependency)
      ensures HasDependent(nodes', d, x) <==> HasDependent(nodes, d, x) || (x == dependent && d == dependency)
    {
      assert DependsOn(nodes, x, d) <==> HasDependent(nodes, d, x);
    }
  }

  ghost function Earlier(i: nat, others: seq<nat>): set<nat> {
    set d | d in others && d < i
  }

  /** The effects before the i-th that one of `deps` orders it after. */
  ghost function OrderedBefore(effects: seq<Effect>, i: nat, deps: seq<Dependency>): set<nat>
    requires i <= |effects|
  {
    set d: nat | d < i && OrdersAny(deps, effects[d])
  }

  /** The nodes up to `n` have exactly the dependencies their conflicts with earlier effects call for. */
  ghost predicate HasConflictEdges(nodes: seq<Node>, effects: seq<Effect>, n: nat)
    requires |nodes| == |effects| && n <= |nodes|
  {
    && (forall i :: 0 <= i < |nodes| ==> nodes[i].effect == effects[i])
    && (forall i: nat, j: nat :: DependsOn(nodes, i, j) <==> j < i < n && Conflicting(effects[j], effects[i]))
  }

  class Graph {
    var nodes: seq<Node>
    var readKeys: map<Bytes, seq<nat>>
    var writeKeys: map<Bytes, seq<nat>>

    constructor (effects: seq<Effect>)
      ensures |nodes| == |effects|
      ensures forall i :: 0 <= i < |nodes| ==> nodes[i] == Node(effects[i], [], [])
      ensures readKeys == map[] && writeKeys == map[]
    {
      nodes := seq(|effects|, i requires 0 <= i < |effects| => Node(effects[i], [], []));
      readKeys := map[];
      writeKeys := map[];
    }

    /** The second loop of `NewGraph`. */
    method IndexKeys(ghost effects: seq<Effect>)
      requires |nodes| == |effects| && forall i :: 0 <= i < |nodes| ==> nodes[i].effect == effects[i]
      requires readKeys == map[] && writeKeys == map[]
      modifies this`readKeys, this`writeKeys
      ensures IndexOf(readKeys, effects, |effects|, true)
      ensures IndexOf(writeKeys, effects, |effects|, false)
    {
      for i := 0 to |nodes|
        invariant IndexOf(readKeys, effects, i, true)
        invariant IndexOf(writeKeys, effects, i, false)
      {
        var deps := Dependencies(nodes[i].effect);
        for m := 0 to |deps|
          invariant forall key, x: nat :: Recorded(readKeys, key, x) <==>
            (x < i && key in KeysIn(Dependencies(effects[x]), true)) || (x == i && key in KeysIn(deps[..m], true))
          invariant forall key, x: nat :: Recorded(writeKeys, key, x) <==>
            (x < i && key in KeysIn(Dependencies(effects[x]), false)) || (x == i && key in KeysIn(deps[..m], false))
        {
          var key := deps[m].key;
          assert deps[..m + 1] == deps[..m] + [deps[m]];
          assert KeysIn(deps[..m + 1], deps[m].readOnly) == KeysIn(deps[..m], deps[m].readOnly) + {key};
          assert KeysIn(deps[..m + 1], !deps[m].readOnly) == KeysIn(deps[..m], !deps[m].readOnly);
          if deps[m].readOnly {
            RecordAdds(readKeys, key, i);
            readKeys := Record(readKeys, key, i);
          } else {
            RecordAdds(writeKeys, key, i);
            writeKeys := Record(writeKeys, key, i);
          }
        }
        assert deps[..|deps|] == deps;
      }
    }

    /** `addDependency` */
    method AddDependency(dependent: nat, dependency: nat)
      requires dependent < |nodes| && dependency < |nodes| && dependent != dependency
      modifies this`nodes
      ensures nodes == WithEdge(old(nodes), dependent, dependency)
    {
      var deps := nodes[dependent].dependencies;
      for k := 0 to |deps|
        invariant dependency !in deps[..k]
        invariant nodes == old(nodes)
      {
        if deps[k] == dependency {
          return;
        }
      }
      var from := nodes[dependent];
      nodes := nodes[dependent := from.(dependencies := from.dependencies + [dependency])];
      var to := nodes[dependency];
      nodes := nodes[dependency := to.(dependents := to.dependents + [dependent])];
    }

    /** The innermost loops of `buildDependencies`: edges from `i` to the earlier ones of `others`. */
    method AddEarlier(i: nat, others: seq<nat>)
      requires i < |nodes| && Linked(nodes)
      modifies this`nodes
      ensures GrownBy(old(nodes), nodes, i, Earlier(i, others))
    {
      for k := 0 to |others|
        invariant GrownBy(old(nodes), nodes, i, Earlier(i, others[..k]))
      {
        assert others[..k + 1] == others[..k] + [others[k]];
        if others[k] < i {
          WithEdgeGrows(nodes, i, others[k]);
          AddDependency(i, others[k]);
          assert Earlier(i, others[..k + 1]) == Earlier(i, others[..k]) + {others[k]};
        } else {
          assert Earlier(i, others[..k + 1]) == Earlier(i, others[..k]);
        }
      }
      assert others[..|others|] == others;
    }

    /** One dependency in `buildDependencies`: edges from `i` to the earlier effects it orders. */
    method AddOrdered(ghost effects: seq<Effect>, i: nat, dep: Dependency)
      requires |nodes| == |effects| && i < |nodes| && Linked(nodes)
      requires IndexOf(readKeys, effects, |effects|, true)
      requires IndexOf(writeKeys, effects, |effects|, false)
      modifies this`nodes
      ensures GrownBy(old(nodes), nodes, i, OrderedBefore(effects, i, [dep]))
    {
      ghost var readers := if dep.key in readKeys then Earlier(i, readKeys[dep.key]) else {};
      ghost var writers := if dep.key in writeKeys then Earlier(i, writeKeys[dep.key]) else {};
      forall d: nat | d < i
        ensures d in readers <==> dep.key in ReadKeys(effects[d])
        ensures d in writers <==> dep.key in WriteKeys(effects[d])
        ensures OrdersAny([dep], effects[d]) <==> Orders(dep, effects[d])
      {
        assert Recorded(readKeys, dep.key, d) <==> d in readers;
        assert Recorded(writeKeys, dep.key, d) <==> d in writers;
        assert dep in [dep];
      }
      if dep.readOnly {
        if dep.key in writeKeys {
          AddEarlier(i, writeKeys[dep.key]);
        }
        assert OrderedBefore(effects, i, [dep]) == writers;
      } else {
        if dep.key in readKeys {
          AddEarlier(i, readKeys[dep.key]);
        }
        ghost var between := nodes;
        if dep.key in writeKeys {
          AddEarlier(i, writeKeys[dep.key]);
        }
        assert OrderedBefore(effects, i, [dep]) == readers + writers;
      }
    }

    /** One node in `buildDependencies`. */
    method BuildNode(ghost effects: seq<Effect>, i: nat)
      requires |nodes| == |effects| && i < |nodes| && Linked(nodes) && nodes[i].effect == effects[i]
      requires IndexOf(readKeys, effects, |effects|, true)
      requires IndexOf(writeKeys, effects, |effects|, false)
      modifies this`nodes
      ensures GrownBy(old(nodes), nodes, i, OrderedBefore(effects, i, Dependencies(effects[i])))
    {
      var deps := Dependencies(nodes[i].effect);
      for m := 0 to |deps|
        invariant GrownBy(old(nodes), nodes, i, OrderedBefore(effects, i, deps[..m]))
      {
        ghost var between := nodes;
        AddOrdered(effects, i, deps[m]);
        assert deps[..m + 1] == deps[..m] + [deps[m]];
        assert OrderedBefore(effects, i, deps[..m + 1])
            == OrderedBefore(effects, i, deps[..m]) + OrderedBefore(effects, i, [deps[m]]);
      }
      assert deps[..|deps|] == deps;
    }

    /** `buildDependencies` */
    method BuildDependencies(ghost effects: seq<Effect>)
      requires |nodes| == |effects| && Linked(nodes) && HasConflictEdges(nodes, effects, 0)
      requires IndexOf(readKeys, effects, |effects|, true)
      requires IndexOf(writeKeys, effects, |effects|, false)
      modifies this`nodes
      ensures |nodes| == |effects| && Linked(nodes) && HasConflictEdges(nodes, effects, |effects|)
    {
      for i := 0 to |nodes|
        invariant |nodes| == |effects| && Linked(nodes) && HasConflictEdges(nodes, effects, i)
      {
        BuildNode(effects, i);
        forall j: nat | j < i
          ensures OrdersAny(Dependencies(effects[i]), effects[j]) <==> Conflicting(effects[j], effects[i])
        {
          OrdersIsConflicting(effects[j], effects[i]);
        }
      }
    }
  }

  /** `NewGraph`: refuses a list with an invalid effect, else builds the conflict graph. */
  method NewGraph(effects: seq<Effect>) returns (g: Option<Graph>)
    ensures g.Some? <==> forall i :: 0 <= i < |effects| ==> IsValid(effects[i])
    ensures g.Some? ==> fresh(g.value)
    ensures g.Some? ==>
              |g.value.nodes| == |effects| && Linked(g.value.nodes)
              && HasConflictEdges(g.value.nodes, effects, |effects|)
  {
    for i := 0 to |effects|
      invariant forall k :: 0 <= k < i ==> IsValid(effects[k])
    {
      if !IsValid(effects[i]) {
        return None;
      }
    }
    var graph := new Graph(effects);
    graph.IndexKeys(effects);
    graph.BuildDependencies(effects);
    return Some(graph);
  }
}
