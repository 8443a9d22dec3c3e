/** Module registration and initialization order (`module/registry.go`, `module/module.go`). */
module Registry {
  import opened Basics
  import opened Order

  /** The handler maps say for each message type or query path whether there is a handler. */
  datatype Module = Module(
    name: Bytes, dependencies: seq<Bytes>, msgHandlers: map<Bytes, bool>, queryHandlers: map<Bytes, bool>)

  /** Module names and the names each depends on. */
  type Graph = map<Bytes, seq<Bytes>>

  // ---- Initialization orders ----

  /** Not initialized yet, with all dependencies initialized. */
  ghost predicate Ready(g: Graph, done: set<Bytes>, n: Bytes) {
    n in g && n !in done && forall d :: d in g[n] ==> d in done
  }

  /** Every module once, after its dependencies. */
  ghost predicate IsInitOrder(g: Graph, order: seq<Bytes>) {
    Elements(order) == g.Keys && forall i :: 0 <= i < |order| ==> Ready(g, Elements(order[..i]), order[i])
  }

  /** Always the least of the ready modules. */
  ghost predicate IsGreedy(g: Graph, order: seq<Bytes>) {
    forall i :: 0 <= i < |order| ==> IsLeastReady(g, Elements(order[..i]), order[i])
  }

  ghost predicate IsLeastReady(g: Graph, done: set<Bytes>, n: Bytes) {
    Ready(g, done, n) && forall m :: Ready(g, done, m) ==> LessEq(n, m)
  }

  /** Lexicographically before: equal, a proper prefix, or less at the first difference. */
  ghost predicate LexLessEq(s: seq<Bytes>, t: seq<Bytes>)
    decreases |s|
  {
    s == [] || (t != [] && (Less(s[0], t[0]) || (s[0] == t[0] && LexLessEq(s[1..], t[1..]))))
  }

  /** An initialization order lists every module once, and each dependency before what depends on it. */
  lemma {:induction false} InitOrderIff(g: Graph, order: seq<Bytes>)
    ensures IsInitOrder(g, order)
            <==> && NoDuplicates(order) && (forall n :: n in order <==> n in g)
                 && forall i, d :: 0 <= i < |order| && order[i] in g && d in g[order[i]] ==>
                      exists j :: 0 <= j < i && order[j] == d
  {
    if IsInitOrder(g, order) {
      forall i, j | 0 <= i < j < |order| ensures order[i] != order[j] {
        assert Ready(g, Elements(order[..j]), order[j]);
        assert order[i] in order[..j];
      }
      assert forall n :: n in Elements(order) <==> n in g;
      forall i, d | 0 <= i < |order| && order[i] in g && d in g[order[i]]
        ensures exists j :: 0 <= j < i && order[j] == d
      {
        assert Ready(g, Elements(order[..i]), order[i]) && d in order[..i];
      }
    } else if NoDuplicates(order) && forall n :: n in order <==> n in g {
      assert Elements(order) == g.Keys;
      var i :| 0 <= i < |order| && !Ready(g, Elements(order[..i]), order[i]);
      assert order[i] in order && order[i] !in order[..i];
      var d :| d in g[order[i]] && d !in order[..i];
      assert forall j :: 0 <= j < i ==> order[j] in order[..i];
    }
  }

  /** Of two lists neither of which begins the other, the first is the one with the lesser name where they part. */
  lemma {:induction false} LexIff(s: seq<Bytes>, t: seq<Bytes>)
    ensures LexLessEq(s, t)
            <==> s <= t || exists k :: 0 <= k < |s| && k < |t| && s[..k] == t[..k] && Less(s[k], t[k])
    decreases |s|
  {
    if s != [] && t != [] {
      if s[0] == t[0] {
        LexIff(s[1..], t[1..]);
        LessIrreflexive(s[0]);
        if k :| 0 <= k < |s[1..]| && k < |t[1..]| && s[1..][..k] == t[1..][..k] && Less(s[1..][k], t[1..][k]) {
          assert s[..k + 1] == [s[0]] + s[1..][..k] && t[..k + 1] == [t[0]] + t[1..][..k];
        }
        if k :| 0 <= k < |s| && k < |t| && s[..k] == t[..k] && Less(s[k], t[k]) {
          assert s[1..][..k - 1] == s[..k][1..] && t[1..][..k - 1] == t[..k][1..];
          assert Less(s[1..][k - 1], t[1..][k - 1]);
        }
        assert s == [s[0]] + s[1..] && t == [t[0]] + t[1..];
      } else {
        assert s[..0] == t[..0];
        assert forall k :: 0 < k < |s| && k < |t| ==> s[..k][0] == s[0] && t[..k][0] == t[0];
      }
    }
  }

  lemma {:induction false} GreedyFrom(g: Graph, s: seq<Bytes>, t: seq<Bytes>, k: nat)
    requires IsGreedy(g, s) && IsInitOrder(g, s) && IsInitOrder(g, t)
    requires k <= |s| && k <= |t| && s[..k] == t[..k]
    ensures LexLessEq(s[k..], t[k..])
    decreases |s| - k
  {
    if k < |s| {
      assert IsLeastReady(g, Elements(s[..k]), s[k]);
      assert s[k] in Elements(s) && t[..|t|] == t;
      if k < |t| {
        assert Ready(g, Elements(t[..k]), t[k]);
        if s[k] == t[k] {
          assert s[..k + 1] == s[..k] + [s[k]] && t[..k + 1] == t[..k] + [t[k]];
          GreedyFrom(g, s, t, k + 1);
          assert s[k..][1..] == s[k + 1..] && t[k..][1..] == t[k + 1..];
        }
      }
    }
  }

  /** The greedy order is the lexicographically least initialization order. */
  lemma {:induction false} GreedyIsLeast(g: Graph, s: seq<Bytes>, t: seq<Bytes>)
    requires IsGreedy(g, s) && IsInitOrder(g, s) && IsInitOrder(g, t)
    ensures LexLessEq(s, t)
  {
    GreedyFrom(g, s, t, 0);
    assert s[0..] == s && t[0..] == t;
  }

  // ---- Registration ----

  predicate IsValidModule(m: Module) {
    && m.name != []
    && (forall i :: 0 <= i < |m.dependencies| ==> m.dependencies[i] != [] && m.dependencies[i] != m.name)
    && (forall i, j :: 0 <= i < j < |m.dependencies| ==> m.dependencies[i] != m.dependencies[j])
    && AreHandlers(m.msgHandlers) && AreHandlers(m.queryHandlers)
  }

  /** Every name is non-empty and has a handler. */
  predicate AreHandlers(handlers: map<Bytes, bool>) {
    forall name :: name in handlers ==> name != [] && handlers[name]
  }

  /** One of the two handler loops, in any order of the map. */
  method ValidateHandlers(handlers: map<Bytes, bool>) returns (ok: bool)
    ensures ok <==> AreHandlers(handlers)
  {
    var remaining := handlers.Keys;
    while remaining != {}
      invariant remaining <= handlers.Keys
      invariant forall name :: name in handlers && name !in remaining ==> name != [] && handlers[name]
      decreases remaining
    {
      var name :| name in remaining;
      if name == [] || !handlers[name] {
        return false;
      }
      remaining := remaining - {name};
    }
    return true;
  }

  /** `ValidateModule` */
  method ValidateModule(m: Module) returns (ok: bool)
    ensures ok <==> IsValidModule(m)
    ensures ok ==> m.name != [] && m.name !in m.dependencies && [] !in m.dependencies && NoDuplicates(m.dependencies)
    ensures ok ==> forall n :: (n in m.msgHandlers ==> n != [] && m.msgHandlers[n])
                               && (n in m.queryHandlers ==> n != [] && m.queryHandlers[n])
  {
    if m.name == [] {
      return false;
    }
    var seen: set<Bytes> := {};
    for i := 0 to |m.dependencies|
      invariant seen == Elements(m.dependencies[..i])
      invariant forall k :: 0 <= k < i ==> m.dependencies[k] != [] && m.dependencies[k] != m.name
      invariant NoDuplicates(m.dependencies[..i])
    {
      var dep := m.dependencies[i];
      assert m.dependencies[..i + 1] == m.dependencies[..i] + [dep];
      if dep == [] || dep == m.name || dep in seen {
        return false;
      }
      seen := seen + {dep};
    }
    assert m.dependencies[..|m.dependencies|] == m.dependencies;
    ok := ValidateHandlers(m.msgHandlers);
    if ok {
      ok := ValidateHandlers(m.queryHandlers);
    }
  }

  /** Registered one by one, each after its dependencies. */
  ghost predicate IsRegistered(g: Graph, history: seq<Bytes>) {
    && NoDuplicates(history) && Elements(history) == g.Keys
    && (forall i :: 0 <= i < |history| ==>
         NoDuplicates(g[history[i]]) && forall d :: d in g[history[i]] ==> d in history[..i])
  }

  // ---- Counting what is missing ----

  ghost function Missing(deps: seq<Bytes>, done: set<Bytes>): nat {
    if deps == [] then 0 else Missing(deps[1..], done) + if deps[0] in done then 0 else 1
  }

  lemma {:induction false} MissingNone(deps: seq<Bytes>, done: set<Bytes>)
    ensures Missing(deps, done) == 0 <==> forall d :: d in deps ==> d in done
  {
    if deps != [] {
      MissingNone(deps[1..], done);
      assert forall d :: d in deps <==> d == deps[0] || d in deps[1..];
    }
  }

  lemma {:induction false} MissingAll(deps: seq<Bytes>)
    ensures Missing(deps, {}) == |deps|
  {
    if deps != [] {
      MissingAll(deps[1..]);
    }
  }

  lemma {:induction false} MissingOneLess(deps: seq<Bytes>, done: set<Bytes>, x: Bytes)
    requires NoDuplicates(deps) && x !in done
    ensures Missing(deps, done + {x}) == Missing(deps, done) - if x in deps then 1 else 0
  {
    if deps != [] {
      MissingOneLess(deps[1..], done, x);
      assert x in deps <==> x == deps[0] || x in deps[1..];
      assert deps[0] !in deps[1..];
    }
  }

  // ---- Kahn's algorithm ----

  /** `adj[d]` lists, each once, the modules among `names` that depend on `d`. */
  ghost predicate IsAdjacency(g: Graph, names: set<Bytes>, adj: map<Bytes, seq<Bytes>>)
    requires names <= g.Keys
  {
    && adj.Keys == g.Keys
    && (forall d :: d in adj ==> NoDuplicates(adj[d]) && forall n :: n in adj[d] <==> n in names && d in g[n])
  }

  /** Dependencies are registered and distinct. */
  ghost predicate IsClosed(g: Graph) {
    forall n :: n in g ==> NoDuplicates(g[n]) && forall d :: d in g[n] ==> d in g
  }

  lemma {:induction false} RegisteredIsClosed(g: Graph, history: seq<Bytes>)
    requires IsRegistered(g, history)
    ensures IsClosed(g)
  {
    forall n | n in g ensures NoDuplicates(g[n]) && forall d :: d in g[n] ==> d in g {
      assert n in Elements(history);
      var i :| 0 <= i < |history| && history[i] == n;
      forall d | d in g[n] ensures d in g {
        assert d in history[..i];
        assert d in Elements(history);
      }
    }
  }

  /** One module in the graph-building loop: an edge from each of its dependencies. */
  method AddEdges(ghost g: Graph, ghost names: set<Bytes>, name: Bytes, deps: seq<Bytes>, adj: map<Bytes, seq<Bytes>>)
    returns (degree: nat, adj': map<Bytes, seq<Bytes>>)
    requires IsClosed(g) && names <= g.Keys && name in g && name !in names && deps == g[name]
    requires IsAdjacency(g, names, adj)
    ensures degree == |deps| && IsAdjacency(g, names + {name}, adj')
  {
    degree, adj' := 0, adj;
    for k := 0 to |deps|
      invariant degree == k && adj'.Keys == g.Keys
      invariant forall d :: d in adj' ==> adj'[d] == if d in deps[..k] then adj[d] + [name] else adj[d]
    {
      assert deps[k] in deps && deps[k] in g && deps[k] !in deps[..k];
      assert deps[..k + 1] == deps[..k] + [deps[k]];
      adj' := adj'[deps[k] := adj'[deps[k]] + [name]];
      degree := degree + 1;
    }
    assert deps[..|deps|] == deps;
    AdjacencyGrows(g, names, name, adj, adj');
  }

  lemma {:induction false} AdjacencyGrows(g: Graph, names: set<Bytes>, name: Bytes, adj: map<Bytes, seq<Bytes>>,
                                          adj': map<Bytes, seq<Bytes>>)
    requires IsClosed(g) && names <= g.Keys && name in g && name !in names
    requires IsAdjacency(g, names, adj) && adj'.Keys == g.Keys
    requires forall d :: d in adj' ==> adj'[d] == if d in g[name] then adj[d] + [name] else adj[d]
    ensures IsAdjacency(g, names + {name}, adj')
  {
    forall d | d in adj'
      ensures NoDuplicates(adj'[d]) && forall n :: n in adj'[d] <==> n in names + {name} && d in g[n]
    {
      assert name !in adj[d];
    }
  }

  /** Where no module is considered yet, there is no edge. */
  lemma {:induction false} NoEdges(g: Graph, adj: map<Bytes, seq<Bytes>>)
    requires adj == map n | n in g :: []
    ensures IsAdjacency(g, {}, adj)
  {
  }

  lemma {:induction false} OneMoreDegree(g: Graph, names: set<Bytes>, inDegree: map<Bytes, nat>, name: Bytes)
    requires DegreesSet(g, names, inDegree) && name in g
    ensures DegreesSet(g, names + {name}, inDegree[name := |g[name]|])
  {
  }

  /** The in-degrees of the given modules are set. */
  ghost predicate DegreesSet(g: Graph, names: set<Bytes>, inDegree: map<Bytes, nat>) {
    inDegree.Keys == g.Keys && names <= g.Keys && forall n :: n in names ==> inDegree[n] == |g[n]|
  }

  /** The graph-building loops: in-degrees and adjacency, over the module map in any order. */
  method BuildGraph(g: Graph) returns (inDegree: map<Bytes, nat>, adj: map<Bytes, seq<Bytes>>)
    requires IsClosed(g)
    ensures inDegree.Keys == g.Keys && forall n :: n in g ==> inDegree[n] == |g[n]|
    ensures IsAdjacency(g, g.Keys, adj)
  {
    inDegree := map n | n in g :: 0;
    adj := map n | n in g :: [];
    NoEdges(g, adj);
    ghost var names: set<Bytes> := {};
    var remaining := g.Keys;
    while remaining != {}
      invariant remaining !! names && remaining + names == g.Keys
      invariant DegreesSet(g, names, inDegree)
      invariant IsAdjacency(g, names, adj)
      decreases remaining
    {
      var name :| name in remaining;
      remaining := remaining - {name};
      var degree;
      degree, adj := AddEdges(g, names, name, g[name], adj);
      OneMoreDegree(g, names, inDegree, name);
      inDegree := inDegree[name := degree];
      names := names + {name};
    }
    assert names == g.Keys;
  }

  /** The queue holds the ready modules, ascending; every in-degree counts the missing dependencies. */
  ghost predicate QueueHolds(g: Graph, done: set<Bytes>, queue: seq<Bytes>) {
    Ascending(queue) && forall n :: n in queue <==> Ready(g, done, n)
  }

  ghost predicate DegreesCount(g: Graph, done: set<Bytes>, inDegree: map<Bytes, nat>) {
    inDegree.Keys == g.Keys && forall n :: n in g ==> inDegree[n] == Missing(g[n], done)
  }

  /** The initial queue: the modules with in-degree zero, sorted. */
  method InitialQueue(ghost g: Graph, inDegree: map<Bytes, nat>) returns (queue: seq<Bytes>)
    requires DegreesCount(g, {}, inDegree)
    ensures QueueHolds(g, {}, queue)
  {
    queue := [];
    var remaining := inDegree.Keys;
    while remaining != {}
      invariant remaining <= inDegree.Keys && NoDuplicates(queue)
      invariant forall n :: n in queue <==> n in inDegree && n !in remaining && inDegree[n] == 0
      decreases remaining
    {
      var n :| n in remaining;
      remaining := remaining - {n};
      if inDegree[n] == 0 {
        assert n !in queue;
        queue := queue + [n];
      }
    }
    forall n ensures n in queue <==> Ready(g, {}, n) {
      if n in g {
        MissingNone(g[n], {});
      }
    }
    SortDistinct(queue);
    ghost var unsorted := queue;
    queue := Sort(queue);
    assert forall n :: n in queue <==> n in Elements(queue);
    assert forall n :: n in unsorted <==> n in Elements(unsorted);
  }

  /** Appending a new name and sorting again. */
  method PushSorted(queue: seq<Bytes>, n: Bytes) returns (queue': seq<Bytes>)
    requires Ascending(queue) && n !in queue
    ensures Ascending(queue') && forall m :: m in queue' <==> m in queue || m == n
  {
    var longer := queue + [n];
    AscendingDistinct(queue);
    SortDistinct(longer);
    queue' := Sort(longer);
    assert forall m :: m in queue' <==> m in Elements(queue');
    assert forall m :: m in longer <==> m in Elements(longer);
  }

  /** After `current`: its dependents have one dependency less, the rest is unchanged. */
  lemma {:induction false} CurrentDone(g: Graph, done: set<Bytes>, current: Bytes, n: Bytes)
    requires IsClosed(g) && Ready(g, done, current) && n in g
    ensures Missing(g[n], done + {current}) == Missing(g[n], done) - if current in g[n] then 1 else 0
    ensures Ready(g, done + {current}, n) <==> n !in done + {current} && Missing(g[n], done + {current}) == 0
    ensures current in g[n] ==> !Ready(g, done, n)
  {
    MissingOneLess(g[n], done, current);
    MissingNone(g[n], done + {current});
  }

  /** Midway: the first `k` dependents of `current` have been released. */
  ghost predicate Released(g: Graph, done: set<Bytes>, current: Bytes, released: seq<Bytes>, queue: seq<Bytes>,
                           inDegree: map<Bytes, nat>)
  {
    && inDegree.Keys == g.Keys && Ascending(queue)
    && (forall n :: n in g ==> inDegree[n] == Missing(g[n], if n in released then done + {current} else done))
    && (forall n :: n in queue <==>
         (Ready(g, done, n) && n != current) || (n in released && Ready(g, done + {current}, n)))
  }

  ghost predicate AreDependents(g: Graph, current: Bytes, dependents: seq<Bytes>) {
    NoDuplicates(dependents) && forall n :: n in dependents <==> n in g && current in g[n]
  }

  lemma {:induction false} AllReleased(g: Graph, done: set<Bytes>, current: Bytes, dependents: seq<Bytes>,
                                       queue: seq<Bytes>, inDegree: map<Bytes, nat>)
    requires IsClosed(g) && Ready(g, done, current) && AreDependents(g, current, dependents)
    requires Released(g, done, current, dependents, queue, inDegree)
    ensures QueueHolds(g, done + {current}, queue) && DegreesCount(g, done + {current}, inDegree)
  {
    forall n | n in g
      ensures inDegree[n] == Missing(g[n], done + {current})
      ensures n in queue <==> Ready(g, done + {current}, n)
    {
      CurrentDone(g, done, current, n);
    }
  }

  /** Releasing one dependent: one missing dependency less, and into the queue at zero. */
  method ReleaseOne(ghost g: Graph, ghost done: set<Bytes>, ghost current: Bytes, ghost released: seq<Bytes>, n: Bytes,
                    queue: seq<Bytes>, inDegree: map<Bytes, nat>)
    returns (queue': seq<Bytes>, inDegree': map<Bytes, nat>)
    requires IsClosed(g) && Ready(g, done, current) && n in g && current in g[n] && n !in released && n !in done
    requires Released(g, done, current, released, queue, inDegree)
    ensures Released(g, done, current, released + [n], queue', inDegree')
  {
    CurrentDone(g, done, current, n);
    queue', inDegree' := queue, inDegree[n := inDegree[n] - 1];
    assert n !in queue && forall m :: m in released + [n] <==> m in released || m == n;
    if inDegree'[n] == 0 {
      queue' := PushSorted(queue, n);
    }
  }

  /** The loop over the dependents of `current`, which has just been appended to the result. */
  method ReleaseDependents(ghost g: Graph, ghost done: set<Bytes>, ghost current: Bytes, dependents: seq<Bytes>,
                           queue: seq<Bytes>, inDegree: map<Bytes, nat>)
    returns (queue': seq<Bytes>, inDegree': map<Bytes, nat>)
    requires IsClosed(g) && Ready(g, done, current) && AreDependents(g, current, dependents)
    requires forall n :: n in done ==> n in g && forall d :: d in g[n] ==> d in done
    requires Released(g, done, current, [], queue, inDegree)
    ensures QueueHolds(g, done + {current}, queue') && DegreesCount(g, done + {current}, inDegree')
  {
    queue', inDegree' := queue, inDegree;
    for k := 0 to |dependents|
      invariant Released(g, done, current, dependents[..k], queue', inDegree')
    {
      assert dependents[k] in dependents && dependents[k] !in dependents[..k];
      assert dependents[..k + 1] == dependents[..k] + [dependents[k]];
      queue', inDegree' := ReleaseOne(g, done, current, dependents[..k], dependents[k], queue', inDegree');
    }
    assert dependents[..|dependents|] == dependents;
    AllReleased(g, done, current, dependents, queue', inDegree');
  }

  /** What the main loop keeps: a greedy partial order, and the modules that are ready after it. */
  ghost predicate IsPartial(g: Graph, result: seq<Bytes>, queue: seq<Bytes>, inDegree: map<Bytes, nat>) {
    && IsGreedy(g, result) && Elements(result) <= g.Keys
    && QueueHolds(g, Elements(result), queue) && DegreesCount(g, Elements(result), inDegree)
  }

  lemma {:induction false} GreedyIsClosed(g: Graph, result: seq<Bytes>, n: Bytes)
    requires IsGreedy(g, result) && n in result
    ensures n in g && forall d :: d in g[n] ==> d in result
  {
    var i :| 0 <= i < |result| && result[i] == n;
    assert IsLeastReady(g, Elements(result[..i]), n);
    assert forall d :: d in g[n] ==> d in result[..i];
  }

  lemma {:induction false} GreedyExtends(g: Graph, result: seq<Bytes>, queue: seq<Bytes>)
    requires IsGreedy(g, result) && QueueHolds(g, Elements(result), queue) && queue != []
    ensures IsGreedy(g, result + [queue[0]])
  {
    var n, result' := queue[0], result + [queue[0]];
    assert n in queue;
    forall m | Ready(g, Elements(result), m) ensures LessEq(n, m) {
      assert m in queue;
      var j :| 0 <= j < |queue| && queue[j] == m;
    }
    forall i | 0 <= i < |result'| ensures IsLeastReady(g, Elements(result'[..i]), result'[i]) {
      if i < |result| {
        assert result'[..i] == result[..i];
      } else {
        assert result'[..i] == result;
      }
    }
  }

  /** One round of the main loop: pop the least ready module, append it, release its dependents. */
  method Round(ghost g: Graph, adj: map<Bytes, seq<Bytes>>, result: seq<Bytes>, queue: seq<Bytes>,
               inDegree: map<Bytes, nat>)
    returns (result': seq<Bytes>, queue': seq<Bytes>, inDegree': map<Bytes, nat>)
    requires IsClosed(g) && IsAdjacency(g, g.Keys, adj) && IsPartial(g, result, queue, inDegree) && queue != []
    ensures IsPartial(g, result', queue', inDegree')
    ensures result' == result + [queue[0]] && queue[0] in g && queue[0] !in result
  {
    var current := queue[0];
    ghost var done := Elements(result);
    assert current in queue;
    GreedyExtends(g, result, queue);
    result' := result + [current];
    assert Elements(result') == done + {current};
    var dependents := Sort(adj[current]);
    SortDistinct(adj[current]);
    AscendingDistinct(dependents);
    assert forall n :: n in dependents <==> n in Elements(adj[current]) by {
      assert forall n :: n in dependents <==> n in Elements(dependents);
    }
    forall n | n in done ensures n in g && forall d :: d in g[n] ==> d in done {
      GreedyIsClosed(g, result, n);
    }
    PopHead(queue);
    queue', inDegree' := ReleaseDependents(g, done, current, dependents, queue[1..], inDegree);
  }

  lemma {:induction false} PopHead(queue: seq<Bytes>)
    requires queue != [] && Ascending(queue)
    ensures Ascending(queue[1..]) && forall n :: n in queue[1..] <==> n in queue && n != queue[0]
  {
    AscendingDistinct(queue);
    assert forall n :: n in queue <==> n == queue[0] || n in queue[1..];
    assert queue[0] !in queue[1..];
  }

  /** Any initialization order shows that something is ready until all modules are done. */
  lemma {:induction false} OrderShowsReady(g: Graph, t: seq<Bytes>, done: set<Bytes>) returns (n: Bytes)
    requires IsInitOrder(g, t) && done < g.Keys
    ensures Ready(g, done, n)
  {
    var k := 0;
    while k < |t| && t[k] in done
      invariant 0 <= k <= |t|
      invariant forall i :: 0 <= i < k ==> t[i] in done
    {
      k := k + 1;
    }
    assert k < |t| by {
      assert forall x :: x in g ==> x in Elements(t);
    }
    n := t[k];
    assert Ready(g, Elements(t[..k]), n);
  }

  /** A greedy partial order with every module is an initialization order. */
  lemma {:induction false} GreedyIsInitOrder(g: Graph, result: seq<Bytes>)
    requires IsGreedy(g, result) && Elements(result) == g.Keys
    ensures IsInitOrder(g, result)
  {
    forall i | 0 <= i < |result| ensures Ready(g, Elements(result[..i]), result[i]) {
      assert IsLeastReady(g, Elements(result[..i]), result[i]);
    }
  }

  /** The main loop of `topologicalSort`, until nothing is ready. */
  method RunRounds(ghost g: Graph, adj: map<Bytes, seq<Bytes>>, start: seq<Bytes>, degrees: map<Bytes, nat>)
    returns (result: seq<Bytes>)
    requires IsClosed(g) && IsAdjacency(g, g.Keys, adj)
    requires QueueHolds(g, {}, start) && DegreesCount(g, {}, degrees)
    ensures IsGreedy(g, result) && Elements(result) <= g.Keys
    ensures forall n :: !Ready(g, Elements(result), n)
  {
    var queue, inDegree := start, degrees;
    result := [];
    assert Elements(result) == {};
    while queue != []
      invariant IsPartial(g, result, queue, inDegree)
      decreases g.Keys - Elements(result)
    {
      ghost var before := result;
      ghost var head := queue[0];
      result, queue, inDegree := Round(g, adj, result, queue, inDegree);
      assert head in Elements(result) && head !in Elements(before);
    }
    assert forall n :: n in queue <==> Ready(g, Elements(result), n);
  }

  /** When nothing is ready, a shortfall of modules means that there is no initialization order. */
  lemma {:induction false} StuckMeansCycle(g: Graph, result: seq<Bytes>)
    requires IsGreedy(g, result) && Elements(result) <= g.Keys
    requires forall n :: !Ready(g, Elements(result), n)
    ensures |result| == |g.Keys| ==> IsInitOrder(g, result)
    ensures |result| != |g.Keys| ==> !exists t :: IsInitOrder(g, t)
  {
    NoDuplicatesCount(result);
    SubsetCount(Elements(result), g.Keys);
    if Elements(result) == g.Keys {
      GreedyIsInitOrder(g, result);
    } else {
      forall t | IsInitOrder(g, t) ensures false {
        var n := OrderShowsReady(g, t, Elements(result));
      }
    }
  }

  /**
   `topologicalSort`: reports a cycle exactly when there is no initialization order; otherwise gives the
   greedy one, in whatever order the maps are iterated.
   */
  method TopologicalSort(g: Graph) returns (order: Option<seq<Bytes>>)
    requires IsClosed(g)
    ensures order.Some? <==> exists t :: IsInitOrder(g, t)
    ensures order.Some? ==> IsInitOrder(g, order.value) && IsGreedy(g, order.value)
  {
    var inDegree, adj := BuildGraph(g);
    forall n | n in g ensures inDegree[n] == Missing(g[n], {}) {
      MissingAll(g[n]);
    }
    var queue := InitialQueue(g, inDegree);
    var result := RunRounds(g, adj, queue, inDegree);
    StuckMeansCycle(g, result);
    if |result| != |g.Keys| {
      return None;
    }
    return Some(result);
  }

  class Registry {
    var modules: Graph
    var order: seq<Bytes>
    ghost var history: seq<Bytes>

    ghost predicate Valid()
      reads this
    {
      IsRegistered(modules, history)
    }

    constructor ()
      ensures Valid() && modules == map[] && order == []
    {
      modules := map[];
      order := [];
      history := [];
    }

    /** `Register`: refuses an invalid module, a duplicate, and one whose dependencies are not there yet. */
    method Register(m: Module) returns (ok: bool)
      requires Valid()
      modifies this
      ensures Valid() && order == old(order)
      ensures ok <==> && IsValidModule(m) && m.name !in old(modules)
                      && forall d :: d in m.dependencies ==> d in old(modules)
      ensures modules == if ok then old(modules)[m.name := m.dependencies] else old(modules)
    {
      ok := ValidateModule(m);
      if !ok || m.name in modules {
        return false;
      }
      for i := 0 to |m.dependencies|
        invariant modules == old(modules) && order == old(order) && history == old(history)
        invariant forall k :: 0 <= k < i ==> m.dependencies[k] in modules
      {
        if m.dependencies[i] !in modules {
          return false;
        }
      }
      RegisterOne(modules, history, m);
      modules := modules[m.name := m.dependencies];
      history := history + [m.name];
    }

    /**
     `Build`: never reports a cycle on a registry filled by `Register`; the order is the
     lexicographically least one that initializes dependencies first.
     */
    method Build() returns (ok: bool)
      requires Valid()
      modifies this`order
      ensures ok <==> modules != map[]
      ensures !ok ==> order == old(order)
      ensures ok ==> IsInitOrder(modules, order) && forall t :: IsInitOrder(modules, t) ==> LexLessEq(order, t)
    {
      if modules == map[] {
        return false;
      }
      RegisteredIsClosed(modules, history);
      HistoryIsInitOrder(modules, history);
      var sorted := TopologicalSort(modules);
      if sorted.None? {
        return false;
      }
      order := sorted.value;
      forall t | IsInitOrder(modules, t) ensures LexLessEq(order, t) {
        GreedyIsLeast(modules, order, t);
      }
      return true;
    }
  }

  lemma {:induction false} HistoryIsInitOrder(g: Graph, history: seq<Bytes>)
    requires IsRegistered(g, history)
    ensures IsInitOrder(g, history)
  {
    forall i | 0 <= i < |history| ensures Ready(g, Elements(history[..i]), history[i]) {
      assert history[i] in Elements(history);
      assert history[i] !in history[..i];
    }
  }

  lemma {:induction false} RegisterOne(g: Graph, history: seq<Bytes>, m: Module)
    requires IsRegistered(g, history) && IsValidModule(m) && m.name !in g
    requires forall d :: d in m.dependencies ==> d in g
    ensures IsRegistered(g[m.name := m.dependencies], history + [m.name])
  {
    var g', history' := g[m.name := m.dependencies], history + [m.name];
    assert m.name !in Elements(history);
    assert Elements(history') == Elements(history) + {m.name};
    forall i | 0 <= i < |history'|
      ensures NoDuplicates(g'[history'[i]]) && forall d :: d in g'[history'[i]] ==> d in history'[..i]
    {
      if i < |history| {
        assert history[i] in Elements(history) && history'[..i] == history[..i];
      } else {
        assert history'[..i] == history;
        forall d | d in m.dependencies ensures d in history {
          assert d in Elements(history);
        }
      }
    }
  }
}
