/**
 How the goroutines of a batch interleave (`ExecuteParallel`): every order of the store operations that keeps
 each goroutine's own order and the order of the batches is a run, and so is every failure along it.
 */
module Interleavings {
  import opened Basics
  import opened Accounts
  import opened Effects
  import opened Scheduler
  import opened Executor
  import opened Traces
  import opened Serializability

  ghost function Last(run: seq<Parallel>): Parallel
    requires run != []
  {
    run[|run| - 1]
  }

  lemma {:induction false} RunExtends(s: State, effects: seq<Effect>, ids: seq<seq<nat>>, run: seq<Parallel>,
                                      p: Parallel)
    requires IsRun(s, effects, ids, run) && Next(effects, ids, Last(run), p)
    ensures IsRun(s, effects, ids, run + [p]) && Last(run + [p]) == p
  {
    hide Next, Start;
    var run' := run + [p];
    forall k | 0 <= k < |run'| - 1 ensures Next(effects, ids, run'[k], run'[k + 1]) {
      if k == |run| - 1 {
        assert run'[k] == Last(run) && run'[k + 1] == p;
      }
    }
  }

  /** What the goroutine of an effect makes of its next operation. */
  ghost function Stepped(p: Parallel, a: Action): Parallel
    requires a.effect < |p.pcs|
  {
    var r := Act(p.machine, a);
    if r.Some? then p.(machine := r.value, pcs := p.pcs[a.effect := a.pc + 1]) else p.(failed := p.failed + {a.effect})
  }

  lemma {:induction false} RunShape(s: State, effects: seq<Effect>, ids: seq<seq<nat>>, run: seq<Parallel>, k: nat)
    requires IsRun(s, effects, ids, run) && k < |run|
    ensures |run[k].pcs| == |effects| && forall i :: 0 <= i < |effects| ==> run[k].pcs[i] <= |Program(effects[i])|
  {
    if k > 0 {
      RunShape(s, effects, ids, run, k - 1);
      assert Next(effects, ids, run[k - 1], run[k]);
    }
  }

  /**
   In whatever state a run is, also after a failure, every goroutine of the batch that has not returned may be
   the next to perform an operation.
   */
  lemma {:induction false} AnyoneMayStep(s: State, effects: seq<Effect>, ids: seq<seq<nat>>, run: seq<Parallel>, i: nat)
    requires IsRun(s, effects, ids, run) && Last(run).current < |ids| && i in ids[Last(run).current] && i < |effects|
    requires var p := Last(run);
             i !in p.failed && (i < |p.pcs| ==> p.pcs[i] < |Program(effects[i])|)
    ensures var p := Last(run);
            i < |p.pcs| && IsRun(s, effects, ids, run + [Stepped(p, At(effects, i, p.pcs[i]))])
  {
    RunShape(s, effects, ids, run, |run| - 1);
    var p := Last(run);
    var p' := Stepped(p, At(effects, i, p.pcs[i]));
    assert GoroutineStep(effects, ids, p, p', i);
    RunExtends(s, effects, ids, run, p');
  }

  /** The run has done exactly the operations of the trace, and none has failed. */
  ghost predicate Follows(s: State, effects: seq<Effect>, ids: seq<seq<nat>>, level: seq<nat>, run: seq<Parallel>,
                          trace: seq<Action>)
    requires |level| == |effects|
  {
    IsRun(s, effects, ids, run) && Explains(s, effects, level, Last(run), trace)
  }

  /** Once all operations below a batch are done, the run can reach it. */
  lemma {:induction false} ReachBatch(s: State, effects: seq<Effect>, ids: seq<seq<nat>>, level: seq<nat>,
                                      run: seq<Parallel>, trace: seq<Action>, target: nat)
    returns (run': seq<Parallel>)
    requires IsOrderedBatching(effects, ids, level) && Follows(s, effects, ids, level, run, trace)
    requires Last(run).current <= target < |ids|
    requires forall i: nat, pc: nat :: i < |effects| && level[i] < target && pc < |Program(effects[i])| ==>
               At(effects, i, pc) in trace
    ensures Follows(s, effects, ids, level, run', trace) && Last(run').current == target
    decreases target - Last(run).current
  {
    var p := Last(run);
    run' := run;
    if p.current < target {
      forall i | i in ids[p.current] ensures IsDone(effects, p, i) {
        assert Places(ids, i, p.current);
        assert p.pcs[i] < |Program(effects[i])| ==> At(effects, i, p.pcs[i]) in trace;
      }
      var p' := p.(current := p.current + 1);
      assert BatchStep(effects, ids, p, p');
      RunExtends(s, effects, ids, run, p');
      BatchStepExplained(s, effects, ids, level, p, p', trace);
      run' := ReachBatch(s, effects, ids, level, run + [p'], trace, target);
    }
  }

  /** An operation in turn is the next one of its goroutine, whose batch has come or can come. */
  lemma {:induction false} IsNextOf(s: State, effects: seq<Effect>, ids: seq<seq<nat>>, level: seq<nat>, p: Parallel,
                                    trace: seq<Action>, a: Action)
    requires IsOrderedBatching(effects, ids, level) && Explains(s, effects, level, p, trace)
    requires IsAction(effects, a) && a !in trace && InTurn(effects, level, trace, a)
    ensures p.current <= level[a.effect] && p.pcs[a.effect] == a.pc
  {
    assert p.pcs[a.effect] < a.pc ==> At(effects, a.effect, p.pcs[a.effect]) in trace;
  }

  /** Whichever operation is in turn, some run performs it next. */
  lemma {:induction false} PerformsNext(s: State, effects: seq<Effect>, ids: seq<seq<nat>>, level: seq<nat>,
                                        run: seq<Parallel>, trace: seq<Action>, a: Action)
    returns (run': seq<Parallel>, p: Parallel)
    requires IsOrderedBatching(effects, ids, level) && Follows(s, effects, ids, level, run, trace)
    requires IsTrace(effects, level, trace + [a])
    ensures Explains(s, effects, level, p, trace) && p.current < |ids| && a.effect in ids[p.current]
    ensures IsAction(effects, a) && p.pcs[a.effect] == a.pc
    ensures IsRun(s, effects, ids, run') && Last(run') == Stepped(p, a)
  {
    LastInTurn(effects, level, trace, a);
    IsNextOf(s, effects, ids, level, Last(run), trace, a);
    run' := ReachBatch(s, effects, ids, level, run, trace, level[a.effect]);
    p := Last(run');
    hide IsRun, InTurn;
    IsNextOf(s, effects, ids, level, p, trace, a);
    assert Places(ids, a.effect, level[a.effect]);
    AnyoneMayStep(s, effects, ids, run', a.effect);
    assert At(effects, a.effect, p.pcs[a.effect]) == a;
    run' := run' + [Stepped(p, a)];
  }

  lemma {:induction false} LastInTurn(effects: seq<Effect>, level: seq<nat>, trace: seq<Action>, a: Action)
    requires |level| == |effects| && IsTrace(effects, level, trace + [a])
    ensures IsTrace(effects, level, trace)
    ensures IsAction(effects, a) && a !in trace && InTurn(effects, level, trace, a)
  {
    hide InTurn, IsAction;
    var whole := trace + [a];
    assert whole[..|trace|] == trace && whole[|trace|] == a;
    forall n | 0 <= n < |trace| ensures IsAction(effects, trace[n]) && InTurn(effects, level, trace[..n], trace[n]) {
      assert whole[n] == trace[n] && whole[..n] == trace[..n];
    }
    forall i | 0 <= i < |trace| ensures trace[i] != a {
      assert whole[i] != whole[|trace|];
    }
  }

  lemma {:induction false} SteppedExplains(s: State, effects: seq<Effect>, ids: seq<seq<nat>>, level: seq<nat>,
                                           p: Parallel, trace: seq<Action>, a: Action)
    requires IsOrderedBatching(effects, ids, level) && Explains(s, effects, level, p, trace)
    requires p.current < |ids| && a.effect in ids[p.current] && IsAction(effects, a) && p.pcs[a.effect] == a.pc
    requires Act(p.machine, a).Some?
    ensures Explains(s, effects, level, Stepped(p, a), trace + [a])
  {
    hide IsTrace, Traces.Run;
    StepExtendsTrace(s, effects, ids, level, p, a.effect, trace);
    assert Places(ids, a.effect, p.current);
  }

  lemma {:induction false} StartExplains(s: State, effects: seq<Effect>, level: seq<nat>)
    requires |level| == |effects|
    ensures Explains(s, effects, level, Start(s, effects), [])
  {
  }

  /**
   Every order of operations that keeps each goroutine's own order and the order of the batches, and in which
   no operation fails, is that of a run: one that ends with those operations done and the stores they lead to.
   */
  lemma {:induction false} TraceIsRun(s: State, effects: seq<Effect>, ids: seq<seq<nat>>, level: seq<nat>,
                                      trace: seq<Action>)
    returns (run: seq<Parallel>)
    requires IsOrderedBatching(effects, ids, level) && IsTrace(effects, level, trace)
    requires Traces.Run(Machine(s, map[], multiset{}), trace).Some?
    ensures IsRun(s, effects, ids, run) && Explains(s, effects, level, Last(run), trace)
    decreases |trace|
  {
    hide Explains, IsTrace, InTurn, Next;
    var m := Machine(s, map[], multiset{});
    if trace == [] {
      run := [Start(s, effects)];
      StartExplains(s, effects, level);
    } else {
      var n := |trace| - 1;
      var before, a := trace[..n], trace[n];
      assert trace == before + [a];
      LastInTurn(effects, level, before, a);
      RunAppend(m, before, [a]);
      run := TraceIsRun(s, effects, ids, level, before);
      var p;
      run, p := PerformsNext(s, effects, ids, level, run, before, a);
      ExplainsMachine(s, effects, level, p, before);
      RunOne(p.machine, a);
      SteppedExplains(s, effects, ids, level, p, before, a);
    }
  }

  lemma {:induction false} ExplainsMachine(s: State, effects: seq<Effect>, level: seq<nat>, p: Parallel,
                                           trace: seq<Action>)
    requires |level| == |effects| && Explains(s, effects, level, p, trace)
    ensures Traces.Run(Machine(s, map[], multiset{}), trace) == Some(p.machine)
  {
  }

  /** If the next operation in turn fails, some run ends with its goroutine failed and all else as it was. */
  lemma {:induction false} FailureIsRun(s: State, effects: seq<Effect>, ids: seq<seq<nat>>, level: seq<nat>,
                                        trace: seq<Action>, a: Action)
    returns (run: seq<Parallel>)
    requires IsOrderedBatching(effects, ids, level) && IsTrace(effects, level, trace + [a])
    requires var r := Traces.Run(Machine(s, map[], multiset{}), trace);
             r.Some? && Act(r.value, a).None?
    ensures IsRun(s, effects, ids, run) && Last(run).failed == {a.effect}
    ensures Some(Last(run).machine) == Traces.Run(Machine(s, map[], multiset{}), trace)
  {
    LastInTurn(effects, level, trace, a);
    run := TraceIsRun(s, effects, ids, level, trace);
    var p;
    run, p := PerformsNext(s, effects, ids, level, run, trace, a);
  }

  // ---- The operations of a transfer ----

  /** Coin by coin: load, store the debit, load, store the credit, each an operation of its own. */
  lemma {:induction false} TransferOperations(from: AccountName, to: AccountName, coins: seq<Coin>, k: nat)
    requires k < |coins|
    ensures |CoinProgram(from, to, coins)| == 4 * |coins|
    ensures var p, c := CoinProgram(from, to, coins), coins[k];
            && p[4 * k] == LoadBalance(from, c.denom) && p[4 * k + 1] == StoreDebit(from, c.denom, c.amount)
            && p[4 * k + 2] == LoadBalance(to, c.denom) && p[4 * k + 3] == StoreCredit(to, c.denom, c.amount)
    decreases |coins|
  {
    var first, rest := CoinInstrs(from, to, coins[0]), CoinProgram(from, to, coins[1..]);
    assert CoinProgram(from, to, coins) == first + rest;
    if |coins| > 1 {
      TransferOperations(from, to, coins[1..], if k > 0 then k - 1 else 0);
    }
  }

  // ---- After a failure ----

  /** After a failure no later batch is started. */
  lemma {:induction false} FailureIsFinal(s: State, effects: seq<Effect>, ids: seq<seq<nat>>, run: seq<Parallel>,
                                          k: nat, l: nat)
    requires IsRun(s, effects, ids, run) && k <= l < |run| && run[k].failed != {}
    ensures run[k].failed <= run[l].failed && run[l].current == run[k].current
    decreases l
  {
    if k < l {
      FailureIsFinal(s, effects, ids, run, k, l - 1);
      assert Next(effects, ids, run[l - 1], run[l]);
    }
  }
}
