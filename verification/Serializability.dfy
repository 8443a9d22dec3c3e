/**
 Parallel execution of scheduled batches, one goroutine per effect (`ExecuteParallel`), as a state
 machine over single store operations; every run of it agrees with sequential execution.
 */
module Serializability {
  import opened Basics
  import opened Accounts
  import opened Effects
  import opened Graph
  import opened Scheduler
  import opened Executor
  import opened Traces

  // ---- Sequential execution as a trace ----

  function Listing(i: nat, pc: nat, program: seq<Instr>): (r: seq<Action>)
    ensures |r| == |program|
    ensures forall k :: 0 <= k < |r| ==> r[k] == Action(i, pc + k, program[k])
    decreases |program|
  {
    if program == [] then [] else [Action(i, pc, program[0])] + Listing(i, pc + 1, program[1..])
  }

  /** All operations of all effects, effect by effect. */
  function SequentialTrace(effects: seq<Effect>): seq<Action> {
    if effects == [] then []
    else
      var n := |effects| - 1;
      SequentialTrace(effects[..n]) + Listing(n, 0, Program(effects[n]))
  }

  predicate IsAction(effects: seq<Effect>, a: Action) {
    && a.effect < |effects|
    && a.pc < |Program(effects[a.effect])|
    && a.instr == Program(effects[a.effect])[a.pc]
  }

  predicate Before(a: Action, b: Action) {
    a.effect < b.effect || (a.effect == b.effect && a.pc < b.pc)
  }

  ghost predicate InOrder(s: seq<Action>) {
    forall j, k :: 0 <= j < k < |s| ==> Before(s[j], s[k])
  }

  lemma {:induction false} OrderAppends(s: seq<Action>, t: seq<Action>, n: nat)
    requires InOrder(s) && InOrder(t)
    requires forall k :: 0 <= k < |s| ==> s[k].effect < n
    requires forall k :: 0 <= k < |t| ==> t[k].effect == n
    ensures InOrder(s + t)
  {
    forall j, k | 0 <= j < k < |s + t| ensures Before((s + t)[j], (s + t)[k]) {
      if k < |s| {
        assert Before(s[j], s[k]);
      } else if j >= |s| {
        assert Before(t[j - |s|], t[k - |s|]);
      }
    }
  }

  lemma {:induction false} SequentialTraceOrder(effects: seq<Effect>)
    ensures forall k :: 0 <= k < |SequentialTrace(effects)| ==> IsAction(effects, SequentialTrace(effects)[k])
    ensures InOrder(SequentialTrace(effects))
  {
    if effects != [] {
      var n := |effects| - 1;
      var init, last := SequentialTrace(effects[..n]), Listing(n, 0, Program(effects[n]));
      SequentialTraceOrder(effects[..n]);
      forall k | 0 <= k < |init| ensures init[k].effect < n && IsAction(effects, init[k]) {
        assert IsAction(effects[..n], init[k]);
      }
      forall k | 0 <= k < |last| ensures IsAction(effects, last[k]) {
        assert last[k] == Action(n, k, Program(effects[n])[k]);
      }
      OrderAppends(init, last, n);
    }
  }

  lemma {:induction false} SequentialTraceComplete(effects: seq<Effect>, a: Action)
    requires IsAction(effects, a)
    ensures a in SequentialTrace(effects)
  {
    var n := |effects| - 1;
    if a.effect == n {
      assert Listing(n, 0, Program(effects[n]))[a.pc] == a;
    } else {
      SequentialTraceComplete(effects[..n], a);
    }
  }

  /** A run of the trace agrees with an outcome of the sequential executor. */
  ghost predicate Agrees(m: Machine, r: Option<Machine>, o: Outcome) {
    && (r.Some? <==> o.ok)
    && (o.ok ==> r.value.state == o.state && r.value.events == m.events + multiset(o.events))
  }

  lemma {:induction false} ListingAppend(i: nat, pc: nat, p: seq<Instr>, q: seq<Instr>)
    ensures Listing(i, pc, p + q) == Listing(i, pc, p) + Listing(i, pc + |p|, q)
  {
  }

  /** The operations that take one coin from an account. */
  ghost function DebitActions(i: nat, pc: nat, account: AccountName, denom: Bytes, amount: Uint64): seq<Action> {
    [Action(i, pc, LoadBalance(account, denom)), Action(i, pc + 1, StoreDebit(account, denom, amount))]
  }

  /** The operations that give one coin to an account. */
  ghost function CreditActions(i: nat, pc: nat, account: AccountName, denom: Bytes, amount: Uint64): seq<Action> {
    [Action(i, pc, LoadBalance(account, denom)), Action(i, pc + 1, StoreCredit(account, denom, amount))]
  }

  /** The machine after the debit. */
  ghost function Debited(m: Machine, i: nat, account: AccountName, denom: Bytes, amount: Uint64): Option<Machine> {
    var have := Balance(m.state, account, denom);
    if have < amount then None
    else Some(Machine(SetBalance(m.state, account, denom, have - amount), m.locals[i := have], m.events))
  }

  /** The machine after the credit. */
  ghost function Credited(m: Machine, i: nat, account: AccountName, denom: Bytes, amount: Uint64): Option<Machine> {
    var have := Balance(m.state, account, denom);
    if have > MAX_UINT64 - amount then None
    else Some(Machine(SetBalance(m.state, account, denom, have + amount), m.locals[i := have], m.events))
  }

  lemma {:induction false} DebitRuns(m: Machine, i: nat, pc: nat, account: AccountName, denom: Bytes, amount: Uint64)
    ensures Run(m, DebitActions(i, pc, account, denom, amount)) == Debited(m, i, account, denom, amount)
  {
    RunPair(m, Action(i, pc, LoadBalance(account, denom)), Action(i, pc + 1, StoreDebit(account, denom, amount)));
  }

  lemma {:induction false} CreditRuns(m: Machine, i: nat, pc: nat, account: AccountName, denom: Bytes, amount: Uint64)
    ensures Run(m, CreditActions(i, pc, account, denom, amount)) == Credited(m, i, account, denom, amount)
  {
    RunPair(m, Action(i, pc, LoadBalance(account, denom)), Action(i, pc + 1, StoreCredit(account, denom, amount)));
  }

  lemma {:induction false} CoinListing(i: nat, pc: nat, from: AccountName, to: AccountName, coin: Coin)
    ensures Listing(i, pc, CoinInstrs(from, to, coin))
            == DebitActions(i, pc, from, coin.denom, coin.amount)
                + CreditActions(i, pc + 2, to, coin.denom, coin.amount)
  {
  }

  lemma {:induction false} HalvesMoveCoin(m: Machine, i: nat, from: AccountName, to: AccountName, coin: Coin)
    ensures var debited, t := Debited(m, i, from, coin.denom, coin.amount), MoveCoin(m.state, from, to, coin);
            var r := if debited.None? then None else Credited(debited.value, i, to, coin.denom, coin.amount);
            (r.Some? <==> t.1) && (t.1 ==> r.value.state == t.0 && r.value.events == m.events)
  {
  }

  lemma {:induction false} CoinRuns(m: Machine, i: nat, pc: nat, from: AccountName, to: AccountName, coin: Coin)
    ensures var r, t := Run(m, Listing(i, pc, CoinInstrs(from, to, coin))), MoveCoin(m.state, from, to, coin);
            (r.Some? <==> t.1) && (t.1 ==> r.value.state == t.0 && r.value.events == m.events)
  {
    var Coin(denom, amount) := coin;
    CoinListing(i, pc, from, to, coin);
    RunAppend(m, DebitActions(i, pc, from, denom, amount), CreditActions(i, pc + 2, to, denom, amount));
    DebitRuns(m, i, pc, from, denom, amount);
    var debited := Debited(m, i, from, denom, amount);
    if debited.Some? {
      CreditRuns(debited.value, i, pc + 2, to, denom, amount);
    }
    HalvesMoveCoin(m, i, from, to, coin);
  }

  lemma {:induction false} CoinsRun(m: Machine, i: nat, pc: nat, from: AccountName, to: AccountName, coins: seq<Coin>)
    ensures var r, t := Run(m, Listing(i, pc, CoinProgram(from, to, coins))), TransferCoins(m.state, from, to, coins);
            (r.Some? <==> t.1) && (t.1 ==> r.value.state == t.0 && r.value.events == m.events)
    decreases |coins|
  {
    if coins != [] {
      var p, rest := CoinInstrs(from, to, coins[0]), CoinProgram(from, to, coins[1..]);
      ListingAppend(i, pc, p, rest);
      RunAppend(m, Listing(i, pc, p), Listing(i, pc + |p|, rest));
      CoinRuns(m, i, pc, from, to, coins[0]);
      var r := Run(m, Listing(i, pc, p));
      if r.Some? {
        CoinsRun(r.value, i, pc + |p|, from, to, coins[1..]);
      }
    }
  }

  lemma {:induction false} EffectRuns(m: Machine, i: nat, e: Effect)
    ensures Agrees(m, Run(m, Listing(i, 0, Program(e))), ApplyEffect(m.state, e))
  {
    if IsValid(e) && e.Transfer? {
      CoinsRun(m, i, 0, e.from, e.to, e.amount);
    } else {
      var a := Action(i, 0, Program(e)[0]);
      assert Listing(i, 0, Program(e)) == [a];
      RunOne(m, a);
    }
  }

  /** Running all operations effect by effect is `Execute`. */
  lemma {:induction false} SequentialTraceRuns(s: State, effects: seq<Effect>)
    ensures var m := Machine(s, map[], multiset{});
            Agrees(m, Run(m, SequentialTrace(effects)), ApplyAll(s, effects))
  {
    var m := Machine(s, map[], multiset{});
    if effects != [] {
      var n := |effects| - 1;
      SequentialTraceRuns(s, effects[..n]);
      RunAppend(m, SequentialTrace(effects[..n]), Listing(n, 0, Program(effects[n])));
      var r := Run(m, SequentialTrace(effects[..n]));
      if r.Some? {
        EffectRuns(r.value, n, effects[n]);
      }
    }
  }

  // ---- Effects without a declared conflict have independent operations ----

  function CellKey(c: Cell): Bytes
    requires !c.LocalCell?
  {
    if c.KeyCell? then c.key else c.account
  }

  lemma {:induction false} CoinProgramAccounts(from: AccountName, to: AccountName, coins: seq<Coin>, k: nat)
    requires k < |CoinProgram(from, to, coins)|
    ensures var x := CoinProgram(from, to, coins)[k];
            (x.LoadBalance? || x.StoreDebit? || x.StoreCredit?) && x.account in {from, to}
  {
    if k >= 4 {
      CoinProgramAccounts(from, to, coins[1..], k - 4);
    }
  }

  lemma {:induction false} TransferDeclaresAccounts(e: Effect)
    requires e.Transfer?
    ensures {e.from, e.to} <= WriteKeys(e)
  {
    var deps := Dependencies(e);
    assert deps[0] in deps && deps[1] in deps;
  }

  function InstrKey(x: Instr): Option<Bytes> {
    match x
    case CheckKey(key) => Some(key)
    case PutKey(key, _) => Some(key)
    case DropKey(key) => Some(key)
    case LoadBalance(account, _) => Some(account)
    case StoreDebit(account, _, _) => Some(account)
    case StoreCredit(account, _, _) => Some(account)
    case _ => None
  }

  lemma {:induction false} CellsHaveInstrKey(a: Action, c: Cell)
    requires c in Reads(a) + Writes(a) && !c.LocalCell?
    ensures InstrKey(a.instr) == Some(CellKey(c))
    ensures c in Writes(a) ==> !a.instr.CheckKey?
  {
  }

  lemma {:induction false} InstrKeyIsDeclared(e: Effect, pc: nat)
    requires pc < |Program(e)| && InstrKey(Program(e)[pc]).Some?
    ensures var x := Program(e)[pc];
            if x.CheckKey? then InstrKey(x).value in ReadKeys(e) else InstrKey(x).value in WriteKeys(e)
  {
    if e.Transfer? {
      CoinProgramAccounts(e.from, e.to, e.amount, pc);
      TransferDeclaresAccounts(e);
    } else {
      PrimaryKeyDeclared(e);
    }
  }

  /** Every shared cell an effect's operations touch is under a key the effect declares. */
  lemma {:induction false} FootprintIsDeclared(effects: seq<Effect>, a: Action, c: Cell)
    requires IsAction(effects, a) && !c.LocalCell?
    ensures c in Writes(a) ==> CellKey(c) in WriteKeys(effects[a.effect])
    ensures c in Reads(a) ==> CellKey(c) in ReadKeys(effects[a.effect]) + WriteKeys(effects[a.effect])
  {
    if c in Reads(a) + Writes(a) {
      CellsHaveInstrKey(a, c);
      InstrKeyIsDeclared(effects[a.effect], a.pc);
    }
  }

  lemma {:induction false} LocalsAreSeparate(a: Action, c: Cell)
    requires c.LocalCell? && c in Reads(a) + Writes(a)
    ensures c.effect == a.effect
  {
  }

  lemma {:induction false} SharedCellIsConflict(effects: seq<Effect>, a: Action, b: Action, c: Cell)
    requires IsAction(effects, a) && IsAction(effects, b) && a.effect != b.effect
    requires c in Writes(a) && c in Reads(b) + Writes(b)
    ensures Conflicting(effects[a.effect], effects[b.effect])
  {
    if c.LocalCell? {
      LocalsAreSeparate(a, c);
      LocalsAreSeparate(b, c);
    } else {
      FootprintIsDeclared(effects, a, c);
      FootprintIsDeclared(effects, b, c);
      var x, y := effects[a.effect], effects[b.effect];
      assert CellKey(c) in WriteKeys(x) * (ReadKeys(y) + WriteKeys(y));
    }
  }

  lemma {:induction false} UnrelatedActionsIndependent(effects: seq<Effect>, a: Action, b: Action)
    requires IsAction(effects, a) && IsAction(effects, b) && a.effect != b.effect
    requires !Conflicting(effects[a.effect], effects[b.effect])
    ensures Independent(a, b)
  {
    if c :| c in Writes(a) && c in Reads(b) + Writes(b) {
      SharedCellIsConflict(effects, a, b, c);
    }
    if c :| c in Writes(b) && c in Reads(a) {
      SharedCellIsConflict(effects, b, a, c);
    }
  }

  // ---- Parallel execution ----

  /**
   The batch being executed, each goroutine's next operation, and the goroutines that returned an
   error.
   */
  datatype Parallel = Parallel(machine: Machine, current: nat, pcs: seq<nat>, failed: set<nat>)

  predicate IsDone(effects: seq<Effect>, p: Parallel, i: nat) {
    i in p.failed || (i < |p.pcs| && i < |effects| && p.pcs[i] == |Program(effects[i])|)
  }

  function Start(s: State, effects: seq<Effect>): Parallel {
    Parallel(Machine(s, map[], multiset{}), 0, seq(|effects|, _ => 0), {})
  }

  /** The goroutine of effect `i` performs its next operation. */
  ghost predicate GoroutineStep(effects: seq<Effect>, ids: seq<seq<nat>>, p: Parallel, p': Parallel, i: nat) {
    && p.current < |ids| && i in ids[p.current]
    && i < |effects| && |p.pcs| == |effects| && i !in p.failed && p.pcs[i] < |Program(effects[i])|
    && var r := Act(p.machine, Action(i, p.pcs[i], Program(effects[i])[p.pcs[i]]));
       p' == if r.Some? then p.(machine := r.value, pcs := p.pcs[i := p.pcs[i] + 1])
             else p.(failed := p.failed + {i})
  }

  /** All goroutines of the batch have returned, none with an error: on to the next batch. */
  ghost predicate BatchStep(effects: seq<Effect>, ids: seq<seq<nat>>, p: Parallel, p': Parallel) {
    && p.current < |ids| && p.failed == {}
    && (forall i :: i in ids[p.current] ==> IsDone(effects, p, i))
    && p' == p.(current := p.current + 1)
  }

  ghost predicate Next(effects: seq<Effect>, ids: seq<seq<nat>>, p: Parallel, p': Parallel) {
    (exists i :: GoroutineStep(effects, ids, p, p', i)) || BatchStep(effects, ids, p, p')
  }

  ghost predicate IsRun(s: State, effects: seq<Effect>, ids: seq<seq<nat>>, run: seq<Parallel>) {
    && run != [] && run[0] == Start(s, effects)
    && (forall k :: 0 <= k < |run| - 1 ==> Next(effects, ids, run[k], run[k + 1]))
  }

  /** Each effect has exactly one batch, `level[i]`, and conflicting effects are in ascending batches. */
  ghost predicate IsOrderedBatching(effects: seq<Effect>, ids: seq<seq<nat>>, level: seq<nat>) {
    && |level| == |effects|
    && (forall i: nat, l: nat :: Places(ids, i, l) <==> i < |level| && level[i] == l)
    && (forall i :: 0 <= i < |level| ==> level[i] < |ids|)
    && (forall i, j :: 0 <= i < j < |effects| && Conflicting(effects[i], effects[j]) ==> level[i] < level[j])
  }

  function At(effects: seq<Effect>, i: nat, pc: nat): Action
    requires i < |effects| && pc < |Program(effects[i])|
  {
    Action(i, pc, Program(effects[i])[pc])
  }

  /** `done` has the goroutine's earlier operations and all operations of earlier batches. */
  ghost predicate InTurn(effects: seq<Effect>, level: seq<nat>, done: seq<Action>, a: Action)
    requires |level| == |effects| && IsAction(effects, a)
  {
    && (forall pc: nat :: pc < a.pc ==> At(effects, a.effect, pc) in done)
    && (forall i: nat, pc: nat :: i < |effects| && level[i] < level[a.effect] && pc < |Program(effects[i])| ==>
         At(effects, i, pc) in done)
  }

  ghost predicate IsTrace(effects: seq<Effect>, level: seq<nat>, trace: seq<Action>)
    requires |level| == |effects|
  {
    && NoDuplicates(trace)
    && (forall n :: 0 <= n < |trace| ==> IsAction(effects, trace[n]) && InTurn(effects, level, trace[..n], trace[n]))
  }

  lemma {:induction false} TraceExtends(effects: seq<Effect>, level: seq<nat>, trace: seq<Action>, a: Action)
    requires |level| == |effects| && IsTrace(effects, level, trace)
    requires IsAction(effects, a) && a !in trace && InTurn(effects, level, trace, a)
    ensures IsTrace(effects, level, trace + [a])
  {
    var trace' := trace + [a];
    forall n | 0 <= n < |trace'|
      ensures IsAction(effects, trace'[n]) && InTurn(effects, level, trace'[..n], trace'[n])
    {
      if n < |trace| {
        assert trace'[..n] == trace[..n];
      } else {
        assert trace'[..n] == trace;
      }
    }
  }

  /** Whatever order the goroutines run in, conflicting operations keep their sequential order. */
  lemma {:induction false} TraceLinearizes(effects: seq<Effect>, ids: seq<seq<nat>>, level: seq<nat>,
                                           trace: seq<Action>)
    requires IsOrderedBatching(effects, ids, level) && IsTrace(effects, level, trace)
    ensures Linearizes(SequentialTrace(effects), trace)
  {
    var s := SequentialTrace(effects);
    SequentialTraceOrder(effects);
    forall n | 0 <= n < |trace| ensures trace[n] in s {
      SequentialTraceComplete(effects, trace[n]);
    }
    forall j, n | 0 <= j < |s| && 0 <= n < |trace| && trace[n] == s[j] ensures PrecededBy(s, j, trace[..n]) {
      forall i | 0 <= i < j && !Independent(s[i], s[j]) ensures s[i] in trace[..n] {
        EarlierActionDone(effects, ids, level, trace[..n], s[i], s[j]);
      }
    }
  }

  lemma {:induction false} EarlierActionDone(effects: seq<Effect>, ids: seq<seq<nat>>, level: seq<nat>,
                                             done: seq<Action>, a: Action, b: Action)
    requires IsOrderedBatching(effects, ids, level)
    requires IsAction(effects, a) && IsAction(effects, b) && Before(a, b) && !Independent(a, b)
    requires InTurn(effects, level, done, b)
    ensures a in done
  {
    assert a == At(effects, a.effect, a.pc);
    if a.effect != b.effect {
      if !Conflicting(effects[a.effect], effects[b.effect]) {
        UnrelatedActionsIndependent(effects, a, b);
      }
    }
  }

  /** The trace holds exactly the operations performed so far, and leads to the machine's state. */
  ghost predicate Explains(s: State, effects: seq<Effect>, level: seq<nat>, p: Parallel, trace: seq<Action>)
    requires |level| == |effects|
  {
    && IsTrace(effects, level, trace)
    && |p.pcs| == |effects| && p.failed == {}
    && (forall i :: 0 <= i < |effects| ==> p.pcs[i] <= |Program(effects[i])|)
    && (forall i :: 0 <= i < |effects| && level[i] < p.current ==> p.pcs[i] == |Program(effects[i])|)
    && (forall a :: a in trace <==> IsAction(effects, a) && a.pc < p.pcs[a.effect])
    && Run(Machine(s, map[], multiset{}), trace) == Some(p.machine)
  }

  ghost predicate ExplainsFailure(s: State, effects: seq<Effect>, level: seq<nat>, p: Parallel, trace: seq<Action>)
    requires |level| == |effects|
  {
    IsTrace(effects, level, trace) && p.failed != {} && Run(Machine(s, map[], multiset{}), trace).None?
  }

  ghost predicate Explained(s: State, effects: seq<Effect>, level: seq<nat>, p: Parallel, trace: seq<Action>)
    requires |level| == |effects|
  {
    Explains(s, effects, level, p, trace) || ExplainsFailure(s, effects, level, p, trace)
  }

  lemma {:induction false} NextActionInTurn(s: State, effects: seq<Effect>, ids: seq<seq<nat>>, level: seq<nat>,
                                            p: Parallel, trace: seq<Action>, i: nat)
    requires IsOrderedBatching(effects, ids, level) && Explains(s, effects, level, p, trace)
    requires p.current < |ids| && i in ids[p.current] && i < |effects| && p.pcs[i] < |Program(effects[i])|
    ensures InTurn(effects, level, trace, At(effects, i, p.pcs[i]))
    ensures At(effects, i, p.pcs[i]) !in trace
  {
    assert Places(ids, i, p.current);
  }

  /** A performed operation extends the trace. */
  lemma {:induction false} StepExtendsTrace(s: State, effects: seq<Effect>, ids: seq<seq<nat>>, level: seq<nat>,
                         p: Parallel, i: nat, trace: seq<Action>)
    requires IsOrderedBatching(effects, ids, level) && Explains(s, effects, level, p, trace)
    requires p.current < |ids| && i in ids[p.current] && i < |effects| && p.pcs[i] < |Program(effects[i])|
    ensures var a := At(effects, i, p.pcs[i]);
            && IsTrace(effects, level, trace + [a])
            && Run(Machine(s, map[], multiset{}), trace + [a]) == Act(p.machine, a)
            && (forall b :: b in trace + [a] <==> IsAction(effects, b) && b.pc < p.pcs[i := p.pcs[i] + 1][b.effect])
  {
    var a := At(effects, i, p.pcs[i]);
    NextActionInTurn(s, effects, ids, level, p, trace, i);
    TraceExtends(effects, level, trace, a);
    RunAppend(Machine(s, map[], multiset{}), trace, [a]);
    RunOne(p.machine, a);
    forall b ensures b in trace + [a] <==> IsAction(effects, b) && b.pc < p.pcs[i := p.pcs[i] + 1][b.effect] {
      assert b in trace + [a] <==> b in trace || b == a;
    }
  }

  lemma {:induction false} RunOne(m: Machine, a: Action)
    ensures Run(m, [a]) == Act(m, a)
  {
    var r := Act(m, a);
    assert Run(m, [a]) == (if r.None? then None else Run(r.value, []));
  }

  lemma {:induction false} GoroutineStepExplained(s: State, effects: seq<Effect>, ids: seq<seq<nat>>, level: seq<nat>,
                               p: Parallel, p': Parallel, i: nat, trace: seq<Action>)
    returns (trace': seq<Action>)
    requires IsOrderedBatching(effects, ids, level) && Explained(s, effects, level, p, trace)
    requires GoroutineStep(effects, ids, p, p', i)
    ensures Explained(s, effects, level, p', trace')
    ensures p'.failed == {} ==> |trace'| == |trace| + 1
  {
    trace' := trace;
    if p.failed == {} {
      StepExtendsTrace(s, effects, ids, level, p, i, trace);
      var a := At(effects, i, p.pcs[i]);
      trace' := trace + [a];
      if Act(p.machine, a).Some? {
        assert Places(ids, i, p.current);
        assert Explains(s, effects, level, p', trace');
      } else {
        assert ExplainsFailure(s, effects, level, p', trace');
      }
    }
  }

  lemma {:induction false} BatchStepExplained(s: State, effects: seq<Effect>, ids: seq<seq<nat>>, level: seq<nat>,
                           p: Parallel, p': Parallel, trace: seq<Action>)
    requires IsOrderedBatching(effects, ids, level) && Explained(s, effects, level, p, trace)
    requires BatchStep(effects, ids, p, p')
    ensures Explained(s, effects, level, p', trace)
  {
    forall i: nat | i < |effects| && level[i] == p.current ensures p.pcs[i] == |Program(effects[i])| {
      assert Places(ids, i, p.current);
    }
  }

  /** Every state of every run is explained by a trace. */
  lemma {:induction false} RunExplained(s: State, effects: seq<Effect>, ids: seq<seq<nat>>, level: seq<nat>,
                                        run: seq<Parallel>, k: nat)
    returns (trace: seq<Action>)
    requires IsOrderedBatching(effects, ids, level) && IsRun(s, effects, ids, run) && k < |run|
    ensures Explained(s, effects, level, run[k], trace)
    ensures run[k].failed == {} ==> k == |trace| + run[k].current
    decreases k
  {
    if k == 0 {
      trace := [];
    } else {
      trace := RunExplained(s, effects, ids, level, run, k - 1);
      assert Next(effects, ids, run[k - 1], run[k]);
      trace := StepExplained(s, effects, ids, level, run[k - 1], run[k], trace);
    }
  }

  lemma {:induction false} StepExplained(s: State, effects: seq<Effect>, ids: seq<seq<nat>>, level: seq<nat>,
                                         p: Parallel, p': Parallel, trace: seq<Action>)
    returns (trace': seq<Action>)
    requires IsOrderedBatching(effects, ids, level) && Explained(s, effects, level, p, trace)
            && Next(effects, ids, p, p')
    ensures Explained(s, effects, level, p', trace')
    ensures p'.failed == {} ==> p.failed == {} && |trace'| + p'.current == |trace| + p.current + 1
  {
    if BatchStep(effects, ids, p, p') {
      BatchStepExplained(s, effects, ids, level, p, p', trace);
      trace' := trace;
    } else {
      var i :| GoroutineStep(effects, ids, p, p', i);
      trace' := GoroutineStepExplained(s, effects, ids, level, p, p', i, trace);
    }
  }

  /** A trace with every operation is as long as the sequential one. */
  lemma {:induction false} CompleteTraceLength(effects: seq<Effect>, trace: seq<Action>)
    requires NoDuplicates(trace) && forall a :: a in trace <==> IsAction(effects, a)
    ensures |trace| == |SequentialTrace(effects)|
  {
    var s := SequentialTrace(effects);
    SequentialTraceOrder(effects);
    NoDuplicatesCount(s);
    NoDuplicatesCount(trace);
    forall a ensures a in s <==> a in trace {
      if IsAction(effects, a) {
        SequentialTraceComplete(effects, a);
      }
    }
    assert Elements(s) == Elements(trace);
  }

  /** All batches finished: the stores and events of a successful `Execute`. A failure: `Execute` fails. */
  ghost predicate MatchesExecute(s: State, effects: seq<Effect>, ids: seq<seq<nat>>, p: Parallel) {
    var o := ApplyAll(s, effects);
    && (p.current == |ids| && p.failed == {} ==>
          o.ok && p.machine.state == o.state && p.machine.events == multiset(o.events))
    && (p.failed != {} ==> !o.ok)
  }

  /**
   Serializability. In every interleaving of the goroutines' store operations, a run that finishes all
   batches ends with the stores and the events of `Execute`, which then succeeds too; a run in which a
   goroutine fails occurs only when `Execute` fails.
   */
  lemma {:induction false} ParallelIsSequential(s: State, effects: seq<Effect>, ids: seq<seq<nat>>, level: seq<nat>,
      run: seq<Parallel>)
    requires IsOrderedBatching(effects, ids, level) && IsRun(s, effects, ids, run)
    ensures MatchesExecute(s, effects, ids, run[|run| - 1])
  {
    var p, m := run[|run| - 1], Machine(s, map[], multiset{});
    var trace := RunExplained(s, effects, ids, level, run, |run| - 1);
    TraceLinearizes(effects, ids, level, trace);
    Reorder(m, SequentialTrace(effects), trace);
    SequentialTraceRuns(s, effects);
    if p.current == |ids| && p.failed == {} {
      CompleteTraceLength(effects, trace);
    }
  }

  /** A trace is no longer than the sequential one. */
  lemma {:induction false} TraceLength(effects: seq<Effect>, level: seq<nat>, trace: seq<Action>)
    requires |level| == |effects| && IsTrace(effects, level, trace)
    ensures |trace| <= |SequentialTrace(effects)|
  {
    var s := SequentialTrace(effects);
    SequentialTraceOrder(effects);
    NoDuplicatesCount(s);
    NoDuplicatesCount(trace);
    forall a | a in trace ensures a in s {
      SequentialTraceComplete(effects, a);
    }
    SubsetCount(Elements(trace), Elements(s));
  }

  /** No goroutine has failed, the run is bounded, and it has finished all batches or can go on. */
  ghost predicate RunsOn(effects: seq<Effect>, ids: seq<seq<nat>>, run: seq<Parallel>)
    requires run != []
  {
    var p := run[|run| - 1];
    && p.failed == {} && p.current <= |ids|
    && |run| <= 1 + |SequentialTrace(effects)| + |ids|
    && (p.current < |ids| ==> exists p' :: Next(effects, ids, p, p'))
  }

  /**
   When `Execute` succeeds, no goroutine ever fails, runs are bounded, and a run that has not finished
   all batches can go on: parallel execution succeeds too, whatever the interleaving.
   */
  lemma {:induction false} ParallelCompletes(s: State, effects: seq<Effect>, ids: seq<seq<nat>>, level: seq<nat>,
                                             run: seq<Parallel>)
    requires IsOrderedBatching(effects, ids, level) && IsRun(s, effects, ids, run) && ApplyAll(s, effects).ok
    ensures RunsOn(effects, ids, run)
  {
    var p := run[|run| - 1];
    var trace := RunExplained(s, effects, ids, level, run, |run| - 1);
    ParallelIsSequential(s, effects, ids, level, run);
    CurrentInRange(s, effects, ids, run, |run| - 1);
    TraceLength(effects, level, trace);
    if p.current < |ids| {
      forall i | i in ids[p.current] ensures i < |effects| {
        assert Places(ids, i, p.current);
      }
      NeverStuck(effects, ids, p);
    }
  }

  /** Either some goroutine of the batch has an operation left, or the batch is over. */
  lemma {:induction false} NeverStuck(effects: seq<Effect>, ids: seq<seq<nat>>, p: Parallel)
    requires p.current < |ids| && p.failed == {} && |p.pcs| == |effects|
    requires forall i :: i in ids[p.current] ==> i < |effects| && p.pcs[i] <= |Program(effects[i])|
    ensures exists p' :: Next(effects, ids, p, p')
  {
    if i :| i in ids[p.current] && !IsDone(effects, p, i) {
      var r := Act(p.machine, Action(i, p.pcs[i], Program(effects[i])[p.pcs[i]]));
      var p' := if r.Some? then p.(machine := r.value, pcs := p.pcs[i := p.pcs[i] + 1])
          else p.(failed := p.failed + {i});
      assert GoroutineStep(effects, ids, p, p', i);
      assert Next(effects, ids, p, p');
    } else {
      assert Next(effects, ids, p, p.(current := p.current + 1));
    }
  }

  lemma {:induction false} CurrentInRange(s: State, effects: seq<Effect>, ids: seq<seq<nat>>, run: seq<Parallel>,
                                          k: nat)
    requires IsRun(s, effects, ids, run) && k < |run|
    ensures run[k].current <= |ids|
  {
    if k > 0 {
      CurrentInRange(s, effects, ids, run, k - 1);
      assert Next(effects, ids, run[k - 1], run[k]);
    }
  }

  // ---- The schedule of a conflict graph ----

  lemma {:induction false} ChooseLevels(nodes: seq<Node>, ids: seq<seq<nat>>, n: nat) returns (level: seq<nat>)
    requires PlacesAll(nodes, ids) && n <= |nodes|
    ensures |level| == n && forall i :: 0 <= i < n ==> Places(ids, i, level[i])
  {
    level := [];
    if n > 0 {
      level := ChooseLevels(nodes, ids, n - 1);
      assert Placed(ids, n - 1);
      var l: nat :| Places(ids, n - 1, l);
      level := level + [l];
    }
  }

  /** The batches of `Schedule` keep conflicting effects apart and in submission order. */
  lemma {:induction false} ScheduleIsOrdered(nodes: seq<Node>, effects: seq<Effect>,
                                             ids: seq<seq<nat>>) returns (level: seq<nat>)
    requires |nodes| == |effects| && HasConflictEdges(nodes, effects, |effects|)
    requires IsLayering(nodes, ids) && PlacesAll(nodes, ids)
    ensures IsOrderedBatching(effects, ids, level)
  {
    level := ChooseLevels(nodes, ids, |nodes|);
    LevelsAreOrdered(nodes, effects, ids, level);
  }

  lemma {:induction false} LevelsAreOrdered(nodes: seq<Node>, effects: seq<Effect>, ids: seq<seq<nat>>, level: seq<nat>)
    requires |nodes| == |effects| && HasConflictEdges(nodes, effects, |effects|) && IsLayering(nodes, ids)
    requires |level| == |nodes| && forall i :: 0 <= i < |level| ==> Places(ids, i, level[i])
    ensures IsOrderedBatching(effects, ids, level)
  {
    forall i: nat, l: nat | Places(ids, i, l) ensures i < |level| && level[i] == l {
      assert AtLevel(nodes, i, l);
      LevelIsUnique(nodes, i, l, level[i]);
    }
    forall i, j | 0 <= i < j < |effects| && Conflicting(effects[i], effects[j]) ensures level[i] < level[j] {
      assert DependsOn(nodes, j, i);
      LayeringRespectsEdges(nodes, ids, j, level[j], i, level[i]);
    }
  }

  /** A batching into `count` batches that keeps conflicting effects apart and in submission order. */
  ghost predicate KeepsConflictsApart(effects: seq<Effect>, level: seq<nat>, count: nat) {
    && |level| == |effects|
    && (forall i :: 0 <= i < |level| ==> level[i] < count)
    && (forall i, j :: 0 <= i < j < |effects| && Conflicting(effects[i], effects[j]) ==> level[i] < level[j])
  }

  /** Every run in every interleaving matches `Execute`, and goes on to the end if `Execute` succeeds. */
  ghost predicate IsSerializable(effects: seq<Effect>, ids: seq<seq<nat>>) {
    forall s: State, run: seq<Parallel> :: IsRun(s, effects, ids, run) ==>
      && MatchesExecute(s, effects, ids, run[|run| - 1])
      && (ApplyAll(s, effects).ok ==> RunsOn(effects, ids, run))
  }

  lemma {:induction false} OrderedIsSerializable(effects: seq<Effect>, ids: seq<seq<nat>>, level: seq<nat>)
    requires IsOrderedBatching(effects, ids, level)
    ensures IsSerializable(effects, ids)
  {
    forall s: State, run: seq<Parallel> | IsRun(s, effects, ids, run)
      ensures MatchesExecute(s, effects, ids, run[|run| - 1])
      ensures ApplyAll(s, effects).ok ==> RunsOn(effects, ids, run)
    {
      ParallelIsSequential(s, effects, ids, level, run);
      if ApplyAll(s, effects).ok {
        ParallelCompletes(s, effects, ids, level, run);
      }
    }
  }

  /**
   `ScheduleEffects`: fails exactly on a list with an invalid effect. Its batches pass
   `ValidateBatches`, no valid batching has fewer, and in every interleaving of their parallel
   execution the outcome is that of `Execute` on the list as submitted.
   */
  method ScheduleEffects(effects: seq<Effect>) returns (batches: Option<seq<Batch>>, ghost ids: seq<seq<nat>>)
    ensures batches.Some? <==> forall i :: 0 <= i < |effects| ==> IsValid(effects[i])
    ensures batches.Some? ==> |batches.value| == |ids| && forall l :: 0 <= l < |ids| ==>
              && batches.value[l].level == l && |batches.value[l].effects| == |ids[l]|
              && (forall k :: 0 <= k < |ids[l]| ==>
                   ids[l][k] < |effects| && batches.value[l].effects[k] == effects[ids[l][k]])
              && ConflictFree(batches.value[l].effects)
    ensures batches.Some? ==> forall level: seq<nat>, count: nat ::
              KeepsConflictsApart(effects, level, count) ==> |batches.value| <= count
    ensures batches.Some? ==> IsSerializable(effects, ids)
  {
    ids := [];
    var g := NewGraph(effects);
    if g.None? {
      return None, [];
    }
    var nodes := g.value.nodes;
    assert forall i, d :: 0 <= i < |nodes| && d in nodes[i].dependencies ==> DependsOn(nodes, i, d);
    PointsBackIsAcyclic(nodes);
    batches, ids := Schedule(nodes);
    ghost var level := ScheduleIsOrdered(nodes, effects, ids);
    forall l | 0 <= l < |ids|
      ensures ConflictFree(batches.value[l].effects)
      ensures EffectsOf(nodes, batches.value[l].effects, ids[l])
    {
      ScheduleIsConflictFree(nodes, effects, batches.value, ids, l);
    }
    forall level: seq<nat>, count: nat | KeepsConflictsApart(effects, level, count) ensures |ids| <= count {
      assert ValidLevels(nodes, level, count);
      LayeringIsOptimal(nodes, ids, level, count);
    }
    OrderedIsSerializable(effects, ids, level);
  }
}
