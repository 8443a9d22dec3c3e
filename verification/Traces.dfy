/**
 Effects as programs of single store operations, and the reordering theorem: swapping independent
 operations changes neither the verdict nor the result of a run.
 */
module Traces {
  import opened Basics
  import opened Accounts
  import opened Effects
  import opened Executor

  /**
   One access to a shared store. A debit or a credit is two operations, a load into the goroutine's
   local variable and a store computed from it, as in `SubAmount` and `AddAmount`.
   */
  datatype Instr =
    | CheckKey(key: Bytes)
    | PutKey(key: Bytes, value: Bytes)
    | DropKey(key: Bytes)
    | LoadBalance(account: AccountName, denom: Bytes)
    | StoreDebit(account: AccountName, denom: Bytes, amount: Uint64)
    | StoreCredit(account: AccountName, denom: Bytes, amount: Uint64)
    | LogEvent(event: Event)
    | Reject

  /** The `pc`-th operation of the effect at position `effect` of the submitted list. */
  datatype Action = Action(effect: nat, pc: nat, instr: Instr)

  /** The stores, each goroutine's local variable, and the events in no particular order. */
  datatype Machine = Machine(state: State, locals: map<nat, Uint64>, events: multiset<Event>)

  function CoinInstrs(from: AccountName, to: AccountName, coin: Coin): seq<Instr> {
    [LoadBalance(from, coin.denom), StoreDebit(from, coin.denom, coin.amount),
     LoadBalance(to, coin.denom), StoreCredit(to, coin.denom, coin.amount)]
  }

  function CoinProgram(from: AccountName, to: AccountName, coins: seq<Coin>): seq<Instr> {
    if coins == [] then [] else CoinInstrs(from, to, coins[0]) + CoinProgram(from, to, coins[1..])
  }

  function Program(e: Effect): seq<Instr> {
    if !IsValid(e) then [Reject]
    else
      match e
      case Read(store, key, _) => [CheckKey(FullKey(store, key))]
      case Write(store, key, value) => [PutKey(FullKey(store, key), value)]
      case Delete(store, key) => [DropKey(FullKey(store, key))]
      case Transfer(from, to, amount) => CoinProgram(from, to, amount)
      case Emit(event) => [LogEvent(event)]
  }

  function Local(m: Machine, i: nat): Uint64 {
    if i in m.locals then m.locals[i] else 0
  }

  /** What one operation does to the machine. */
  datatype Update =
    | Fail
    | Nothing
    | SetKey(key: Bytes, value: Option<Bytes>)
    | SetAmount(account: AccountName, denom: Bytes, amount: Uint64)
    | SetLocal(effect: nat, amount: Uint64)
    | AddEvent(event: Event)

  function StoreKey(store: map<Bytes, Bytes>, key: Bytes, value: Option<Bytes>): map<Bytes, Bytes> {
    if value.Some? then store[key := value.value] else store - {key}
  }

  function Decide(m: Machine, a: Action): Update {
    match a.instr
    case CheckKey(key) => if key in m.state.store then Nothing else Fail
    case PutKey(key, value) => SetKey(key, Some(value))
    case DropKey(key) => SetKey(key, None)
    case LoadBalance(account, denom) => SetLocal(a.effect, Balance(m.state, account, denom))
    case StoreDebit(account, denom, amount) =>
      if Local(m, a.effect) < amount then Fail else SetAmount(account, denom, Local(m, a.effect) - amount)
    case StoreCredit(account, denom, amount) =>
      if Local(m, a.effect) > MAX_UINT64 - amount then Fail
      else SetAmount(account, denom, Local(m, a.effect) + amount)
    case LogEvent(event) => AddEvent(event)
    case Reject => Fail
  }

  function Perform(m: Machine, u: Update): Machine {
    match u
    case Fail => m
    case Nothing => m
    case SetKey(key, value) => m.(state := m.state.(store := StoreKey(m.state.store, key, value)))
    case SetAmount(account, denom, amount) => m.(state := SetBalance(m.state, account, denom, amount))
    case SetLocal(effect, amount) => m.(locals := m.locals[effect := amount])
    case AddEvent(event) => m.(events := m.events + multiset{event})
  }

  /** One operation; `None` when it makes its effect fail. */
  function Act(m: Machine, a: Action): Option<Machine> {
    var u := Decide(m, a);
    if u == Fail then None else Some(Perform(m, u))
  }

  function Run(m: Machine, trace: seq<Action>): Option<Machine>
    decreases |trace|
  {
    if trace == [] then Some(m)
    else
      var r := Act(m, trace[0]);
      if r.None? then None else Run(r.value, trace[1..])
  }

  datatype Cell = KeyCell(key: Bytes) | BalanceCell(account: AccountName, denom: Bytes) | LocalCell(effect: nat)

  function Reads(a: Action): set<Cell> {
    match a.instr
    case CheckKey(key) => {KeyCell(key)}
    case LoadBalance(account, denom) => {BalanceCell(account, denom)}
    case StoreDebit(_, _, _) => {LocalCell(a.effect)}
    case StoreCredit(_, _, _) => {LocalCell(a.effect)}
    case _ => {}
  }

  function Writes(a: Action): set<Cell> {
    match a.instr
    case PutKey(key, _) => {KeyCell(key)}
    case DropKey(key) => {KeyCell(key)}
    case LoadBalance(_, _) => {LocalCell(a.effect)}
    case StoreDebit(account, denom, _) => {BalanceCell(account, denom)}
    case StoreCredit(account, denom, _) => {BalanceCell(account, denom)}
    case _ => {}
  }

  ghost predicate Independent(a: Action, b: Action) {
    Writes(a) !! Reads(b) + Writes(b) && Writes(b) !! Reads(a)
  }

  function Target(u: Update): set<Cell> {
    match u
    case SetKey(key, _) => {KeyCell(key)}
    case SetAmount(account, denom, _) => {BalanceCell(account, denom)}
    case SetLocal(effect, _) => {LocalCell(effect)}
    case _ => {}
  }

  /** An operation decides by the cells it reads and changes only the cells it writes. */
  lemma {:induction false} DecideIsLocal(m: Machine, u: Update, a: Action)
    requires Target(u) !! Reads(a)
    ensures Decide(Perform(m, u), a) == Decide(m, a)
    ensures Target(Decide(m, a)) <= Writes(a)
  {
  }

  lemma {:induction false} UpdatesCommute(m: Machine, u: Update, v: Update)
    requires Target(u) !! Target(v)
    ensures Perform(Perform(m, u), v) == Perform(Perform(m, v), u)
  {
    if u.SetKey? && v.SetKey? {
      StoreKeysCommute(m.state.store, u.key, u.value, v.key, v.value);
    } else if u.SetAmount? && v.SetAmount? {
      assert Perform(Perform(m, u), v).state.balances == Perform(Perform(m, v), u).state.balances;
    } else if u.SetLocal? && v.SetLocal? {
      assert Perform(Perform(m, u), v).locals == Perform(Perform(m, v), u).locals;
    }
  }

  lemma {:induction false} StoreKeysCommute(store: map<Bytes, Bytes>, k1: Bytes, v1: Option<Bytes>, k2: Bytes,
                                            v2: Option<Bytes>)
    requires k1 != k2
    ensures StoreKey(StoreKey(store, k1, v1), k2, v2) == StoreKey(StoreKey(store, k2, v2), k1, v1)
  {
  }

  /** Independent operations commute, failures included. */
  lemma {:induction false} Commute(m: Machine, a: Action, b: Action)
    requires Independent(a, b)
    ensures Run(m, [a, b]) == Run(m, [b, a])
  {
    var u, v := Decide(m, a), Decide(m, b);
    DecideIsLocal(m, Nothing, a);
    DecideIsLocal(m, Nothing, b);
    DecideIsLocal(m, u, b);
    DecideIsLocal(m, v, a);
    UpdatesCommute(m, u, v);
    RunPair(m, a, b);
    RunPair(m, b, a);
  }

  lemma {:induction false} RunPair(m: Machine, a: Action, b: Action)
    ensures Run(m, [a, b]) == (var r := Act(m, a); if r.None? then None else Act(r.value, b))
  {
    assert [a, b][1..] == [b];
    var r := Act(m, a);
    if r.Some? {
      assert Run(r.value, [b]) == (var q := Act(r.value, b); if q.None? then None else Run(q.value, []));
    }
  }

  lemma {:induction false} RunAppend(m: Machine, s: seq<Action>, t: seq<Action>)
    ensures Run(m, s + t) == (var r := Run(m, s); if r.None? then None else Run(r.value, t))
    decreases |s|
  {
    if s == [] {
      assert s + t == t;
    } else {
      assert (s + t)[1..] == s[1..] + t;
      var r := Act(m, s[0]);
      if r.Some? {
        RunAppend(r.value, s[1..], t);
      }
    }
  }

  lemma {:induction false} SwapAdjacent(m: Machine, before: seq<Action>, a: Action, b: Action, after: seq<Action>)
    requires Independent(a, b)
    ensures Run(m, before + [a, b] + after) == Run(m, before + [b, a] + after)
  {
    RunAppend(m, before + [a, b], after);
    RunAppend(m, before + [b, a], after);
    RunAppend(m, before, [a, b]);
    RunAppend(m, before, [b, a]);
    var r := Run(m, before);
    if r.Some? {
      Commute(r.value, a, b);
    }
  }

  function Without<T>(s: seq<T>, k: nat): seq<T>
    requires k < |s|
  {
    s[..k] + s[k + 1..]
  }

  /** An operation independent of everything before it may as well come first. */
  lemma {:induction false} MoveToFront(m: Machine, s: seq<Action>, k: nat)
    requires k < |s| && forall i :: 0 <= i < k ==> Independent(s[i], s[k])
    ensures Run(m, s) == Run(m, [s[k]] + Without(s, k))
    decreases k
  {
    if k == 0 {
      assert s == [s[0]] + Without(s, 0);
    } else {
      SwapAdjacent(m, s[..k - 1], s[k - 1], s[k], s[k + 1..]);
      SwappedShape(s, k);
      MoveToFront(m, Swapped(s, k), k - 1);
    }
  }

  /** The k-th element exchanged with the one before it. */
  ghost function Swapped<T>(s: seq<T>, k: nat): seq<T>
    requires 0 < k < |s|
  {
    s[..k - 1] + [s[k], s[k - 1]] + s[k + 1..]
  }

  lemma {:induction false} SwappedShape<T>(s: seq<T>, k: nat)
    requires 0 < k < |s|
    ensures s == s[..k - 1] + [s[k - 1], s[k]] + s[k + 1..]
    ensures Swapped(s, k)[k - 1] == s[k] && forall i :: 0 <= i < k - 1 ==> Swapped(s, k)[i] == s[i]
    ensures Without(Swapped(s, k), k - 1) == Without(s, k)
  {
    var t := Swapped(s, k);
    assert t[..k - 1] == s[..k - 1] && t[k..] == [s[k - 1]] + s[k + 1..];
    assert s[..k] == s[..k - 1] + [s[k - 1]];
  }

  /** What precedes the j-th operation and is not independent of it has been done. */
  ghost predicate PrecededBy(s: seq<Action>, j: nat, done: seq<Action>)
    requires j < |s|
  {
    forall i :: 0 <= i < j && !Independent(s[i], s[j]) ==> s[i] in done
  }

  /**
   `t` runs some operations of `s`, possibly in another order: whatever precedes an operation in `s`
   and is not independent of it also precedes it in `t`.
   */
  ghost predicate Linearizes(s: seq<Action>, t: seq<Action>) {
    && NoDuplicates(s) && NoDuplicates(t)
    && (forall n :: 0 <= n < |t| ==> t[n] in s)
    && (forall j, n :: 0 <= j < |s| && 0 <= n < |t| && t[n] == s[j] ==> PrecededBy(s, j, t[..n]))
  }

  lemma {:induction false} WithoutDistinct(s: seq<Action>, k: nat)
    requires NoDuplicates(s) && k < |s|
    ensures NoDuplicates(Without(s, k))
    ensures forall x :: x in Without(s, k) <==> x in s && x != s[k]
  {
    forall x | x in s && x != s[k] ensures x in Without(s, k) {
      var j :| 0 <= j < |s| && s[j] == x;
      assert Without(s, k)[if j < k then j else j - 1] == x;
    }
  }

  lemma {:induction false} PrecededByRest(s: seq<Action>, t: seq<Action>, k: nat, j: nat, n: nat)
    requires k < |s| && t != [] && s[k] == t[0] && NoDuplicates(s)
    requires j < |s| - 1 && n < |t| - 1
    requires PrecededBy(s, if j < k then j else j + 1, t[..n + 1])
    ensures PrecededBy(Without(s, k), j, t[1..][..n])
  {
    var s', done := Without(s, k), t[1..][..n];
    WithoutDistinct(s, k);
    assert t[..n + 1] == [t[0]] + done;
    forall i | 0 <= i < j && !Independent(s'[i], s'[j]) ensures s'[i] in done {
      assert s'[i] == s[if i < k then i else i + 1] && s'[i] in s';
    }
  }

  lemma {:induction false} LinearizesRest(s: seq<Action>, t: seq<Action>, k: nat)
    requires Linearizes(s, t) && t != [] && k < |s| && s[k] == t[0]
    ensures forall i :: 0 <= i < k ==> Independent(s[i], s[k])
    ensures Linearizes(Without(s, k), t[1..])
  {
    var s', t' := Without(s, k), t[1..];
    assert PrecededBy(s, k, t[..0]);
    WithoutDistinct(s, k);
    forall n | 0 <= n < |t'| ensures t'[n] in s' {
      assert t'[n] == t[n + 1];
    }
    forall j, n | 0 <= j < |s'| && 0 <= n < |t'| && t'[n] == s'[j] ensures PrecededBy(s', j, t'[..n]) {
      assert t[n + 1] == s[if j < k then j else j + 1];
      PrecededByRest(s, t, k, j, n);
    }
  }

  /**
   Reordering theorem. A failing linearization of part of a run shows that the whole run fails; a
   complete linearization ends exactly where the run ends.
   */
  lemma {:induction false} Reorder(m: Machine, s: seq<Action>, t: seq<Action>)
    requires Linearizes(s, t)
    ensures Run(m, t).None? ==> Run(m, s).None?
    ensures |t| == |s| ==> Run(m, t) == Run(m, s)
    decreases |t|
  {
    if t != [] {
      assert t[0] in s;
      var k :| 0 <= k < |s| && s[k] == t[0];
      LinearizesRest(s, t, k);
      MoveToFront(m, s, k);
      assert ([s[k]] + Without(s, k))[1..] == Without(s, k);
      var r := Act(m, t[0]);
      if r.Some? {
        Reorder(r.value, Without(s, k), t[1..]);
      }
    }
  }
}
