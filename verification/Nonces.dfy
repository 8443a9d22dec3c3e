/**
 The nonces of executed transactions over whole runs (`runtime/application.go`), whatever the account cache
 evicts: exactly which inputs change a nonce, and exactly which runs have consecutive ones.
 */
module Nonces {
  import opened Basics
  import opened Accounts
  import opened Effects
  import opened Authorization
  import opened Codecs
  import opened Cache
  import opened CachedStore
  import opened Agreement
  import opened Application
  import opened Wiring
  import SharedStore

  function NonceOf(account: Option<Account>): Option<Uint64> {
    if account.Some? then Some(account.value.nonce) else None
  }

  /** The nonce that the account store shows. */
  function NonceAt(env: Environment, app: App, name: AccountName): Option<Uint64> {
    NonceOf(Lookup(env.codec, AccountStore(app), name))
  }

  /** The nonce in the state store below. */
  function StoredNonce(env: Environment, app: App, name: AccountName): Option<Uint64> {
    NonceOf(Decoded(env.codec, app.data, name))
  }

  // ---- Look-ups ----

  /** Looking up the key pushes the account out of the cache. */
  predicate Evicts(env: Environment, s: Store<Account>, key: Bytes, name: AccountName) {
    key != [] && key !in s.l1.items && Decoded(env.codec, s.backing, key).Some? && Victim(s.l1, key) == Some(name)
  }

  /** A look-up brings back the stored record of the account it evicts, and changes no other. */
  lemma {:induction false} LookupSees(env: Environment, s: Store<Account>, key: Bytes, name: AccountName)
    requires IsLayered(s)
    ensures Lookup(env.codec, AfterGet(env.codec, s, key), name)
            == if Evicts(env, s, key, name) then Decoded(env.codec, s.backing, name) else Lookup(env.codec, s, name)
  {
    if key != [] && key in s.l1.items {
      TouchedIsValid(s.l1, key);
    } else if key != [] && Decoded(env.codec, s.backing, key).Some? {
      StoredContents(s.l1, key, Entry(Decoded(env.codec, s.backing, key), false));
    }
  }

  ghost predicate EvictsAt(env: Environment, s: Store<Account>, names: seq<Bytes>, j: nat, name: AccountName)
    requires j < |names|
  {
    Evicts(env, AfterGets(env, s, names[..j]), names[j], name)
  }

  /** Some look-up of the list evicts the account. */
  ghost predicate Pushes(env: Environment, s: Store<Account>, names: seq<Bytes>, name: AccountName) {
    exists j :: 0 <= j < |names| && EvictsAt(env, s, names, j, name)
  }

  lemma {:induction false} PushesLast(env: Environment, s: Store<Account>, names: seq<Bytes>, name: AccountName)
    requires names != []
    ensures var n := |names| - 1;
            Pushes(env, s, names, name)
            <==> Pushes(env, s, names[..n], name) || Evicts(env, AfterGets(env, s, names[..n]), names[n], name)
  {
    hide Evicts, AfterGets;
    var n := |names| - 1;
    forall j | 0 <= j < n ensures EvictsAt(env, s, names[..n], j, name) == EvictsAt(env, s, names, j, name) {
      assert names[..n][..j] == names[..j];
    }
    assert EvictsAt(env, s, names, n, name) == Evicts(env, AfterGets(env, s, names[..n]), names[n], name);
  }

  /** So does a list of look-ups, with every account that one of them evicts. */
  lemma {:induction false} LookupsSee(env: Environment, s: Store<Account>, names: seq<Bytes>, name: AccountName)
    requires IsRegistry(s)
    ensures Lookup(env.codec, AfterGets(env, s, names), name)
            == if Pushes(env, s, names, name) then Decoded(env.codec, s.backing, name) else Lookup(env.codec, s, name)
    decreases |names|
  {
    if names != [] {
      hide AfterGet, Lookup, Evicts, Pushes;
      var n := |names| - 1;
      LookupsSee(env, s, names[..n], name);
      GetsKeepRegistry(env, s, names[..n]);
      LookupSees(env, AfterGets(env, s, names[..n]), names[n], name);
      PushesLast(env, s, names, name);
    }
  }

  /**
   Authorization reads the accounts one by one through the cache. What it reads is what was seen when it
   began, exactly unless an earlier look-up evicted a record that differs from the stored one.
   */
  lemma {:induction false} LiveIsSnapshotIff(env: Environment, s: Store<Account>, names: seq<Bytes>, j: nat)
    requires IsRegistry(s) && j < |names|
    ensures Lookup(env.codec, AfterGets(env, s, names[..j]), names[j]) == Lookup(env.codec, s, names[j])
            <==> !(&& Pushes(env, s, names[..j], names[j])
                   && Decoded(env.codec, s.backing, names[j]) != Lookup(env.codec, s, names[j]))
  {
    LookupsSee(env, s, names[..j], names[j]);
  }

  // ---- One input ----

  /** The input executes a transaction of the account. */
  ghost predicate Succeeds(env: Environment, app: App, input: Input, name: AccountName) {
    && input.Execute? && input.tx.account == name && Executes(env, app, input.tx, input.routed)
    && SharedStore.ApplyAll(env.balances, BalanceStore(app), input.routed.value).ok
  }

  /** A signer that passes the gate is seen with the nonce of the transaction. */
  lemma {:induction false} GateNonce(env: Environment, app: App, tx: Transaction)
    requires IsWired(app) && PassesGate(env, app, tx)
    ensures NonceAt(env, app, tx.account) == Some(tx.nonce)
  {
  }

  lemma {:induction false} SucceedsIff(env: Environment, app: App, input: Input, name: AccountName)
    requires IsWired(app)
    ensures Succeeds(env, app, input, name) <==>
              && input.Execute? && input.tx.account == name
              && AfterTx(env, app, input.tx, input.fetched, input.routed).1 == Executed
  {
    hide PassesGate, SharedStore.ApplyAll, IsRegistry, IsBank;
    if input.Execute? {
      LookupsStayWired(env, app, input.tx, input.fetched);
      assert BalanceStore(AfterLookups(env, app, input.tx, input.fetched)) == BalanceStore(app);
    }
  }

  /** The account is evicted by a look-up of the input, or when the nonce of its signer is stored. */
  ghost predicate Loses(env: Environment, app: App, input: Input, name: AccountName) {
    match input
    case BeginBlock(_) => false
    case Check(tx, fetched) => Pushes(env, AccountStore(app), LookedUp(env, app, tx, fetched), name)
    case Execute(tx, fetched, _) =>
      || Pushes(env, AccountStore(app), LookedUp(env, app, tx, fetched), name)
      || (&& Succeeds(env, app, input, tx.account)
          && Victim(AfterLookups(env, app, tx, fetched).accounts.l1, tx.account) == Some(name))
    case Commit(_) => false
  }

  lemma {:induction false} LookupsNonce(env: Environment, app: App, tx: Transaction, fetched: seq<Bytes>,
                                        name: AccountName)
    requires IsWired(app)
    ensures NonceAt(env, AfterLookups(env, app, tx, fetched), name)
            == if Pushes(env, AccountStore(app), LookedUp(env, app, tx, fetched), name) then StoredNonce(env, app, name)
               else NonceAt(env, app, name)
  {
    hide Lookup, Pushes, LookedUp, IsBank;
    LookupsSee(env, AccountStore(app), LookedUp(env, app, tx, fetched), name);
    LookupsStayWired(env, app, tx, fetched);
  }

  /** What others write to the state store is of no matter to account names. */
  lemma {:induction false} DataNonce(env: Environment, app: App, app': App, name: AccountName)
    requires app'.accounts == app.accounts && SameNames(app.data, app'.data) && IsValidName(name)
    ensures NonceAt(env, app', name) == NonceAt(env, app, name)
    ensures StoredNonce(env, app', name) == StoredNonce(env, app, name)
  {
    NameHasNoSlash(name);
    assert DataAt(app'.data, name) == DataAt(app.data, name);
  }

  /** Storing a nonce brings back the stored nonce of the account it evicts, and changes no other. */
  lemma {:induction false} PutNonce(env: Environment, app: App, signer: AccountName, account: Account, nonce: Uint64,
                                    name: AccountName)
    requires IsWired(app) && IsValidName(signer)
    ensures NonceAt(env, WithNonce(app, signer, account, nonce), name)
            == if name == signer then Some(nonce)
               else if Victim(app.accounts.l1, signer) == Some(name) then StoredNonce(env, app, name)
               else NonceAt(env, app, name)
  {
    StoredContents(app.accounts.l1, signer, Entry(Some(account.(nonce := nonce)), true));
  }

  lemma {:induction false} TxNonce(env: Environment, app: App, input: Input, name: AccountName)
    requires IsWired(app) && IsValidName(name) && input.Execute? && Executes(env, app, input.tx, input.routed)
    ensures NonceAt(env, AfterInput(env, app, input), name)
            == if Succeeds(env, app, input, name) then Some(NextNonce(input.tx.nonce))
               else if Loses(env, app, input, name) then StoredNonce(env, app, name)
               else NonceAt(env, app, name)
  {
    hide NonceAt, StoredNonce, Pushes, SharedStore.ApplyAll, WithNonce, IsRegistry, IsBank, IsAuthorized;
    var tx, checked := input.tx, AfterLookups(env, app, input.tx, input.fetched);
    LookupsNonce(env, app, tx, input.fetched, name);
    LookupsStayWired(env, app, tx, input.fetched);
    SameStored(env, app, checked, name);
    assert BalanceStore(checked) == BalanceStore(app);
    EffectsStayWired(env, checked, input.routed.value);
    var (done, ok) := AfterEffects(env, checked, input.routed.value);
    DataNonce(env, checked, done, name);
    if ok {
      var account := GetResult(env.codec, AccountStore(app), tx.account).value;
      PutNonce(env, done, tx.account, account, NextNonce(account.nonce), name);
    }
  }

  lemma {:induction false} SameStored(env: Environment, app: App, app': App, name: AccountName)
    requires app'.data == app.data
    ensures StoredNonce(env, app', name) == StoredNonce(env, app, name)
  {
  }

  lemma {:induction false} CommitNonce(env: Environment, app: App, saved: bool, name: AccountName)
    requires IsFaithful(env.codec) && IsFaithful(env.balances) && IsWired(app) && IsValidName(name)
    ensures NonceAt(env, AfterCommit(env, app, saved), name) == NonceAt(env, app, name)
  {
    hide AfterFlush, Lookup, IsBank;
    CommitStaysWired(env, app, saved);
    if app.inBlock {
      var first := FlushedAccounts(env, app);
      AccountFlush(env, app);
      FlushSees(env.codec, AccountStore(app), name);
      BalanceFlush(env, first);
      DataNonce(env, first, FlushedBalances(env, first), name);
    }
  }

  /**
   With any cache, an input raises the nonce of the account whose transaction it executes, brings back the
   stored nonce of every other account it evicts, and changes no nonce besides.
   */
  lemma {:induction false} StepNonce(env: Environment, app: App, input: Input, name: AccountName)
    requires IsFaithful(env.codec) && IsFaithful(env.balances) && IsWired(app) && IsValidName(name)
    ensures Succeeds(env, app, input, name) ==> NonceAt(env, app, name) == Some(input.tx.nonce)
    ensures NonceAt(env, AfterInput(env, app, input), name)
            == if Succeeds(env, app, input, name) then Some(NextNonce(input.tx.nonce))
               else if Loses(env, app, input, name) then StoredNonce(env, app, name)
               else NonceAt(env, app, name)
  {
    hide NonceAt, StoredNonce, AfterLookups, AfterCommit, Pushes, IsWired, IsAuthorized;
    match input
    case BeginBlock(_) =>
      BlockNonce(env, app, input, name);
    case Check(tx, fetched) =>
      LookupsNonce(env, app, tx, fetched, name);
    case Execute(tx, fetched, routed) =>
      if Executes(env, app, tx, routed) {
        GateNonce(env, app, tx);
        TxNonce(env, app, input, name);
      } else {
        LookupsNonce(env, app, tx, fetched, name);
      }
    case Commit(saved) =>
      CommitNonce(env, app, saved, name);
  }

  lemma {:induction false} BlockNonce(env: Environment, app: App, input: Input, name: AccountName)
    requires input.BeginBlock?
    ensures NonceAt(env, AfterInput(env, app, input), name) == NonceAt(env, app, name)
  {
  }

  // ---- Every run ----

  /** The input, without executing a transaction of the account, evicts a nonce that differs from the stored one. */
  ghost predicate GoesBack(env: Environment, app: App, input: Input, name: AccountName) {
    && !Succeeds(env, app, input, name) && Loses(env, app, input, name)
    && StoredNonce(env, app, name) != NonceAt(env, app, name)
  }

  ghost predicate GoesBackAt(env: Environment, app: App, inputs: seq<Input>, i: nat, name: AccountName)
    requires i < |inputs|
  {
    GoesBack(env, Run(env, app, inputs[..i]), inputs[i], name)
  }

  ghost predicate NeverGoesBack(env: Environment, app: App, inputs: seq<Input>, name: AccountName) {
    forall i :: 0 <= i < |inputs| ==> !GoesBackAt(env, app, inputs, i, name)
  }

  /** The nonces of the account's executed transactions, in order. */
  ghost function ExecutedNonces(env: Environment, app: App, inputs: seq<Input>, name: AccountName): seq<Uint64> {
    if inputs == [] then []
    else
      var n := |inputs| - 1;
      ExecutedNonces(env, app, inputs[..n], name)
      + if Succeeds(env, Run(env, app, inputs[..n]), inputs[n], name) then [inputs[n].tx.nonce] else []
  }

  /**
   The nonces of the account's executed transactions are consecutive from its first nonce, modulo 2^64,
   and the nonce that is seen is the next one. An account without a record never executes.
   */
  ghost predicate IsConsecutive(env: Environment, app: App, inputs: seq<Input>, name: AccountName) {
    var first, nonces := NonceAt(env, app, name), ExecutedNonces(env, app, inputs, name);
    if first.None? then nonces == [] && NonceAt(env, Run(env, app, inputs), name).None?
    else && (forall i :: 0 <= i < |nonces| ==> nonces[i] == Wrapped(first.value + i))
         && NonceAt(env, Run(env, app, inputs), name) == Some(Wrapped(first.value + |nonces|))
  }

  lemma {:induction false} NextWrapped(n: nat)
    ensures NextNonce(Wrapped(n)) == Wrapped(n + 1)
  {
  }

  lemma {:induction false} StartIsConsecutive(env: Environment, app: App, name: AccountName)
    ensures IsConsecutive(env, app, [], name)
  {
  }

  /** Consecutive nonces stay so with one more input, exactly unless it makes the nonce go back. */
  lemma {:induction false} ConsecutiveStep(env: Environment, app: App, inputs: seq<Input>, name: AccountName)
    requires IsFaithful(env.codec) && IsFaithful(env.balances) && IsWired(app) && IsValidName(name) && inputs != []
    requires IsConsecutive(env, app, inputs[..|inputs| - 1], name)
    ensures IsConsecutive(env, app, inputs, name) <==> !GoesBackAt(env, app, inputs, |inputs| - 1, name)
  {
    hide IsFaithful, IsWired, NonceAt, StoredNonce, Loses, AfterInput, Succeeds, Wrapped, NextNonce;
    var n := |inputs| - 1;
    var before := Run(env, app, inputs[..n]);
    RunStaysWired(env, app, inputs[..n]);
    StepNonce(env, before, inputs[n], name);
    if Succeeds(env, before, inputs[n], name) && NonceAt(env, app, name).Some? {
      NextWrapped(NonceAt(env, app, name).value + |ExecutedNonces(env, app, inputs[..n], name)|);
    }
  }

  lemma {:induction false} PrefixStep(env: Environment, app: App, inputs: seq<Input>, i: nat, name: AccountName)
    requires IsFaithful(env.codec) && IsFaithful(env.balances) && IsWired(app) && IsValidName(name) && i < |inputs|
    requires IsConsecutive(env, app, inputs[..i], name)
    ensures IsConsecutive(env, app, inputs[..i + 1], name) <==> !GoesBackAt(env, app, inputs, i, name)
  {
    hide IsFaithful, IsWired, IsConsecutive, GoesBack, Run;
    assert inputs[..i + 1][..i] == inputs[..i];
    ConsecutiveStep(env, app, inputs[..i + 1], name);
  }

  lemma {:induction false} KeptIsConsecutive(env: Environment, app: App, inputs: seq<Input>, i: nat, name: AccountName)
    requires IsFaithful(env.codec) && IsFaithful(env.balances) && IsWired(app) && IsValidName(name) && i <= |inputs|
    requires NeverGoesBack(env, app, inputs, name)
    ensures IsConsecutive(env, app, inputs[..i], name)
  {
    hide IsFaithful, IsWired, IsConsecutive, GoesBackAt;
    if i == 0 {
      StartIsConsecutive(env, app, name);
    } else {
      KeptIsConsecutive(env, app, inputs, i - 1, name);
      PrefixStep(env, app, inputs, i - 1, name);
    }
  }

  ghost predicate IsAlwaysConsecutive(env: Environment, app: App, inputs: seq<Input>, name: AccountName) {
    forall i :: 0 <= i <= |inputs| ==> IsConsecutive(env, app, inputs[..i], name)
  }

  /**
   With any cache, the nonces of an account are consecutive all along a run exactly when no input of the run
   evicts a nonce of it that differs from the stored one.
   */
  lemma {:induction false} ConsecutiveIff(env: Environment, app: App, inputs: seq<Input>, name: AccountName)
    requires IsFaithful(env.codec) && IsFaithful(env.balances) && IsWired(app) && IsValidName(name)
    ensures IsAlwaysConsecutive(env, app, inputs, name) <==> NeverGoesBack(env, app, inputs, name)
  {
    hide IsFaithful, IsWired, IsConsecutive, GoesBackAt;
    if NeverGoesBack(env, app, inputs, name) {
      forall i | 0 <= i <= |inputs| ensures IsConsecutive(env, app, inputs[..i], name) {
        KeptIsConsecutive(env, app, inputs, i, name);
      }
    } else if IsAlwaysConsecutive(env, app, inputs, name) {
      forall i | 0 <= i < |inputs| ensures !GoesBackAt(env, app, inputs, i, name) {
        PrefixStep(env, app, inputs, i, name);
      }
    }
  }

  /** How many transactions of the account the run has executed. */
  ghost function Executions(env: Environment, app: App, inputs: seq<Input>, name: AccountName): nat {
    |ExecutedNonces(env, app, inputs, name)|
  }

  lemma {:induction false} ExecutionsGrow(env: Environment, app: App, inputs: seq<Input>, name: AccountName, i: nat)
    requires i <= |inputs|
    ensures Executions(env, app, inputs[..i], name) <= Executions(env, app, inputs, name)
  {
    if i < |inputs| {
      var n := |inputs| - 1;
      ExecutionsGrow(env, app, inputs[..n], name, i);
      assert inputs[..n][..i] == inputs[..i];
    } else {
      assert inputs[..i] == inputs;
    }
  }

  /** Faithful serializers, account keys of their own, and no nonce of the account that goes back. */
  ghost predicate IsKept(env: Environment, app: App, inputs: seq<Input>, name: AccountName) {
    IsFaithful(env.codec) && IsFaithful(env.balances) && IsWired(app) && NeverGoesBack(env, app, inputs, name)
  }

  lemma {:induction false} ExecutedNonce(env: Environment, app: App, inputs: seq<Input>, name: AccountName, i: nat)
    requires IsKept(env, app, inputs, name) && i < |inputs|
    requires Succeeds(env, Run(env, app, inputs[..i]), inputs[i], name)
    ensures NonceAt(env, app, name).Some?
    ensures inputs[i].tx.nonce == Wrapped(NonceAt(env, app, name).value + Executions(env, app, inputs[..i], name))
    ensures Executions(env, app, inputs[..i + 1], name) == Executions(env, app, inputs[..i], name) + 1
  {
    hide IsFaithful, IsWired, NeverGoesBack, NonceAt, AfterInput, Wrapped, NextNonce, Run, IsAuthorized;
    assert inputs[..i + 1][..i] == inputs[..i];
    KeptIsConsecutive(env, app, inputs, i, name);
    RunStaysWired(env, app, inputs[..i]);
    StepNonce(env, Run(env, app, inputs[..i]), inputs[i], name);
  }

  /** Whether two counts of executions are a multiple of 2^64 apart. */
  ghost predicate IsFullCycle(d: int) {
    d % 0x1_0000_0000_0000_0000 == 0
  }

  lemma {:induction false} Repeats(first: nat, m: nat, n: nat, a: Uint64, b: Uint64)
    requires m < n && a == Wrapped(first + m) && b == Wrapped(first + n)
    ensures a == b <==> IsFullCycle(n - m)
    ensures IsFullCycle(n - m) ==> n - m >= 0x1_0000_0000_0000_0000
  {
    var x, y, d := first + m, first + n, n - m;
    var k := y / 0x1_0000_0000_0000_0000 - x / 0x1_0000_0000_0000_0000 - d / 0x1_0000_0000_0000_0000;
    assert b - a == d % 0x1_0000_0000_0000_0000 - 0x1_0000_0000_0000_0000 * k;
    assert a == b || IsFullCycle(d) ==> k == 0;
  }

  /** The executions of the account before input `j` and not before input `i`. */
  ghost function Between(env: Environment, app: App, inputs: seq<Input>, name: AccountName, i: nat, j: nat): int
    requires i <= j <= |inputs|
  {
    Executions(env, app, inputs[..j], name) - Executions(env, app, inputs[..i], name)
  }

  lemma {:induction false} BetweenIsPositive(env: Environment, app: App, inputs: seq<Input>, name: AccountName, i: nat,
                                             j: nat)
    requires IsKept(env, app, inputs, name) && i < j <= |inputs|
    requires Succeeds(env, Run(env, app, inputs[..i]), inputs[i], name)
    ensures Between(env, app, inputs, name, i, j) > 0
  {
    hide Run, IsKept, NonceAt, Executes, Wrapped, Executions;
    ExecutedNonce(env, app, inputs, name, i);
    assert inputs[..j][..i + 1] == inputs[..i + 1];
    ExecutionsGrow(env, app, inputs[..j], name, i + 1);
  }

  /**
   Two executed transactions of an account have the same nonce exactly when the number of executions
   between them is a multiple of 2^64; so a transaction that executes again does so 2^64 executions
   later at the earliest.
   */
  lemma {:induction false} NoReplay(env: Environment, app: App, inputs: seq<Input>, name: AccountName, i: nat, j: nat)
    requires IsKept(env, app, inputs, name) && i < j < |inputs|
    requires Succeeds(env, Run(env, app, inputs[..i]), inputs[i], name)
    requires Succeeds(env, Run(env, app, inputs[..j]), inputs[j], name)
    ensures inputs[i].tx.nonce == inputs[j].tx.nonce <==> IsFullCycle(Between(env, app, inputs, name, i, j))
    ensures inputs[i].tx == inputs[j].tx ==> Between(env, app, inputs, name, i, j) >= 0x1_0000_0000_0000_0000
  {
    hide IsKept, NonceAt, Executes, Wrapped, Executions, Run;
    var first := ExecutedTwice(env, app, inputs, name, i, j);
    Repeats(first, Executions(env, app, inputs[..i], name), Executions(env, app, inputs[..j], name),
            inputs[i].tx.nonce, inputs[j].tx.nonce);
  }

  lemma {:induction false} ExecutedTwice(env: Environment, app: App, inputs: seq<Input>, name: AccountName, i: nat,
                                         j: nat)
    returns (first: nat)
    requires IsKept(env, app, inputs, name) && i < j < |inputs|
    requires Succeeds(env, Run(env, app, inputs[..i]), inputs[i], name)
    requires Succeeds(env, Run(env, app, inputs[..j]), inputs[j], name)
    ensures Executions(env, app, inputs[..i], name) < Executions(env, app, inputs[..j], name)
    ensures inputs[i].tx.nonce == Wrapped(first + Executions(env, app, inputs[..i], name))
    ensures inputs[j].tx.nonce == Wrapped(first + Executions(env, app, inputs[..j], name))
  {
    hide IsKept, NonceAt, Executes, Wrapped, Executions, Run;
    BetweenIsPositive(env, app, inputs, name, i, j);
    ExecutedNonce(env, app, inputs, name, i);
    ExecutedNonce(env, app, inputs, name, j);
    first := NonceAt(env, app, name).value;
  }
}
