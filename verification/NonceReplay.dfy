/**
 A transaction that runs twice: it executes, as many other accounts are looked up as the account cache
 holds, and it executes again, because its nonce was evicted unsaved.
 */
module NonceReplay {
  import opened Basics
  import opened Accounts
  import opened Effects
  import opened Authorization
  import opened Codecs
  import opened Cache
  import opened CachedStore
  import opened Agreement
  import opened Application
  import opened Wiring
  import opened Nonces
  import Commutation
  import SharedStore

  // ---- A cache with at most one unsaved account ----

  /** Every cached account, but one at most, is as stored. */
  ghost predicate IsSavedBut(env: Environment, s: Store<Account>, name: Option<Bytes>) {
    && IsRegistry(s)
    && forall k :: k in s.l1.items && Some(k) != name ==> s.l1.items[k].value == Decoded(env.codec, s.backing, k)
  }

  lemma {:induction false} GetStaysSaved(env: Environment, s: Store<Account>, but: Option<Bytes>, key: Bytes)
    requires IsSavedBut(env, s, but)
    ensures IsSavedBut(env, AfterGet(env.codec, s, key), but)
  {
    GetKeepsRegistry(env, s, key);
    if key != [] && key in s.l1.items {
      TouchedIsValid(s.l1, key);
    } else if key != [] && Decoded(env.codec, s.backing, key).Some? {
      StoredContents(s.l1, key, Entry(Decoded(env.codec, s.backing, key), false));
    }
  }

  lemma {:induction false} GetsStaySaved(env: Environment, s: Store<Account>, but: Option<Bytes>, names: seq<Bytes>)
    requires IsSavedBut(env, s, but)
    ensures IsSavedBut(env, AfterGets(env, s, names), but)
    decreases |names|
  {
    hide IsSavedBut, AfterGet;
    if names != [] {
      var n := |names| - 1;
      GetsStaySaved(env, s, but, names[..n]);
      GetStaysSaved(env, AfterGets(env, s, names[..n]), but, names[n]);
    }
  }

  lemma {:induction false} PutStaysSaved(env: Environment, s: Store<Account>, name: AccountName, account: Account)
    requires IsSavedBut(env, s, None) && IsValidName(name)
    ensures IsSavedBut(env, AfterPut(s, name, Some(account)), Some(name))
  {
    PutKeepsRegistry(s, name, account);
    StoredContents(s.l1, name, Entry(Some(account), true));
  }

  // ---- The gate answers by the state store ----

  /** The accounts in the state store. */
  function StoredAccounts(env: Environment, data: map<Bytes, Bytes>): map<AccountName, Account> {
    map n | n in data && Decoded(env.codec, data, n).Some? :: Decoded(env.codec, data, n).value
  }

  lemma {:induction false} SavedAccounts(env: Environment, s: Store<Account>)
    requires IsSavedBut(env, s, None)
    ensures AccountsIn(env, s) == StoredAccounts(env, s.backing)
    ensures forall n :: Lookup(env.codec, s, n) == Decoded(env.codec, s.backing, n)
  {
  }

  lemma {:induction false} SavedResult(env: Environment, s: Store<Account>, name: Bytes)
    requires IsSavedBut(env, s, None) && name != []
    ensures var got, stored := GetResult(env.codec, s, name), Decoded(env.codec, s.backing, name);
            (got.Ok? <==> stored.Some?) && (got.Ok? ==> got.value == stored.value)
  {
  }

  /** If every cached account is as stored, the gate depends on the state store alone. */
  lemma {:induction false} SavedGate(env: Environment, app: App, app': App, tx: Transaction)
    requires IsSavedBut(env, AccountStore(app), None) && IsSavedBut(env, AccountStore(app'), None)
    requires app'.data == app.data && PassesGate(env, app, tx)
    ensures PassesGate(env, app', tx)
  {
    hide IsSavedBut, GetResult, AccountsIn, AfterGet, IsAuthorized;
    SavedResult(env, AccountStore(app), tx.account);
    SavedResult(env, AccountStore(app'), tx.account);
    LookedIsStored(env, app, tx.account);
    LookedIsStored(env, app', tx.account);
  }

  lemma {:induction false} LookedIsStored(env: Environment, app: App, name: Bytes)
    requires IsSavedBut(env, AccountStore(app), None)
    ensures AccountsIn(env, AfterGet(env.codec, AccountStore(app), name)) == StoredAccounts(env, app.data)
  {
    hide AccountsIn, AfterGet, IsRegistry;
    GetStaysSaved(env, AccountStore(app), None, name);
    GetKeepsRegistry(env, AccountStore(app), name);
    SavedAccounts(env, AfterGet(env.codec, AccountStore(app), name));
  }

  // ---- Effects that leave the state store alone ----

  ghost predicate WritesNothing(effects: seq<Effect>) {
    forall i :: 0 <= i < |effects| ==> !effects[i].Write? && !effects[i].Delete?
  }

  lemma {:induction false} EffectsKeepData(env: Environment, s: SharedStore.Bank, effects: seq<Effect>)
    requires WritesNothing(effects)
    ensures SharedStore.ApplyAll(env.balances, s, effects).bank.backing == s.backing
  {
    if effects != [] {
      var n := |effects| - 1;
      EffectsKeepData(env, s, effects[..n]);
      var before := SharedStore.ApplyAll(env.balances, s, effects[..n]).bank;
      if effects[n].Transfer? {
        var Transfer(from, to, amount) := effects[n];
        Commutation.TransferElsewhere(env.balances, before, before.backing, from, to, amount);
      }
    }
  }

  // ---- The run ----

  /** The same application but for its account cache, which has one unsaved account at most. */
  ghost predicate IsAfter(env: Environment, app: App, bank: SharedStore.Bank, name: AccountName, app': App) {
    && app'.data == app.data && BalanceStore(app') == bank && app'.inBlock == app.inBlock
    && app'.accounts.l1.capacity == app.accounts.l1.capacity && IsSavedBut(env, AccountStore(app'), Some(name))
  }

  /** The executed transaction leaves the nonce of its signer unsaved. */
  lemma {:induction false} ExecutesOnce(env: Environment, app: App, run: Input)
    requires IsWired(app) && IsSavedBut(env, AccountStore(app), None)
    requires run.Execute? && Succeeds(env, app, run, run.tx.account) && WritesNothing(run.routed.value)
    ensures IsAfter(env, app, SharedStore.ApplyAll(env.balances, BalanceStore(app), run.routed.value).bank,
                    run.tx.account, AfterInput(env, app, run))
  {
    hide IsSavedBut, IsAuthorized, SharedStore.ApplyAll, GetResult, AfterPut, IsRegistry, IsBank, AfterGets, LookedUp;
    var tx, effects := run.tx, run.routed.value;
    var checked := AfterLookups(env, app, tx, run.fetched);
    LookupsStayWired(env, app, tx, run.fetched);
    GetsStaySaved(env, AccountStore(app), None, LookedUp(env, app, tx, run.fetched));
    assert BalanceStore(checked) == BalanceStore(app);
    EffectsKeepData(env, BalanceStore(app), effects);
    EffectsStayWired(env, checked, effects);
    var done := AfterEffects(env, checked, effects).0;
    assert AccountStore(done) == AccountStore(checked);
    var account := GetResult(env.codec, AccountStore(app), tx.account).value;
    var updated := account.(nonce := NextNonce(account.nonce));
    PutStaysSaved(env, AccountStore(done), tx.account, updated);
    PutKeepsSize(AccountStore(done), tx.account, updated);
  }

  lemma {:induction false} PutKeepsSize(s: Store<Account>, name: AccountName, account: Account)
    ensures var t := AfterPut(s, name, Some(account));
            t.l1.capacity == s.l1.capacity && t.backing == s.backing
  {
  }

  /** Well-formed transactions of other stored accounts, each of its own. */
  ghost predicate AreOthers(env: Environment, app: App, name: AccountName, others: seq<Transaction>) {
    && (forall i :: 0 <= i < |others| ==> IsOther(env, app, name, others[i]))
    && forall i, j :: 0 <= i < j < |others| ==> others[i].account != others[j].account
  }

  ghost predicate IsOther(env: Environment, app: App, name: AccountName, other: Transaction) {
    IsWellFormed(other) && other.account != name && Decoded(env.codec, app.data, other.account).Some?
  }

  ghost function Checks(others: seq<Transaction>): seq<Input> {
    seq(|others|, i requires 0 <= i < |others| => Check(others[i], []))
  }

  ghost function Names(others: seq<Transaction>): set<Bytes> {
    set i | 0 <= i < |others| :: others[i].account
  }

  /** A check moves the account it looks up to the front of the cache. */
  lemma {:induction false} ChecksOne(env: Environment, app: App, bank: SharedStore.Bank, name: AccountName, now: App,
                                     other: Transaction, touched: set<Bytes>)
    requires IsAfter(env, app, bank, name, now) && IsOther(env, app, name, other)
    requires InFront(now.accounts.l1.order, touched) && |touched + {other.account}| <= app.accounts.l1.capacity
    ensures var next := AfterInput(env, now, Check(other, []));
            IsAfter(env, app, bank, name, next) && InFront(next.accounts.l1.order, touched + {other.account})
  {
    hide InFront;
    LooksUpOne(env, now, other);
    GetStaysSaved(env, AccountStore(now), Some(name), other.account);
    GetKeepsRegistry(env, AccountStore(now), other.account);
    FrontAfterGet(env, AccountStore(now), other.account, touched);
  }

  lemma {:induction false} LooksUpOne(env: Environment, app: App, tx: Transaction)
    requires IsWellFormed(tx)
    ensures AfterLookups(env, app, tx, []) == WithAccounts(app, AfterGet(env.codec, AccountStore(app), tx.account))
  {
    hide AfterGet;
    assert [tx.account] + [] == [tx.account];
    GetsAfterFirst(env, AccountStore(app), tx.account, []);
  }

  lemma {:induction false} FrontAfterGet(env: Environment, s: Store<Account>, key: Bytes, touched: set<Bytes>)
    requires IsLayered(s) && key != [] && Decoded(env.codec, s.backing, key).Some?
    requires InFront(s.l1.order, touched) && |touched + {key}| <= s.l1.capacity
    ensures InFront(AfterGet(env.codec, s, key).l1.order, touched + {key})
  {
    if key in s.l1.items {
      assert key in Elements(s.l1.order);
      FrontIsRecent(s.l1.order, key, touched);
    } else {
      StoredOrder(s.l1, touched, key, Entry(Decoded(env.codec, s.backing, key), false));
    }
  }

  lemma {:induction false} NamesCount(others: seq<Transaction>)
    requires forall i, j :: 0 <= i < j < |others| ==> others[i].account != others[j].account
    ensures |Names(others)| == |others|
  {
    if others != [] {
      var n := |others| - 1;
      NamesCount(others[..n]);
      assert Names(others) == Names(others[..n]) + {others[n].account};
    }
  }

  lemma {:induction false} ChecksLast(env: Environment, app: App, run: Input, others: seq<Transaction>)
    requires others != []
    ensures var n := |others| - 1;
            Run(env, app, [run] + Checks(others))
            == AfterInput(env, Run(env, app, [run] + Checks(others[..n])), Check(others[n], []))
  {
    hide AfterInput;
    assert ([run] + Checks(others))[..|others|] == [run] + Checks(others[..|others| - 1]);
  }

  /** The checked accounts are in front of the cache. */
  lemma {:induction false} ChecksAll(env: Environment, app: App, bank: SharedStore.Bank, name: AccountName, run: Input,
                                     others: seq<Transaction>)
    requires IsAfter(env, app, bank, name, AfterInput(env, app, run)) && AreOthers(env, app, name, others)
    requires |others| <= app.accounts.l1.capacity
    ensures var now := Run(env, app, [run] + Checks(others));
            IsAfter(env, app, bank, name, now) && InFront(now.accounts.l1.order, Names(others))
    decreases |others|
  {
    hide IsAfter, InFront, AfterInput, IsOther;
    var n := |others| - 1;
    if others == [] {
      assert [run] + Checks(others) == [run] && [run][..0] == [];
      assert Run(env, app, []) == app;
      NothingInFront(Run(env, app, [run]).accounts.l1.order);
      assert Names(others) == {};
    } else {
      hide Run, Checks;
      ChecksLast(env, app, run, others);
      ChecksAll(env, app, bank, name, run, others[..n]);
      NamesCount(others);
      assert Names(others) == Names(others[..n]) + {others[n].account};
      ChecksOne(env, app, bank, name, Run(env, app, [run] + Checks(others[..n])), others[n], Names(others[..n]));
    }
  }

  lemma {:induction false} NothingInFront(order: seq<Bytes>)
    ensures InFront(order, {})
  {
    assert order[..0] == [];
  }

  /** A cache full of other accounts has evicted the one. */
  lemma {:induction false} FullOfOthers(env: Environment, s: Store<Account>, name: AccountName, names: set<Bytes>)
    requires IsSavedBut(env, s, Some(name)) && InFront(s.l1.order, names) && |names| == s.l1.capacity && name !in names
    ensures IsSavedBut(env, s, None)
  {
    assert s.l1.order[..|names|] == s.l1.order;
    assert name !in Elements(s.l1.order);
  }

  /**
   From any state in which the cached accounts are as stored: after as many checks of other accounts as the
   cache holds, an executed transaction executes again, if its effects can be applied again.
   */
  lemma {:induction false} ReplayPastBound(env: Environment, app: App, run: Input, others: seq<Transaction>)
    requires IsWired(app) && IsSavedBut(env, AccountStore(app), None)
    requires run.Execute? && Succeeds(env, app, run, run.tx.account) && WritesNothing(run.routed.value)
    requires AreOthers(env, app, run.tx.account, others) && |others| == app.accounts.l1.capacity
    ensures var once := SharedStore.ApplyAll(env.balances, BalanceStore(app), run.routed.value);
            Succeeds(env, Run(env, app, [run] + Checks(others)), run, run.tx.account)
            <==> SharedStore.ApplyAll(env.balances, once.bank, run.routed.value).ok
  {
    hide InFront, IsSavedBut, AfterInput, PassesGate, SharedStore.ApplyAll, Run;
    var name := run.tx.account;
    var bank := SharedStore.ApplyAll(env.balances, BalanceStore(app), run.routed.value).bank;
    var now := Run(env, app, [run] + Checks(others));
    ExecutesOnce(env, app, run);
    ChecksAll(env, app, bank, name, run, others);
    NamesCount(others);
    assert name !in Names(others) by {
      assert forall i :: 0 <= i < |others| ==> IsOther(env, app, name, others[i]);
    }
    FullOfOthers(env, AccountStore(now), name, Names(others));
    SavedGate(env, app, now, run.tx);
  }
}
