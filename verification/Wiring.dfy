/**
 What keeps account records and balances apart in the one state store: account keys have no slash, and
 every key of a balance or of a raw effect has one. It holds over every run, whatever the caches evict.
 */
module Wiring {
  import opened Basics
  import opened Accounts
  import opened Effects
  import opened Authorization
  import opened Codecs
  import opened Balances
  import opened Records
  import opened Cache
  import opened CachedStore
  import opened Agreement
  import opened SharedStore
  import opened Application

  // ---- Effects never reach an account record ----

  /** The data is the same under every key that an account could have. */
  ghost predicate SameNames(data: Data, data': Data) {
    forall k :: !HasSlash(k) ==> DataAt(data', k) == DataAt(data, k)
  }

  /** The data is the same under every key that a balance could have. */
  ghost predicate SameSlashed(data: Data, data': Data) {
    forall k :: HasSlash(k) ==> DataAt(data', k) == DataAt(data, k)
  }

  /** Records under keys with a slash, and L2 not used. */
  ghost predicate IsBank(s: Bank) {
    IsLayered(s) && forall k :: k in s.l1.items ==> HasSlash(k) && s.l1.items[k].value.Some?
  }

  /** Still a bank, and no account record has changed. */
  ghost predicate Keeps(s: Bank, t: Bank) {
    (IsBank(s) ==> IsBank(t)) && t.l1.capacity == s.l1.capacity && SameNames(s.backing, t.backing)
  }

  lemma {:induction false} StoringKeeps(s: Bank, k: Bytes, entry: Entry<Balance>)
    requires IsBank(s) && HasSlash(k) && entry.value.Some?
    ensures Keeps(s, s.(l1 := Stored(s.l1, k, entry)))
  {
    StoredContents(s.l1, k, entry);
  }

  lemma {:induction false} FetchKeeps(codec: Codec<Balance>, s: Bank, account: AccountName, denom: Bytes)
    requires IsBank(s)
    ensures Keeps(s, FetchFrom(codec, s, account, denom).0)
  {
    hide AfterGet;
    var k := BalanceKey(account, denom);
    BalanceKeyHasSlash(account, denom);
    GetCases(codec, s, k);
    if Loads(codec, s, k) {
      StoringKeeps(s, k, Entry(Decoded(codec, s.backing, k), false));
    } else if k in s.l1.items {
      TouchedIsValid(s.l1, k);
    }
  }

  /** Whatever account a balance record names, its key has a slash. */
  lemma {:induction false} SaveKeeps(s: Bank, b: Balance)
    requires IsBank(s)
    ensures Keeps(s, SaveTo(s, b).0)
  {
    BalanceKeyHasSlash(b.account, b.denom);
    if b.IsValid() {
      StoringKeeps(s, BalanceKey(b.account, b.denom), Entry(Some(b), true));
    }
  }

  lemma {:induction false} DebitKeeps(codec: Codec<Balance>, s: Bank, account: AccountName, coin: Coin)
    requires IsBank(s)
    ensures Keeps(s, Debit(codec, s, account, coin).0)
  {
    hide FetchFrom, SaveTo;
    FetchKeeps(codec, s, account, coin.denom);
    var (t, b) := FetchFrom(codec, s, account, coin.denom);
    if b.Some? && coin.amount <= b.value.amount {
      SaveKeeps(t, b.value.(amount := b.value.amount - coin.amount));
    }
  }

  lemma {:induction false} CreditKeeps(codec: Codec<Balance>, s: Bank, account: AccountName, coin: Coin)
    requires IsBank(s)
    ensures Keeps(s, Credit(codec, s, account, coin).0)
  {
    hide FetchFrom, SaveTo;
    FetchKeeps(codec, s, account, coin.denom);
    var (t, b) := FetchFrom(codec, s, account, coin.denom);
    if b.Some? && b.value.amount <= MAX_UINT64 - coin.amount {
      SaveKeeps(t, b.value.(amount := b.value.amount + coin.amount));
    }
  }

  lemma {:induction false} TransferKeeps(codec: Codec<Balance>, s: Bank, from: AccountName, to: AccountName,
                                         coins: seq<Coin>)
    requires IsBank(s)
    ensures Keeps(s, TransferCoins(codec, s, from, to, coins).0)
    decreases |coins|
  {
    hide Debit, Credit, IsBank;
    if coins != [] {
      DebitKeeps(codec, s, from, coins[0]);
      var (paid, ok) := Debit(codec, s, from, coins[0]);
      if ok {
        CreditKeeps(codec, paid, to, coins[0]);
        TransferKeeps(codec, MoveCoin(codec, s, from, to, coins[0]).0, from, to, coins[1..]);
      }
    }
  }

  lemma {:induction false} FullKeyHasSlash(store: Bytes, key: Bytes)
    ensures HasSlash(FullKey(store, key))
  {
    assert FullKey(store, key)[|store|] == SLASH;
  }

  lemma {:induction false} EffectKeeps(codec: Codec<Balance>, s: Bank, e: Effect)
    requires IsBank(s)
    ensures Keeps(s, ApplyEffect(codec, s, e).bank)
  {
    match e
    case Read(_, _, _) =>
    case Write(store, k, _) => FullKeyHasSlash(store, k);
    case Delete(store, k) => FullKeyHasSlash(store, k);
    case Transfer(from, to, amount) => TransferKeeps(codec, s, from, to, amount);
    case Emit(_) =>
  }

  /** Neither a successful nor a failed effect list changes an account record. */
  lemma {:induction false} EffectsKeepAccounts(codec: Codec<Balance>, s: Bank, effects: seq<Effect>)
    requires IsBank(s)
    ensures Keeps(s, ApplyAll(codec, s, effects).bank)
  {
    hide ApplyEffect, IsBank;
    if effects != [] {
      var n := |effects| - 1;
      EffectsKeepAccounts(codec, s, effects[..n]);
      EffectKeeps(codec, ApplyAll(codec, s, effects[..n]).bank, effects[n]);
    }
  }

  // ---- The account cache ----

  /** No empty key, and only account names are dirty. */
  ghost predicate IsRegistry(s: Store<Account>) {
    && IsLayered(s) && [] !in s.l1.items
    && forall k :: k in s.l1.items && s.l1.items[k].dirty ==> !HasSlash(k)
  }

  lemma {:induction false} GetKeepsRegistry(env: Environment, s: Store<Account>, name: Bytes)
    requires IsRegistry(s)
    ensures var t := AfterGet(env.codec, s, name);
            IsRegistry(t) && t.l1.capacity == s.l1.capacity && t.backing == s.backing
  {
    if name != [] && name in s.l1.items {
      TouchedIsValid(s.l1, name);
    } else if name != [] && Decoded(env.codec, s.backing, name).Some? {
      StoredContents(s.l1, name, Entry(Decoded(env.codec, s.backing, name), false));
    }
  }

  lemma {:induction false} GetsKeepRegistry(env: Environment, s: Store<Account>, names: seq<Bytes>)
    requires IsRegistry(s)
    ensures var t := AfterGets(env, s, names);
            IsRegistry(t) && t.l1.capacity == s.l1.capacity && t.backing == s.backing
    decreases |names|
  {
    hide IsRegistry, AfterGet;
    if names != [] {
      var n := |names| - 1;
      GetsKeepRegistry(env, s, names[..n]);
      GetKeepsRegistry(env, AfterGets(env, s, names[..n]), names[n]);
    }
  }

  lemma {:induction false} NameHasNoSlash(name: AccountName)
    requires IsValidName(name)
    ensures !HasSlash(name) && name != []
  {
  }

  lemma {:induction false} PutKeepsRegistry(s: Store<Account>, name: AccountName, account: Account)
    requires IsRegistry(s) && IsValidName(name)
    ensures var t := AfterPut(s, name, Some(account));
            IsRegistry(t) && t.l1.capacity == s.l1.capacity && t.backing == s.backing
  {
    NameHasNoSlash(name);
    StoredContents(s.l1, name, Entry(Some(account), true));
  }

  // ---- Every run ----

  ghost predicate IsWired(app: App) {
    IsRegistry(AccountStore(app)) && IsBank(BalanceStore(app))
  }

  /** The caches keep their sizes. */
  ghost predicate SameSizes(app: App, app': App) {
    app'.accounts.l1.capacity == app.accounts.l1.capacity && app'.balances.l1.capacity == app.balances.l1.capacity
  }

  lemma {:induction false} LookupsStayWired(env: Environment, app: App, tx: Transaction, fetched: seq<Bytes>)
    requires IsWired(app)
    ensures var app' := AfterLookups(env, app, tx, fetched);
            IsWired(app') && SameSizes(app, app') && app'.data == app.data
  {
    GetsKeepRegistry(env, AccountStore(app), LookedUp(env, app, tx, fetched));
  }

  lemma {:induction false} EffectsStayWired(env: Environment, app: App, effects: seq<Effect>)
    requires IsWired(app)
    ensures var app' := AfterEffects(env, app, effects).0;
            && IsWired(app') && SameSizes(app, app') && app'.accounts == app.accounts && app'.inBlock == app.inBlock
            && BalanceStore(app') == ApplyAll(env.balances, BalanceStore(app), effects).bank
            && SameNames(app.data, app'.data)
  {
    hide ApplyAll;
    EffectsKeepAccounts(env.balances, BalanceStore(app), effects);
  }

  lemma {:induction false} TxStaysWired(env: Environment, app: App, tx: Transaction, fetched: seq<Bytes>,
                                        routed: Option<seq<Effect>>)
    requires IsWired(app)
    ensures var app' := AfterTx(env, app, tx, fetched, routed).0;
            && IsWired(app') && SameSizes(app, app')
            && BalanceStore(app')
               == if Executes(env, app, tx, routed) then ApplyAll(env.balances, BalanceStore(app), routed.value).bank
                  else BalanceStore(app)
  {
    hide ApplyAll, IsRegistry, IsBank;
    LookupsStayWired(env, app, tx, fetched);
    var checked := AfterLookups(env, app, tx, fetched);
    if Executes(env, app, tx, routed) {
      EffectsStayWired(env, checked, routed.value);
      var done := AfterEffects(env, checked, routed.value).0;
      var account := GetResult(env.codec, AccountStore(app), tx.account).value;
      PutKeepsRegistry(AccountStore(done), tx.account, account.(nonce := NextNonce(account.nonce)));
    }
  }

  lemma {:induction false} AccountFlush(env: Environment, app: App)
    requires IsWired(app) && IsFaithful(env.codec)
    ensures [] !in DirtyEntries(AccountStore(app))
    ensures var app' := FlushedAccounts(env, app);
            && IsWired(app') && SameSizes(app, app') && app'.balances == app.balances && app'.inBlock == app.inBlock
            && AccountStore(app') == AfterFlush(env.codec, AccountStore(app)) && SameSlashed(app.data, app'.data)
  {
    var s := AccountStore(app);
    FlushIsLayered(env.codec, s);
    forall k
      ensures k in AfterFlush(env.codec, s).l1.items ==> !AfterFlush(env.codec, s).l1.items[k].dirty
      ensures HasSlash(k) ==> DataAt(AfterFlush(env.codec, s).backing, k) == DataAt(app.data, k)
    {
      FlushAt(env.codec, s, k);
    }
  }

  lemma {:induction false} BalanceFlush(env: Environment, app: App)
    requires IsWired(app) && IsFaithful(env.balances)
    ensures [] !in DirtyEntries(BalanceStore(app))
    ensures var app' := FlushedBalances(env, app);
            && IsWired(app') && SameSizes(app, app') && app'.accounts == app.accounts && app'.inBlock == app.inBlock
            && BalanceStore(app') == AfterFlush(env.balances, BalanceStore(app)) && SameNames(app.data, app'.data)
  {
    var s := BalanceStore(app);
    FlushIsLayered(env.balances, s);
    forall k
      ensures k in AfterFlush(env.balances, s).l1.items ==>
                k in s.l1.items && AfterFlush(env.balances, s).l1.items[k].value == s.l1.items[k].value
      ensures !HasSlash(k) ==> DataAt(AfterFlush(env.balances, s).backing, k) == DataAt(app.data, k)
    {
      FlushAt(env.balances, s, k);
    }
  }

  /** A commit of a block flushes both caches. */
  lemma {:induction false} CommitStaysWired(env: Environment, app: App, saved: bool)
    requires IsWired(app) && IsFaithful(env.codec) && IsFaithful(env.balances)
    ensures var app' := AfterCommit(env, app, saved);
            && IsWired(app') && SameSizes(app, app')
            && app' == if app.inBlock then FlushedBalances(env, FlushedAccounts(env, app)).(inBlock := !saved) else app
  {
    hide AfterFlush, IsRegistry, IsBank;
    AccountFlush(env, app);
    BalanceFlush(env, FlushedAccounts(env, app));
  }

  lemma {:induction false} StepStaysWired(env: Environment, app: App, input: Input)
    requires IsWired(app) && IsFaithful(env.codec) && IsFaithful(env.balances)
    ensures IsWired(AfterInput(env, app, input)) && SameSizes(app, AfterInput(env, app, input))
  {
    hide AfterLookups, AfterTx, AfterCommit;
    match input
    case BeginBlock(_) =>
    case Check(tx, fetched) => LookupsStayWired(env, app, tx, fetched);
    case Execute(tx, fetched, routed) => TxStaysWired(env, app, tx, fetched, routed);
    case Commit(saved) => CommitStaysWired(env, app, saved);
  }

  /** Over every run account records and balances stay under keys of their own. */
  lemma {:induction false} RunStaysWired(env: Environment, app: App, inputs: seq<Input>)
    requires IsWired(app) && IsFaithful(env.codec) && IsFaithful(env.balances)
    ensures IsWired(Run(env, app, inputs)) && SameSizes(app, Run(env, app, inputs))
  {
    hide AfterInput, IsWired;
    if inputs != [] {
      var n := |inputs| - 1;
      RunStaysWired(env, app, inputs[..n]);
      StepStaysWired(env, Run(env, app, inputs[..n]), inputs[n]);
    }
  }
}
