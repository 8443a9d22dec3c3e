/**
 Transaction execution over blocks (`runtime/application.go`): the account store and the balance store are
 write-back caches above one state store, which raw effects use as well.
 */
module Application {
  import opened Basics
  import opened Accounts
  import opened Effects
  import opened Authorization
  import opened Codecs
  import opened Cache
  import opened CachedStore
  import MemoryStore
  import Balances
  import SharedStore

  /** `otherwiseValid` is the verdict of the message, memo and fee checks of `Transaction.ValidateBasic`. */
  datatype Transaction = Transaction(account: AccountName, nonce: Uint64, authorization: Authorization, content: Bytes,
                                     otherwiseValid: bool)

  /** The serializers of accounts and balances, the bytes to sign for a transaction, and Ed25519 verification. */
  datatype Environment = Environment(
    codec: Codec<Account>, balances: Codec<Balances.Balance>, signBytes: Transaction -> Bytes,
    ed25519: (Bytes, Bytes, Bytes) -> bool)

  /** The two levels of a cache. */
  datatype Levels<+T> = Levels(l1: Lru<T>, l2: Lru<T>)

  /** The caches of accounts and balances, the state store below both, and whether a block is in progress. */
  datatype App = App(accounts: Levels<Account>, balances: Levels<Balances.Balance>, data: map<Bytes, Bytes>,
                     inBlock: bool)

  function AccountStore(app: App): Store<Account> {
    Store(app.accounts.l1, app.accounts.l2, app.data)
  }

  function BalanceStore(app: App): SharedStore.Bank {
    Store(app.balances.l1, app.balances.l2, app.data)
  }

  /** The application after its account store came to be `s`. */
  function WithAccounts(app: App, s: Store<Account>): App {
    app.(accounts := Levels(s.l1, s.l2), data := s.backing)
  }

  function WithBalances(app: App, s: SharedStore.Bank): App {
    app.(balances := Levels(s.l1, s.l2), data := s.backing)
  }

  // ---- One transaction ----

  datatype Code = Executed | Rejected | Failed

  /** `Transaction.ValidateBasic` */
  predicate IsWellFormed(tx: Transaction) {
    IsValidName(tx.account) && tx.otherwiseValid
  }

  /** The account records as authorization sees them. */
  function AccountsIn(env: Environment, s: Store<Account>): map<AccountName, Account> {
    map n | n in s.l1.items.Keys + s.l2.items.Keys + s.backing.Keys && Lookup(env.codec, s, n).Some? ::
      Lookup(env.codec, s, n).value
  }

  function ContextFor(env: Environment, s: Store<Account>, tx: Transaction): Context {
    Context(env.signBytes(tx), env.ed25519, AccountsIn(env, s))
  }

  /** A counter of 64 bits that has been incremented `n` times from zero. */
  function Wrapped(n: nat): Uint64 {
    n % 0x1_0000_0000_0000_0000
  }

  function NextNonce(n: Uint64): Uint64 {
    Wrapped(n + 1)
  }

  /** The account store after look-ups. */
  function AfterGets(env: Environment, s: Store<Account>, names: seq<Bytes>): Store<Account>
    decreases |names|
  {
    if names == [] then s
    else AfterGet(env.codec, AfterGets(env, s, names[..|names| - 1]), names[|names| - 1])
  }

  /** The names that a transaction looks up: its signer, and the delegates if it has the right nonce. */
  function LookedUp(env: Environment, app: App, tx: Transaction, fetched: seq<Bytes>): seq<Bytes> {
    if !IsWellFormed(tx) then []
    else
      var got := GetResult(env.codec, AccountStore(app), tx.account);
      if got.Ok? && got.value.nonce == tx.nonce then [tx.account] + fetched else [tx.account]
  }

  function AfterLookups(env: Environment, app: App, tx: Transaction, fetched: seq<Bytes>): App {
    WithAccounts(app, AfterGets(env, AccountStore(app), LookedUp(env, app, tx, fetched)))
  }

  /** `Transaction.VerifyAuthorization`: the nonce gate, then the authorization. */
  ghost predicate PassesGate(env: Environment, app: App, tx: Transaction) {
    var got := GetResult(env.codec, AccountStore(app), tx.account);
    && IsWellFormed(tx) && got.Ok? && got.value.nonce == tx.nonce
    && var looked := AfterGet(env.codec, AccountStore(app), tx.account);
       IsAuthorized(ContextFor(env, looked, tx), got.value, tx.authorization)
  }

  /** The transaction gets as far as executing its effects. An empty list is refused as if there were none. */
  ghost predicate Executes(env: Environment, app: App, tx: Transaction, routed: Option<seq<Effect>>) {
    PassesGate(env, app, tx) && app.inBlock && routed.Some? && routed.value != []
  }

  /** What the effects do. Those applied before a failing one stay applied. */
  function AfterEffects(env: Environment, app: App, effects: seq<Effect>): (App, bool) {
    var outcome := SharedStore.ApplyAll(env.balances, BalanceStore(app), effects);
    (WithBalances(app, outcome.bank), outcome.ok)
  }

  function WithNonce(app: App, name: AccountName, account: Account, nonce: Uint64): App {
    WithAccounts(app, AfterPut(AccountStore(app), name, Some(account.(nonce := nonce))))
  }

  function Refusal(env: Environment, app: App, tx: Transaction): Code {
    if !IsWellFormed(tx) then Rejected
    else
      var got := GetResult(env.codec, AccountStore(app), tx.account);
      if got.Error? && got.error != MemoryStore.NotFound then Failed else Rejected
  }

  /**
   `executeTx`; `fetched` are the names that authorization looks up, and `routed` is what the message
   handlers returned.
   */
  ghost function AfterTx(env: Environment, app: App, tx: Transaction, fetched: seq<Bytes>,
                         routed: Option<seq<Effect>>): (App, Code)
  {
    var checked := AfterLookups(env, app, tx, fetched);
    if !PassesGate(env, app, tx) then (checked, Refusal(env, app, tx))
    else if !app.inBlock then (checked, Failed)
    else if !Executes(env, app, tx, routed) then (checked, Rejected)
    else
      var (done, ok) := AfterEffects(env, checked, routed.value);
      if !ok then (done, Rejected)
      else
        var account := GetResult(env.codec, AccountStore(app), tx.account).value;
        (WithNonce(done, tx.account, account, NextNonce(account.nonce)), Executed)
  }

  // ---- Runs ----

  /** A block header, of which only the checked fields matter. */
  datatype Header = Header(height: Uint64, chainId: Bytes, hasTime: bool)

  /** `BlockHeader.ValidateBasic` */
  predicate IsValidHeader(h: Header) {
    h.height != 0 && h.chainId != [] && h.hasTime
  }

  /** `saved` is whether the state store saved a version. */
  datatype Input =
    | BeginBlock(header: Header)
    | Check(tx: Transaction, fetched: seq<Bytes>)
    | Execute(tx: Transaction, fetched: seq<Bytes>, routed: Option<seq<Effect>>)
    | Commit(saved: bool)

  function FlushedAccounts(env: Environment, app: App): App {
    WithAccounts(app, AfterFlush(env.codec, AccountStore(app)))
  }

  function FlushedBalances(env: Environment, app: App): App {
    WithBalances(app, AfterFlush(env.balances, BalanceStore(app)))
  }

  /** `Commit`: the account cache is flushed, then the balance cache, then a version is saved. */
  function AfterCommit(env: Environment, app: App, saved: bool): App {
    if !app.inBlock || [] in DirtyEntries(AccountStore(app)) then app
    else
      var first := FlushedAccounts(env, app);
      if [] in DirtyEntries(BalanceStore(first)) then first
      else FlushedBalances(env, first).(inBlock := !saved)
  }

  ghost function AfterInput(env: Environment, app: App, input: Input): App {
    match input
    case BeginBlock(header) => app.(inBlock := app.inBlock || IsValidHeader(header))
    case Check(tx, fetched) => AfterLookups(env, app, tx, fetched)
    case Execute(tx, fetched, routed) => AfterTx(env, app, tx, fetched, routed).0
    case Commit(saved) => AfterCommit(env, app, saved)
  }

  ghost function Run(env: Environment, app: App, inputs: seq<Input>): App {
    if inputs == [] then app else AfterInput(env, Run(env, app, inputs[..|inputs| - 1]), inputs[|inputs| - 1])
  }

  // ---- The application as an object ----

  lemma {:induction false} GetsExtend(env: Environment, s: Store<Account>, names: seq<Bytes>, i: nat)
    requires i < |names|
    ensures AfterGets(env, s, names[..i + 1]) == AfterGet(env.codec, AfterGets(env, s, names[..i]), names[i])
  {
    assert names[..i + 1][..i] == names[..i];
  }

  lemma {:induction false} GetsAfterFirst(env: Environment, s: Store<Account>, name: Bytes, names: seq<Bytes>)
    ensures AfterGets(env, s, [name] + names) == AfterGets(env, AfterGet(env.codec, s, name), names)
    decreases |names|
  {
    hide AfterGet;
    if names == [] {
      assert [name] + names == [name] && [name][..0] == [];
    } else {
      var n := |names| - 1;
      assert ([name] + names)[..|names|] == [name] + names[..n];
      GetsAfterFirst(env, s, name, names[..n]);
    }
  }

  lemma {:induction false} GetsKeepData(env: Environment, s: Store<Account>, names: seq<Bytes>)
    ensures AfterGets(env, s, names).backing == s.backing
    decreases |names|
  {
    if names != [] {
      GetsKeepData(env, s, names[..|names| - 1]);
    }
  }

  class Application {
    const accounts: CachedObjectStore<Account>
    const executor: SharedStore.SharedExecutor
    const env: Environment
    var inBlock: bool

    constructor (accounts: CachedObjectStore<Account>, executor: SharedStore.SharedExecutor, env: Environment)
      ensures this.accounts == accounts && this.executor == executor && this.env == env && !inBlock
    {
      this.accounts := accounts;
      this.executor := executor;
      this.env := env;
      inBlock := false;
    }

    /** Both caches are open and above one state store. */
    ghost predicate Valid()
      reads accounts, executor.balances
    {
      && accounts.Valid() && !accounts.closed && executor.Valid()
      && accounts.backing == executor.balances.backing
      && accounts.codec == env.codec && executor.balances.codec == env.balances
    }

    ghost function Contents(): App
      reads this, accounts.cache.l1, accounts.cache.l2, accounts.backing
      reads executor.balances.cache.l1, executor.balances.cache.l2
    {
      App(Levels(accounts.cache.l1.Contents(), accounts.cache.l2.Contents()),
          Levels(executor.balances.cache.l1.Contents(), executor.balances.cache.l2.Contents()),
          accounts.backing.data, inBlock)
    }

    /** `hooks` is whether the modules' hooks succeed; they are called with the block already in progress. */
    method BeginBlock(header: Header, hooks: bool) returns (ok: bool)
      modifies this
      ensures ok <==> IsValidHeader(header) && hooks
      ensures Contents() == AfterInput(env, old(Contents()), Input.BeginBlock(header))
    {
      if !IsValidHeader(header) {
        return false;
      }
      inBlock := true;
      return hooks;
    }

    method Commit(saved: bool) returns (ok: bool)
      requires Valid()
      modifies this, accounts.cache.l1, accounts.cache.l2, accounts.backing
      modifies executor.balances.cache.l1, executor.balances.cache.l2
      ensures Contents() == AfterInput(env, old(Contents()), Input.Commit(saved))
      ensures ok <==> old(inBlock) && !inBlock
    {
      if !inBlock {
        return false;
      }
      ok := accounts.Flush();
      if ok {
        ok := executor.balances.Flush();
      }
      if !ok || !saved {
        return false;
      }
      inBlock := false;
      return true;
    }

    /** The look-ups of authorization, in order. */
    method GetAccounts(fetched: seq<Bytes>)
      requires Valid()
      modifies accounts.cache.l1, accounts.cache.l2
      ensures Contents() == WithAccounts(old(Contents()), AfterGets(env, AccountStore(old(Contents())), fetched))
    {
      ghost var s := AccountStore(Contents());
      for i := 0 to |fetched|
        invariant Valid()
        invariant Contents() == WithAccounts(old(Contents()), AfterGets(env, s, fetched[..i]))
      {
        var _ := accounts.Get(fetched[i]);
        GetsExtend(env, s, fetched, i);
      }
      assert fetched[..|fetched|] == fetched;
    }

    /** What `CheckTx` and `executeTx` do first. */
    method Authorize(tx: Transaction, fetched: seq<Bytes>) returns (signer: Option<Account>, code: Code)
      requires Valid()
      modifies accounts.cache.l1, accounts.cache.l2
      ensures Contents() == AfterLookups(env, old(Contents()), tx, fetched)
      ensures signer.Some? <==> PassesGate(env, old(Contents()), tx)
      ensures if signer.Some?
              then GetResult(env.codec, AccountStore(old(Contents())), tx.account) == MemoryStore.Ok(signer.value)
              else code == Refusal(env, old(Contents()), tx)
    {
      hide GetResult, AccountsIn, AfterGet;
      if !IsWellFormed(tx) {
        return None, Rejected;
      }
      ghost var s := AccountStore(Contents());
      GetsAfterFirst(env, s, tx.account, []);
      GetsAfterFirst(env, s, tx.account, fetched);
      var found := accounts.Get(tx.account);
      if found.Error? {
        return None, if found.error == MemoryStore.NotFound then Rejected else Failed;
      }
      if tx.nonce != found.value.nonce {
        return None, Rejected;
      }
      var error := VerifyAuthorization(ContextFor(env, accounts.Contents(), tx), found.value, tx.authorization);
      GetAccounts(fetched);
      return if error.Some? then None else Some(found.value), Rejected;
    }

    /** `routes` is whether the handlers accept every message; their effects are dropped. */
    method CheckTx(tx: Transaction, fetched: seq<Bytes>, routes: bool) returns (ok: bool)
      requires Valid()
      modifies accounts.cache.l1, accounts.cache.l2
      ensures ok <==> PassesGate(env, old(Contents()), tx) && routes
      ensures Contents() == AfterInput(env, old(Contents()), Input.Check(tx, fetched))
    {
      var signer, _ := Authorize(tx, fetched);
      return signer.Some? && routes;
    }

    method ExecuteTx(tx: Transaction, fetched: seq<Bytes>, routed: Option<seq<Effect>>) returns (code: Code)
      requires Valid()
      modifies accounts.cache.l1, accounts.cache.l2, accounts.backing
      modifies executor.balances.cache.l1, executor.balances.cache.l2
      ensures (Contents(), code) == AfterTx(env, old(Contents()), tx, fetched, routed)
    {
      hide PassesGate, AfterLookups, GetResult, AfterPut, SharedStore.ApplyAll;
      var signer, refusal := Authorize(tx, fetched);
      if signer.None? {
        return refusal;
      }
      if !inBlock {
        return Failed;
      }
      if routed.None? || routed.value == [] {
        return Rejected;
      }
      var ok, _ := executor.Execute(routed.value);
      if !ok {
        return Rejected;
      }
      var account := signer.value;
      ok := accounts.Put(tx.account, Some(account.(nonce := NextNonce(account.nonce))));
      return Executed;
    }
  }
}
