/** While the accounts looked up between commits fit in the account cache, no nonce goes back. */
module NonceBound {
  import opened Basics
  import opened Accounts
  import opened Effects
  import opened Authorization
  import opened Codecs
  import opened Records
  import opened Cache
  import opened CachedStore
  import opened Agreement
  import opened Application
  import opened Wiring
  import opened Nonces
  import SharedStore

  // ---- Accounts looked up since the last commit ----

  ghost function StepNamed(env: Environment, app: App, input: Input, named: set<Bytes>): set<Bytes> {
    match input
    case BeginBlock(_) => named
    case Check(tx, fetched) => named + Elements(LookedUp(env, app, tx, fetched))
    case Execute(tx, fetched, _) => named + Elements(LookedUp(env, app, tx, fetched))
    case Commit(_) => if app.inBlock then {} else named
  }

  ghost function NamedAccounts(env: Environment, app: App, inputs: seq<Input>): set<Bytes> {
    if inputs == [] then {}
    else
      var n := |inputs| - 1;
      StepNamed(env, Run(env, app, inputs[..n]), inputs[n], NamedAccounts(env, app, inputs[..n]))
  }

  predicate HasNoSlash(key: Bytes) {
    !HasSlash(key)
  }

  /** No account is unsaved but those named. */
  ghost predicate AccountsFit(env: Environment, app: App, named: set<Bytes>) {
    IsWired(app) && AgreesWithin(env.codec, AccountStore(app), named, HasNoSlash)
  }

  /** The same accounts are seen, except under one name. */
  ghost predicate SameAccounts(env: Environment, app: App, app': App, name: Option<Bytes>) {
    SeesSame(env.codec, AccountStore(app), AccountStore(app'), HasNoSlash, name)
  }

  lemma {:induction false} SameNonce(env: Environment, app: App, app': App, except: Option<Bytes>, name: AccountName)
    requires SameAccounts(env, app, app', except) && IsValidName(name) && Some(name) != except
    ensures NonceAt(env, app', name) == NonceAt(env, app, name)
  {
    NameHasNoSlash(name);
  }

  lemma {:induction false} GetsAgree(env: Environment, s: Store<Account>, named: set<Bytes>, names: seq<Bytes>)
    requires AgreesWithin(env.codec, s, named, HasNoSlash) && |named + Elements(names)| <= s.l1.capacity
    ensures var t := AfterGets(env, s, names);
            && t.l1.capacity == s.l1.capacity
            && AgreesWithin(env.codec, t, named + Elements(names), HasNoSlash)
            && SeesSame(env.codec, s, t, HasNoSlash, None)
    decreases |names|
  {
    hide AgreesWithin, AfterGet, Lookup;
    if names == [] {
      assert named + Elements(names) == named;
    } else {
      var n := |names| - 1;
      var first := named + Elements(names[..n]);
      assert first + {names[n]} == named + Elements(names) by {
        assert forall x :: x in names <==> x in names[..n] || x == names[n];
      }
      SubsetCount(first, named + Elements(names));
      GetsAgree(env, s, named, names[..n]);
      GetAgrees(env.codec, AfterGets(env, s, names[..n]), first, HasNoSlash, names[n]);
    }
  }

  lemma {:induction false} LookupsFit(env: Environment, app: App, named: set<Bytes>, tx: Transaction,
                                      fetched: seq<Bytes>)
    requires AccountsFit(env, app, named)
    requires |named + Elements(LookedUp(env, app, tx, fetched))| <= app.accounts.l1.capacity
    ensures var app' := AfterLookups(env, app, tx, fetched);
            && AccountsFit(env, app', named + Elements(LookedUp(env, app, tx, fetched)))
            && SameAccounts(env, app, app', None)
  {
    hide IsWired, AgreesWithin, LookedUp;
    LookupsStayWired(env, app, tx, fetched);
    GetsAgree(env, AccountStore(app), named, LookedUp(env, app, tx, fetched));
  }

  /** Other writers of the state store leave account records alone. */
  lemma {:induction false} DataFits(env: Environment, app: App, named: set<Bytes>, app': App)
    requires AccountsFit(env, app, named) && IsWired(app')
    requires app'.accounts == app.accounts && SameNames(app.data, app'.data)
    ensures AccountsFit(env, app', named) && SameAccounts(env, app, app', None)
  {
    hide IsWired, AgreesWithin;
    BackingAgrees(env.codec, AccountStore(app), named, HasNoSlash, app'.data);
    forall k | HasNoSlash(k) ensures Decoded(env.codec, app'.data, k) == Decoded(env.codec, app.data, k) {
      assert DataAt(app'.data, k) == DataAt(app.data, k);
    }
  }

  lemma {:induction false} NonceFits(env: Environment, app: App, named: set<Bytes>, name: AccountName, account: Account,
                                     nonce: Uint64)
    requires AccountsFit(env, app, named) && name in named && |named| <= app.accounts.l1.capacity && IsValidName(name)
    ensures var app' := WithNonce(app, name, account, nonce);
            && AccountsFit(env, app', named) && SameAccounts(env, app, app', Some(name))
            && NonceAt(env, app', name) == Some(nonce)
  {
    hide AgreesWithin, SeesSame;
    assert named + {name} == named;
    var updated := account.(nonce := nonce);
    PutKeepsRegistry(AccountStore(app), name, updated);
    PutAgrees(env.codec, AccountStore(app), named, HasNoSlash, name, Some(updated));
  }

  /** A commit saves every account, and changes none that is seen. */
  lemma {:induction false} CommitFits(env: Environment, app: App, named: set<Bytes>, saved: bool)
    requires AccountsFit(env, app, named) && IsFaithful(env.codec) && IsFaithful(env.balances) && app.inBlock
    ensures var app' := AfterCommit(env, app, saved);
            AccountsFit(env, app', {}) && SameAccounts(env, app, app', None)
  {
    hide AgreesWithin, AfterFlush, IsRegistry, IsBank;
    CommitStaysWired(env, app, saved);
    AccountFlush(env, app);
    var first := FlushedAccounts(env, app);
    FlushedFits(env, app, named);
    BalanceFlush(env, first);
    DataFits(env, first, {}, FlushedBalances(env, first));
  }

  lemma {:induction false} FlushedFits(env: Environment, app: App, named: set<Bytes>)
    requires AccountsFit(env, app, named) && IsFaithful(env.codec)
    ensures AccountsFit(env, FlushedAccounts(env, app), {})
    ensures SameAccounts(env, app, FlushedAccounts(env, app), None)
  {
    hide AgreesWithin, AfterFlush, IsBank;
    AccountFlush(env, app);
    FlushAgrees(env.codec, AccountStore(app), named, HasNoSlash);
  }

  // ---- One input ----

  /** What an input does to the nonce of an account. */
  ghost predicate Steps(env: Environment, app: App, input: Input, app': App, name: AccountName) {
    if Succeeds(env, app, input, name)
    then NonceAt(env, app, name) == Some(input.tx.nonce) && NonceAt(env, app', name) == Some(NextNonce(input.tx.nonce))
    else NonceAt(env, app', name) == NonceAt(env, app, name)
  }

  lemma {:induction false} EffectsNonce(env: Environment, app: App, named: set<Bytes>, effects: seq<Effect>,
                                        name: AccountName)
    requires AccountsFit(env, app, named) && IsValidName(name)
    ensures var done := AfterEffects(env, app, effects).0;
            AccountsFit(env, done, named) && done.accounts.l1.capacity == app.accounts.l1.capacity
            && NonceAt(env, done, name) == NonceAt(env, app, name)
  {
    hide NonceAt, SameAccounts, AfterEffects, IsRegistry, IsBank, AgreesWithin;
    EffectsStayWired(env, app, effects);
    var done := AfterEffects(env, app, effects).0;
    DataFits(env, app, named, done);
    SameNonce(env, app, done, None, name);
  }

  lemma {:induction false} PutFits(env: Environment, app: App, named: set<Bytes>, signer: AccountName,
                                   account: Account, nonce: Uint64, name: AccountName)
    requires AccountsFit(env, app, named) && signer in named && |named| <= app.accounts.l1.capacity
    requires IsValidName(signer) && IsValidName(name)
    ensures var app' := WithNonce(app, signer, account, nonce);
            && AccountsFit(env, app', named)
            && NonceAt(env, app', name) == if name == signer then Some(nonce) else NonceAt(env, app, name)
  {
    hide NonceAt, SameAccounts, WithNonce, AccountsFit;
    NonceFits(env, app, named, signer, account, nonce);
    if name != signer {
      SameNonce(env, app, WithNonce(app, signer, account, nonce), Some(signer), name);
    }
  }

  lemma {:induction false} ExecutesFits(env: Environment, app: App, checked: App, now: set<Bytes>, input: Input,
                                        name: AccountName)
    requires input.Execute? && Executes(env, app, input.tx, input.routed) && IsWired(app) && IsValidName(name)
    requires checked == AfterLookups(env, app, input.tx, input.fetched)
    requires NonceAt(env, checked, name) == NonceAt(env, app, name)
    requires AccountsFit(env, checked, now) && input.tx.account in now && |now| <= app.accounts.l1.capacity
    ensures var app' := AfterInput(env, app, input);
            AccountsFit(env, app', now) && Steps(env, app, input, app', name)
  {
    hide AccountsFit, NonceAt, SharedStore.ApplyAll, WithNonce, IsRegistry, IsBank, IsAuthorized;
    LookupsStayWired(env, app, input.tx, input.fetched);
    assert BalanceStore(checked) == BalanceStore(app);
    GateNonce(env, app, input.tx);
    EffectsNonce(env, checked, now, input.routed.value, name);
    var (done, ok) := AfterEffects(env, checked, input.routed.value);
    if ok {
      var account := GetResult(env.codec, AccountStore(app), input.tx.account).value;
      PutFits(env, done, now, input.tx.account, account, NextNonce(account.nonce), name);
    }
  }

  lemma {:induction false} TxFits(env: Environment, app: App, named: set<Bytes>, input: Input, name: AccountName)
    requires AccountsFit(env, app, named) && IsValidName(name) && input.Execute?
    requires |StepNamed(env, app, input, named)| <= app.accounts.l1.capacity
    ensures var app' := AfterInput(env, app, input);
            AccountsFit(env, app', StepNamed(env, app, input, named)) && Steps(env, app, input, app', name)
  {
    hide SameAccounts, NonceAt, AfterLookups, IsAuthorized, SharedStore.ApplyAll, WithNonce;
    hide AgreesWithin, IsRegistry, IsBank;
    var tx, now := input.tx, StepNamed(env, app, input, named);
    var checked := AfterLookups(env, app, tx, input.fetched);
    LookupsFit(env, app, named, tx, input.fetched);
    SameNonce(env, app, checked, None, name);
    if Executes(env, app, tx, input.routed) {
      assert tx.account in now by {
        assert tx.account in LookedUp(env, app, tx, input.fetched);
      }
      ExecutesFits(env, app, checked, now, input, name);
    }
  }

  /** Within the bound a step changes a nonce only by executing a transaction of the account, which had it. */
  lemma {:induction false} BoundedStep(env: Environment, app: App, named: set<Bytes>, input: Input, name: AccountName)
    requires IsFaithful(env.codec) && IsFaithful(env.balances) && IsValidName(name) && AccountsFit(env, app, named)
    requires |StepNamed(env, app, input, named)| <= app.accounts.l1.capacity
    ensures var app' := AfterInput(env, app, input);
            AccountsFit(env, app', StepNamed(env, app, input, named)) && Steps(env, app, input, app', name)
  {
    hide AccountsFit, SameAccounts, NonceAt, AfterLookups, AfterTx, AfterCommit;
    match input
    case BeginBlock(header) =>
      assert AccountStore(AfterInput(env, app, input)) == AccountStore(app);
      BlockFits(env, app, named, header, name);
    case Check(tx, fetched) =>
      LookupsFit(env, app, named, tx, fetched);
      SameNonce(env, app, AfterLookups(env, app, tx, fetched), None, name);
    case Execute(_, _, _) =>
      TxFits(env, app, named, input, name);
    case Commit(saved) =>
      CommitStep(env, app, named, saved, name);
  }

  lemma {:induction false} BlockFits(env: Environment, app: App, named: set<Bytes>, header: Header, name: AccountName)
    requires AccountsFit(env, app, named)
    ensures var app' := AfterInput(env, app, BeginBlock(header));
            AccountsFit(env, app', named) && NonceAt(env, app', name) == NonceAt(env, app, name)
  {
  }

  lemma {:induction false} CommitStep(env: Environment, app: App, named: set<Bytes>, saved: bool, name: AccountName)
    requires IsFaithful(env.codec) && IsFaithful(env.balances) && IsValidName(name) && AccountsFit(env, app, named)
    ensures var app' := AfterCommit(env, app, saved);
            && AccountsFit(env, app', if app.inBlock then {} else named)
            && NonceAt(env, app', name) == NonceAt(env, app, name)
  {
    if app.inBlock {
      hide SameAccounts, NonceAt, AfterCommit;
      CommitFits(env, app, named, saved);
      SameNonce(env, app, AfterCommit(env, app, saved), None, name);
    }
  }

  // ---- Every run within the bound ----

  /** Between commits no more accounts are looked up than the cache holds. */
  ghost predicate IsBounded(env: Environment, app: App, inputs: seq<Input>) {
    forall i :: 0 <= i <= |inputs| ==> |NamedAccounts(env, app, inputs[..i])| <= app.accounts.l1.capacity
  }

  /** Faithful serializers, nothing unsaved at the start, and not too many accounts between commits. */
  ghost predicate IsRun(env: Environment, app: App, inputs: seq<Input>) {
    IsFaithful(env.codec) && IsFaithful(env.balances) && AccountsFit(env, app, {}) && IsBounded(env, app, inputs)
  }

  lemma {:induction false} PrefixIsRun(env: Environment, app: App, inputs: seq<Input>, n: nat)
    requires IsRun(env, app, inputs) && n <= |inputs|
    ensures IsRun(env, app, inputs[..n])
  {
    hide NamedAccounts, AccountsFit, IsFaithful;
    forall i | 0 <= i <= n ensures |NamedAccounts(env, app, inputs[..n][..i])| <= app.accounts.l1.capacity {
      assert inputs[..n][..i] == inputs[..i];
    }
  }

  lemma {:induction false} LastStep(env: Environment, app: App, inputs: seq<Input>, name: AccountName)
    requires IsRun(env, app, inputs) && inputs != [] && IsValidName(name)
    requires var before := inputs[..|inputs| - 1];
             AccountsFit(env, Run(env, app, before), NamedAccounts(env, app, before))
    ensures var n := |inputs| - 1;
            && AccountsFit(env, Run(env, app, inputs), NamedAccounts(env, app, inputs))
            && Steps(env, Run(env, app, inputs[..n]), inputs[n], Run(env, app, inputs), name)
  {
    hide AgreesWithin, AfterInput, StepNamed, Steps, IsFaithful, IsRegistry, IsBank;
    var n := |inputs| - 1;
    RunStaysWired(env, app, inputs[..n]);
    assert inputs[..|inputs|] == inputs;
    BoundedStep(env, Run(env, app, inputs[..n]), NamedAccounts(env, app, inputs[..n]), inputs[n], name);
  }

  lemma {:induction false} RunFits(env: Environment, app: App, inputs: seq<Input>)
    requires IsRun(env, app, inputs)
    ensures AccountsFit(env, Run(env, app, inputs), NamedAccounts(env, app, inputs))
  {
    hide AccountsFit, AfterInput, StepNamed, Steps, IsFaithful;
    if inputs != [] {
      PrefixIsRun(env, app, inputs, |inputs| - 1);
      RunFits(env, app, inputs[..|inputs| - 1]);
      LastStep(env, app, inputs, [97]);
    }
  }

  lemma {:induction false} BoundedKeeps(env: Environment, app: App, input: Input, name: AccountName)
    requires IsFaithful(env.codec) && IsFaithful(env.balances) && IsWired(app) && IsValidName(name)
    requires Steps(env, app, input, AfterInput(env, app, input), name)
    ensures !GoesBack(env, app, input, name)
  {
    hide AfterInput, NonceAt, StoredNonce, Loses;
    StepNonce(env, app, input, name);
  }

  /** Within the bound every evicted nonce is the stored one. */
  lemma {:induction false} BoundedNeverGoesBack(env: Environment, app: App, inputs: seq<Input>, name: AccountName)
    requires IsRun(env, app, inputs) && IsValidName(name)
    ensures NeverGoesBack(env, app, inputs, name)
  {
    hide AfterInput, Steps, GoesBack, AgreesWithin, IsBounded;
    forall i | 0 <= i < |inputs| ensures !GoesBackAt(env, app, inputs, i, name) {
      var now := inputs[..i + 1];
      assert now[..i] == inputs[..i];
      PrefixIsRun(env, app, inputs, i);
      PrefixIsRun(env, app, inputs, i + 1);
      RunFits(env, app, inputs[..i]);
      LastStep(env, app, now, name);
      RunLast(env, app, now);
      BoundedKeeps(env, Run(env, app, inputs[..i]), inputs[i], name);
    }
  }

  lemma {:induction false} RunLast(env: Environment, app: App, inputs: seq<Input>)
    requires inputs != []
    ensures var n := |inputs| - 1;
            Run(env, app, inputs) == AfterInput(env, Run(env, app, inputs[..n]), inputs[n])
  {
  }

  /** So within the bound the nonces of every account are consecutive all along the run. */
  lemma {:induction false} NoncesAreConsecutive(env: Environment, app: App, inputs: seq<Input>, name: AccountName)
    requires IsRun(env, app, inputs) && IsValidName(name)
    ensures IsAlwaysConsecutive(env, app, inputs, name)
  {
    hide AgreesWithin, IsBounded, NeverGoesBack, IsAlwaysConsecutive;
    BoundedNeverGoesBack(env, app, inputs, name);
    ConsecutiveIff(env, app, inputs, name);
  }
}
