/**
 Who can get a transaction executed (`runtime/application.go`, `types/transaction.go`): what the gates ask, in
 terms of the accounts that the account store shows and of Ed25519 signatures over the bytes to sign.
 */
module Authenticity {
  import opened Basics
  import opened Accounts
  import opened Sums
  import opened Effects
  import opened Authorization
  import opened Acceptance
  import opened Codecs
  import opened Cache
  import opened CachedStore
  import opened Application
  import SharedStore

  /** An Ed25519 signature of the bytes to sign for the transaction. */
  predicate Signs(env: Environment, tx: Transaction, g: Signature) {
    && (g.algorithm == [] || g.algorithm == [101, 100, 50, 53, 53, 49, 57]) && |g.pubKey| == 32 && |g.signature| == 64
    && env.ed25519(g.pubKey, env.signBytes(tx), g.signature)
  }

  lemma {:induction false} SignsIsSigned(env: Environment, s: Store<Account>, tx: Transaction, g: Signature)
    ensures IsSigned(ContextFor(env, s, tx), g) <==> Signs(env, tx, g)
  {
  }

  /** A read succeeds exactly when the account is seen. */
  lemma {:induction false} GetIsLookup(env: Environment, s: Store<Account>, name: Bytes)
    requires name != []
    ensures var got, seen := GetResult(env.codec, s, name), Lookup(env.codec, s, name);
            (got.Ok? <==> seen.Some?) && (got.Ok? ==> got.value == seen.value)
  {
  }

  lemma {:induction false} AccountsAreSeen(env: Environment, s: Store<Account>, name: AccountName)
    ensures name in AccountsIn(env, s) <==> Lookup(env.codec, s, name).Some?
    ensures name in AccountsIn(env, s) ==> AccountsIn(env, s)[name] == Lookup(env.codec, s, name).value
  {
  }

  // ---- Chains of delegation among the accounts that are seen ----

  /** Where a chain of delegates leads, each listed by the one before and seen in the account store. */
  ghost function SeenEnd(env: Environment, s: Store<Account>, authority: Authority, auth: Authorization,
                         chain: seq<AccountName>): Option<(Authority, Authorization)>
    decreases |chain|
  {
    if chain == [] then Some((authority, auth))
    else
      var d := chain[0];
      var seen := Lookup(env.codec, s, d);
      if d in auth.delegates && d in authority.accountWeights && seen.Some?
      then SeenEnd(env, s, seen.value.authority, auth.delegates[d], chain[1..])
      else None
  }

  lemma {:induction false} SeenEndIs(env: Environment, s: Store<Account>, tx: Transaction, authority: Authority,
                                     auth: Authorization, chain: seq<AccountName>)
    ensures EndOf(ContextFor(env, s, tx), authority, auth, chain) == SeenEnd(env, s, authority, auth, chain)
    decreases |chain|
  {
    if chain != [] {
      hide AccountsIn, Lookup;
      var d := chain[0];
      AccountsAreSeen(env, s, d);
      if d in auth.delegates && d in authority.accountWeights && d in AccountsIn(env, s) {
        SeenEndIs(env, s, tx, AccountsIn(env, s)[d].authority, auth.delegates[d], chain[1..]);
      }
    }
  }

  /** Along every chain of at most ten different delegates the thresholds are positive. */
  ghost predicate HasSeenThresholds(env: Environment, s: Store<Account>, account: Account, auth: Authorization) {
    forall chain ::
      |chain| <= 10 && NoDuplicates([account.name] + chain) && SeenEnd(env, s, account.authority, auth, chain).Some? ==>
        SeenEnd(env, s, account.authority, auth, chain).value.0.threshold > 0
  }

  lemma {:induction false} SeenThresholds(env: Environment, s: Store<Account>, tx: Transaction, account: Account)
    requires HasSeenThresholds(env, s, account, tx.authorization)
    ensures HasConsultedThresholds(ContextFor(env, s, tx), account, tx.authorization)
  {
    hide ContextFor, SeenEnd, EndOf;
    var c := ContextFor(env, s, tx);
    forall chain | IsConsulted(c, account.name, account.authority, tx.authorization, {}, 0, chain)
      ensures EndOf(c, account.authority, tx.authorization, chain).value.0.threshold > 0
    {
      SeenEndIs(env, s, tx, account.authority, tx.authorization, chain);
    }
  }

  // ---- What an executed transaction was ----

  lemma {:induction false} ExecutedPasses(env: Environment, app: App, tx: Transaction, fetched: seq<Bytes>,
                                          routed: Option<seq<Effect>>)
    requires AfterTx(env, app, tx, fetched, routed).1 == Executed
    ensures PassesGate(env, app, tx)
  {
    hide PassesGate, AfterLookups, AfterEffects;
  }

  /**
   An executed transaction had the nonce of its account as the account store shows it, and every one of its own
   signatures is one of its bytes to sign.
   */
  lemma {:induction false} ExecutedIsSigned(env: Environment, app: App, tx: Transaction, fetched: seq<Bytes>,
                                            routed: Option<seq<Effect>>)
    requires AfterTx(env, app, tx, fetched, routed).1 == Executed
    ensures var seen := Lookup(env.codec, AccountStore(app), tx.account);
            seen.Some? && seen.value.nonce == tx.nonce
    ensures forall i :: 0 <= i < |tx.authorization.signatures| ==> Signs(env, tx, tx.authorization.signatures[i])
  {
    hide AfterTx, Lookup, GetResult, AccountsIn;
    ExecutedPasses(env, app, tx, fetched, routed);
    GetIsLookup(env, AccountStore(app), tx.account);
    var s := AfterGet(env.codec, AccountStore(app), tx.account);
    var account := Lookup(env.codec, AccountStore(app), tx.account).value;
    forall i | 0 <= i < |tx.authorization.signatures| ensures Signs(env, tx, tx.authorization.signatures[i]) {
      AcceptedIsSigned(ContextFor(env, s, tx), account, tx.authorization, i);
    }
  }

  /**
   If the thresholds are positive, a chain of delegation from the signer, among the accounts that are seen, ends
   with a signature of the bytes to sign by a key listed there.
   */
  lemma {:induction false} ExecutedHasSigner(env: Environment, app: App, tx: Transaction, fetched: seq<Bytes>,
                                             routed: Option<seq<Effect>>)
    returns (chain: seq<AccountName>, g: Signature)
    requires AfterTx(env, app, tx, fetched, routed).1 == Executed
    requires var seen := Lookup(env.codec, AccountStore(app), tx.account);
             seen.Some? ==>
               HasSeenThresholds(env, AfterGet(env.codec, AccountStore(app), tx.account), seen.value, tx.authorization)
    ensures var seen := Lookup(env.codec, AccountStore(app), tx.account);
            && seen.Some?
            && var s := AfterGet(env.codec, AccountStore(app), tx.account);
               var end := SeenEnd(env, s, seen.value.authority, tx.authorization, chain);
               && end.Some? && g in end.value.1.signatures && g.pubKey in end.value.0.keyWeights
               && Signs(env, tx, g)
  {
    hide AfterTx, Lookup, GetResult, AccountsIn, AfterGet;
    ExecutedPasses(env, app, tx, fetched, routed);
    GetIsLookup(env, AccountStore(app), tx.account);
    var s := AfterGet(env.codec, AccountStore(app), tx.account);
    var account := Lookup(env.codec, AccountStore(app), tx.account).value;
    SeenThresholds(env, s, tx, account);
    chain, g := AcceptedHasSigner(ContextFor(env, s, tx), account, tx.authorization);
    SeenEndIs(env, s, tx, account.authority, tx.authorization, chain);
    SignsIsSigned(env, s, tx, g);
  }

  // ---- Transactions without delegates ----

  /** The listed keys among those of the signatures. */
  ghost function ListedKeys(authority: Authority, sigs: seq<Signature>): (keys: set<Bytes>)
    ensures keys <= authority.keyWeights.Keys
  {
    set g | g in sigs && g.pubKey in authority.keyWeights :: g.pubKey
  }

  /** A well-formed transaction with the nonce of its account, signed by keys that reach its threshold. */
  ghost predicate IsSignedBy(env: Environment, app: App, tx: Transaction, sigs: seq<Signature>) {
    var seen := Lookup(env.codec, AccountStore(app), tx.account);
    && IsValidName(tx.account) && tx.otherwiseValid && seen.Some? && seen.value.nonce == tx.nonce
    && (forall i :: 0 <= i < |sigs| ==> Signs(env, tx, sigs[i]))
    && var a := seen.value.authority;
       && a.threshold <= SumOf(ListedKeys(a, sigs), a.keyWeights) <= MAX_UINT64
       && forall i, j :: 0 <= i < j < |sigs| && sigs[i].pubKey == sigs[j].pubKey ==> sigs[i].pubKey !in a.keyWeights
  }

  lemma {:induction false} FlatSeenIff(env: Environment, s: Store<Account>, tx: Transaction, account: Account,
                                       sigs: seq<Signature>)
    requires tx.authorization == Authorization(sigs, map[])
    ensures var a := account.authority;
            IsAuthorized(ContextFor(env, s, tx), account, tx.authorization)
            <==> && (forall i :: 0 <= i < |sigs| ==> Signs(env, tx, sigs[i]))
                 && a.threshold <= SumOf(ListedKeys(a, sigs), a.keyWeights) <= MAX_UINT64
                 && forall i, j :: 0 <= i < j < |sigs| && sigs[i].pubKey == sigs[j].pubKey ==>
                      sigs[i].pubKey !in a.keyWeights
  {
    hide ContextFor, IsAuthorized;
    var c := ContextFor(env, s, tx);
    FlatAcceptedIff(c, account, sigs);
    forall i | 0 <= i < |sigs| ensures IsSigned(c, sigs[i]) <==> Signs(env, tx, sigs[i]) {
      SignsIsSigned(env, s, tx, sigs[i]);
    }
    if forall i :: 0 <= i < |sigs| ==> IsSigned(c, sigs[i]) {
      assert SigningKeys(c, account.authority, sigs) == ListedKeys(account.authority, sigs);
    }
  }

  /** Without delegates, a transaction passes the gates exactly when it is signed so. */
  lemma {:induction false} FlatPassesIff(env: Environment, app: App, tx: Transaction, sigs: seq<Signature>)
    requires tx.authorization == Authorization(sigs, map[])
    ensures PassesGate(env, app, tx) <==> IsSignedBy(env, app, tx, sigs)
  {
    hide Lookup, GetResult, ContextFor, AfterGet, IsAuthorized, ListedKeys;
    if IsWellFormed(tx) {
      var seen := Lookup(env.codec, AccountStore(app), tx.account);
      GetIsLookup(env, AccountStore(app), tx.account);
      if seen.Some? {
        FlatSeenIff(env, AfterGet(env.codec, AccountStore(app), tx.account), tx, seen.value, sigs);
      }
    }
  }

  /** And it executes exactly when, besides, a block is in progress and its effects can be applied. */
  lemma {:induction false} FlatExecutesIff(env: Environment, app: App, tx: Transaction, sigs: seq<Signature>,
                                           fetched: seq<Bytes>, routed: Option<seq<Effect>>)
    requires tx.authorization == Authorization(sigs, map[])
    ensures AfterTx(env, app, tx, fetched, routed).1 == Executed
            <==> && IsSignedBy(env, app, tx, sigs) && app.inBlock && routed.Some? && routed.value != []
                 && SharedStore.ApplyAll(env.balances, BalanceStore(app), routed.value).ok
  {
    hide PassesGate, IsSignedBy, SharedStore.ApplyAll, Refusal;
    FlatPassesIff(env, app, tx, sigs);
    GetsKeepData(env, AccountStore(app), LookedUp(env, app, tx, fetched));
    assert BalanceStore(AfterLookups(env, app, tx, fetched)) == BalanceStore(app);
    RefusalIsNoExecution(env, app, tx);
  }

  lemma {:induction false} RefusalIsNoExecution(env: Environment, app: App, tx: Transaction)
    ensures Refusal(env, app, tx) != Executed
  {
  }

  // ---- Look-ups ----

  /** An ill-formed transaction looks up nothing, and one with a wrong nonce no delegate. */
  lemma {:induction false} LooksUpNoMore(env: Environment, app: App, tx: Transaction, fetched: seq<Bytes>)
    ensures !(IsValidName(tx.account) && tx.otherwiseValid) ==> AfterLookups(env, app, tx, fetched) == app
    ensures var seen := Lookup(env.codec, AccountStore(app), tx.account);
            IsValidName(tx.account) && tx.otherwiseValid && (seen.None? || seen.value.nonce != tx.nonce) ==>
              AfterLookups(env, app, tx, fetched)
              == WithAccounts(app, AfterGet(env.codec, AccountStore(app), tx.account))
  {
    if IsWellFormed(tx) {
      hide AfterGet;
      GetIsLookup(env, AccountStore(app), tx.account);
      GetsAfterFirst(env, AccountStore(app), tx.account, []);
      assert [tx.account] + [] == [tx.account];
    }
  }

  // ---- Errors ----

  /** What is stored under the name is no account, and nothing is cached above it. */
  predicate IsCorrupt(env: Environment, app: App, name: AccountName) {
    && name !in app.accounts.l1.items && name !in app.accounts.l2.items
    && name in app.data && env.codec.unmarshal(app.data[name]).None?
  }

  /** A transaction fails, rather than being rejected, exactly on a corrupt account or outside a block. */
  lemma {:induction false} FailsIff(env: Environment, app: App, tx: Transaction, fetched: seq<Bytes>,
                                    routed: Option<seq<Effect>>)
    ensures AfterTx(env, app, tx, fetched, routed).1 == Failed
            <==> || (IsValidName(tx.account) && tx.otherwiseValid && IsCorrupt(env, app, tx.account))
                 || (PassesGate(env, app, tx) && !app.inBlock)
  {
    hide AfterLookups, AfterEffects, IsAuthorized;
  }
}
