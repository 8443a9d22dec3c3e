/** The supply over whole runs of the application (`runtime/application.go`). */
module ApplicationSupply {
  import opened Basics
  import opened Accounts
  import opened Effects
  import opened Codecs
  import opened Balances
  import opened Records
  import opened Cache
  import opened CachedStore
  import opened Agreement
  import opened SharedStore
  import opened BankSupply
  import opened BankBound
  import opened BankCases
  import opened Application
  import opened Wiring

  ghost function SupplyAt(env: Environment, app: App, d: Bytes): nat {
    SupplyOf(env.balances, BalanceStore(app), d)
  }

  /** Faithful serializers, and sound balance records. */
  ghost predicate IsSoundApp(env: Environment, app: App) {
    IsFaithful(env.codec) && IsFaithful(env.balances) && IsWired(app) && IsSoundBank(env.balances, BalanceStore(app))
  }

  // ---- Commits ----

  lemma {:induction false} NamesKeepSound(r: Records, r': Records)
    requires IsSound(r) && forall k :: HasSlash(k) && k in r' ==> k in r && r'[k] == r[k]
    ensures IsSound(r')
  {
    forall k | k in r' ensures IsSoundAt(k, r'[k]) {
      if HasSlash(k) {
        assert IsSoundAt(k, r[k]);
      }
    }
  }

  lemma {:induction false} NamesKeepHeld(r: Records, r': Records)
    requires forall k :: HasSlash(k) ==> (k in r' <==> k in r) && (k in r ==> r'[k] == r[k])
    ensures Held(r') == Held(r)
  {
    forall k ensures k in Held(r') <==> k in Held(r) {
      if k in r && IsHeld(k, r[k]) {
        BalanceKeyHasSlash(r[k].value.account, r[k].value.denom);
      }
      if k in r' && IsHeld(k, r'[k]) {
        BalanceKeyHasSlash(r'[k].value.account, r'[k].value.denom);
      }
    }
  }

  /** What happens under account names is of no matter to the bank. */
  lemma {:induction false} NamesKeepBank(codec: Codec<Balance>, s: Bank, data: Data)
    requires IsSoundBank(codec, s) && SameSlashed(s.backing, data)
    ensures IsSoundBank(codec, s.(backing := data))
    ensures Held(View(codec, s.(backing := data))) == Held(View(codec, s))
  {
    hide IsSound, Held;
    var r, r' := View(codec, s), View(codec, s.(backing := data));
    assert forall k :: HasSlash(k) ==> (k in data <==> k in s.backing) && (k in data ==> data[k] == s.backing[k]) by {
      assert forall k :: HasSlash(k) ==> DataAt(data, k) == DataAt(s.backing, k);
    }
    NamesKeepHeld(r, r');
    NamesKeepSound(r, r');
    NamesKeepSound(Below(codec, s.backing), Below(codec, data));
  }

  lemma {:induction false} FlushIsSound(codec: Codec<Balance>, s: Bank)
    requires IsFaithful(codec) && IsBank(s) && IsSoundBank(codec, s)
    ensures IsSoundBank(codec, AfterFlush(codec, s)) && View(codec, AfterFlush(codec, s)) == View(codec, s)
  {
    assert !HasSlash([]);
    FlushKeepsView(codec, s);
    var data := AfterFlush(codec, s).backing;
    forall k | k in Below(codec, data) ensures IsSoundAt(k, Below(codec, data)[k]) {
      FlushAt(codec, s, k);
      if k in s.l1.items && s.l1.items[k].dirty {
        assert IsSoundAt(k, View(codec, s)[k]);
      } else {
        assert DataAt(data, k) == DataAt(s.backing, k);
        assert IsSoundAt(k, Below(codec, s.backing)[k]);
      }
    }
  }

  /** A commit keeps every supply. */
  lemma {:induction false} CommitSupply(env: Environment, app: App, saved: bool, d: Bytes)
    requires IsSoundApp(env, app)
    ensures var app' := AfterCommit(env, app, saved);
            IsSoundApp(env, app') && SupplyAt(env, app', d) == SupplyAt(env, app, d)
  {
    hide AfterFlush, View, IsRegistry;
    CommitStaysWired(env, app, saved);
    if app.inBlock {
      var first := FlushedAccounts(env, app);
      AccountFlush(env, app);
      assert BalanceStore(first) == BalanceStore(app).(backing := first.data);
      NamesKeepBank(env.balances, BalanceStore(app), first.data);
      BalanceFlush(env, first);
      FlushIsSound(env.balances, BalanceStore(first));
    }
  }

  // ---- Every run ----

  /** No write of the input puts a balance under a foreign key. */
  ghost predicate HasSoundWrites(env: Environment, input: Input) {
    input.Execute? && input.routed.Some? ==> AreSoundWrites(env.balances, input.routed.value)
  }

  /** The effects that the input gets executed. */
  ghost function ExecutedEffects(env: Environment, app: App, input: Input): seq<Effect> {
    if input.Execute? && Executes(env, app, input.tx, input.routed) then input.routed.value else []
  }

  lemma {:induction false} SoundEffects(env: Environment, app: App, input: Input)
    requires HasSoundWrites(env, input)
    ensures AreSoundWrites(env.balances, ExecutedEffects(env, app, input))
  {
  }

  lemma {:induction false} BankSteps(env: Environment, app: App, input: Input)
    requires IsSoundApp(env, app) && !input.Commit?
    ensures var app' := AfterInput(env, app, input);
            && IsWired(app')
            && BalanceStore(app') == ApplyAll(env.balances, BalanceStore(app), ExecutedEffects(env, app, input)).bank
  {
    hide AfterTx, AfterLookups, Executes, IsSoundBank;
    StepStaysWired(env, app, input);
    match input
    case BeginBlock(_) =>
    case Check(tx, fetched) => LookupsStayWired(env, app, tx, fetched); SameBank(env, app, tx, fetched);
    case Execute(tx, fetched, routed) => TxStaysWired(env, app, tx, fetched, routed);
    case Commit(_) =>
  }

  lemma {:induction false} SameBank(env: Environment, app: App, tx: Transaction, fetched: seq<Bytes>)
    ensures BalanceStore(AfterLookups(env, app, tx, fetched)) == BalanceStore(app)
  {
    GetsKeepData(env, AccountStore(app), LookedUp(env, app, tx, fetched));
  }

  ghost function StepFlow(env: Environment, app: App, input: Input, d: Bytes): Flow {
    ListFlow(env.balances, BalanceStore(app), ExecutedEffects(env, app, input), d)
  }

  lemma {:induction false} StepSupply(env: Environment, app: App, input: Input, d: Bytes)
    requires IsSoundApp(env, app) && HasSoundWrites(env, input)
    ensures var app' := AfterInput(env, app, input);
            && IsSoundApp(env, app')
            && SupplyAt(env, app', d) == SupplyAt(env, app, d) + StepFlow(env, app, input, d).Net()
  {
    if input.Commit? {
      CommitSupply(env, app, input.saved, d);
    } else {
      hide AfterInput, ApplyAll, ListFlow, IsSoundBank, IsWired, Executes;
      BankSteps(env, app, input);
      SoundEffects(env, app, input);
      ExecuteSupply(env.balances, BalanceStore(app), ExecutedEffects(env, app, input), d);
    }
  }

  /** What the executed effects of a run bring, drop, have refused, and evict. */
  ghost function RunFlow(env: Environment, app: App, inputs: seq<Input>, d: Bytes): Flow {
    if inputs == [] then NO_FLOW
    else
      var n := |inputs| - 1;
      RunFlow(env, app, inputs[..n], d).Plus(StepFlow(env, Run(env, app, inputs[..n]), inputs[n], d))
  }

  ghost predicate AllSoundWrites(env: Environment, inputs: seq<Input>) {
    forall i :: 0 <= i < |inputs| ==> HasSoundWrites(env, inputs[i])
  }

  lemma {:induction false} SoundPrefix(env: Environment, inputs: seq<Input>)
    requires AllSoundWrites(env, inputs) && inputs != []
    ensures AllSoundWrites(env, inputs[..|inputs| - 1]) && HasSoundWrites(env, inputs[|inputs| - 1])
  {
    hide HasSoundWrites;
  }

  /**
   Over every run a supply changes by exactly what raw writes bring, less what raw effects drop and
   receivers refuse, and by what evictions bring back.
   */
  lemma {:induction false} RunSupply(env: Environment, app: App, inputs: seq<Input>, d: Bytes)
    requires IsSoundApp(env, app) && AllSoundWrites(env, inputs)
    ensures IsSoundApp(env, Run(env, app, inputs))
    ensures SupplyAt(env, Run(env, app, inputs), d) == SupplyAt(env, app, d) + RunFlow(env, app, inputs, d).Net()
  {
    hide AfterInput, IsSoundApp, SupplyAt, StepFlow, AllSoundWrites, HasSoundWrites;
    if inputs != [] {
      var n := |inputs| - 1;
      SoundPrefix(env, inputs);
      RunSupply(env, app, inputs[..n], d);
      StepSupply(env, Run(env, app, inputs[..n]), inputs[n], d);
    }
  }

  // ---- Runs within the bound ----

  /** The balance keys that the transfers of a list use. */
  ghost function ListKeys(effects: seq<Effect>): (keys: set<Bytes>)
    ensures AllUse(effects, keys)
  {
    if effects == [] then {}
    else
      var last := effects[|effects| - 1];
      ListKeys(effects[..|effects| - 1]) + if last.Transfer? then TransferKeys(last.from, last.to, last.amount) else {}
  }

  ghost function StepNamed(env: Environment, app: App, input: Input, named: set<Bytes>): set<Bytes> {
    if input.Commit? then if app.inBlock then {} else named
    else named + ListKeys(ExecutedEffects(env, app, input))
  }

  /** The balances that executed transfers used since the last commit. */
  ghost function NamedBalances(env: Environment, app: App, inputs: seq<Input>): set<Bytes> {
    if inputs == [] then {}
    else
      var n := |inputs| - 1;
      StepNamed(env, Run(env, app, inputs[..n]), inputs[n], NamedBalances(env, app, inputs[..n]))
  }

  lemma {:induction false} MoreFits(codec: Codec<Balance>, s: Bank, named: set<Bytes>, more: set<Bytes>)
    requires Fits(codec, s, named) && named <= more
    ensures Fits(codec, s, more)
  {
    var touched :| touched <= named && Agrees(codec, s, touched, HasSlash);
    assert touched <= more;
  }

  lemma {:induction false} FlushFits(codec: Codec<Balance>, s: Bank, named: set<Bytes>)
    requires IsFaithful(codec) && IsBank(s) && Fits(codec, s, named) && IsBank(AfterFlush(codec, s))
    ensures Fits(codec, AfterFlush(codec, s), {})
  {
    hide AgreesWithin, AfterFlush;
    FlushAgrees(codec, s, named, HasSlash);
  }

  lemma {:induction false} CommitFits(env: Environment, app: App, named: set<Bytes>, saved: bool)
    requires IsSoundApp(env, app) && Fits(env.balances, BalanceStore(app), named) && app.inBlock
    ensures Fits(env.balances, BalanceStore(AfterCommit(env, app, saved)), {})
  {
    hide AgreesWithin, AfterFlush, IsRegistry, IsSoundBank;
    CommitStaysWired(env, app, saved);
    AccountFlush(env, app);
    var first := FlushedAccounts(env, app);
    BackingAgrees(env.balances, BalanceStore(app), named, HasSlash, first.data);
    assert BalanceStore(first) == BalanceStore(app).(backing := first.data);
    BalanceFlush(env, first);
    FlushFits(env.balances, BalanceStore(first), named);
  }

  /** The input mints nothing, and its raw effects are clear of the cache. */
  ghost predicate IsPlain(env: Environment, app: App, input: Input) {
    var effects := ExecutedEffects(env, app, input);
    MintsNothing(env.balances, effects) && AreClear(env.balances, BalanceStore(app), effects)
  }

  /** The input drops a balance of the denomination by a raw effect, or has a coin of it refused. */
  ghost predicate LosesAt(env: Environment, app: App, input: Input, d: Bytes) {
    IsHarmful(env.balances, BalanceStore(app), ExecutedEffects(env, app, input), d)
  }

  lemma {:induction false} EffectsKeepSupplyIff(env: Environment, app: App, named: set<Bytes>, input: Input, d: Bytes)
    requires IsSoundApp(env, app) && HasSoundWrites(env, input) && IsPlain(env, app, input) && !input.Commit?
    requires Fits(env.balances, BalanceStore(app), named)
    requires |named + ListKeys(ExecutedEffects(env, app, input))| <= app.balances.l1.capacity
    ensures var app' := AfterInput(env, app, input);
            && Fits(env.balances, BalanceStore(app'), named + ListKeys(ExecutedEffects(env, app, input)))
            && SupplyAt(env, app', d) <= SupplyAt(env, app, d)
            && (SupplyAt(env, app', d) == SupplyAt(env, app, d) <==> !LosesAt(env, app, input, d))
  {
    hide AfterInput, ApplyAll, ListFlow, IsSoundBank, IsWired, Executes;
    hide Fits, IsHarmful, AreClear, MintsNothing, SupplyOf;
    var s, effects := BalanceStore(app), ExecutedEffects(env, app, input);
    var more := named + ListKeys(effects);
    BankSteps(env, app, input);
    MoreFits(env.balances, s, named, more);
    assert AllUse(effects, more);
    SoundEffects(env, app, input);
    ListFits(env.balances, s, more, effects, d);
    ListKeepsSupplyIff(env.balances, s, more, effects, d);
  }

  lemma {:induction false} StepKeepsSupplyIff(env: Environment, app: App, named: set<Bytes>, input: Input, d: Bytes)
    requires IsSoundApp(env, app) && HasSoundWrites(env, input) && IsPlain(env, app, input)
    requires Fits(env.balances, BalanceStore(app), named)
    requires |StepNamed(env, app, input, named)| <= app.balances.l1.capacity
    ensures var app' := AfterInput(env, app, input);
            && Fits(env.balances, BalanceStore(app'), StepNamed(env, app, input, named))
            && SupplyAt(env, app', d) <= SupplyAt(env, app, d)
            && (SupplyAt(env, app', d) == SupplyAt(env, app, d) <==> !LosesAt(env, app, input, d))
  {
    if !input.Commit? {
      hide AfterInput, SupplyAt, LosesAt, Fits, IsSoundApp, IsPlain, HasSoundWrites, ExecutedEffects;
      EffectsKeepSupplyIff(env, app, named, input, d);
    } else {
      hide AfterCommit, SupplyAt, Fits, IsSoundApp;
      CommitSupply(env, app, input.saved, d);
      if app.inBlock {
        CommitFits(env, app, named, input.saved);
      } else {
        IdleCommit(env, app, input.saved);
      }
    }
  }

  lemma {:induction false} IdleCommit(env: Environment, app: App, saved: bool)
    requires !app.inBlock
    ensures AfterCommit(env, app, saved) == app
  {
  }

  /** Between commits no more balances are used than the cache holds. */
  ghost predicate IsBounded(env: Environment, app: App, inputs: seq<Input>) {
    forall i :: 0 <= i <= |inputs| ==> |NamedBalances(env, app, inputs[..i])| <= app.balances.l1.capacity
  }

  ghost predicate IsPlainAt(env: Environment, app: App, inputs: seq<Input>, i: nat)
    requires i < |inputs|
  {
    HasSoundWrites(env, inputs[i]) && IsPlain(env, Run(env, app, inputs[..i]), inputs[i])
  }

  /** A run from saved balances, within the bound, that writes no balance and is clear of the cache. */
  ghost predicate IsPlainRun(env: Environment, app: App, inputs: seq<Input>) {
    && IsSoundApp(env, app) && Fits(env.balances, BalanceStore(app), {}) && IsBounded(env, app, inputs)
    && forall i :: 0 <= i < |inputs| ==> IsPlainAt(env, app, inputs, i)
  }

  ghost predicate LosesIn(env: Environment, app: App, inputs: seq<Input>, i: nat, d: Bytes)
    requires i < |inputs|
  {
    LosesAt(env, Run(env, app, inputs[..i]), inputs[i], d)
  }

  /** Some input, when it comes, drops a balance of the denomination or has a coin of it refused. */
  ghost predicate IsLossy(env: Environment, app: App, inputs: seq<Input>, d: Bytes) {
    exists i :: 0 <= i < |inputs| && LosesIn(env, app, inputs, i, d)
  }

  lemma {:induction false} PrefixIsPlain(env: Environment, app: App, inputs: seq<Input>)
    requires IsPlainRun(env, app, inputs) && inputs != []
    ensures IsPlainRun(env, app, inputs[..|inputs| - 1])
  {
    hide NamedBalances, IsSoundApp, Fits, HasSoundWrites, IsPlain;
    var n := |inputs| - 1;
    forall i | 0 <= i <= n ensures |NamedBalances(env, app, inputs[..n][..i])| <= app.balances.l1.capacity {
      assert inputs[..n][..i] == inputs[..i];
    }
    forall i | 0 <= i < n ensures IsPlainAt(env, app, inputs[..n], i) {
      assert inputs[..n][..i] == inputs[..i] && IsPlainAt(env, app, inputs, i);
    }
  }

  lemma {:induction false} LossyLast(env: Environment, app: App, inputs: seq<Input>, d: Bytes)
    requires inputs != []
    ensures var n := |inputs| - 1;
            IsLossy(env, app, inputs, d)
            <==> IsLossy(env, app, inputs[..n], d) || LosesAt(env, Run(env, app, inputs[..n]), inputs[n], d)
  {
    hide LosesAt, Run;
    var n := |inputs| - 1;
    forall i | 0 <= i < n ensures LosesIn(env, app, inputs[..n], i, d) == LosesIn(env, app, inputs, i, d) {
      assert inputs[..n][..i] == inputs[..i];
    }
    assert LosesIn(env, app, inputs, n, d) == LosesAt(env, Run(env, app, inputs[..n]), inputs[n], d);
  }

  lemma {:induction false} RunIsSound(env: Environment, app: App, inputs: seq<Input>)
    requires IsPlainRun(env, app, inputs)
    ensures IsSoundApp(env, Run(env, app, inputs))
    ensures Run(env, app, inputs).balances.l1.capacity == app.balances.l1.capacity
  {
    hide Fits, IsBounded, IsSoundBank, IsFaithful, IsWired, IsPlain, HasSoundWrites, Run;
    forall i | 0 <= i < |inputs| ensures HasSoundWrites(env, inputs[i]) {
      assert IsPlainAt(env, app, inputs, i);
    }
    RunSupply(env, app, inputs, []);
    RunStaysWired(env, app, inputs);
  }

  lemma {:induction false} LastKeepsSupplyIff(env: Environment, app: App, inputs: seq<Input>, d: Bytes)
    requires IsPlainRun(env, app, inputs) && inputs != []
    requires var before := inputs[..|inputs| - 1];
             Fits(env.balances, BalanceStore(Run(env, app, before)), NamedBalances(env, app, before))
    ensures var n, now := |inputs| - 1, Run(env, app, inputs);
            var before := Run(env, app, inputs[..n]);
            && Fits(env.balances, BalanceStore(now), NamedBalances(env, app, inputs))
            && SupplyAt(env, now, d) <= SupplyAt(env, before, d)
            && (SupplyAt(env, now, d) == SupplyAt(env, before, d) <==> !LosesAt(env, before, inputs[n], d))
  {
    hide Fits, IsSoundApp, IsPlain, HasSoundWrites, AfterInput, SupplyAt, LosesAt, StepNamed;
    var n := |inputs| - 1;
    PrefixIsPlain(env, app, inputs);
    RunIsSound(env, app, inputs[..n]);
    assert inputs[..|inputs|] == inputs;
    assert IsPlainAt(env, app, inputs, n);
    StepKeepsSupplyIff(env, Run(env, app, inputs[..n]), NamedBalances(env, app, inputs[..n]), inputs[n], d);
  }

  /**
   Such a run never increases a supply, and keeps it exactly when no input, when it comes, drops a balance
   of the denomination by a raw effect or has a coin of it refused.
   */
  lemma {:induction false} RunKeepsSupplyIff(env: Environment, app: App, inputs: seq<Input>, d: Bytes)
    requires IsPlainRun(env, app, inputs)
    ensures Fits(env.balances, BalanceStore(Run(env, app, inputs)), NamedBalances(env, app, inputs))
    ensures SupplyAt(env, Run(env, app, inputs), d) <= SupplyAt(env, app, d)
    ensures SupplyAt(env, Run(env, app, inputs), d) == SupplyAt(env, app, d) <==> !IsLossy(env, app, inputs, d)
  {
    if inputs != [] {
      hide Fits, IsPlainRun, SupplyAt, LosesAt, IsLossy, Run, NamedBalances;
      PrefixIsPlain(env, app, inputs);
      RunKeepsSupplyIff(env, app, inputs[..|inputs| - 1], d);
      LastKeepsSupplyIff(env, app, inputs, d);
      LossyLast(env, app, inputs, d);
    }
  }

  // ---- Deletions ----

  /**
   An executed deletion of `store/key` lowers the supply by what is stored for the account `store`, exactly
   when that balance is not cached; otherwise it is not seen. A commit changes neither.
   */
  lemma {:induction false} DeletionLowersSupply(env: Environment, app: App, tx: Transaction, fetched: seq<Bytes>,
                                                store: Bytes, key: Bytes, saved: bool)
    requires IsSoundApp(env, app) && IsValidName(store) && key != []
    requires Executes(env, app, tx, Some([Delete(store, key)]))
    ensures var app' := AfterInput(env, app, Execute(tx, fetched, Some([Delete(store, key)])));
            && SupplyAt(env, app', key)
               == SupplyAt(env, app, key)
                  - (if BalanceKey(store, key) in app.balances.l1.items then 0
                     else AmountAt(Below(env.balances, app.data), store, key))
            && SupplyAt(env, AfterInput(env, app', Commit(saved)), key) == SupplyAt(env, app', key)
  {
    hide AfterInput, ApplyAll, ListFlow, SupplyAt, Executes, IsSoundApp, AmountAt;
    var effects := [Delete(store, key)];
    var input := Execute(tx, fetched, Some(effects));
    assert ExecutedEffects(env, app, input) == effects;
    StepSupply(env, app, input, key);
    CommitIsNext(env, AfterInput(env, app, input), saved, key);
    DeletionFlow(env.balances, BalanceStore(app), store, key);
  }

  lemma {:induction false} CommitIsNext(env: Environment, app: App, saved: bool, d: Bytes)
    requires IsSoundApp(env, app)
    ensures SupplyAt(env, AfterInput(env, app, Commit(saved)), d) == SupplyAt(env, app, d)
  {
    hide AfterCommit, SupplyAt, IsSoundApp;
    CommitSupply(env, app, saved, d);
  }

  lemma {:induction false} OneFlow(codec: Codec<Balance>, s: Bank, e: Effect, d: Bytes)
    requires IsValid(e)
    ensures ListFlow(codec, s, [e], d) == EffectFlow(codec, s, e, d)
  {
    hide EffectFlow, ApplyEffect;
    assert [e][..0] == [] && ListFlow(codec, s, [], d) == NO_FLOW;
    assert ApplyAll(codec, s, []) == Outcome(s, [], true);
  }

  lemma {:induction false} DeletionIs(codec: Codec<Balance>, s: Bank, store: Bytes, key: Bytes)
    ensures EffectFlow(codec, s, Delete(store, key), key)
            == if BalanceKey(store, key) in s.l1.items then NO_FLOW
               else Flow(0, HeldAt(View(codec, s), BalanceKey(store, key), key), 0, 0)
  {
    hide View, HeldAt;
  }

  lemma {:induction false} DeletionFlow(codec: Codec<Balance>, s: Bank, store: Bytes, key: Bytes)
    requires IsValidName(store) && key != []
    ensures var f := ListFlow(codec, s, [Delete(store, key)], key);
            f.Net()
            == 0 - if BalanceKey(store, key) in s.l1.items then 0 else AmountAt(Below(codec, s.backing), store, key)
  {
    hide AmountAt, HeldAt, View, Below, ListFlow, EffectFlow;
    OneFlow(codec, s, Delete(store, key), key);
    DeletionIs(codec, s, store, key);
    if BalanceKey(store, key) !in s.l1.items {
      StoredAmount(codec, s, store, key);
    }
  }

  /** Where nothing is cached, what is seen of the account's own denomination is what is stored. */
  lemma {:induction false} StoredAmount(codec: Codec<Balance>, s: Bank, store: Bytes, key: Bytes)
    requires IsValidName(store) && key != [] && BalanceKey(store, key) !in s.l1.items
    ensures HeldAt(View(codec, s), BalanceKey(store, key), key) == AmountAt(Below(codec, s.backing), store, key)
  {
    var k, r := BalanceKey(store, key), Below(codec, s.backing);
    assert (k in View(codec, s) <==> k in r) && (k in r ==> View(codec, s)[k] == r[k]);
    if k in r && IsHeld(k, r[k]) {
      BalanceKeyInjective(store, key, r[k].value.account, r[k].value.denom);
    }
  }

  // ---- Past the bound ----

  lemma {:induction false} ThenEmits(codec: Codec<Balance>, s: Bank, effects: seq<Effect>, closing: Event)
    requires ApplyAll(codec, s, effects).ok && closing.kind != []
    ensures ApplyAll(codec, s, effects + [Emit(closing)]).bank == ApplyAll(codec, s, effects).bank
  {
    assert (effects + [Emit(closing)])[..|effects|] == effects;
  }

  /** One multi-send that touches one balance more than the cache holds can make a supply grow. */
  lemma {:induction false} EvictionMintsInRun(env: Environment, app: App, tx: Transaction, fetched: seq<Bytes>,
                                              b: Balance, to: AccountName, coins: seq<Coin>, closing: Event)
    requires IsSoundApp(env, app) && IsReady(env.balances, BalanceStore(app), b, to, coins) && closing.kind != []
    requires Executes(env, app, tx, Some(Payments(b, to, coins) + [Emit(closing)]))
    ensures var input := Execute(tx, fetched, Some(Payments(b, to, coins) + [Emit(closing)]));
            SupplyAt(env, AfterInput(env, app, input), b.denom) == SupplyAt(env, app, b.denom) + 1
  {
    hide AfterInput, ApplyAll, IsReady, Executes, SupplyOf, Payments;
    var effects := Payments(b, to, coins) + [Emit(closing)];
    var input := Execute(tx, fetched, Some(effects));
    assert ExecutedEffects(env, app, input) == effects;
    BankSteps(env, app, input);
    EvictionMints(env.balances, BalanceStore(app), b, to, coins);
    ThenEmits(env.balances, BalanceStore(app), Payments(b, to, coins), closing);
  }
}
