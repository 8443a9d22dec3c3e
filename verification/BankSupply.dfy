/**
 What lists of effects do to the supply that the balance store shows: raw effects count where nothing is
 cached above them, refused coins are lost, and evictions bring back what is below.
 */
module BankSupply {
  import opened Basics
  import opened Accounts
  import opened Effects
  import opened Codecs
  import opened Balances
  import opened Records
  import opened Cache
  import opened CachedStore
  import opened SharedStore

  // ---- Raw effects ----

  /** The raw key that an effect replaces or removes. */
  function RawKey(e: Effect): Option<Bytes> {
    match e
    case Write(store, key, _) => Some(FullKey(store, key))
    case Delete(store, key) => Some(FullKey(store, key))
    case _ => None
  }

  /** The record that is under the key after the effect. */
  function Written(codec: Codec<Balance>, e: Effect): Option<Balance> {
    if e.Write? then codec.unmarshal(e.value) else None
  }

  /** The effect reaches a record that the balance store reads. */
  predicate IsSeen(s: Bank, e: Effect) {
    RawKey(e).Some? && RawKey(e).value !in s.l1.items
  }

  /** A raw write or deletion changes what is seen under its key, unless that is cached. */
  lemma {:induction false} RawView(codec: Codec<Balance>, s: Bank, e: Effect)
    requires IsValid(e) && RawKey(e).Some?
    ensures var k, t := RawKey(e).value, ApplyEffect(codec, s, e).bank;
            && t == s.(backing := t.backing)
            && Below(codec, t.backing)
               == (if e.Write? then Below(codec, s.backing)[k := Written(codec, e)] else Below(codec, s.backing) - {k})
            && View(codec, t)
               == if !IsSeen(s, e) then View(codec, s)
                  else if e.Write? then View(codec, s)[k := Written(codec, e)]
                  else View(codec, s) - {k}
  {
  }

  /** A deletion keeps every supply exactly when its key is cached or holds no positive balance. */
  lemma {:induction false} DeleteKeepsSupplyIff(codec: Codec<Balance>, s: Bank, e: Effect)
    requires IsValid(e) && e.Delete?
    ensures (forall d :: SupplyOf(codec, ApplyEffect(codec, s, e).bank, d) == SupplyOf(codec, s, d))
            <==> RawKey(e).value in s.l1.items || KeyAmount(Below(codec, s.backing), RawKey(e).value) == 0
  {
    var r, k, t := View(codec, s), RawKey(e).value, ApplyEffect(codec, s, e).bank;
    assert View(codec, t) == if k in s.l1.items then r else r - {k} by {
      RawView(codec, s, e);
    }
    RemoveKeepsSupplyIff(r, k);
    if k !in s.l1.items && KeyAmount(r, k) != 0 {
      var d :| SupplyIn(r - {k}, d) != SupplyIn(r, d);
      assert SupplyOf(codec, t, d) != SupplyOf(codec, s, d);
    }
  }

  /** A write keeps every supply exactly when its key is cached or the amount below stays as it was. */
  lemma {:induction false} WriteKeepsSupplyIff(codec: Codec<Balance>, s: Bank, e: Effect)
    requires IsValid(e) && e.Write?
    ensures (forall d :: SupplyOf(codec, ApplyEffect(codec, s, e).bank, d) == SupplyOf(codec, s, d))
            <==> || RawKey(e).value in s.l1.items
                 || KeyAmount(Below(codec, s.backing), RawKey(e).value)
                    == RecordAmount(RawKey(e).value, Written(codec, e))
  {
    var r, k, t := View(codec, s), RawKey(e).value, ApplyEffect(codec, s, e).bank;
    assert View(codec, t) == if k in s.l1.items then r else r[k := Written(codec, e)] by {
      RawView(codec, s, e);
    }
    PutKeepsSupplyIff(r, k, Written(codec, e));
    if k !in s.l1.items && KeyAmount(r, k) != RecordAmount(k, Written(codec, e)) {
      var d :| SupplyIn(r[k := Written(codec, e)], d) != SupplyIn(r, d);
      assert SupplyOf(codec, t, d) != SupplyOf(codec, s, d);
    }
  }

  // ---- What changes a supply ----

  /** What is brought by raw writes, dropped by raw effects, refused by receivers, and brought back by evictions. */
  datatype Flow = Flow(brought: nat, dropped: nat, refused: nat, spilled: int) {
    function Net(): int {
      brought - dropped - refused + spilled
    }

    function Plus(f: Flow): Flow {
      Flow(brought + f.brought, dropped + f.dropped, refused + f.refused, spilled + f.spilled)
    }
  }

  const NO_FLOW: Flow := Flow(0, 0, 0, 0)

  ghost predicate AreCoins(coins: seq<Coin>) {
    forall i :: 0 <= i < |coins| ==> coins[i].denom != [] && coins[i].amount > 0
  }

  ghost function CoinFlow(codec: Codec<Balance>, s: Bank, from: AccountName, to: AccountName, coin: Coin,
                          d: Bytes): Flow
  {
    Flow(0, 0, if IsRefused(codec, s, from, to, coin) && d == coin.denom then coin.amount else 0,
         SpillOfCoin(codec, s, from, to, coin, d))
  }

  ghost function TransferFlow(codec: Codec<Balance>, s: Bank, from: AccountName, to: AccountName, coins: seq<Coin>,
                              d: Bytes): Flow
    decreases |coins|
  {
    if coins == [] then NO_FLOW
    else
      var (t, ok) := MoveCoin(codec, s, from, to, coins[0]);
      CoinFlow(codec, s, from, to, coins[0], d)
      .Plus(if ok then TransferFlow(codec, t, from, to, coins[1..], d) else NO_FLOW)
  }

  lemma {:induction false} TransferSupply(codec: Codec<Balance>, s: Bank, from: AccountName, to: AccountName,
                                          coins: seq<Coin>, d: Bytes)
    requires IsSoundBank(codec, s) && IsValidName(from) && IsValidName(to) && AreCoins(coins)
    ensures var (t, ok) := TransferCoins(codec, s, from, to, coins);
            && IsSoundBank(codec, t)
            && SupplyOf(codec, t, d) == SupplyOf(codec, s, d) + TransferFlow(codec, s, from, to, coins, d).Net()
            && (ok ==> TransferFlow(codec, s, from, to, coins, d).refused == 0)
    decreases |coins|
  {
    if coins != [] {
      MoveCoinSupply(codec, s, from, to, coins[0], d);
      var (t, ok) := MoveCoin(codec, s, from, to, coins[0]);
      if ok {
        TransferSupply(codec, t, from, to, coins[1..], d);
      }
    }
  }

  ghost function EffectFlow(codec: Codec<Balance>, s: Bank, e: Effect, d: Bytes): Flow {
    if e.Transfer? then TransferFlow(codec, s, e.from, e.to, e.amount, d)
    else if IsSeen(s, e) then
      Flow(AmountUnder(RawKey(e).value, Written(codec, e), d), HeldAt(View(codec, s), RawKey(e).value, d), 0, 0)
    else NO_FLOW
  }

  /** A write puts no balance under a foreign key. */
  predicate IsSoundWrite(codec: Codec<Balance>, e: Effect) {
    e.Write? ==> IsSoundAt(RawKey(e).value, Written(codec, e))
  }

  lemma {:induction false} RawIsSound(codec: Codec<Balance>, s: Bank, e: Effect)
    requires IsSoundBank(codec, s) && IsValid(e) && RawKey(e).Some? && IsSoundWrite(codec, e)
    ensures IsSoundBank(codec, ApplyEffect(codec, s, e).bank)
  {
    hide ApplyEffect, View, Below;
    RawView(codec, s, e);
  }

  lemma {:induction false} RawSupply(codec: Codec<Balance>, s: Bank, e: Effect, d: Bytes)
    requires IsSoundBank(codec, s) && IsValid(e) && RawKey(e).Some? && IsSoundWrite(codec, e)
    ensures var t := ApplyEffect(codec, s, e).bank;
            && IsSoundBank(codec, t)
            && SupplyOf(codec, t, d) == SupplyOf(codec, s, d) + EffectFlow(codec, s, e, d).Net()
  {
    hide ApplyEffect, View, Below, IsSound, SupplyIn, HeldAt;
    RawIsSound(codec, s, e);
    RawView(codec, s, e);
    if IsSeen(s, e) {
      if e.Write? {
        PutSupply(View(codec, s), RawKey(e).value, Written(codec, e), d);
      } else {
        RemoveSupply(View(codec, s), RawKey(e).value, d);
      }
    }
  }

  lemma {:induction false} EffectCases(codec: Codec<Balance>, s: Bank, e: Effect, d: Bytes)
    ensures e.Transfer? ==> EffectFlow(codec, s, e, d) == TransferFlow(codec, s, e.from, e.to, e.amount, d)
    ensures !e.Transfer? ==> EffectFlow(codec, s, e, d).refused == 0
    ensures !e.Transfer? && RawKey(e).None? ==> EffectFlow(codec, s, e, d) == NO_FLOW
  {
  }

  lemma {:induction false} EffectSupply(codec: Codec<Balance>, s: Bank, e: Effect, d: Bytes)
    requires IsSoundBank(codec, s) && IsValid(e) && IsSoundWrite(codec, e)
    ensures var r := ApplyEffect(codec, s, e);
            && IsSoundBank(codec, r.bank)
            && SupplyOf(codec, r.bank, d) == SupplyOf(codec, s, d) + EffectFlow(codec, s, e, d).Net()
            && (r.ok ==> EffectFlow(codec, s, e, d).refused == 0)
  {
    hide IsSoundBank, SupplyOf, EffectFlow, TransferFlow, TransferCoins;
    EffectCases(codec, s, e, d);
    if e.Transfer? {
      TransferSupply(codec, s, e.from, e.to, e.amount, d);
    } else if RawKey(e).Some? {
      RawSupply(codec, s, e, d);
    }
  }

  /** The flow of a list, up to the first effect that fails. */
  ghost function ListFlow(codec: Codec<Balance>, s: Bank, effects: seq<Effect>, d: Bytes): Flow {
    if effects == [] then NO_FLOW
    else
      var n := |effects| - 1;
      var before := ApplyAll(codec, s, effects[..n]);
      ListFlow(codec, s, effects[..n], d)
      .Plus(if before.ok && IsValid(effects[n]) then EffectFlow(codec, before.bank, effects[n], d) else NO_FLOW)
  }

  ghost predicate AreSoundWrites(codec: Codec<Balance>, effects: seq<Effect>) {
    forall i :: 0 <= i < |effects| ==> IsSoundWrite(codec, effects[i])
  }

  /** Every list, failed or not, with any cache, changes a supply by exactly its flow. */
  lemma {:induction false} ExecuteSupply(codec: Codec<Balance>, s: Bank, effects: seq<Effect>, d: Bytes)
    requires IsSoundBank(codec, s) && AreSoundWrites(codec, effects)
    ensures IsSoundBank(codec, ApplyAll(codec, s, effects).bank)
    ensures SupplyOf(codec, ApplyAll(codec, s, effects).bank, d)
            == SupplyOf(codec, s, d) + ListFlow(codec, s, effects, d).Net()
    ensures ApplyAll(codec, s, effects).ok ==> ListFlow(codec, s, effects, d).refused == 0
  {
    if effects != [] {
      var n := |effects| - 1;
      ExecuteSupply(codec, s, effects[..n], d);
      var before := ApplyAll(codec, s, effects[..n]);
      if before.ok && IsValid(effects[n]) {
        EffectSupply(codec, before.bank, effects[n], d);
      }
    }
  }

  // ---- When nothing is lost ----

  /** The effect replaces or removes a positive balance that is seen. */
  ghost predicate Drops(codec: Codec<Balance>, s: Bank, e: Effect, d: Bytes) {
    && IsSeen(s, e) && RawKey(e).value in s.backing
    && var record := codec.unmarshal(s.backing[RawKey(e).value]);
       IsHeld(RawKey(e).value, record) && record.value.denom == d && record.value.amount > 0
  }

  /** The transfer gets as far as its i-th coin, which is paid and then refused. */
  ghost predicate RefusesAt(codec: Codec<Balance>, s: Bank, from: AccountName, to: AccountName, coins: seq<Coin>,
                            i: nat, d: Bytes)
    requires i < |coins|
  {
    var (t, ok) := TransferCoins(codec, s, from, to, coins[..i]);
    ok && coins[i].denom == d && IsRefused(codec, t, from, to, coins[i])
  }

  ghost predicate Refuses(codec: Codec<Balance>, s: Bank, from: AccountName, to: AccountName, coins: seq<Coin>,
                          d: Bytes)
  {
    exists i :: 0 <= i < |coins| && RefusesAt(codec, s, from, to, coins, i, d)
  }

  lemma {:induction false} RefusesLater(codec: Codec<Balance>, s: Bank, from: AccountName, to: AccountName,
                                        coins: seq<Coin>, i: nat, d: Bytes)
    requires i + 1 < |coins|
    ensures var (t, ok) := MoveCoin(codec, s, from, to, coins[0]);
            RefusesAt(codec, s, from, to, coins, i + 1, d) <==> ok && RefusesAt(codec, t, from, to, coins[1..], i, d)
  {
    assert coins[..i + 1][1..] == coins[1..][..i] && coins[..i + 1][0] == coins[0];
  }

  lemma {:induction false} FirstRefused(codec: Codec<Balance>, s: Bank, from: AccountName, to: AccountName,
                                        coins: seq<Coin>, d: Bytes)
    requires AreCoins(coins) && coins != []
    ensures var (t, ok) := MoveCoin(codec, s, from, to, coins[0]);
            TransferFlow(codec, s, from, to, coins, d).refused > 0
            <==> || RefusesAt(codec, s, from, to, coins, 0, d)
                 || (ok && TransferFlow(codec, t, from, to, coins[1..], d).refused > 0)
  {
    assert coins[..0] == [];
    assert RefusesAt(codec, s, from, to, coins, 0, d)
        <==> coins[0].denom == d && IsRefused(codec, s, from, to, coins[0]);
  }

  /** A transfer loses some of a denomination exactly when it reaches a coin of it that is refused. */
  lemma {:induction false} RefusedIff(codec: Codec<Balance>, s: Bank, from: AccountName, to: AccountName,
                                      coins: seq<Coin>, d: Bytes)
    requires IsSoundBank(codec, s) && IsValidName(from) && IsValidName(to) && AreCoins(coins)
    ensures TransferFlow(codec, s, from, to, coins, d).refused > 0 <==> Refuses(codec, s, from, to, coins, d)
    decreases |coins|
  {
    if coins != [] {
      var (t, ok) := MoveCoin(codec, s, from, to, coins[0]);
      FirstRefused(codec, s, from, to, coins, d);
      RefusesTail(codec, s, from, to, coins, d);
      if ok {
        assert IsSoundBank(codec, t) by {
          MoveCoinSupply(codec, s, from, to, coins[0], d);
        }
        RefusedIff(codec, t, from, to, coins[1..], d);
      }
    }
  }

  lemma {:induction false} RefusesTail(codec: Codec<Balance>, s: Bank, from: AccountName, to: AccountName,
                                       coins: seq<Coin>, d: Bytes)
    requires coins != []
    ensures var (t, ok) := MoveCoin(codec, s, from, to, coins[0]);
            Refuses(codec, s, from, to, coins, d)
            <==> RefusesAt(codec, s, from, to, coins, 0, d) || (ok && Refuses(codec, t, from, to, coins[1..], d))
  {
    var (t, ok) := MoveCoin(codec, s, from, to, coins[0]);
    if i :| 1 <= i < |coins| && RefusesAt(codec, s, from, to, coins, i, d) {
      RefusesLater(codec, s, from, to, coins, i - 1, d);
      assert RefusesAt(codec, t, from, to, coins[1..], i - 1, d);
    }
    if ok && Refuses(codec, t, from, to, coins[1..], d) {
      var i :| 0 <= i < |coins[1..]| && RefusesAt(codec, t, from, to, coins[1..], i, d);
      RefusesLater(codec, s, from, to, coins, i, d);
      assert RefusesAt(codec, s, from, to, coins, i + 1, d);
    }
  }

  /** The i-th effect is reached, and then drops a balance of the denomination or has a coin of it refused. */
  ghost predicate Harms(codec: Codec<Balance>, s: Bank, effects: seq<Effect>, i: nat, d: Bytes)
    requires i < |effects|
  {
    var before, e := ApplyAll(codec, s, effects[..i]), effects[i];
    && before.ok && IsValid(e)
    && (Drops(codec, before.bank, e, d) || (e.Transfer? && Refuses(codec, before.bank, e.from, e.to, e.amount, d)))
  }

  ghost predicate IsHarmful(codec: Codec<Balance>, s: Bank, effects: seq<Effect>, d: Bytes) {
    exists i :: 0 <= i < |effects| && Harms(codec, s, effects, i, d)
  }

  lemma {:induction false} EffectLosesIff(codec: Codec<Balance>, s: Bank, e: Effect, d: Bytes)
    requires IsSoundBank(codec, s) && IsValid(e)
    ensures var f := EffectFlow(codec, s, e, d);
            f.dropped + f.refused > 0
            <==> Drops(codec, s, e, d) || (e.Transfer? && Refuses(codec, s, e.from, e.to, e.amount, d))
  {
    if e.Transfer? {
      RefusedIff(codec, s, e.from, e.to, e.amount, d);
      TransferDropsNothing(codec, s, e.from, e.to, e.amount, d);
    }
  }

  lemma {:induction false} TransferDropsNothing(codec: Codec<Balance>, s: Bank, from: AccountName, to: AccountName,
                                                coins: seq<Coin>, d: Bytes)
    ensures TransferFlow(codec, s, from, to, coins, d).dropped == 0
    ensures TransferFlow(codec, s, from, to, coins, d).brought == 0
    decreases |coins|
  {
    if coins != [] {
      TransferDropsNothing(codec, MoveCoin(codec, s, from, to, coins[0]).0, from, to, coins[1..], d);
    }
  }

  lemma {:induction false} HarmsInPrefix(codec: Codec<Balance>, s: Bank, effects: seq<Effect>, n: nat, i: nat, d: Bytes)
    requires i < n <= |effects|
    ensures Harms(codec, s, effects[..n], i, d) <==> Harms(codec, s, effects, i, d)
  {
    assert effects[..n][..i] == effects[..i] && effects[..n][i] == effects[i];
  }

  lemma {:induction false} HarmfulLast(codec: Codec<Balance>, s: Bank, effects: seq<Effect>, d: Bytes)
    requires effects != []
    ensures var n := |effects| - 1;
            IsHarmful(codec, s, effects, d)
            <==> IsHarmful(codec, s, effects[..n], d) || Harms(codec, s, effects, n, d)
  {
    var n := |effects| - 1;
    if i :| 0 <= i < n && Harms(codec, s, effects[..n], i, d) {
      HarmsInPrefix(codec, s, effects, n, i, d);
      assert Harms(codec, s, effects, i, d);
    }
    if i :| 0 <= i < n && Harms(codec, s, effects, i, d) {
      HarmsInPrefix(codec, s, effects, n, i, d);
      assert Harms(codec, s, effects[..n], i, d);
    }
  }

  /** A list loses some of a denomination exactly when one of its effects is reached and does so. */
  lemma {:induction false} LosesIff(codec: Codec<Balance>, s: Bank, effects: seq<Effect>, d: Bytes)
    requires IsSoundBank(codec, s) && AreSoundWrites(codec, effects)
    ensures var f := ListFlow(codec, s, effects, d);
            f.dropped + f.refused > 0 <==> IsHarmful(codec, s, effects, d)
  {
    if effects != [] {
      var n := |effects| - 1;
      LosesIff(codec, s, effects[..n], d);
      HarmfulLast(codec, s, effects, d);
      ExecuteSupply(codec, s, effects[..n], d);
      var before := ApplyAll(codec, s, effects[..n]);
      if before.ok && IsValid(effects[n]) {
        EffectLosesIff(codec, before.bank, effects[n], d);
      }
    }
  }

  /** No write stands for a positive balance under its key. */
  ghost predicate MintsNothing(codec: Codec<Balance>, effects: seq<Effect>) {
    forall i :: 0 <= i < |effects| && effects[i].Write? ==>
      RecordAmount(RawKey(effects[i]).value, Written(codec, effects[i])) == 0
  }

  lemma {:induction false} MintsNothingBringsNothing(codec: Codec<Balance>, s: Bank, effects: seq<Effect>, d: Bytes)
    requires MintsNothing(codec, effects)
    ensures ListFlow(codec, s, effects, d).brought == 0
  {
    if effects != [] {
      var n := |effects| - 1;
      MintsNothingBringsNothing(codec, s, effects[..n], d);
      var e := effects[n];
      if e.Transfer? {
        TransferDropsNothing(codec, ApplyAll(codec, s, effects[..n]).bank, e.from, e.to, e.amount, d);
      }
    }
  }
}
