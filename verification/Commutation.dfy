/** When a raw effect and a transfer can be swapped on the wired stores (`effects/executor.go`). */
module Commutation {
  import opened Basics
  import opened Accounts
  import opened Order
  import opened Effects
  import opened Codecs
  import opened Balances
  import opened Records
  import opened Cache
  import opened CachedStore
  import opened Agreement
  import opened SharedStore
  import opened BankSupply
  import opened BankBound
  import Execution

  // ---- What a transfer reads of the state store ----

  /** The other data is the same under the balance keys of the accounts. */
  ghost predicate SameUnder(data: Data, data': Data, from: AccountName, to: AccountName, coins: seq<Coin>) {
    forall i :: 0 <= i < |coins| ==>
      && DataAt(data, BalanceKey(from, coins[i].denom)) == DataAt(data', BalanceKey(from, coins[i].denom))
      && DataAt(data, BalanceKey(to, coins[i].denom)) == DataAt(data', BalanceKey(to, coins[i].denom))
  }

  lemma {:induction false} FetchElsewhere(codec: Codec<Balance>, s: Bank, data: Data, account: AccountName,
                                          denom: Bytes)
    requires DataAt(data, BalanceKey(account, denom)) == DataAt(s.backing, BalanceKey(account, denom))
    ensures var (t, b) := FetchFrom(codec, s, account, denom);
            t.backing == s.backing
            && FetchFrom(codec, s.(backing := data), account, denom) == (t.(backing := data), b)
  {
    var k := BalanceKey(account, denom);
    assert Decoded(codec, data, k) == Decoded(codec, s.backing, k);
    assert GetResult(codec, s.(backing := data), k) == GetResult(codec, s, k);
    assert AfterGet(codec, s.(backing := data), k) == AfterGet(codec, s, k).(backing := data);
  }

  lemma {:induction false} DebitElsewhere(codec: Codec<Balance>, s: Bank, data: Data, account: AccountName, coin: Coin)
    requires DataAt(data, BalanceKey(account, coin.denom)) == DataAt(s.backing, BalanceKey(account, coin.denom))
    ensures var (t, ok) := Debit(codec, s, account, coin);
            t.backing == s.backing && Debit(codec, s.(backing := data), account, coin) == (t.(backing := data), ok)
  {
    hide FetchFrom;
    FetchElsewhere(codec, s, data, account, coin.denom);
  }

  lemma {:induction false} CreditElsewhere(codec: Codec<Balance>, s: Bank, data: Data, account: AccountName, coin: Coin)
    requires DataAt(data, BalanceKey(account, coin.denom)) == DataAt(s.backing, BalanceKey(account, coin.denom))
    ensures var (t, ok) := Credit(codec, s, account, coin);
            t.backing == s.backing && Credit(codec, s.(backing := data), account, coin) == (t.(backing := data), ok)
  {
    hide FetchFrom;
    FetchElsewhere(codec, s, data, account, coin.denom);
  }

  lemma {:induction false} CoinElsewhere(codec: Codec<Balance>, s: Bank, data: Data, from: AccountName, to: AccountName,
                                         coin: Coin)
    requires DataAt(data, BalanceKey(from, coin.denom)) == DataAt(s.backing, BalanceKey(from, coin.denom))
    requires DataAt(data, BalanceKey(to, coin.denom)) == DataAt(s.backing, BalanceKey(to, coin.denom))
    ensures var (t, ok) := MoveCoin(codec, s, from, to, coin);
            t.backing == s.backing && MoveCoin(codec, s.(backing := data), from, to, coin) == (t.(backing := data), ok)
  {
    hide Debit, Credit;
    DebitElsewhere(codec, s, data, from, coin);
    CreditElsewhere(codec, Debit(codec, s, from, coin).0, data, to, coin);
  }

  /** A transfer reads the state store under its balance keys only, and never writes it. */
  lemma {:induction false} TransferElsewhere(codec: Codec<Balance>, s: Bank, data: Data, from: AccountName,
                                             to: AccountName, coins: seq<Coin>)
    requires SameUnder(data, s.backing, from, to, coins)
    ensures var (t, ok) := TransferCoins(codec, s, from, to, coins);
            t.backing == s.backing
            && TransferCoins(codec, s.(backing := data), from, to, coins) == (t.(backing := data), ok)
    decreases |coins|
  {
    hide MoveCoin;
    if coins != [] {
      CoinElsewhere(codec, s, data, from, to, coins[0]);
      var (t, ok) := MoveCoin(codec, s, from, to, coins[0]);
      if ok {
        TransferElsewhere(codec, t, data, from, to, coins[1..]);
      }
    }
  }

  // ---- When a transfer succeeds ----

  ghost predicate AllMove(r: Records, from: AccountName, to: AccountName, coins: seq<Coin>) {
    forall i :: 0 <= i < |coins| ==> CanMove(r, from, to, coins[i])
  }

  lemma {:induction false} AllMoveFirst(r: Records, from: AccountName, to: AccountName, coins: seq<Coin>)
    requires coins != []
    ensures AllMove(r, from, to, coins) <==> CanMove(r, from, to, coins[0]) && AllMove(r, from, to, coins[1..])
  {
    hide CanMove;
    assert forall i :: 0 < i < |coins| ==> coins[i] == coins[1..][i - 1];
  }

  lemma {:induction false} WithKeepsOthers(r: Records, account: AccountName, denom: Bytes, amount: Uint64,
                                           a: AccountName, d: Bytes)
    requires IsValidName(account) && IsValidName(a) && denom != [] && d != [] && d != denom
    ensures IsUsable(With(r, account, denom, amount), a, d) == IsUsable(r, a, d)
    ensures AmountAt(With(r, account, denom, amount), a, d) == AmountAt(r, a, d)
  {
    if BalanceKey(account, denom) == BalanceKey(a, d) {
      BalanceKeyInjective(account, denom, a, d);
    }
    PutHeld(r, BalanceKey(account, denom), Some(Balance(account, denom, amount)));
  }

  lemma {:induction false} MovedKeepsOthers(r: Records, from: AccountName, to: AccountName, coin: Coin, c: Coin)
    requires IsValidName(from) && IsValidName(to) && coin.denom != [] && c.denom != [] && c.denom != coin.denom
    ensures CanMove(Moved(r, from, to, coin), from, to, c) == CanMove(r, from, to, c)
  {
    var paid := Paid(r, from, coin);
    forall a | a == from || a == to
      ensures IsUsable(Moved(r, from, to, coin), a, c.denom) == IsUsable(r, a, c.denom)
      ensures AmountAt(Moved(r, from, to, coin), a, c.denom) == AmountAt(r, a, c.denom)
    {
      WithKeepsOthers(r, from, coin.denom, Left(AmountAt(r, from, coin.denom), coin), a, c.denom);
      WithKeepsOthers(paid, to, coin.denom, Sum(AmountAt(paid, to, coin.denom), coin), a, c.denom);
    }
  }

  lemma {:induction false} MovedKeepsRest(r: Records, from: AccountName, to: AccountName, coins: seq<Coin>)
    requires IsValidName(from) && IsValidName(to) && AreCoins(coins) && coins != []
    requires forall i :: 0 < i < |coins| ==> coins[i].denom != coins[0].denom
    ensures AllMove(Moved(r, from, to, coins[0]), from, to, coins[1..]) <==> AllMove(r, from, to, coins[1..])
  {
    hide CanMove, Moved;
    forall i | 0 <= i < |coins| - 1
      ensures CanMove(Moved(r, from, to, coins[0]), from, to, coins[1..][i]) == CanMove(r, from, to, coins[1..][i])
    {
      MovedKeepsOthers(r, from, to, coins[0], coins[i + 1]);
    }
  }

  /** Within the bound a transfer succeeds exactly when each of its coins could be moved at the start. */
  lemma {:induction false} TransferOkIff(codec: Codec<Balance>, s: Bank, named: set<Bytes>, from: AccountName,
                                         to: AccountName, coins: seq<Coin>)
    requires IsSound(View(codec, s)) && IsValidName(from) && IsValidName(to) && AreCoins(coins)
    requires forall i, j :: 0 <= i < j < |coins| ==> coins[i].denom != coins[j].denom
    requires Fits(codec, s, named) && UsesOnly(from, to, coins, named) && |named| <= s.l1.capacity
    ensures TransferCoins(codec, s, from, to, coins).1 <==> AllMove(View(codec, s), from, to, coins)
    decreases |coins|
  {
    hide MoveCoin, Fits, View, IsSound, CanMove, Moved, SpillOfCoin;
    if coins != [] {
      hide AllMove;
      var r := View(codec, s);
      MoveCoinFits(codec, s, named, from, to, coins[0], []);
      var (t, ok) := MoveCoin(codec, s, from, to, coins[0]);
      if ok {
        MovedIsSound(r, from, to, coins[0]);
        TransferOkIff(codec, t, named, from, to, coins[1..]);
        MovedKeepsRest(r, from, to, coins);
      }
      AllMoveFirst(r, from, to, coins);
    }
  }

  // ---- Swapping a raw effect and a transfer ----

  /** Both orders succeed or neither does, and if they do they leave the same stores. */
  ghost predicate Agree(codec: Codec<Balance>, s: Bank, e: Effect, t: Effect) {
    var first, second := ApplyAll(codec, s, [e, t]), ApplyAll(codec, s, [t, e]);
    first.ok == second.ok && (first.ok ==> first.bank == second.bank)
  }

  lemma {:induction false} ApplyTwo(codec: Codec<Balance>, s: Bank, e: Effect, f: Effect)
    ensures var first := ApplyEffect(codec, s, e);
            var r := ApplyAll(codec, s, [e, f]);
            && r.ok == (first.ok && ApplyEffect(codec, first.bank, f).ok)
            && (r.ok ==> r.bank == ApplyEffect(codec, first.bank, f).bank)
  {
    hide ApplyEffect;
    assert [e, f][..1] == [e] && [e][..0] == [];
    assert ApplyAll(codec, s, []) == Outcome(s, [], true);
    assert ApplyAll(codec, s, [e]).bank == ApplyEffect(codec, s, e).bank;
  }

  /** The state store after a raw effect, which does not depend on the cache. */
  function RawData(data: Data, e: Effect): Data {
    match e
    case Write(store, key, value) => data[FullKey(store, key) := value]
    case Delete(store, key) => data - {FullKey(store, key)}
    case _ => data
  }

  lemma {:induction false} RawApplies(codec: Codec<Balance>, s: Bank, e: Effect)
    requires IsValid(e) && !e.Transfer?
    ensures ApplyEffect(codec, s, e).bank == s.(backing := RawData(s.backing, e))
    ensures ApplyEffect(codec, s, e).ok <==> !e.Read? || FullKey(e.store, e.key) in s.backing
  {
  }

  /** An effect that is not valid fails and changes nothing. */
  lemma {:induction false} InvalidChangesNothing(codec: Codec<Balance>, s: Bank, e: Effect)
    requires !Execution.IsSane(e)
    ensures ApplyEffect(codec, s, e) == Outcome(s, [], false)
  {
    Execution.ValidIff(e);
  }

  lemma {:induction false} OrdersAre(codec: Codec<Balance>, s: Bank, e: Effect, t: Effect)
    requires IsValid(e) && !e.Transfer? && IsValid(t) && t.Transfer?
    ensures var paid := TransferCoins(codec, s, t.from, t.to, t.amount);
            var after := TransferCoins(codec, s.(backing := RawData(s.backing, e)), t.from, t.to, t.amount);
            var first, second := ApplyAll(codec, s, [e, t]), ApplyAll(codec, s, [t, e]);
            && first.ok == ((e.Read? ==> FullKey(e.store, e.key) in s.backing) && after.1)
            && (first.ok ==> first.bank == after.0)
            && second.ok == (paid.1 && (e.Read? ==> FullKey(e.store, e.key) in paid.0.backing))
            && (second.ok ==> second.bank == paid.0.(backing := RawData(paid.0.backing, e)))
  {
    hide TransferCoins;
    ApplyTwo(codec, s, e, t);
    ApplyTwo(codec, s, t, e);
    RawApplies(codec, s, e);
    var paid := ApplyEffect(codec, s, t).bank;
    assert ApplyEffect(codec, s, t) == Outcome(paid, [], TransferCoins(codec, s, t.from, t.to, t.amount).1);
    RawApplies(codec, paid, e);
  }

  lemma {:induction false} AgreeElsewhere(codec: Codec<Balance>, s: Bank, e: Effect, t: Effect)
    requires IsValid(e) && !e.Transfer? && IsValid(t) && t.Transfer?
    requires RawKey(e).Some? ==> RawKey(e).value !in TransferKeys(t.from, t.to, t.amount)
    ensures Agree(codec, s, e, t)
  {
    hide TransferCoins;
    var data := RawData(s.backing, e);
    assert UsesOnly(t.from, t.to, t.amount, TransferKeys(t.from, t.to, t.amount));
    assert forall k :: Some(k) != RawKey(e) ==> DataAt(data, k) == DataAt(s.backing, k);
    TransferElsewhere(codec, s, data, t.from, t.to, t.amount);
    OrdersAre(codec, s, e, t);
  }

  /** The payer has each coin, and no one anything else. */
  ghost function Exactly(codec: Codec<Balance>, from: AccountName, coins: seq<Coin>): Data
    decreases |coins|
  {
    if coins == [] then map[]
    else
      Exactly(codec, from, coins[1..])
        [BalanceKey(from, coins[0].denom) := codec.marshal(Balance(from, coins[0].denom, coins[0].amount))]
  }

  lemma {:induction false} ExactlyHas(codec: Codec<Balance>, from: AccountName, coins: seq<Coin>, i: nat)
    requires IsValidName(from) && AreCoins(coins) && i < |coins|
    requires forall i, j :: 0 <= i < j < |coins| ==> coins[i].denom != coins[j].denom
    ensures var k := BalanceKey(from, coins[i].denom);
            var data := Exactly(codec, from, coins);
            k in data && data[k] == codec.marshal(Balance(from, coins[i].denom, coins[i].amount))
    decreases |coins|
  {
    if i > 0 {
      ExactlyHas(codec, from, coins[1..], i - 1);
      if BalanceKey(from, coins[0].denom) == BalanceKey(from, coins[i].denom) {
        BalanceKeyInjective(from, coins[0].denom, from, coins[i].denom);
      }
    }
  }

  lemma {:induction false} ExactlyOnly(codec: Codec<Balance>, from: AccountName, coins: seq<Coin>, k: Bytes)
    returns (i: nat)
    requires k in Exactly(codec, from, coins)
    ensures i < |coins| && k == BalanceKey(from, coins[i].denom)
    ensures Exactly(codec, from, coins)[k] == codec.marshal(Balance(from, coins[i].denom, coins[i].amount))
    decreases |coins|
  {
    if k == BalanceKey(from, coins[0].denom) {
      i := 0;
    } else {
      i := ExactlyOnly(codec, from, coins[1..], k);
      i := i + 1;
    }
  }

  /** Stores with nothing cached, and room for every balance of the transfer. */
  function Fresh(data: Data, keys: set<Bytes>): Bank {
    Store(Lru(|keys| + 1, [], map[]), Lru(1, [], map[]), data)
  }

  lemma {:induction false} FreshFits(codec: Codec<Balance>, data: Data, keys: set<Bytes>)
    ensures Fits(codec, Fresh(data, keys), keys) && View(codec, Fresh(data, keys)) == Below(codec, data)
  {
    var s := Fresh(data, keys);
    assert s.l1.order[..0] == [];
    assert Agrees(codec, s, {}, HasSlash);
  }

  lemma {:induction false} ExactlyIsSound(codec: Codec<Balance>, from: AccountName, coins: seq<Coin>)
    requires IsFaithful(codec)
    ensures IsSound(Below(codec, Exactly(codec, from, coins)))
  {
    var data := Exactly(codec, from, coins);
    forall k | k in data ensures IsSoundAt(k, Below(codec, data)[k]) {
      var i := ExactlyOnly(codec, from, coins, k);
    }
  }

  /** Where the payer has each coin and the receiver nothing, every coin can be moved. */
  lemma {:induction false} ExactlyMoves(codec: Codec<Balance>, from: AccountName, to: AccountName, coins: seq<Coin>)
    requires IsFaithful(codec) && IsValidName(from) && IsValidName(to) && AreCoins(coins)
    requires forall i, j :: 0 <= i < j < |coins| ==> coins[i].denom != coins[j].denom
    ensures AllMove(Below(codec, Exactly(codec, from, coins)), from, to, coins)
  {
    var r := Below(codec, Exactly(codec, from, coins));
    forall i | 0 <= i < |coins| ensures CanMove(r, from, to, coins[i]) {
      var b := Balance(from, coins[i].denom, coins[i].amount);
      ExactlyHas(codec, from, coins, i);
      HeldIsUsable(r, b);
      var k := BalanceKey(to, coins[i].denom);
      if from != to && k in r {
        var j := ExactlyOnly(codec, from, coins, k);
        BalanceKeyInjective(to, coins[i].denom, from, coins[j].denom);
      }
    }
  }

  lemma {:induction false} DenomsDiffer(coins: seq<Coin>)
    requires ValidCoins(coins)
    ensures forall i, j :: 0 <= i < j < |coins| ==> coins[i].denom != coins[j].denom
  {
    forall i, j | 0 <= i < j < |coins| ensures coins[i].denom != coins[j].denom {
      LessIrreflexive(coins[i].denom);
    }
  }

  lemma {:induction false} FreshOkIff(codec: Codec<Balance>, data: Data, t: Effect)
    requires IsValid(t) && t.Transfer? && IsSound(Below(codec, data))
    ensures var keys := TransferKeys(t.from, t.to, t.amount);
            && IsSoundBank(codec, Fresh(data, keys))
            && (TransferCoins(codec, Fresh(data, keys), t.from, t.to, t.amount).1
                <==> AllMove(Below(codec, data), t.from, t.to, t.amount))
  {
    var keys := TransferKeys(t.from, t.to, t.amount);
    FreshFits(codec, data, keys);
    DenomsDiffer(t.amount);
    TransferOkIff(codec, Fresh(data, keys), keys, t.from, t.to, t.amount);
  }

  /** A record that stops the coin: an empty balance of the payer, or a full one of the receiver. */
  function Blocking(from: AccountName, to: AccountName, denom: Bytes, paying: bool): Balance {
    if paying then Balance(from, denom, 0) else Balance(to, denom, MAX_UINT64)
  }

  lemma {:induction false} BlockingBlocks(codec: Codec<Balance>, data: Data, from: AccountName, to: AccountName,
                                          coin: Coin, paying: bool)
    requires IsFaithful(codec) && IsValidName(from) && IsValidName(to) && coin.denom != [] && coin.amount > 0
    requires paying || from != to
    ensures var b := Blocking(from, to, coin.denom, paying);
            !CanMove(Below(codec, data[BalanceKey(b.account, b.denom) := codec.marshal(b)]), from, to, coin)
  {
    var b := Blocking(from, to, coin.denom, paying);
    HeldIsUsable(Below(codec, data[BalanceKey(b.account, b.denom) := codec.marshal(b)]), b);
  }

  /** Replacing the record of one key by a blocking one keeps the records sound. */
  lemma {:induction false} PutIsSound(codec: Codec<Balance>, data: Data, b: Balance)
    requires IsFaithful(codec) && IsSound(Below(codec, data))
    ensures IsSound(Below(codec, data[BalanceKey(b.account, b.denom) := codec.marshal(b)]))
  {
    var k := BalanceKey(b.account, b.denom);
    var r := Below(codec, data[k := codec.marshal(b)]);
    forall x | x in r ensures IsSoundAt(x, r[x]) {
      if x != k {
        assert IsSoundAt(x, Below(codec, data)[x]);
      }
    }
  }

  /** The coin of the transfer that the raw key is about, and whether it is the payer's. */
  lemma {:induction false} CoinOf(from: AccountName, to: AccountName, coins: seq<Coin>, k: Bytes)
    returns (i: nat, paying: bool)
    requires k in TransferKeys(from, to, coins)
    ensures i < |coins| && (paying || from != to)
    ensures k == BalanceKey(if paying then from else to, coins[i].denom)
  {
    if exists j :: 0 <= j < |coins| && k == BalanceKey(from, coins[j].denom) {
      i :| i < |coins| && k == BalanceKey(from, coins[i].denom);
      paying := true;
    } else {
      i :| 0 <= i < |coins| && k == BalanceKey(to, coins[i].denom);
      paying := false;
    }
  }

  lemma {:induction false} NotAll(r: Records, from: AccountName, to: AccountName, coins: seq<Coin>, i: nat)
    requires i < |coins| && !CanMove(r, from, to, coins[i])
    ensures !AllMove(r, from, to, coins)
  {
  }

  /** Where the raw key is one of the transfer's, some sound stores tell the orders apart. */
  lemma {:induction false} Disagree(codec: Codec<Balance>, e: Effect, t: Effect) returns (s: Bank)
    requires IsFaithful(codec) && IsValid(e) && RawKey(e).Some? && IsValid(t) && t.Transfer?
    requires RawKey(e).value in TransferKeys(t.from, t.to, t.amount)
    ensures IsSoundBank(codec, s) && !Agree(codec, s, e, t)
  {
    hide TransferCoins, AllMove, CanMove, IsSoundBank, TransferKeys;
    var k, keys, data := RawKey(e).value, TransferKeys(t.from, t.to, t.amount), Exactly(codec, t.from, t.amount);
    DenomsDiffer(t.amount);
    ExactlyIsSound(codec, t.from, t.amount);
    ExactlyMoves(codec, t.from, t.to, t.amount);
    FreshOkIff(codec, data, t);
    s := Fresh(data, keys);
    OrdersAre(codec, s, e, t);
    if Agree(codec, s, e, t) {
      var i, paying := CoinOf(t.from, t.to, t.amount, k);
      var b := Blocking(t.from, t.to, t.amount[i].denom, paying);
      var data' := data[k := codec.marshal(b)];
      assert RawData(data', e) == RawData(data, e);
      BlockingBlocks(codec, data, t.from, t.to, t.amount[i], paying);
      PutIsSound(codec, data, b);
      NotAll(Below(codec, data'), t.from, t.to, t.amount, i);
      FreshOkIff(codec, data', t);
      s := Fresh(data', keys);
      OrdersAre(codec, s, e, t);
    }
  }

  /**
   A raw effect and a transfer can be swapped on all sound stores exactly when the effect only reads or
   emits, or its key is none of the transfer's balance keys.
   */
  lemma {:induction false} CommuteIff(codec: Codec<Balance>, e: Effect, t: Effect)
    requires IsFaithful(codec) && IsValid(e) && !e.Transfer? && IsValid(t) && t.Transfer?
    ensures (forall s :: IsSoundBank(codec, s) ==> Agree(codec, s, e, t))
            <==> (RawKey(e).Some? ==> RawKey(e).value !in TransferKeys(t.from, t.to, t.amount))
  {
    if RawKey(e).Some? && RawKey(e).value in TransferKeys(t.from, t.to, t.amount) {
      var s := Disagree(codec, e, t);
    } else {
      forall s | IsSoundBank(codec, s) ensures Agree(codec, s, e, t) {
        AgreeElsewhere(codec, s, e, t);
      }
    }
  }

  /** Where a raw key is a balance key, effects without a declared conflict need not commute. */
  lemma {:induction false} OrderMatters(codec: Codec<Balance>) returns (s: Bank, pay: Effect, drop: Effect)
    requires IsFaithful(codec)
    ensures IsValid(pay) && IsValid(drop) && !Conflicting(pay, drop)
    ensures IsSoundBank(codec, s) && !Agree(codec, s, drop, pay)
  {
    var a: AccountName, b: AccountName, d: Bytes := [97], [98], [100];
    pay, drop := Transfer(a, b, [Coin(d, 1)]), Delete(a, d);
    NoDeclaredConflict(a, b, d);
    assert BalanceKey(a, [Coin(d, 1)][0].denom) in TransferKeys(a, b, [Coin(d, 1)]);
    s := Disagree(codec, drop, pay);
  }

  lemma {:induction false} NoDeclaredConflict(a: AccountName, b: AccountName, d: Bytes)
    requires |a| == |b| == |d| == 1
    ensures !Conflicting(Transfer(a, b, [Coin(d, 1)]), Delete(a, d))
  {
    var pay := Transfer(a, b, [Coin(d, 1)]);
    forall x | x in Dependencies(pay) ensures !x.readOnly && |x.key| != 3 {
      DeclaredKeys(a, b, d);
    }
    assert |FullKey(a, d)| == 3;
    assert WriteKeys(Delete(a, d)) == {FullKey(a, d)} && ReadKeys(Delete(a, d)) == {};
  }

  lemma {:induction false} DeclaredKeys(a: AccountName, b: AccountName, d: Bytes)
    ensures Dependencies(Transfer(a, b, [Coin(d, 1)]))
            == [Dependency(AccountDependency, a, false), Dependency(AccountDependency, b, false),
                Dependency(BalanceDependency, BalanceDependencyKey(a, d), false),
                Dependency(BalanceDependency, BalanceDependencyKey(b, d), false)]
  {
    var coins := [Coin(d, 1)];
    assert coins[..0] == [];
    assert CoinDependencies(a, b, []) == [];
  }
}
