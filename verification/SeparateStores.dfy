/** When the wired stores act as a key store and a balance map of their own. */
module SeparateStores {
  import opened Basics
  import opened Accounts
  import opened Effects
  import opened Codecs
  import opened Balances
  import opened Records
  import opened Cache
  import opened CachedStore
  import opened Agreement
  import opened SharedStore
  import opened BankSupply
  import opened BankBound
  import Executor

  // ---- The two interfaces as two maps ----

  /** Raw effects use none of the given balance keys. */
  ghost predicate IsApart(e: Effect, keys: set<Bytes>) {
    match e
    case Read(store, key, _) => FullKey(store, key) !in keys
    case Write(store, key, _) => FullKey(store, key) !in keys
    case Delete(store, key) => FullKey(store, key) !in keys
    case _ => true
  }

  ghost predicate AreApart(effects: seq<Effect>, keys: set<Bytes>) {
    forall i :: 0 <= i < |effects| ==> IsApart(effects[i], keys)
  }

  ghost predicate SameOff(data: Data, data': Data, keys: set<Bytes>) {
    forall k :: k !in keys ==> DataAt(data, k) == DataAt(data', k)
  }

  /** Usable records under the balance keys, with the balances of the map. */
  ghost predicate HoldsState(r: Records, o: Executor.State, keys: set<Bytes>) {
    forall a, d :: IsValidName(a) && d != [] && BalanceKey(a, d) in keys ==>
      IsUsable(r, a, d) && AmountAt(r, a, d) == Executor.Balance(o, a, d)
  }

  /** Off the balance keys the key store, on them what the balance store shows; everything cached is on them. */
  ghost predicate Represents(codec: Codec<Balance>, s: Bank, o: Executor.State, keys: set<Bytes>) {
    SameOff(s.backing, o.store, keys) && HoldsState(View(codec, s), o, keys) && s.l1.items.Keys <= keys
  }

  lemma {:induction false} WithHolds(r: Records, o: Executor.State, keys: set<Bytes>, account: AccountName,
                                     denom: Bytes, amount: Uint64)
    requires HoldsState(r, o, keys) && IsValidName(account) && denom != []
    ensures HoldsState(With(r, account, denom, amount), Executor.SetBalance(o, account, denom, amount), keys)
  {
    var k, r' := BalanceKey(account, denom), With(r, account, denom, amount);
    PutHeld(r, k, Some(Balance(account, denom, amount)));
    forall a, d | IsValidName(a) && d != [] && BalanceKey(a, d) in keys
      ensures IsUsable(r', a, d)
      ensures AmountAt(r', a, d) == Executor.Balance(Executor.SetBalance(o, account, denom, amount), a, d)
    {
      assert IsUsable(r, a, d) && AmountAt(r, a, d) == Executor.Balance(o, a, d);
      if BalanceKey(a, d) == k {
        BalanceKeyInjective(a, d, account, denom);
      }
    }
  }

  lemma {:induction false} PaidHolds(r: Records, o: Executor.State, keys: set<Bytes>, from: AccountName, coin: Coin)
    requires HoldsState(r, o, keys) && IsValidName(from) && coin.denom != [] && BalanceKey(from, coin.denom) in keys
    ensures var have := Executor.Balance(o, from, coin.denom);
            && (CanPay(r, from, coin) <==> coin.amount <= have)
            && (coin.amount <= have ==>
                  HoldsState(Paid(r, from, coin), Executor.SetBalance(o, from, coin.denom, have - coin.amount), keys))
  {
    var have := Executor.Balance(o, from, coin.denom);
    assert IsUsable(r, from, coin.denom) && AmountAt(r, from, coin.denom) == have;
    if coin.amount <= have {
      WithHolds(r, o, keys, from, coin.denom, have - coin.amount);
    }
  }

  lemma {:induction false} ReceivedHolds(r: Records, o: Executor.State, keys: set<Bytes>, to: AccountName, coin: Coin)
    requires HoldsState(r, o, keys) && IsValidName(to) && coin.denom != [] && BalanceKey(to, coin.denom) in keys
    ensures var held := Executor.Balance(o, to, coin.denom);
            && (HasRoom(r, to, coin) <==> held <= MAX_UINT64 - coin.amount)
            && HoldsState(Received(r, to, coin),
                          if held <= MAX_UINT64 - coin.amount
                          then Executor.SetBalance(o, to, coin.denom, held + coin.amount) else o, keys)
  {
    var held := Executor.Balance(o, to, coin.denom);
    assert IsUsable(r, to, coin.denom) && AmountAt(r, to, coin.denom) == held;
    if held <= MAX_UINT64 - coin.amount {
      WithHolds(r, o, keys, to, coin.denom, held + coin.amount);
    }
  }

  lemma {:induction false} MovedHolds(r: Records, o: Executor.State, keys: set<Bytes>, from: AccountName,
                                      to: AccountName, coin: Coin)
    requires HoldsState(r, o, keys) && IsValidName(from) && IsValidName(to) && coin.denom != [] && coin.amount > 0
    requires BalanceKey(from, coin.denom) in keys && BalanceKey(to, coin.denom) in keys
    ensures var (o', ok) := Executor.MoveCoin(o, from, to, coin);
            ok == CanMove(r, from, to, coin) && HoldsState(Moved(r, from, to, coin), o', keys)
  {
    hide HoldsState, Paid, Received, IsUsable, AmountAt;
    PaidHolds(r, o, keys, from, coin);
    var have := Executor.Balance(o, from, coin.denom);
    if coin.amount <= have {
      RoomAfterPaying(r, from, to, coin);
      ReceivedHolds(Paid(r, from, coin), Executor.SetBalance(o, from, coin.denom, have - coin.amount), keys, to, coin);
    }
  }

  /** The bank fits, its cached and named keys are balance keys, and the rest is as in the two maps. */
  ghost predicate Tracks(codec: Codec<Balance>, s: Bank, o: Executor.State, keys: set<Bytes>, named: set<Bytes>) {
    Represents(codec, s, o, keys) && Fits(codec, s, named) && named <= keys && |named| <= s.l1.capacity
  }

  lemma {:induction false} CoinRepresents(codec: Codec<Balance>, s: Bank, o: Executor.State, keys: set<Bytes>,
                                          named: set<Bytes>, from: AccountName, to: AccountName, coin: Coin)
    requires Tracks(codec, s, o, keys, named) && IsValidName(from) && IsValidName(to)
    requires coin.denom != [] && coin.amount > 0
    requires BalanceKey(from, coin.denom) in named && BalanceKey(to, coin.denom) in named
    ensures var (t, ok) := MoveCoin(codec, s, from, to, coin);
            var (o', ok') := Executor.MoveCoin(o, from, to, coin);
            ok == ok' && Tracks(codec, t, o', keys, named)
  {
    hide MoveCoin, Fits;
    var r := View(codec, s);
    assert Serves(r, from, to, coin.denom);
    MoveCoinFits(codec, s, named, from, to, coin, []);
    MovedHolds(r, o, keys, from, to, coin);
  }

  lemma {:induction false} TransferRepresents(codec: Codec<Balance>, s: Bank, o: Executor.State, keys: set<Bytes>,
                                              named: set<Bytes>, from: AccountName, to: AccountName, coins: seq<Coin>)
    requires Tracks(codec, s, o, keys, named) && IsValidName(from) && IsValidName(to) && AreCoins(coins)
    requires UsesOnly(from, to, coins, named)
    ensures var (t, ok) := TransferCoins(codec, s, from, to, coins);
            var (o', ok') := Executor.TransferCoins(o, from, to, coins);
            ok == ok' && Tracks(codec, t, o', keys, named)
    decreases |coins|
  {
    hide MoveCoin, Executor.MoveCoin, Tracks;
    if coins != [] {
      CoinRepresents(codec, s, o, keys, named, from, to, coins[0]);
      var (t, ok) := MoveCoin(codec, s, from, to, coins[0]);
      if ok {
        TransferRepresents(codec, t, Executor.MoveCoin(o, from, to, coins[0]).0, keys, named, from, to, coins[1..]);
      }
    }
  }

  lemma {:induction false} RawHolds(codec: Codec<Balance>, s: Bank, o: Executor.State, keys: set<Bytes>, e: Effect)
    requires HoldsState(View(codec, s), o, keys) && IsApart(e, keys) && IsValid(e) && RawKey(e).Some?
    ensures HoldsState(View(codec, ApplyEffect(codec, s, e).bank), Executor.ApplyEffect(o, e).state, keys)
  {
    var r, r', o' := View(codec, s), View(codec, ApplyEffect(codec, s, e).bank), Executor.ApplyEffect(o, e).state;
    assert forall k :: k in keys ==> (k in r' <==> k in r) && (k in r ==> r'[k] == r[k]) by {
      RawView(codec, s, e);
    }
    forall a, d | IsValidName(a) && d != [] && BalanceKey(a, d) in keys
      ensures IsUsable(r', a, d) && AmountAt(r', a, d) == Executor.Balance(o', a, d)
    {
      assert IsUsable(r, a, d) && AmountAt(r, a, d) == Executor.Balance(o, a, d);
    }
  }

  lemma {:induction false} RawRepresents(codec: Codec<Balance>, s: Bank, o: Executor.State, keys: set<Bytes>,
                                         named: set<Bytes>, e: Effect)
    requires Tracks(codec, s, o, keys, named) && IsApart(e, keys) && IsValid(e) && RawKey(e).Some?
    ensures Tracks(codec, ApplyEffect(codec, s, e).bank, Executor.ApplyEffect(o, e).state, keys, named)
  {
    hide View, HoldsState, AgreesWithin;
    RawHolds(codec, s, o, keys, e);
    BackingAgrees(codec, s, named, HasSlash, ApplyEffect(codec, s, e).bank.backing);
  }

  lemma {:induction false} EffectRepresents(codec: Codec<Balance>, s: Bank, o: Executor.State, keys: set<Bytes>,
                                            named: set<Bytes>, e: Effect)
    requires Tracks(codec, s, o, keys, named) && IsApart(e, keys) && Uses(e, named)
    ensures var r, p := ApplyEffect(codec, s, e), Executor.ApplyEffect(o, e);
            r.ok == p.ok && r.events == p.events && Tracks(codec, r.bank, p.state, keys, named)
  {
    hide Tracks;
    if IsValid(e) {
      if e.Transfer? {
        TransferRepresents(codec, s, o, keys, named, e.from, e.to, e.amount);
      } else if RawKey(e).Some? {
        RawRepresents(codec, s, o, keys, named, e);
      } else if e.Read? {
        ReadsSame(codec, s, o, keys, named, FullKey(e.store, e.key));
      }
    }
  }

  lemma {:induction false} ReadsSame(codec: Codec<Balance>, s: Bank, o: Executor.State, keys: set<Bytes>,
                                     named: set<Bytes>, k: Bytes)
    requires Tracks(codec, s, o, keys, named) && k !in keys
    ensures k in s.backing <==> k in o.store
  {
    assert DataAt(s.backing, k) == DataAt(o.store, k);
  }

  /**
   While raw effects keep off the balance keys that are cached or used, and the used ones fit in the cache,
   execution on the wired stores is execution on a key store and a balance map of their own.
   */
  lemma {:induction false} SharedIsSeparate(codec: Codec<Balance>, s: Bank, o: Executor.State, keys: set<Bytes>,
                                            named: set<Bytes>, effects: seq<Effect>)
    requires Tracks(codec, s, o, keys, named) && AreApart(effects, keys) && AllUse(effects, named)
    ensures var r, p := ApplyAll(codec, s, effects), Executor.ApplyAll(o, effects);
            r.ok == p.ok && r.events == p.events && Tracks(codec, r.bank, p.state, keys, named)
  {
    hide Tracks, ApplyEffect, Executor.ApplyEffect;
    if effects != [] {
      var n := |effects| - 1;
      SharedIsSeparate(codec, s, o, keys, named, effects[..n]);
      if ApplyAll(codec, s, effects[..n]).ok {
        var before := ApplyAll(codec, s, effects[..n]).bank;
        EffectRepresents(codec, before, Executor.ApplyAll(o, effects[..n]).state, keys, named, effects[n]);
      }
    }
  }

  /** The two maps that the wired stores amount to, split at the given balance keys. */
  ghost function Separated(codec: Codec<Balance>, s: Bank, keys: set<Bytes>): Executor.State {
    Executor.State(s.backing - keys, Split(Held(View(codec, s)), keys))
  }

  ghost function Owners(held: map<Bytes, Balance>, keys: set<Bytes>): set<(AccountName, Bytes)> {
    set k | k in held && k in keys :: (held[k].account, held[k].denom)
  }

  ghost function Split(held: map<Bytes, Balance>, keys: set<Bytes>): map<(AccountName, Bytes), Uint64> {
    map p | p in Owners(held, keys) :: Amount(held, p.0, p.1)
  }

  lemma {:induction false} SplitAmount(held: map<Bytes, Balance>, keys: set<Bytes>, a: AccountName, d: Bytes)
    requires HoldsBalances(held) && IsValidName(a) && d != [] && BalanceKey(a, d) in keys
    ensures Amount(held, a, d) == if (a, d) in Split(held, keys) then Split(held, keys)[(a, d)] else 0
  {
    var k := BalanceKey(a, d);
    if k in held {
      BalanceKeyInjective(a, d, held[k].account, held[k].denom);
      assert (held[k].account, held[k].denom) in Owners(held, keys);
    }
  }

  /** Any stores can be split at keys that include the cached ones and whose records are usable. */
  lemma {:induction false} SeparatedIsRepresented(codec: Codec<Balance>, s: Bank, keys: set<Bytes>)
    requires s.l1.items.Keys <= keys
    requires forall a, d :: IsValidName(a) && d != [] && BalanceKey(a, d) in keys ==> IsUsable(View(codec, s), a, d)
    ensures Represents(codec, s, Separated(codec, s, keys), keys)
  {
    var r, o := View(codec, s), Separated(codec, s, keys);
    forall a, d | IsValidName(a) && d != [] && BalanceKey(a, d) in keys
      ensures AmountAt(r, a, d) == Executor.Balance(o, a, d)
    {
      SplitAmount(Held(r), keys, a, d);
    }
  }
}
