/**
 While the balances touched since the last commit fit in the cache, evictions change nothing: the balance
 store acts on the records it shows, as one map. Past that bound a debit can be undone.
 */
module BankBound {
  import opened Basics
  import opened Accounts
  import opened Effects
  import opened Codecs
  import opened Balances
  import opened Records
  import opened Cache
  import opened CachedStore
  import opened Agreement
  import opened SharedStore
  import opened BankSupply

  /** Balance keys with their records, and nothing unsaved but what was named since the last flush. */
  ghost predicate Fits(codec: Codec<Balance>, s: Bank, named: set<Bytes>) {
    && AgreesWithin(codec, s, named, HasSlash)
    && forall k :: k in s.l1.items ==> HasSlash(k) && s.l1.items[k].value.Some?
  }

  lemma {:induction false} FitsIsLayered(codec: Codec<Balance>, s: Bank, named: set<Bytes>)
    requires Fits(codec, s, named)
    ensures IsLayered(s)
  {
    var touched :| touched <= named && Agrees(codec, s, touched, HasSlash);
  }

  /** The record of a saved entry is the one below. */
  lemma {:induction false} SavedIsBelow(codec: Codec<Balance>, s: Bank, k: Bytes)
    requires k in s.l1.items && s.l1.items[k].value.Some? && !s.l1.items[k].dirty && IsSavedAt(codec, s, k)
    ensures Uncovered(codec, s, Some(k)) == View(codec, s)
    ensures forall d :: HeldAt(Below(codec, s.backing), k, d) == HeldAt(View(codec, s), k, d)
  {
    assert k in s.backing && codec.unmarshal(s.backing[k]) == s.l1.items[k].value;
    assert k in View(codec, s) && View(codec, s)[k] == s.l1.items[k].value;
    assert Below(codec, s.backing)[k] == s.l1.items[k].value;
  }

  lemma {:induction false} VictimIsSaved(codec: Codec<Balance>, s: Bank, named: set<Bytes>, key: Bytes)
    requires Fits(codec, s, named) && |named + {key}| <= s.l1.capacity && Victim(s.l1, key).Some?
    ensures var v := Victim(s.l1, key).value;
            v in s.l1.items && s.l1.items[v].value.Some? && !s.l1.items[v].dirty && IsSavedAt(codec, s, v)
  {
    var touched :| touched <= named && Agrees(codec, s, touched, HasSlash);
    SubsetCount(touched + {key}, named + {key});
    VictimIsUntouched(s.l1, touched, key);
    VictimIsCached(s, key);
  }

  /** Within the bound the evicted entry is what is below. */
  lemma {:induction false} EvictsSaved(codec: Codec<Balance>, s: Bank, named: set<Bytes>, key: Bytes)
    requires Fits(codec, s, named) && |named + {key}| <= s.l1.capacity
    ensures Uncovered(codec, s, Victim(s.l1, key)) == View(codec, s)
    ensures forall d :: Spill(codec, s, key, d) == 0
  {
    if Victim(s.l1, key).Some? {
      VictimIsSaved(codec, s, named, key);
      SavedIsBelow(codec, s, Victim(s.l1, key).value);
    }
  }

  /** The bank still fits, above the same state store, caches named keys at most, and shows the given records. */
  ghost predicate Shows(codec: Codec<Balance>, s: Bank, t: Bank, named: set<Bytes>, r: Records) {
    && Fits(codec, t, named) && t.l1.capacity == s.l1.capacity && t.backing == s.backing && View(codec, t) == r
    && t.l1.items.Keys <= s.l1.items.Keys + named
  }

  lemma {:induction false} StoringKeepsFit(codec: Codec<Balance>, s: Bank, named: set<Bytes>, key: Bytes,
                                           entry: Entry<Balance>)
    requires Fits(codec, s, named) && key in named && |named| <= s.l1.capacity && HasSlash(key)
    requires entry.value.Some? && (entry.dirty || entry.value == Decoded(codec, s.backing, key))
    ensures Fits(codec, s.(l1 := Stored(s.l1, key, entry)), named)
    ensures Stored(s.l1, key, entry).capacity == s.l1.capacity
    ensures Stored(s.l1, key, entry).items.Keys <= s.l1.items.Keys + named
  {
    hide AgreesWithin, Lookup, SeesSame;
    assert named + {key} == named;
    StoringWithin(codec, s, named, HasSlash, key, entry);
    FitsIsLayered(codec, s, named);
    StoredContents(s.l1, key, entry);
  }

  lemma {:induction false} StoringFits(codec: Codec<Balance>, s: Bank, named: set<Bytes>, key: Bytes,
                                       entry: Entry<Balance>)
    requires Fits(codec, s, named) && key in named && |named| <= s.l1.capacity && HasSlash(key)
    requires entry.value.Some? && (entry.dirty || entry.value == Decoded(codec, s.backing, key))
    ensures Shows(codec, s, s.(l1 := Stored(s.l1, key, entry)), named, View(codec, s)[key := entry.value])
    ensures forall d :: Spill(codec, s, key, d) == 0
  {
    assert named + {key} == named;
    StoringKeepsFit(codec, s, named, key, entry);
    EvictsSaved(codec, s, named, key);
    assert View(codec, s.(l1 := Stored(s.l1, key, entry))) == View(codec, s)[key := entry.value] by {
      FitsIsLayered(codec, s, named);
      StoringView(codec, s, key, entry);
    }
  }

  lemma {:induction false} TouchingFits(codec: Codec<Balance>, s: Bank, named: set<Bytes>, key: Bytes)
    requires Fits(codec, s, named) && key in named && key in s.l1.items
    ensures Shows(codec, s, s.(l1 := Touched(s.l1, key)), named, View(codec, s))
  {
    hide AgreesWithin, Lookup;
    assert named + {key} == named;
    TouchingWithin(codec, s, named, HasSlash, key);
  }

  lemma {:induction false} GetFits(codec: Codec<Balance>, s: Bank, named: set<Bytes>, key: Bytes)
    requires Fits(codec, s, named) && key in named && |named| <= s.l1.capacity && HasSlash(key)
    ensures Shows(codec, s, AfterGet(codec, s, key), named, View(codec, s))
    ensures forall d :: SpillOnGet(codec, s, key, d) == 0
  {
    hide Fits, AfterGet, View;
    FitsIsLayered(codec, s, named);
    assert key != [];
    GetCases(codec, s, key);
    if Loads(codec, s, key) {
      StoringFits(codec, s, named, key, Entry(Decoded(codec, s.backing, key), false));
    } else if key in s.l1.items {
      TouchingFits(codec, s, named, key);
    }
  }

  /** The records with one balance set. */
  function With(r: Records, account: AccountName, denom: Bytes, amount: Uint64): Records {
    r[BalanceKey(account, denom) := Some(Balance(account, denom, amount))]
  }

  lemma {:induction false} UpdatedFits(codec: Codec<Balance>, s: Bank, named: set<Bytes>, account: AccountName,
                                       denom: Bytes, amount: Uint64)
    requires Fits(codec, s, named) && BalanceKey(account, denom) in named && |named| <= s.l1.capacity
    ensures Shows(codec, s, Updated(codec, s, account, denom, amount), named,
                  With(View(codec, s), account, denom, amount))
    ensures forall d :: SpillOnUpdate(codec, s, account, denom, d) == 0
  {
    var k := BalanceKey(account, denom);
    BalanceKeyHasSlash(account, denom);
    GetFits(codec, s, named, k);
    StoringFits(codec, AfterGet(codec, s, k), named, k, Entry(Some(Balance(account, denom, amount)), true));
  }

  /** The records after a balance was read, and saved with another amount if that is allowed. */
  function After(r: Records, account: AccountName, denom: Bytes, saved: bool, amount: Uint64): Records {
    if saved then With(r, account, denom, amount) else r
  }

  /** Evictions change nothing in between. */
  ghost predicate SpillsNothing(codec: Codec<Balance>, s: Bank, account: AccountName, denom: Bytes, saved: bool) {
    forall d :: SpillOnChange(codec, s, account, denom, saved, d) == 0
  }

  lemma {:induction false} ChangedFits(codec: Codec<Balance>, s: Bank, named: set<Bytes>, account: AccountName,
                                       denom: Bytes, saved: bool, amount: Uint64)
    requires Fits(codec, s, named) && BalanceKey(account, denom) in named && |named| <= s.l1.capacity
    ensures Shows(codec, s, Changed(codec, s, account, denom, saved, amount), named,
                  After(View(codec, s), account, denom, saved, amount))
    ensures SpillsNothing(codec, s, account, denom, saved)
  {
    BalanceKeyHasSlash(account, denom);
    if saved {
      UpdatedFits(codec, s, named, account, denom, amount);
    } else {
      GetFits(codec, s, named, BalanceKey(account, denom));
    }
  }

  /** The records after the coin was taken off, if it can be paid. */
  function Paid(r: Records, account: AccountName, coin: Coin): Records {
    After(r, account, coin.denom, CanPay(r, account, coin), Left(AmountAt(r, account, coin.denom), coin))
  }

  /** The records after the coin was added, if there is room for it. */
  function Received(r: Records, account: AccountName, coin: Coin): Records {
    After(r, account, coin.denom, HasRoom(r, account, coin), Sum(AmountAt(r, account, coin.denom), coin))
  }

  /** Within the bound a debit takes the coin off the record that is seen, and changes nothing else. */
  lemma {:induction false} DebitFits(codec: Codec<Balance>, s: Bank, named: set<Bytes>, account: AccountName,
                                     coin: Coin)
    requires IsSound(View(codec, s)) || IsUsable(View(codec, s), account, coin.denom)
    requires IsValidName(account) && coin.denom != [] && coin.amount > 0
    requires Fits(codec, s, named) && BalanceKey(account, coin.denom) in named && |named| <= s.l1.capacity
    ensures var t, ok := Debit(codec, s, account, coin).0, CanPay(View(codec, s), account, coin);
            && Debit(codec, s, account, coin).1 == ok
            && Shows(codec, s, t, named, Paid(View(codec, s), account, coin))
            && SpillsNothing(codec, s, account, coin.denom, ok)
  {
    var r := View(codec, s);
    FitsIsLayered(codec, s, named);
    DebitChanges(codec, s, account, coin);
    ChangedFits(codec, s, named, account, coin.denom, CanPay(r, account, coin),
                Left(AmountAt(r, account, coin.denom), coin));
  }

  lemma {:induction false} CreditFits(codec: Codec<Balance>, s: Bank, named: set<Bytes>, account: AccountName,
                                      coin: Coin)
    requires IsSound(View(codec, s)) || IsUsable(View(codec, s), account, coin.denom)
    requires IsValidName(account) && coin.denom != [] && coin.amount > 0
    requires Fits(codec, s, named) && BalanceKey(account, coin.denom) in named && |named| <= s.l1.capacity
    ensures var t, ok := Credit(codec, s, account, coin).0, HasRoom(View(codec, s), account, coin);
            && Credit(codec, s, account, coin).1 == ok
            && Shows(codec, s, t, named, Received(View(codec, s), account, coin))
            && SpillsNothing(codec, s, account, coin.denom, ok)
  {
    var r := View(codec, s);
    FitsIsLayered(codec, s, named);
    CreditChanges(codec, s, account, coin);
    ChangedFits(codec, s, named, account, coin.denom, HasRoom(r, account, coin),
                Sum(AmountAt(r, account, coin.denom), coin));
  }

  /** The balance keys that a transfer uses are among the given ones. */
  ghost predicate UsesOnly(from: AccountName, to: AccountName, coins: seq<Coin>, keys: set<Bytes>) {
    forall i :: 0 <= i < |coins| ==> BalanceKey(from, coins[i].denom) in keys && BalanceKey(to, coins[i].denom) in keys
  }

  function TransferKeys(from: AccountName, to: AccountName, coins: seq<Coin>): (keys: set<Bytes>)
    ensures UsesOnly(from, to, coins, keys)
  {
    (set i | 0 <= i < |coins| :: BalanceKey(from, coins[i].denom))
    + (set i | 0 <= i < |coins| :: BalanceKey(to, coins[i].denom))
  }

  lemma {:induction false} RoomAfterPaying(r: Records, from: AccountName, to: AccountName, coin: Coin)
    requires IsValidName(from) && IsValidName(to) && coin.denom != [] && CanPay(r, from, coin)
    ensures HasRoom(Paid(r, from, coin), to, coin) <==> from == to || HasRoom(r, to, coin)
  {
    var left := Balance(from, coin.denom, AmountAt(r, from, coin.denom) - coin.amount);
    PutHeld(r, BalanceKey(from, coin.denom), Some(left));
    if BalanceKey(from, coin.denom) == BalanceKey(to, coin.denom) {
      BalanceKeyInjective(from, coin.denom, to, coin.denom);
    }
  }

  /** Within the bound a coin is refused exactly when it is paid to another account that has no room for it. */
  lemma {:induction false} RefusedByReceiver(codec: Codec<Balance>, s: Bank, named: set<Bytes>, from: AccountName,
                                             to: AccountName, coin: Coin)
    requires IsSoundBank(codec, s) && IsValidName(from) && IsValidName(to) && coin.denom != [] && coin.amount > 0
    requires Fits(codec, s, named) && BalanceKey(from, coin.denom) in named && |named| <= s.l1.capacity
    ensures IsRefused(codec, s, from, to, coin)
            <==> CanPay(View(codec, s), from, coin) && from != to && !HasRoom(View(codec, s), to, coin)
  {
    var r := View(codec, s);
    assert View(codec, Debit(codec, s, from, coin).0) == Paid(r, from, coin) by {
      DebitFits(codec, s, named, from, coin);
    }
    if CanPay(r, from, coin) {
      RoomAfterPaying(r, from, to, coin);
    }
  }

  /** The records are sound, or at least those of payer and receiver are usable. */
  ghost predicate Serves(r: Records, from: AccountName, to: AccountName, denom: Bytes) {
    IsSound(r) || (IsUsable(r, from, denom) && IsUsable(r, to, denom))
  }

  lemma {:induction false} PaidServes(r: Records, from: AccountName, to: AccountName, coin: Coin)
    requires Serves(r, from, to, coin.denom) && IsValidName(from) && coin.denom != []
    ensures IsSound(r) ==> IsSound(Paid(r, from, coin)) && IsSound(Received(r, from, coin))
    ensures IsSound(Paid(r, from, coin)) || IsUsable(Paid(r, from, coin), to, coin.denom)
  {
  }

  /** The records after a coin was moved as far as it can be. */
  function Moved(r: Records, from: AccountName, to: AccountName, coin: Coin): Records {
    if CanPay(r, from, coin) then Received(Paid(r, from, coin), to, coin) else r
  }

  predicate CanMove(r: Records, from: AccountName, to: AccountName, coin: Coin) {
    CanPay(r, from, coin) && (from == to || HasRoom(r, to, coin))
  }

  lemma {:induction false} ShowsChain(codec: Codec<Balance>, s: Bank, t: Bank, u: Bank, named: set<Bytes>, q: Records,
                                      r: Records)
    requires Shows(codec, s, t, named, q) && Shows(codec, t, u, named, r)
    ensures Shows(codec, s, u, named, r)
  {
  }

  lemma {:induction false} PaidCoinFits(codec: Codec<Balance>, s: Bank, named: set<Bytes>, from: AccountName,
                                        to: AccountName, coin: Coin, paid: Bank)
    requires Shows(codec, s, paid, named, Paid(View(codec, s), from, coin)) && |named| <= s.l1.capacity
    requires Serves(View(codec, s), from, to, coin.denom) && CanPay(View(codec, s), from, coin)
    requires IsValidName(from) && IsValidName(to) && coin.denom != [] && coin.amount > 0
    requires BalanceKey(to, coin.denom) in named
    ensures var (t, ok) := Credit(codec, paid, to, coin);
            && ok == CanMove(View(codec, s), from, to, coin)
            && Shows(codec, s, t, named, Moved(View(codec, s), from, to, coin))
            && SpillsNothing(codec, paid, to, coin.denom, ok)
  {
    var r := View(codec, s);
    PaidServes(r, from, to, coin);
    CreditFits(codec, paid, named, to, coin);
    RoomAfterPaying(r, from, to, coin);
    var t := Credit(codec, paid, to, coin).0;
    ShowsChain(codec, s, paid, t, named, Paid(r, from, coin), Received(Paid(r, from, coin), to, coin));
  }

  /** Within the bound a coin moves on the records that are seen, exactly when it can be paid and received. */
  lemma {:induction false} MoveCoinFits(codec: Codec<Balance>, s: Bank, named: set<Bytes>, from: AccountName,
                                        to: AccountName, coin: Coin, d: Bytes)
    requires Serves(View(codec, s), from, to, coin.denom)
    requires IsValidName(from) && IsValidName(to) && coin.denom != [] && coin.amount > 0
    requires Fits(codec, s, named) && |named| <= s.l1.capacity
    requires BalanceKey(from, coin.denom) in named && BalanceKey(to, coin.denom) in named
    ensures var (t, ok) := MoveCoin(codec, s, from, to, coin);
            ok == CanMove(View(codec, s), from, to, coin)
            && Shows(codec, s, t, named, Moved(View(codec, s), from, to, coin))
    ensures SpillOfCoin(codec, s, from, to, coin, d) == 0
  {
    hide Debit, Credit, Fits;
    DebitFits(codec, s, named, from, coin);
    var (paid, ok) := Debit(codec, s, from, coin);
    if ok {
      PaidCoinFits(codec, s, named, from, to, coin, paid);
      MoveIsCredit(codec, s, from, to, coin, paid);
    }
  }

  lemma {:induction false} MovedIsSound(r: Records, from: AccountName, to: AccountName, coin: Coin)
    requires IsSound(r) && IsValidName(from) && IsValidName(to) && coin.denom != []
    ensures IsSound(Moved(r, from, to, coin))
  {
    PaidServes(r, from, to, coin);
    PaidServes(Paid(r, from, coin), to, to, coin);
  }

  /** Within the bound evictions change nothing while a transfer runs. */
  lemma {:induction false} TransferFits(codec: Codec<Balance>, s: Bank, named: set<Bytes>, from: AccountName,
                                        to: AccountName, coins: seq<Coin>, d: Bytes)
    requires IsSound(View(codec, s)) && IsValidName(from) && IsValidName(to) && AreCoins(coins)
    requires Fits(codec, s, named) && UsesOnly(from, to, coins, named) && |named| <= s.l1.capacity
    ensures var t := TransferCoins(codec, s, from, to, coins).0;
            Shows(codec, s, t, named, View(codec, t))
    ensures TransferFlow(codec, s, from, to, coins, d).spilled == 0
    decreases |coins|
  {
    hide MoveCoin, Fits, View, IsRefused, SpillOfCoin;
    if coins != [] {
      MoveCoinFits(codec, s, named, from, to, coins[0], d);
      var (t, ok) := MoveCoin(codec, s, from, to, coins[0]);
      if ok {
        MovedIsSound(View(codec, s), from, to, coins[0]);
        TransferFits(codec, t, named, from, to, coins[1..], d);
        TransfersRest(codec, s, from, to, coins, t);
        var u := TransferCoins(codec, t, from, to, coins[1..]).0;
        ShowsChain(codec, s, t, u, named, View(codec, t), View(codec, u));
      }
    }
  }

  /** A raw write or deletion is clear of the cache: its key is not cached, or is going to be written anyway. */
  predicate IsClear(s: Bank, e: Effect) {
    RawKey(e).Some? && RawKey(e).value in s.l1.items ==> s.l1.items[RawKey(e).value].dirty
  }

  ghost predicate Uses(e: Effect, keys: set<Bytes>) {
    e.Transfer? ==> UsesOnly(e.from, e.to, e.amount, keys)
  }

  lemma {:induction false} EffectFits(codec: Codec<Balance>, s: Bank, named: set<Bytes>, e: Effect, d: Bytes)
    requires IsSoundBank(codec, s) && IsValid(e) && IsClear(s, e)
    requires Fits(codec, s, named) && Uses(e, named) && |named| <= s.l1.capacity
    ensures var t := ApplyEffect(codec, s, e).bank;
            Fits(codec, t, named) && t.l1.capacity == s.l1.capacity
    ensures EffectFlow(codec, s, e, d).spilled == 0
  {
    if e.Transfer? {
      TransferFits(codec, s, named, e.from, e.to, e.amount, d);
    } else if RawKey(e).Some? {
      var data := ApplyEffect(codec, s, e).bank.backing;
      BackingAgrees(codec, s, named, HasSlash, data);
      assert ApplyEffect(codec, s, e).bank == s.(backing := data);
    }
  }

  /** Where the i-th effect is reached, it is clear of the cache. */
  ghost predicate IsClearAt(codec: Codec<Balance>, s: Bank, effects: seq<Effect>, i: nat)
    requires i < |effects|
  {
    var before := ApplyAll(codec, s, effects[..i]);
    before.ok && IsValid(effects[i]) ==> IsClear(before.bank, effects[i])
  }

  ghost predicate AreClear(codec: Codec<Balance>, s: Bank, effects: seq<Effect>) {
    forall i :: 0 <= i < |effects| ==> IsClearAt(codec, s, effects, i)
  }

  ghost predicate AllUse(effects: seq<Effect>, keys: set<Bytes>) {
    forall i :: 0 <= i < |effects| ==> Uses(effects[i], keys)
  }

  lemma {:induction false} ClearPrefix(codec: Codec<Balance>, s: Bank, effects: seq<Effect>)
    requires effects != [] && AreClear(codec, s, effects)
    ensures AreClear(codec, s, effects[..|effects| - 1])
  {
    var n := |effects| - 1;
    forall i | 0 <= i < n ensures IsClearAt(codec, s, effects[..n], i) {
      assert effects[..n][..i] == effects[..i] && IsClearAt(codec, s, effects, i);
    }
  }

  /** Within the bound evictions change nothing while a list of effects runs that is clear of the cache. */
  lemma {:induction false} ListFits(codec: Codec<Balance>, s: Bank, named: set<Bytes>, effects: seq<Effect>, d: Bytes)
    requires IsSoundBank(codec, s) && AreSoundWrites(codec, effects) && AreClear(codec, s, effects)
    requires Fits(codec, s, named) && AllUse(effects, named) && |named| <= s.l1.capacity
    ensures var t := ApplyAll(codec, s, effects).bank;
            Fits(codec, t, named) && t.l1.capacity == s.l1.capacity
    ensures ListFlow(codec, s, effects, d).spilled == 0
  {
    if effects != [] {
      var n := |effects| - 1;
      ClearPrefix(codec, s, effects);
      ListFits(codec, s, named, effects[..n], d);
      ExecuteSupply(codec, s, effects[..n], d);
      var before := ApplyAll(codec, s, effects[..n]);
      if before.ok && IsValid(effects[n]) {
        assert IsClearAt(codec, s, effects, n);
        EffectFits(codec, before.bank, named, effects[n], d);
      }
    }
  }

  /**
   A list that fits the cache, mints nothing and is clear of the cache never increases a supply, and keeps
   it exactly when it is harmless.
   */
  lemma {:induction false} ListKeepsSupplyIff(codec: Codec<Balance>, s: Bank, named: set<Bytes>, effects: seq<Effect>,
                                              d: Bytes)
    requires IsSoundBank(codec, s) && AreSoundWrites(codec, effects) && AreClear(codec, s, effects)
    requires Fits(codec, s, named) && AllUse(effects, named) && |named| <= s.l1.capacity
    requires MintsNothing(codec, effects)
    ensures SupplyOf(codec, ApplyAll(codec, s, effects).bank, d) <= SupplyOf(codec, s, d)
    ensures SupplyOf(codec, ApplyAll(codec, s, effects).bank, d) == SupplyOf(codec, s, d)
            <==> !IsHarmful(codec, s, effects, d)
  {
    ListFits(codec, s, named, effects, d);
    ExecuteSupply(codec, s, effects, d);
    LosesIff(codec, s, effects, d);
    MintsNothingBringsNothing(codec, s, effects, d);
  }
}
