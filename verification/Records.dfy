/** Balance records as the balance store reads them under their keys, and the supply they add up to. */
module Records {
  import opened Basics
  import opened Accounts
  import opened Balances

  /** Under each key that holds something the record read there; `None` where the value does not decode. */
  type Records = map<Bytes, Option<Balance>>

  predicate HasSlash(key: Bytes) {
    SLASH in key
  }

  lemma {:induction false} BalanceKeyHasSlash(account: Bytes, denom: Bytes)
    ensures HasSlash(BalanceKey(account, denom)) && BalanceKey(account, denom) != []
  {
    assert BalanceKey(account, denom)[|account|] == SLASH;
  }

  // ---- What the records hold ----

  /** A valid balance under its own key. */
  predicate IsHeld(k: Bytes, record: Option<Balance>) {
    record.Some? && record.value.IsValid() && k == BalanceKey(record.value.account, record.value.denom)
  }

  function Held(r: Records): (held: map<Bytes, Balance>)
    ensures HoldsBalances(held)
  {
    map k | k in r && IsHeld(k, r[k]) :: r[k].value
  }

  function AmountAt(r: Records, account: AccountName, denom: Bytes): Uint64 {
    Amount(Held(r), account, denom)
  }

  /** The amount that a record stands for under a key. */
  function RecordAmount(k: Bytes, record: Option<Balance>): nat {
    if IsHeld(k, record) then record.value.amount else 0
  }

  /** The same, if it is of the given denomination. */
  function AmountUnder(k: Bytes, record: Option<Balance>, d: Bytes): nat {
    if IsHeld(k, record) && record.value.denom == d then record.value.amount else 0
  }

  function KeyAmount(r: Records, k: Bytes): nat {
    if k in r then RecordAmount(k, r[k]) else 0
  }

  function HeldAt(r: Records, k: Bytes, d: Bytes): nat {
    if k in r then AmountUnder(k, r[k], d) else 0
  }

  ghost function SupplyIn(r: Records, d: Bytes): nat {
    Supply(Held(r), d)
  }

  lemma {:induction false} PutHeld(r: Records, k: Bytes, record: Option<Balance>)
    ensures Held(r[k := record]) == if IsHeld(k, record) then Held(r)[k := record.value] else Held(r) - {k}
  {
  }

  /** Replacing one record changes a supply by the amounts it takes away and brings. */
  lemma {:induction false} PutSupply(r: Records, k: Bytes, record: Option<Balance>, d: Bytes)
    ensures SupplyIn(r[k := record], d) == SupplyIn(r, d) - HeldAt(r, k, d) + AmountUnder(k, record, d)
  {
    var held := Held(r);
    PutHeld(r, k, record);
    if IsHeld(k, record) {
      var b := record.value;
      SupplyChanges(held, b.account, b.denom, b.amount, d);
      if k in held {
        BalanceKeyInjective(b.account, b.denom, held[k].account, held[k].denom);
      }
    } else {
      SupplyWithout(held, k, d);
    }
  }

  lemma {:induction false} RemoveSupply(r: Records, k: Bytes, d: Bytes)
    ensures SupplyIn(r - {k}, d) == SupplyIn(r, d) - HeldAt(r, k, d)
  {
    assert Held(r - {k}) == Held(r) - {k};
    SupplyWithout(Held(r), k, d);
  }

  /** Removing a record keeps every supply exactly when it stands for no positive amount. */
  lemma {:induction false} RemoveKeepsSupplyIff(r: Records, k: Bytes)
    ensures (forall d :: SupplyIn(r - {k}, d) == SupplyIn(r, d)) <==> KeyAmount(r, k) == 0
  {
    forall d ensures SupplyIn(r - {k}, d) == SupplyIn(r, d) - HeldAt(r, k, d) {
      RemoveSupply(r, k, d);
    }
    if KeyAmount(r, k) > 0 {
      assert SupplyIn(r - {k}, r[k].value.denom) < SupplyIn(r, r[k].value.denom);
    }
  }

  /** Replacing a record keeps every supply exactly when the amount under the key stays as it was. */
  lemma {:induction false} PutKeepsSupplyIff(r: Records, k: Bytes, record: Option<Balance>)
    ensures (forall d :: SupplyIn(r[k := record], d) == SupplyIn(r, d)) <==> KeyAmount(r, k) == RecordAmount(k, record)
  {
    forall d ensures SupplyIn(r[k := record], d) == SupplyIn(r, d) - HeldAt(r, k, d) + AmountUnder(k, record, d) {
      PutSupply(r, k, record, d);
    }
    if k in r && IsHeld(k, r[k]) && IsHeld(k, record) {
      BalanceKeyInjective(r[k].value.account, r[k].value.denom, record.value.account, record.value.denom);
    }
    if KeyAmount(r, k) != RecordAmount(k, record) {
      var d := if IsHeld(k, record) then record.value.denom else r[k].value.denom;
      assert HeldAt(r, k, d) == KeyAmount(r, k) && AmountUnder(k, record, d) == RecordAmount(k, record);
      assert SupplyIn(r[k := record], d) != SupplyIn(r, d);
    }
  }

  // ---- Sound records ----

  /** A valid balance, under a key that a balance could have, is under its own key. */
  predicate IsSoundAt(k: Bytes, record: Option<Balance>) {
    HasSlash(k) && record.Some? && record.value.IsValid() ==>
      k == BalanceKey(record.value.account, record.value.denom)
  }

  ghost predicate IsSound(r: Records) {
    forall k :: k in r ==> IsSoundAt(k, r[k])
  }

  /** There is no record, or a valid one: what else is stored there makes every use fail. */
  predicate IsUsable(r: Records, account: AccountName, denom: Bytes) {
    var k := BalanceKey(account, denom);
    k !in r || IsHeld(k, r[k])
  }

  /** `BalanceStore.Get`: the record under the key, whatever account it names, or a zero balance. */
  function Fetch(r: Records, account: AccountName, denom: Bytes): Option<Balance> {
    var k := BalanceKey(account, denom);
    if k in r then r[k] else Some(Balance(account, denom, 0))
  }

  lemma {:induction false} FetchUsable(r: Records, account: AccountName, denom: Bytes)
    requires IsValidName(account) && denom != [] && IsUsable(r, account, denom)
    ensures Fetch(r, account, denom) == Some(Balance(account, denom, AmountAt(r, account, denom)))
  {
    var k := BalanceKey(account, denom);
    if k in r {
      BalanceKeyInjective(account, denom, r[k].value.account, r[k].value.denom);
    }
  }

  lemma {:induction false} HeldIsUsable(r: Records, b: Balance)
    requires b.IsValid() && BalanceKey(b.account, b.denom) in r && r[BalanceKey(b.account, b.denom)] == Some(b)
    ensures IsUsable(r, b.account, b.denom) && AmountAt(r, b.account, b.denom) == b.amount
  {
  }

  lemma {:induction false} FetchUnusable(r: Records, account: AccountName, denom: Bytes)
    requires IsSound(r) && !IsUsable(r, account, denom)
    ensures var b := Fetch(r, account, denom);
            b.None? || !b.value.IsValid()
  {
    BalanceKeyHasSlash(account, denom);
    assert IsSoundAt(BalanceKey(account, denom), r[BalanceKey(account, denom)]);
  }

  predicate CanPay(r: Records, account: AccountName, coin: Coin) {
    IsUsable(r, account, coin.denom) && coin.amount <= AmountAt(r, account, coin.denom)
  }

  predicate HasRoom(r: Records, account: AccountName, coin: Coin) {
    IsUsable(r, account, coin.denom) && AmountAt(r, account, coin.denom) + coin.amount <= MAX_UINT64
  }
}
