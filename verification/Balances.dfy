/** Balance records, their keys, and the supply they add up to (`store/balance_store.go`). */
module Balances {
  import opened Basics
  import opened Accounts
  import opened Sums

  datatype Balance = Balance(account: AccountName, denom: Bytes, amount: Uint64) {
    predicate IsValid() {
      IsValidName(account) && denom != []
    }
  }

  /** "account/denom" */
  function BalanceKey(account: AccountName, denom: Bytes): Bytes {
    account + [SLASH] + denom
  }

  /** Account names have no slash, so the key determines account and denomination. */
  lemma {:induction false} BalanceKeyInjective(a: AccountName, d: Bytes, b: AccountName, e: Bytes)
    requires IsValidName(a) && IsValidName(b) && BalanceKey(a, d) == BalanceKey(b, e)
    ensures a == b && d == e
  {
    var k := BalanceKey(a, d);
    assert k[|a|] == SLASH && k[|b|] == SLASH;
    assert forall i :: 0 <= i < |a| ==> k[i] == a[i] && IsNameByte(a[i]);
    assert forall i :: 0 <= i < |b| ==> k[i] == b[i] && IsNameByte(b[i]);
    assert a == k[..|a|] && b == k[..|b|];
    assert d == k[|a| + 1..] && e == k[|b| + 1..];
  }

  /** Every entry is a valid balance under its own key. */
  ghost predicate HoldsBalances(store: map<Bytes, Balance>) {
    forall k :: k in store ==> store[k].IsValid() && k == BalanceKey(store[k].account, store[k].denom)
  }

  function Amount(store: map<Bytes, Balance>, account: AccountName, denom: Bytes): Uint64 {
    var k := BalanceKey(account, denom);
    if k in store then store[k].amount else 0
  }

  function WithAmount(store: map<Bytes, Balance>, account: AccountName, denom: Bytes,
                      amount: Uint64): map<Bytes, Balance>
  {
    store[BalanceKey(account, denom) := Balance(account, denom, amount)]
  }

  lemma {:induction false} WithAmountElsewhere(store: map<Bytes, Balance>, a: AccountName, d: Bytes, amount: Uint64,
      b: AccountName, e: Bytes)
    requires IsValidName(a) && IsValidName(b)
    ensures Amount(WithAmount(store, a, d, amount), b, e) == if a == b && d == e then amount else Amount(store, b, e)
  {
    if BalanceKey(a, d) == BalanceKey(b, e) {
      BalanceKeyInjective(a, d, b, e);
    }
  }

  // ---- Supply ----

  ghost function KeysOfDenom(store: map<Bytes, Balance>, denom: Bytes): set<Bytes> {
    set k | k in store && store[k].denom == denom
  }

  ghost function Amounts(store: map<Bytes, Balance>): map<Bytes, Uint64> {
    map k | k in store :: store[k].amount
  }

  /** The total supply of a denomination. */
  ghost function Supply(store: map<Bytes, Balance>, denom: Bytes): nat {
    SumOf(KeysOfDenom(store, denom), Amounts(store))
  }

  /** Setting one balance changes the supply of its denomination by the difference, and no other. */
  lemma {:induction false} SupplyChanges(store: map<Bytes, Balance>, account: AccountName, denom: Bytes, amount: Uint64,
                                         d: Bytes)
    requires HoldsBalances(store) && IsValidName(account) && denom != []
    ensures HoldsBalances(WithAmount(store, account, denom, amount))
    ensures Supply(WithAmount(store, account, denom, amount), d)
            == Supply(store, d) + if d == denom then amount - Amount(store, account, denom) else 0
  {
    var k, store' := BalanceKey(account, denom), WithAmount(store, account, denom, amount);
    if k in store {
      BalanceKeyInjective(account, denom, store[k].account, store[k].denom);
      assert KeysOfDenom(store', d) == KeysOfDenom(store, d);
      if d == denom {
        SumUpdate(KeysOfDenom(store, d), Amounts(store), k, amount);
        SumSame(KeysOfDenom(store, d), Amounts(store'), Amounts(store)[k := amount]);
      } else {
        SumSame(KeysOfDenom(store, d), Amounts(store'), Amounts(store));
      }
    } else {
      SumSame(KeysOfDenom(store, d), Amounts(store'), Amounts(store));
      if d == denom {
        assert KeysOfDenom(store', d) == KeysOfDenom(store, d) + {k};
        SumAdd(KeysOfDenom(store, d), Amounts(store'), k);
      } else {
        assert KeysOfDenom(store', d) == KeysOfDenom(store, d);
      }
    }
  }

  /** Removing one entry takes its amount off the supply of its denomination. */
  lemma {:induction false} SupplyWithout(store: map<Bytes, Balance>, k: Bytes, d: Bytes)
    ensures Supply(store - {k}, d)
            == Supply(store, d) - if k in store && store[k].denom == d then store[k].amount else 0
  {
    var keys := KeysOfDenom(store, d);
    assert KeysOfDenom(store - {k}, d) == keys - {k};
    SumSame(keys - {k}, Amounts(store), Amounts(store - {k}));
    if k in keys {
      SumPick(keys, Amounts(store), k);
    } else {
      assert keys - {k} == keys;
    }
  }
}
