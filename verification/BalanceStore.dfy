/** Transfers between accounts and the listing of an account (`store/balance_store.go`). */
module BalanceStore {
  import opened Basics
  import opened Order
  import opened Accounts
  import opened MemoryStore
  import opened Prefix
  import opened Codecs
  import opened Balances

  // ---- Transfer ----

  datatype TransferCall = TransferCall(from: AccountName, to: AccountName, denom: Bytes, amount: Uint64)

  /** The accounts and the denomination are valid, the sender has the amount, the receiver has room. */
  predicate CanTransfer(store: map<Bytes, Balance>, c: TransferCall) {
    || c.amount == 0
    || (&& IsValidName(c.from) && IsValidName(c.to) && c.denom != []
        && c.amount <= Amount(store, c.from, c.denom)
        && (c.from == c.to || Amount(store, c.to, c.denom) + c.amount <= MAX_UINT64))
  }

  function Debited(store: map<Bytes, Balance>, c: TransferCall): map<Bytes, Balance>
    requires c.amount <= Amount(store, c.from, c.denom)
  {
    WithAmount(store, c.from, c.denom, Amount(store, c.from, c.denom) - c.amount)
  }

  function Credited(store: map<Bytes, Balance>, c: TransferCall): map<Bytes, Balance>
    requires Amount(store, c.to, c.denom) + c.amount <= MAX_UINT64
  {
    WithAmount(store, c.to, c.denom, Amount(store, c.to, c.denom) + c.amount)
  }

  /** After the debit the receiver still has room, also when it is the sender. */
  lemma {:induction false} RoomAfterDebit(store: map<Bytes, Balance>, c: TransferCall)
    requires IsValidName(c.from) && IsValidName(c.to) && c.amount <= Amount(store, c.from, c.denom)
    ensures Amount(Debited(store, c), c.to, c.denom)
            == Amount(store, c.to, c.denom) - if c.from == c.to then c.amount else 0
  {
    WithAmountElsewhere(store, c.from, c.denom, Amount(store, c.from, c.denom) - c.amount, c.to, c.denom);
  }

  /** The balances after a call that succeeds, or the balances as they were. */
  ghost function AfterTransfer(store: map<Bytes, Balance>, c: TransferCall): map<Bytes, Balance> {
    if !CanTransfer(store, c) || c.amount == 0 then store
    else
      RoomAfterDebit(store, c);
      Credited(Debited(store, c), c)
  }

  /** A successful transfer moves exactly the amount; a transfer to oneself moves nothing. */
  lemma {:induction false} TransferMovesAmount(store: map<Bytes, Balance>, c: TransferCall, a: AccountName, d: Bytes)
    requires CanTransfer(store, c) && IsValidName(a)
    ensures Amount(AfterTransfer(store, c), a, d)
            == Amount(store, a, d) + (if d == c.denom && a == c.to then c.amount else 0)
                                   - (if d == c.denom && a == c.from then c.amount else 0)
  {
    if c.amount > 0 {
      var debited := Debited(store, c);
      RoomAfterDebit(store, c);
      WithAmountElsewhere(store, c.from, c.denom, Amount(store, c.from, c.denom) - c.amount, a, d);
      WithAmountElsewhere(debited, c.to, c.denom, Amount(debited, c.to, c.denom) + c.amount, a, d);
    }
  }

  lemma {:induction false} DebitSupply(store: map<Bytes, Balance>, c: TransferCall, d: Bytes)
    requires HoldsBalances(store) && IsValidName(c.from) && c.denom != [] && c.amount <= Amount(store, c.from, c.denom)
    ensures HoldsBalances(Debited(store, c))
    ensures Supply(Debited(store, c), d) == Supply(store, d) - if d == c.denom then c.amount else 0
  {
    SupplyChanges(store, c.from, c.denom, Amount(store, c.from, c.denom) - c.amount, d);
  }

  lemma {:induction false} CreditSupply(store: map<Bytes, Balance>, c: TransferCall, d: Bytes)
    requires HoldsBalances(store) && IsValidName(c.to) && c.denom != []
    requires Amount(store, c.to, c.denom) + c.amount <= MAX_UINT64
    ensures HoldsBalances(Credited(store, c))
    ensures Supply(Credited(store, c), d) == Supply(store, d) + if d == c.denom then c.amount else 0
  {
    SupplyChanges(store, c.to, c.denom, Amount(store, c.to, c.denom) + c.amount, d);
  }

  /** Every transfer, successful or not, keeps the supply of every denomination. */
  lemma {:induction false} TransferConserves(store: map<Bytes, Balance>, c: TransferCall, d: Bytes)
    requires HoldsBalances(store)
    ensures HoldsBalances(AfterTransfer(store, c)) && Supply(AfterTransfer(store, c), d) == Supply(store, d)
  {
    if CanTransfer(store, c) && c.amount > 0 {
      RoomAfterDebit(store, c);
      DebitSupply(store, c, d);
      CreditSupply(Debited(store, c), c, d);
    }
  }

  ghost function RunTransfers(store: map<Bytes, Balance>, calls: seq<TransferCall>): map<Bytes, Balance> {
    if calls == [] then store
    else AfterTransfer(RunTransfers(store, calls[..|calls| - 1]), calls[|calls| - 1])
  }

  /** Over any sequence of transfers, each denomination's supply is constant. */
  lemma {:induction false} SupplyIsConstant(store: map<Bytes, Balance>, calls: seq<TransferCall>, d: Bytes)
    requires HoldsBalances(store)
    ensures HoldsBalances(RunTransfers(store, calls)) && Supply(RunTransfers(store, calls), d) == Supply(store, d)
  {
    if calls != [] {
      var n := |calls| - 1;
      SupplyIsConstant(store, calls[..n], d);
      TransferConserves(RunTransfers(store, calls[..n]), calls[n], d);
    }
  }

  datatype Outcome = Success | Refused | RolledBack | RollbackFailed

  class BalanceStore {
    /** The object store, which acts as a plain map. */
    var store: map<Bytes, Balance>

    ghost predicate Valid()
      reads this
    {
      HoldsBalances(store)
    }

    method Get(account: AccountName, denom: Bytes) returns (r: Option<Balance>)
      requires Valid()
      ensures r.Some? <==> IsValidName(account) && denom != []
      ensures r.Some? ==> r.value == Balance(account, denom, Amount(store, account, denom))
    {
      if !IsValidName(account) || denom == [] {
        return None;
      }
      var key := BalanceKey(account, denom);
      if key !in store {
        return Some(Balance(account, denom, 0));
      }
      BalanceKeyInjective(account, denom, store[key].account, store[key].denom);
      return Some(store[key]);
    }

    method Set(b: Balance) returns (ok: bool)
      requires Valid()
      modifies this
      ensures Valid() && (ok <==> b.IsValid())
      ensures store == if ok then WithAmount(old(store), b.account, b.denom, b.amount) else old(store)
    {
      if !b.IsValid() {
        return false;
      }
      store := store[BalanceKey(b.account, b.denom) := b];
      return true;
    }

    method AddAmount(account: AccountName, denom: Bytes, amount: Uint64) returns (ok: bool)
      requires Valid()
      modifies this
      ensures Valid()
      ensures ok <==> amount == 0 ||
                      (IsValidName(account) && denom != [] && Amount(old(store), account, denom) + amount <= MAX_UINT64)
      ensures store == if ok && amount > 0
                       then WithAmount(old(store), account, denom, Amount(old(store), account, denom) + amount)
                       else old(store)
    {
      if amount == 0 {
        return true;
      }
      var balance := Get(account, denom);
      if balance.None? {
        return false;
      }
      if balance.value.amount > MAX_UINT64 - amount {
        return false;
      }
      ok := Set(balance.value.(amount := balance.value.amount + amount));
    }

    method SubAmount(account: AccountName, denom: Bytes, amount: Uint64) returns (ok: bool)
      requires Valid()
      modifies this
      ensures Valid()
      ensures ok <==> amount == 0 ||
                      (IsValidName(account) && denom != [] && amount <= Amount(old(store), account, denom))
      ensures store == if ok && amount > 0
                       then WithAmount(old(store), account, denom, Amount(old(store), account, denom) - amount)
                       else old(store)
    {
      if amount == 0 {
        return true;
      }
      var balance := Get(account, denom);
      if balance.None? {
        return false;
      }
      if balance.value.amount < amount {
        return false;
      }
      ok := Set(balance.value.(amount := balance.value.amount - amount));
    }

    /** The second half of `Transfer`: credit the receiver, or give the amount back to the sender. */
    method CreditOrRollBack(c: TransferCall, ghost before: map<Bytes, Balance>) returns (outcome: Outcome)
      requires HoldsBalances(before) && IsValidName(c.from) && c.denom != []
              && 0 < c.amount <= Amount(before, c.from, c.denom)
      requires Valid() && store == Debited(before, c)
      modifies this
      ensures Valid() && outcome in {Success, RolledBack}
      ensures outcome == Success <==> CanTransfer(before, c)
      ensures store == AfterTransfer(before, c)
    {
      if IsValidName(c.to) {
        RoomAfterDebit(before, c);
      }
      var ok := AddAmount(c.to, c.denom, c.amount);
      if ok {
        return Success;
      }
      Restored(before, c.from, c.denom, c.amount);
      ok := AddAmount(c.from, c.denom, c.amount);
      if !ok {
        return RollbackFailed;
      }
      return RolledBack;
    }

    /**
     `Transfer`: all or nothing. It succeeds exactly when it can; otherwise every balance is as before,
     and the rollback, when one is needed, never fails.
     */
    method Transfer(c: TransferCall) returns (outcome: Outcome)
      requires Valid()
      modifies this
      ensures Valid() && outcome != RollbackFailed
      ensures outcome == Success <==> CanTransfer(old(store), c)
      ensures store == AfterTransfer(old(store), c)
    {
      if c.amount == 0 {
        return Success;
      }
      var fromBalance := Get(c.from, c.denom);
      if fromBalance.None? || fromBalance.value.amount < c.amount {
        return Refused;
      }
      var ok := SubAmount(c.from, c.denom, c.amount);
      if !ok {
        return Refused;
      }
      outcome := CreditOrRollBack(c, old(store));
    }
  }

  /** Taking an amount off and adding it again restores the very same entry. */
  lemma {:induction false} Restored(store: map<Bytes, Balance>, account: AccountName, denom: Bytes, amount: Uint64)
    requires HoldsBalances(store) && IsValidName(account) && 0 < amount <= Amount(store, account, denom)
    ensures var have := Amount(store, account, denom);
            var debited := WithAmount(store, account, denom, have - amount);
            Amount(debited, account, denom) == have - amount && WithAmount(debited, account, denom, have) == store
  {
    var k := BalanceKey(account, denom);
    BalanceKeyInjective(account, denom, store[k].account, store[k].denom);
  }

  // ---- Listing an account ----

  /** The backing data of a flushed store: each balance, encoded, under its key. */
  ghost predicate IsFlushed(codec: Codec<Balance>, data: map<Bytes, Bytes>, balances: map<Bytes, Balance>) {
    data.Keys == balances.Keys && forall k :: k in balances ==> codec.unmarshal(data[k]) == Some(balances[k])
  }

  /** The keys under "account/" are exactly those of the account's balances. */
  lemma {:induction false} AccountPrefix(balances: map<Bytes, Balance>, account: AccountName, k: Bytes)
    requires HoldsBalances(balances) && IsValidName(account) && k in balances
    ensures account + [SLASH] <= k <==> balances[k].account == account
    ensures account + [SLASH] <= k ==> k == (account + [SLASH]) + balances[k].denom
  {
    var b := balances[k];
    if account + [SLASH] <= k {
      assert k == BalanceKey(account, k[|account| + 1..]);
      BalanceKeyInjective(account, k[|account| + 1..], b.account, b.denom);
    }
  }

  /** The positive amounts among the balances under the first `n` keys, in their order. */
  ghost function PositiveCoins(balances: map<Bytes, Balance>, keys: seq<Bytes>): seq<Coin>
    requires forall i :: 0 <= i < |keys| ==> keys[i] in balances
  {
    if keys == [] then []
    else
      var n := |keys| - 1;
      var b := balances[keys[n]];
      PositiveCoins(balances, keys[..n]) + if b.amount > 0 then [Coin(b.denom, b.amount)] else []
  }

  lemma {:induction false} PositiveCoinsMembers(balances: map<Bytes, Balance>, keys: seq<Bytes>)
    requires forall i :: 0 <= i < |keys| ==> keys[i] in balances
    ensures forall c :: c in PositiveCoins(balances, keys) <==>
              exists i :: 0 <= i < |keys| && balances[keys[i]].amount > 0
                          && c == Coin(balances[keys[i]].denom, balances[keys[i]].amount)
  {
    if keys != [] {
      var n := |keys| - 1;
      PositiveCoinsMembers(balances, keys[..n]);
      forall c ensures c in PositiveCoins(balances, keys) <==>
                         exists i :: 0 <= i < |keys| && balances[keys[i]].amount > 0
                                     && c == Coin(balances[keys[i]].denom, balances[keys[i]].amount)
      {
        if c in PositiveCoins(balances, keys[..n]) {
          var i :| 0 <= i < n && balances[keys[..n][i]].amount > 0
                   && c == Coin(balances[keys[..n][i]].denom, balances[keys[..n][i]].amount);
          assert keys[i] == keys[..n][i];
        }
        if i :| 0 <= i < n && balances[keys[i]].amount > 0
                && c == Coin(balances[keys[i]].denom, balances[keys[i]].amount) {
          assert keys[i] == keys[..n][i];
        }
      }
    }
  }

  ghost predicate AscendingByDenom(coins: seq<Coin>) {
    forall i, j :: 0 <= i < j < |coins| ==> Less(coins[i].denom, coins[j].denom)
  }

  lemma {:induction false} PositiveCoinsAscend(balances: map<Bytes, Balance>, p: Bytes, keys: seq<Bytes>)
    requires Ascending(keys)
    requires forall i :: 0 <= i < |keys| ==> keys[i] in balances && keys[i] == p + balances[keys[i]].denom
    ensures AscendingByDenom(PositiveCoins(balances, keys))
  {
    if keys != [] {
      var n := |keys| - 1;
      var init := PositiveCoins(balances, keys[..n]);
      PositiveCoinsAscend(balances, p, keys[..n]);
      PositiveCoinsMembers(balances, keys[..n]);
      forall c | c in init ensures Less(c.denom, balances[keys[n]].denom) {
        var i :| 0 <= i < n && balances[keys[..n][i]].amount > 0
                 && c == Coin(balances[keys[..n][i]].denom, balances[keys[..n][i]].amount);
        assert Less(keys[i], keys[n]);
        LessCancel(p, c.denom, balances[keys[n]].denom);
      }
    }
  }

  /** Exactly the account's positive balances. */
  ghost predicate ListsAccount(coins: seq<Coin>, balances: map<Bytes, Balance>, account: AccountName) {
    forall c: Coin :: c in coins <==> c.amount > 0 && c.denom != [] && Amount(balances, account, c.denom) == c.amount
  }

  lemma {:induction false} ListingIsExact(balances: map<Bytes, Balance>, account: AccountName, keys: seq<Bytes>)
    requires HoldsBalances(balances) && IsValidName(account)
    requires forall i :: 0 <= i < |keys| ==> keys[i] in balances
    requires forall k :: k in keys <==> k in balances && balances[k].account == account
    ensures ListsAccount(PositiveCoins(balances, keys), balances, account)
  {
    PositiveCoinsMembers(balances, keys);
    forall c: Coin ensures c in PositiveCoins(balances, keys) <==>
                             c.amount > 0 && c.denom != [] && Amount(balances, account, c.denom) == c.amount
    {
      if c.amount > 0 && c.denom != [] && Amount(balances, account, c.denom) == c.amount {
        var k := BalanceKey(account, c.denom);
        BalanceKeyInjective(account, c.denom, balances[k].account, balances[k].denom);
        assert k in keys;
        var i :| 0 <= i < |keys| && keys[i] == k;
      }
      if c in PositiveCoins(balances, keys) {
        var i :| 0 <= i < |keys| && balances[keys[i]].amount > 0
                 && c == Coin(balances[keys[i]].denom, balances[keys[i]].amount);
        assert keys[i] in keys;
      }
    }
  }

  /** The range that `AccountIterator` asks for holds exactly the account's keys. */
  lemma {:induction false} AccountKeys(data: map<Bytes, Bytes>, balances: map<Bytes, Balance>, account: AccountName,
                                       keys: seq<Bytes>)
    requires HoldsBalances(balances) && data.Keys == balances.Keys && IsValidName(account)
    requires Elements(keys) == KeysWithin(data, Some(account + [SLASH]), BoundOf(account + [SLASH]))
    ensures forall k :: k in keys <==> k in balances && balances[k].account == account
    ensures forall i :: 0 <= i < |keys| ==>
            keys[i] in balances && keys[i] == (account + [SLASH]) + balances[keys[i]].denom
  {
    var prefix := account + [SLASH];
    forall k ensures k in keys <==> k in balances && balances[k].account == account {
      assert k in keys <==> k in Elements(keys);
      PrefixIsRange(prefix, k);
      if k in balances {
        AccountPrefix(balances, account, k);
      }
    }
    forall i | 0 <= i < |keys| ensures keys[i] in balances && keys[i] == prefix + balances[keys[i]].denom {
      assert keys[i] in keys;
      AccountPrefix(balances, account, keys[i]);
    }
  }

  /** The loop of `GetAccountBalances`. */
  method CollectCoins(it: MemoryIterator, codec: Codec<Balance>, ghost balances: map<Bytes, Balance>,
                      ghost keys: seq<Bytes>)
    returns (coins: Option<seq<Coin>>)
    requires !it.closed && it.index == 0 && |it.items| == |keys|
    requires forall i :: 0 <= i < |keys| ==>
            keys[i] in balances && codec.unmarshal(it.items[i].1) == Some(balances[keys[i]])
    modifies it
    ensures coins == Some(PositiveCoins(balances, keys))
  {
    var result: seq<Coin> := [];
    while it.Valid()
      invariant !it.closed && it.items == old(it.items) && it.index <= |keys|
      invariant result == PositiveCoins(balances, keys[..it.index])
      decreases |it.items| - it.index
    {
      var balance := codec.unmarshal(it.Value().value);
      if balance.None? {
        return None;
      }
      assert keys[..it.index + 1][..it.index] == keys[..it.index];
      if balance.value.amount > 0 {
        result := result + [Coin(balance.value.denom, balance.value.amount)];
      }
      it.Next();
    }
    assert keys[..|keys|] == keys;
    return Some(result);
  }

  /**
   `GetAccountBalances` on a flushed store holding only balances: exactly the account's positive
   balances, strictly ascending by denomination.
   */
  method GetAccountBalances(backing: MemoryStore, codec: Codec<Balance>, account: AccountName,
                            ghost balances: map<Bytes, Balance>)
    returns (coins: Option<seq<Coin>>)
    requires HoldsBalances(balances) && IsFlushed(codec, backing.data, balances)
    ensures coins.Some? <==> IsValidName(account)
    ensures coins.Some? ==> ListsAccount(coins.value, balances, account) && AscendingByDenom(coins.value)
  {
    if !IsValidName(account) {
      return None;
    }
    var prefix := account + [SLASH];
    var end := PrefixBound(prefix);
    var it, keys := backing.Iterator(Some(prefix), end, false);
    AccountKeys(backing.data, balances, account, keys);
    ListingIsExact(balances, account, keys);
    PositiveCoinsAscend(balances, prefix, keys);
    coins := CollectCoins(it, codec, balances, keys);
  }
}
