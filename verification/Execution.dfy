/**
 When an effect succeeds and what it leaves, in terms of its own fields and of the stores it meets
 (`effects/executor.go`, and the `Validate` method of each effect type).
 */
module Execution {
  import opened Basics
  import opened Order
  import opened Accounts
  import opened Effects
  import opened Executor
  import Ledger

  // ---- Valid effects ----

  /** One to 64 bytes of `[a-z0-9.]`. */
  predicate IsName(a: Bytes) {
    1 <= |a| <= 64 && forall b :: b in a ==> 97 <= b <= 122 || 48 <= b <= 57 || b == 46
  }

  lemma {:induction false} ValidNameIff(a: AccountName)
    ensures IsValidName(a) <==> IsName(a)
  {
    if IsName(a) {
      forall i | 0 <= i < |a| ensures IsNameByte(a[i]) {
        assert a[i] in a;
      }
    }
  }

  /** Some coins, each positive with a denomination of one to 64 bytes, strictly ascending. */
  ghost predicate IsPayable(coins: seq<Coin>) {
    && coins != []
    && (forall i :: 0 <= i < |coins| ==> coins[i].amount > 0 && 1 <= |coins[i].denom| <= 64)
    && (forall i :: 0 < i < |coins| ==> Less(coins[i - 1].denom, coins[i].denom))
  }

  lemma {:induction false} NeighboursAscend(coins: seq<Coin>, i: nat, j: nat)
    requires IsPayable(coins) && i < j < |coins|
    ensures Less(coins[i].denom, coins[j].denom)
    decreases j
  {
    if i < j - 1 {
      NeighboursAscend(coins, i, j - 1);
      LessTransitive(coins[i].denom, coins[j - 1].denom, coins[j].denom);
    }
  }

  lemma {:induction false} PayableIff(coins: seq<Coin>)
    ensures ValidCoins(coins) && AllPositive(coins) <==> IsPayable(coins)
  {
    if IsPayable(coins) {
      forall i, j | 0 <= i < j < |coins| ensures Less(coins[i].denom, coins[j].denom) {
        NeighboursAscend(coins, i, j);
      }
    }
  }

  // ---- One coin ----

  /** What an account has of the coin's denomination after the coin was moved as far as it can be. */
  function AfterCoin(s: State, from: AccountName, to: AccountName, coin: Coin, a: AccountName): int {
    var payable := coin.amount <= Balance(s, from, coin.denom);
    var room := from == to || Balance(s, to, coin.denom) + coin.amount <= MAX_UINT64;
    Balance(s, a, coin.denom) - (if a == from && payable then coin.amount else 0)
    + if a == to && payable && room then coin.amount else 0
  }

  predicate CanMove(s: State, from: AccountName, to: AccountName, coin: Coin) {
    && coin.amount <= Balance(s, from, coin.denom)
    && (from == to || Balance(s, to, coin.denom) + coin.amount <= MAX_UINT64)
  }

  lemma {:induction false} CoinIs(s: State, from: AccountName, to: AccountName, coin: Coin, a: AccountName, d: Bytes)
    ensures MoveCoin(s, from, to, coin).1 <==> CanMove(s, from, to, coin)
    ensures Balance(MoveCoin(s, from, to, coin).0, a, d)
            == if d == coin.denom then AfterCoin(s, from, to, coin, a) else Balance(s, a, d)
  {
  }

  // ---- One transfer ----

  ghost predicate AreDistinct(coins: seq<Coin>) {
    forall i, j :: 0 <= i < j < |coins| ==> coins[i].denom != coins[j].denom
  }

  /** The coins before the i-th can all be moved. */
  ghost predicate Reaches(s: State, from: AccountName, to: AccountName, coins: seq<Coin>, i: nat)
    requires i <= |coins|
  {
    forall j :: 0 <= j < i ==> CanMove(s, from, to, coins[j])
  }

  lemma {:induction false} RestReaches(s: State, from: AccountName, to: AccountName, coins: seq<Coin>, i: nat)
    requires AreDistinct(coins) && 0 < i <= |coins| && CanMove(s, from, to, coins[0])
    ensures Reaches(MoveCoin(s, from, to, coins[0]).0, from, to, coins[1..], i - 1) <==> Reaches(s, from, to, coins, i)
  {
    var t := MoveCoin(s, from, to, coins[0]).0;
    forall j | 0 <= j < i - 1 ensures CanMove(t, from, to, coins[1..][j]) <==> CanMove(s, from, to, coins[j + 1]) {
      CoinIs(s, from, to, coins[0], from, coins[j + 1].denom);
      CoinIs(s, from, to, coins[0], to, coins[j + 1].denom);
    }
    if Reaches(t, from, to, coins[1..], i - 1) {
      forall j | 0 <= j < i ensures CanMove(s, from, to, coins[j]) {
        assert j > 0 ==> coins[1..][j - 1] == coins[j];
      }
    }
  }

  /** A transfer succeeds exactly when each of its coins could be moved at the start. */
  lemma {:induction false} TransferOkIff(s: State, from: AccountName, to: AccountName, coins: seq<Coin>)
    requires AreDistinct(coins)
    ensures TransferCoins(s, from, to, coins).1 <==> Reaches(s, from, to, coins, |coins|)
    decreases |coins|
  {
    if coins != [] {
      CoinIs(s, from, to, coins[0], from, []);
      if CanMove(s, from, to, coins[0]) {
        TransferOkIff(MoveCoin(s, from, to, coins[0]).0, from, to, coins[1..]);
        RestReaches(s, from, to, coins, |coins|);
      }
    }
  }

  /**
   Whether it succeeds or not: a coin that is reached has been moved as far as it can be, and no other balance
   has changed.
   */
  lemma {:induction false} TransferLeaves(s: State, from: AccountName, to: AccountName, coins: seq<Coin>, i: nat,
                                          a: AccountName)
    requires AreDistinct(coins) && i < |coins|
    ensures Balance(TransferCoins(s, from, to, coins).0, a, coins[i].denom)
            == if Reaches(s, from, to, coins, i) then AfterCoin(s, from, to, coins[i], a)
               else Balance(s, a, coins[i].denom)
    decreases |coins|
  {
    var t := MoveCoin(s, from, to, coins[0]).0;
    forall b, d
      ensures Balance(t, b, d) == if d == coins[0].denom then AfterCoin(s, from, to, coins[0], b) else Balance(s, b, d)
    {
      CoinIs(s, from, to, coins[0], b, d);
    }
    CoinIs(s, from, to, coins[0], from, []);
    if CanMove(s, from, to, coins[0]) {
      if i == 0 {
        OthersStay(t, from, to, coins[1..], a, coins[0].denom);
      } else {
        assert coins[1..][i - 1] == coins[i];
        TransferLeaves(t, from, to, coins[1..], i - 1, a);
        RestReaches(s, from, to, coins, i);
      }
    } else if i > 0 {
      assert !Reaches(s, from, to, coins, i);
    }
  }

  lemma {:induction false} OthersStay(s: State, from: AccountName, to: AccountName, coins: seq<Coin>, a: AccountName,
                                      d: Bytes)
    requires forall i :: 0 <= i < |coins| ==> coins[i].denom != d
    ensures Balance(TransferCoins(s, from, to, coins).0, a, d) == Balance(s, a, d)
    decreases |coins|
  {
    if coins != [] {
      CoinIs(s, from, to, coins[0], a, d);
      OthersStay(MoveCoin(s, from, to, coins[0]).0, from, to, coins[1..], a, d);
    }
  }

  // ---- One effect ----

  /** What each effect asks of its own fields. */
  ghost predicate IsSane(e: Effect) {
    match e
    case Read(store, key, hasDest) => store != [] && key != [] && hasDest
    case Write(store, key, _) => store != [] && key != []
    case Delete(store, key) => store != [] && key != []
    case Transfer(from, to, amount) => IsName(from) && IsName(to) && IsPayable(amount)
    case Emit(event) => event.kind != []
  }

  lemma {:induction false} ValidIff(e: Effect)
    ensures IsValid(e) <==> IsSane(e)
  {
    if e.Transfer? {
      ValidNameIff(e.from);
      ValidNameIff(e.to);
      PayableIff(e.amount);
    }
  }

  /** What it asks of the stores besides. */
  ghost predicate Succeeds(s: State, e: Effect) {
    && IsSane(e)
    && (e.Read? ==> e.store + [47] + e.key in s.store)
    && (e.Transfer? ==> forall i :: 0 <= i < |e.amount| ==> CanMove(s, e.from, e.to, e.amount[i]))
  }

  /** An effect succeeds exactly when it meets these conditions. */
  lemma {:induction false} EffectOkIff(s: State, e: Effect)
    ensures ApplyEffect(s, e).ok <==> Succeeds(s, e)
  {
    ValidIff(e);
    if e.Transfer? && IsPayable(e.amount) {
      PayableIsDistinct(e.amount);
      TransferOkIff(s, e.from, e.to, e.amount);
    }
  }

  lemma {:induction false} PayableIsDistinct(coins: seq<Coin>)
    requires IsPayable(coins)
    ensures AreDistinct(coins)
  {
    forall i, j | 0 <= i < j < |coins| ensures coins[i].denom != coins[j].denom {
      NeighboursAscend(coins, i, j);
      LessIrreflexive(coins[i].denom);
    }
  }

  /** A raw effect leaves the balances, and every key but its own; an effect that is no event logs none. */
  lemma {:induction false} EffectLeaves(s: State, e: Effect, key: Bytes)
    ensures var r := ApplyEffect(s, e);
            && (!e.Transfer? ==> r.state.balances == s.balances)
            && r.events == (if e.Emit? && Succeeds(s, e) then [e.event] else [])
            && Ledger.StoredAt(r.state, key)
               == if e.Write? && Succeeds(s, e) && key == e.store + [47] + e.key then Some(e.value)
                  else if e.Delete? && Succeeds(s, e) && key == e.store + [47] + e.key then None
                  else Ledger.StoredAt(s, key)
  {
    EffectOkIff(s, e);
    if e.Transfer? {
      Ledger.TransferKeepsStore(s, e.from, e.to, e.amount);
    }
  }
}
