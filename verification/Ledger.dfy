/** What a successful `Execute` amounts to, balance by balance and key by key (`effects/executor.go`). */
module Ledger {
  import opened Basics
  import opened Accounts
  import opened Effects
  import opened Executor
  import opened MultiSend
  import opened Sums

  // ---- Balances ----

  lemma {:induction false} CoinSumFirst(coins: seq<Coin>, denom: Bytes)
    requires coins != []
    ensures CoinSum(coins, denom) == CoinSum(coins[1..], denom) + if coins[0].denom == denom then coins[0].amount else 0
  {
    var n := |coins| - 1;
    if n > 0 {
      CoinSumFirst(coins[..n], denom);
      assert coins[1..][..n - 1] == coins[..n][1..];
    }
  }

  /** A completed transfer takes each coin from the sender and gives it to the receiver. */
  lemma {:induction false} TransferMoves(s: State, from: AccountName, to: AccountName, coins: seq<Coin>, a: AccountName,
                                         d: Bytes)
    requires TransferCoins(s, from, to, coins).1
    ensures Balance(TransferCoins(s, from, to, coins).0, a, d) + (if a == from then CoinSum(coins, d) else 0)
            == Balance(s, a, d) + if a == to then CoinSum(coins, d) else 0
    decreases |coins|
  {
    if coins != [] {
      CoinSumFirst(coins, d);
      TransferMoves(MoveCoin(s, from, to, coins[0]).0, from, to, coins[1..], a, d);
    }
  }

  /** After a successful run every balance has changed by what was received less what was sent. */
  lemma {:induction false} ExecuteMoves(s: State, effects: seq<Effect>, a: AccountName, d: Bytes)
    requires ApplyAll(s, effects).ok
    ensures Balance(ApplyAll(s, effects).state, a, d) + Sent(effects, a, d)
            == Balance(s, a, d) + Received(effects, a, d)
  {
    if effects != [] {
      var n := |effects| - 1;
      ExecuteMoves(s, effects[..n], a, d);
      if effects[n].Transfer? {
        TransferMoves(ApplyAll(s, effects[..n]).state, effects[n].from, effects[n].to, effects[n].amount, a, d);
      }
    }
  }

  // ---- When transfers succeed ----

  /** The sender has all the coins and the receiver has room for them. */
  ghost predicate HasRoom(s: State, from: AccountName, to: AccountName, coins: seq<Coin>) {
    forall d :: CoinSum(coins, d) <= Balance(s, from, d) && Balance(s, to, d) + CoinSum(coins, d) <= MAX_UINT64
  }

  lemma {:induction false} FirstCoinMoves(s: State, from: AccountName, to: AccountName, coins: seq<Coin>)
    requires coins != [] && HasRoom(s, from, to, coins)
    ensures MoveCoin(s, from, to, coins[0]).1 && HasRoom(MoveCoin(s, from, to, coins[0]).0, from, to, coins[1..])
  {
    var c, after := coins[0], MoveCoin(s, from, to, coins[0]).0;
    CoinSumFirst(coins, c.denom);
    assert c.amount <= CoinSum(coins, c.denom) <= Balance(s, from, c.denom);
    assert Balance(s, to, c.denom) + CoinSum(coins, c.denom) <= MAX_UINT64;
    forall d
      ensures CoinSum(coins[1..], d) <= Balance(after, from, d)
      ensures Balance(after, to, d) + CoinSum(coins[1..], d) <= MAX_UINT64
    {
      CoinSumFirst(coins, d);
      assert CoinSum(coins, d) <= Balance(s, from, d);
      assert Balance(s, to, d) + CoinSum(coins, d) <= MAX_UINT64;
    }
  }

  lemma {:induction false} TransferSucceeds(s: State, from: AccountName, to: AccountName, coins: seq<Coin>)
    requires HasRoom(s, from, to, coins)
    ensures TransferCoins(s, from, to, coins).1
    decreases |coins|
  {
    if coins != [] {
      FirstCoinMoves(s, from, to, coins);
      TransferSucceeds(MoveCoin(s, from, to, coins[0]).0, from, to, coins[1..]);
    }
  }

  /** Every account holds at the start what it sends in all, and has room for what it receives in all. */
  ghost predicate IsFunded(s: State, effects: seq<Effect>) {
    forall a, d :: Sent(effects, a, d) <= Balance(s, a, d) && Balance(s, a, d) + Received(effects, a, d) <= MAX_UINT64
  }

  /** Funded transfers succeed in whatever order they are listed. */
  lemma {:induction false} FundedSucceeds(s: State, effects: seq<Effect>)
    requires AreTransfers(effects) && IsFunded(s, effects)
    ensures ApplyAll(s, effects).ok
  {
    if effects != [] {
      var n := |effects| - 1;
      FundedSucceeds(s, effects[..n]);
      var Transfer(from, to, amount) := effects[n];
      RoomForLast(s, effects);
      TransferSucceeds(ApplyAll(s, effects[..n]).state, from, to, amount);
    }
  }

  lemma {:induction false} RoomForLast(s: State, effects: seq<Effect>)
    requires effects != [] && IsFunded(s, effects) && ApplyAll(s, effects[..|effects| - 1]).ok
    requires effects[|effects| - 1].Transfer?
    ensures var t := effects[|effects| - 1];
            HasRoom(ApplyAll(s, effects[..|effects| - 1]).state, t.from, t.to, t.amount)
  {
    var n := |effects| - 1;
    var Transfer(from, to, amount) := effects[n];
    var now := ApplyAll(s, effects[..n]).state;
    forall d
      ensures CoinSum(amount, d) <= Balance(now, from, d)
      ensures Balance(now, to, d) + CoinSum(amount, d) <= MAX_UINT64
    {
      ExecuteMoves(s, effects[..n], from, d);
      ExecuteMoves(s, effects[..n], to, d);
      assert Sent(effects, from, d) <= Balance(s, from, d);
      assert Balance(s, to, d) + Received(effects, to, d) <= MAX_UINT64;
    }
  }

  /** Every sender holds its inputs and every recipient has room for its outputs. */
  ghost predicate CanSettle(s: State, m: Message) {
    forall a, d ::
      AccountSum(m.inputs, a, d) <= Balance(s, a, d) && Balance(s, a, d) + AccountSum(m.outputs, a, d) <= MAX_UINT64
  }

  /**
   The settlement of a valid message, once executed on stores that can cover it, succeeds and moves
   exactly the inputs and outputs, although the matching never looks at the balances.
   */
  method SettleThenExecute(m: Message, executor: Executor) returns (ok: bool, events: seq<Event>)
    requires IsValidMessage(m)
    modifies executor
    ensures old(CanSettle(executor.Contents(), m)) ==> ok
    ensures ok ==> forall a, d ::
              Balance(executor.Contents(), a, d) + AccountSum(m.inputs, a, d)
              == old(Balance(executor.Contents(), a, d)) + AccountSum(m.outputs, a, d)
    ensures ok ==> executor.store == old(executor.store) && events == []
  {
    var transfers, _ := Settle(m);
    ghost var before := executor.Contents();
    if CanSettle(before, m) {
      FundedSucceeds(before, transfers);
    }
    ok, events := executor.Execute(transfers);
    if ok {
      forall a, d
        ensures Balance(executor.Contents(), a, d) + AccountSum(m.inputs, a, d)
                == Balance(before, a, d) + AccountSum(m.outputs, a, d)
      {
        ExecuteMoves(before, transfers, a, d);
      }
      TransfersOnly(before, transfers);
    }
  }

  // ---- Keys and events ----

  /** The value the last write or deletion of a key leaves, or the one it had. */
  ghost function LastWritten(effects: seq<Effect>, key: Bytes, before: Option<Bytes>): Option<Bytes> {
    if effects == [] then before
    else
      var last := effects[|effects| - 1];
      if last.Write? && FullKey(last.store, last.key) == key then Some(last.value)
      else if last.Delete? && FullKey(last.store, last.key) == key then None
      else LastWritten(effects[..|effects| - 1], key, before)
  }

  /** The emitted events, in order. */
  ghost function Emitted(effects: seq<Effect>): seq<Event> {
    if effects == [] then []
    else
      var last := effects[|effects| - 1];
      Emitted(effects[..|effects| - 1]) + if last.Emit? then [last.event] else []
  }

  ghost function StoredAt(s: State, key: Bytes): Option<Bytes> {
    if key in s.store then Some(s.store[key]) else None
  }

  lemma {:induction false} TransferKeepsStore(s: State, from: AccountName, to: AccountName, coins: seq<Coin>)
    ensures TransferCoins(s, from, to, coins).0.store == s.store
    decreases |coins|
  {
    if coins != [] {
      var moved := MoveCoin(s, from, to, coins[0]);
      if moved.1 {
        TransferKeepsStore(moved.0, from, to, coins[1..]);
      }
    }
  }

  /** After a successful run every key holds what was written last, and the events are the emitted ones. */
  lemma {:induction false} ExecuteWritesLast(s: State, effects: seq<Effect>, key: Bytes)
    requires ApplyAll(s, effects).ok
    ensures StoredAt(ApplyAll(s, effects).state, key) == LastWritten(effects, key, StoredAt(s, key))
    ensures ApplyAll(s, effects).events == Emitted(effects)
  {
    if effects != [] {
      var n := |effects| - 1;
      ExecuteWritesLast(s, effects[..n], key);
      if effects[n].Transfer? {
        TransferKeepsStore(ApplyAll(s, effects[..n]).state, effects[n].from, effects[n].to, effects[n].amount);
      }
    }
  }

  lemma {:induction false} TransfersOnly(s: State, effects: seq<Effect>)
    requires AreTransfers(effects) && ApplyAll(s, effects).ok
    ensures ApplyAll(s, effects).state.store == s.store && ApplyAll(s, effects).events == []
  {
    if effects != [] {
      var n := |effects| - 1;
      TransfersOnly(s, effects[..n]);
      TransferKeepsStore(ApplyAll(s, effects[..n]).state, effects[n].from, effects[n].to, effects[n].amount);
    }
  }

  // ---- Supply ----

  ghost function Holdings(s: State, denom: Bytes): set<(AccountName, Bytes)> {
    set k | k in s.balances && k.1 == denom
  }

  /** The total of a denomination over all accounts. */
  ghost function Total(s: State, denom: Bytes): nat {
    SumOf(Holdings(s, denom), s.balances)
  }

  lemma {:induction false} SetBalanceSupply(s: State, account: AccountName, denom: Bytes, amount: Uint64, d: Bytes)
    ensures Total(SetBalance(s, account, denom, amount), d)
            == Total(s, d) + if d == denom then amount - Balance(s, account, denom) else 0
  {
    var k, s' := (account, denom), SetBalance(s, account, denom, amount);
    if d != denom {
      assert Holdings(s', d) == Holdings(s, d);
      SumSame(Holdings(s, d), s.balances, s'.balances);
    } else if k in s.balances {
      assert Holdings(s', d) == Holdings(s, d);
      SumUpdate(Holdings(s, d), s.balances, k, amount);
    } else {
      assert Holdings(s', d) == Holdings(s, d) + {k};
      SumAdd(Holdings(s, d), s'.balances, k);
      SumSame(Holdings(s, d), s.balances, s'.balances);
    }
  }

  /** The coin was taken and then refused: the receiver's balance would overflow. */
  predicate IsLost(s: State, from: AccountName, to: AccountName, coin: Coin) {
    Balance(s, from, coin.denom) >= coin.amount && from != to && Balance(s, to, coin.denom) > MAX_UINT64 - coin.amount
  }

  /** After the debit, the credit is refused exactly for a coin that is lost. */
  lemma {:induction false} DebitRefuses(s: State, from: AccountName, to: AccountName, coin: Coin)
    requires coin.amount <= Balance(s, from, coin.denom)
    ensures var debited := SetBalance(s, from, coin.denom, Balance(s, from, coin.denom) - coin.amount);
            Balance(debited, to, coin.denom) > MAX_UINT64 - coin.amount <==> IsLost(s, from, to, coin)
  {
  }

  /** A coin keeps the supply of its denomination, except that a refused credit loses its amount. */
  lemma {:induction false} MoveCoinSupply(s: State, from: AccountName, to: AccountName, coin: Coin, d: Bytes)
    ensures Total(MoveCoin(s, from, to, coin).0, d)
            == Total(s, d) - if IsLost(s, from, to, coin) && d == coin.denom then coin.amount else 0
    ensures IsLost(s, from, to, coin) ==> !MoveCoin(s, from, to, coin).1
  {
    var have := Balance(s, from, coin.denom);
    if have >= coin.amount {
      var debited := SetBalance(s, from, coin.denom, have - coin.amount);
      SetBalanceSupply(s, from, coin.denom, have - coin.amount, d);
      DebitRefuses(s, from, to, coin);
      var held := Balance(debited, to, coin.denom);
      if held <= MAX_UINT64 - coin.amount {
        SetBalanceSupply(debited, to, coin.denom, held + coin.amount, d);
      }
    }
  }

  /** What a transfer loses of a denomination: the first coin whose credit is refused. */
  ghost function LostInTransfer(s: State, from: AccountName, to: AccountName, coins: seq<Coin>, d: Bytes): nat
    decreases |coins|
  {
    if coins == [] then 0
    else if IsLost(s, from, to, coins[0]) then if coins[0].denom == d then coins[0].amount else 0
    else if Balance(s, from, coins[0].denom) < coins[0].amount then 0
    else LostInTransfer(MoveCoin(s, from, to, coins[0]).0, from, to, coins[1..], d)
  }

  lemma {:induction false} TransferSupply(s: State, from: AccountName, to: AccountName, coins: seq<Coin>, d: Bytes)
    ensures var (after, ok) := TransferCoins(s, from, to, coins);
            && Total(after, d) == Total(s, d) - LostInTransfer(s, from, to, coins, d)
            && (ok ==> LostInTransfer(s, from, to, coins, d) == 0)
    decreases |coins|
  {
    if coins != [] {
      MoveCoinSupply(s, from, to, coins[0], d);
      if MoveCoin(s, from, to, coins[0]).1 {
        TransferSupply(MoveCoin(s, from, to, coins[0]).0, from, to, coins[1..], d);
      }
    }
  }

  /** What running the effects loses of a denomination, up to the first that fails. */
  ghost function Lost(s: State, effects: seq<Effect>, d: Bytes): nat {
    if effects == [] then 0
    else
      var n := |effects| - 1;
      var before, e := ApplyAll(s, effects[..n]), effects[n];
      Lost(s, effects[..n], d)
      + if before.ok && e.Transfer? && IsValid(e) then LostInTransfer(before.state, e.from, e.to, e.amount, d) else 0
  }

  /**
   Every run lowers the total of a denomination by exactly what it loses: it keeps the total exactly when
   no credit of that denomination is refused, and a successful run always does.
   */
  lemma {:induction false} ExecuteConserves(s: State, effects: seq<Effect>, d: Bytes)
    ensures Total(ApplyAll(s, effects).state, d) == Total(s, d) - Lost(s, effects, d)
    ensures Total(ApplyAll(s, effects).state, d) == Total(s, d) <==> Lost(s, effects, d) == 0
    ensures ApplyAll(s, effects).ok ==> Lost(s, effects, d) == 0
  {
    if effects != [] {
      var n := |effects| - 1;
      ExecuteConserves(s, effects[..n], d);
      var before, e := ApplyAll(s, effects[..n]), effects[n];
      if before.ok && e.Transfer? && IsValid(e) {
        TransferSupply(before.state, e.from, e.to, e.amount, d);
      }
    }
  }

  /** A refused credit of a funded transfer loses the amount: the receiver already holds the most that fits. */
  lemma {:induction false} RefusedCreditLoses(from: AccountName, to: AccountName, denom: Bytes) returns (s: State,
      effects: seq<Effect>)
    requires IsValidName(from) && IsValidName(to) && from != to && 0 < |denom| <= 64
    ensures !ApplyAll(s, effects).ok && Total(s, denom) == MAX_UINT64 + 1
    ensures Total(ApplyAll(s, effects).state, denom) == MAX_UINT64
  {
    var empty := State(map[], map[]);
    s := SetBalance(SetBalance(empty, from, denom, 1), to, denom, MAX_UINT64);
    assert Holdings(empty, denom) == {};
    SetBalanceSupply(empty, from, denom, 1, denom);
    SetBalanceSupply(SetBalance(empty, from, denom, 1), to, denom, MAX_UINT64, denom);
    var coins := [Coin(denom, 1)];
    effects := [Transfer(from, to, coins)];
    assert effects[..0] == [];
    MoveCoinSupply(s, from, to, coins[0], denom);
  }
}
