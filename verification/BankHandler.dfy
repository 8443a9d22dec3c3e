/**
 The multi-send handler around the settlement (`handleMultiSend` in `modules/bank/module.go`): who may
 submit the message, and what its check of balances is worth.
 */
module BankHandler {
  import opened Basics
  import opened Order
  import opened Accounts
  import opened Effects
  import opened Executor
  import opened MultiSend
  import Ledger

  /** What the balance capability answers; `None` for an error. */
  type Reader = (AccountName, Bytes) -> Option<Uint64>

  // ---- Signers ----

  /** The addresses, each where it first appears. */
  function FirstAppearances(parties: seq<Party>): (signers: seq<AccountName>) {
    if parties == [] then []
    else
      var n := |parties| - 1;
      var before := FirstAppearances(parties[..n]);
      if parties[n].address in before then before else before + [parties[n].address]
  }

  ghost predicate IsSender(parties: seq<Party>, account: AccountName) {
    exists i :: 0 <= i < |parties| && parties[i].address == account
  }

  /** The signers are exactly the senders, each once. */
  lemma {:induction false} SignersAreSenders(parties: seq<Party>)
    ensures NoDuplicates(FirstAppearances(parties))
    ensures forall a :: a in FirstAppearances(parties) <==> IsSender(parties, a)
  {
    if parties != [] {
      var n := |parties| - 1;
      SignersAreSenders(parties[..n]);
      forall a ensures a in FirstAppearances(parties) <==> IsSender(parties, a) {
        if IsSender(parties[..n], a) {
          var i :| 0 <= i < n && parties[..n][i].address == a;
          assert parties[i].address == a;
        }
        if i :| 0 <= i < n && parties[i].address == a {
          assert parties[..n][i].address == a;
        }
      }
    }
  }

  /** `a` appears among the parties before `b` does. */
  ghost predicate AppearsBefore(parties: seq<Party>, a: AccountName, b: AccountName) {
    exists i :: 0 <= i < |parties| && parties[i].address == a && forall j :: 0 <= j <= i ==> parties[j].address != b
  }

  /** The signers are in the order of their first appearances. */
  lemma {:induction false} SignersInOrder(parties: seq<Party>, k: nat, l: nat)
    requires k < l < |FirstAppearances(parties)|
    ensures AppearsBefore(parties, FirstAppearances(parties)[k], FirstAppearances(parties)[l])
  {
    var n := |parties| - 1;
    var before, signers := FirstAppearances(parties[..n]), FirstAppearances(parties);
    SignersAreSenders(parties[..n]);
    var a, b := signers[k], signers[l];
    if l < |before| {
      SignersInOrder(parties[..n], k, l);
      var i :| 0 <= i < n && parties[..n][i].address == a && forall j :: 0 <= j <= i ==> parties[..n][j].address != b;
      assert parties[i].address == a && forall j :: 0 <= j <= i ==> parties[j] == parties[..n][j];
    } else {
      assert a in before && b !in before;
      var i :| 0 <= i < n && parties[..n][i].address == a;
      assert parties[i].address == a && forall j :: 0 <= j < n ==> parties[j] == parties[..n][j];
      forall j | 0 <= j <= i ensures parties[j].address != b {
        assert IsSender(parties[..n], parties[..n][j].address);
      }
    }
  }

  /** `GetSigners` */
  method GetSigners(m: Message) returns (signers: seq<AccountName>)
    ensures NoDuplicates(signers) && signers == FirstAppearances(m.inputs)
    ensures forall a :: a in signers <==> IsSender(m.inputs, a)
  {
    signers := [];
    var seen: set<AccountName> := {};
    for i := 0 to |m.inputs|
      invariant signers == FirstAppearances(m.inputs[..i]) && seen == Elements(signers)
    {
      assert m.inputs[..i + 1][..i] == m.inputs[..i];
      var address := m.inputs[i].address;
      if address !in seen {
        signers := signers + [address];
        seen := seen + {address};
      }
    }
    assert m.inputs[..|m.inputs|] == m.inputs;
    SignersAreSenders(m.inputs);
  }

  // ---- The check of balances ----

  predicate HasEnough(read: Reader, account: AccountName, coin: Coin) {
    var balance := read(account, coin.denom);
    balance.Some? && coin.amount <= balance.value
  }

  /** Each input coin on its own is there. */
  ghost predicate IsChecked(read: Reader, inputs: seq<Party>) {
    forall i, k :: 0 <= i < |inputs| && 0 <= k < |inputs[i].coins| ==>
      HasEnough(read, inputs[i].address, inputs[i].coins[k])
  }

  /** The loops that compare each input coin with the balance of its account. */
  method CheckBalances(read: Reader, inputs: seq<Party>) returns (ok: bool)
    ensures ok <==> IsChecked(read, inputs)
  {
    for i := 0 to |inputs|
      invariant forall a, k :: 0 <= a < i && 0 <= k < |inputs[a].coins| ==>
        HasEnough(read, inputs[a].address, inputs[a].coins[k])
    {
      for k := 0 to |inputs[i].coins|
        invariant forall b :: 0 <= b < k ==> HasEnough(read, inputs[i].address, inputs[i].coins[b])
      {
        if !HasEnough(read, inputs[i].address, inputs[i].coins[k]) {
          return false;
        }
      }
    }
    return true;
  }

  /** All inputs together are there: each account has what it sends in all. */
  ghost predicate IsCovered(read: Reader, inputs: seq<Party>) {
    forall a, d :: AccountSum(inputs, a, d) > 0 ==>
      read(a, d).Some? && AccountSum(inputs, a, d) <= read(a, d).value
  }

  /** Two inputs take the same denomination from the same account. */
  ghost predicate Overlap(inputs: seq<Party>, i: nat, j: nat, denom: Bytes)
    requires i < |inputs| && j < |inputs|
  {
    inputs[i].address == inputs[j].address && CoinSum(inputs[i].coins, denom) > 0 && CoinSum(inputs[j].coins, denom) > 0
  }

  ghost predicate HasOverlap(inputs: seq<Party>) {
    exists i, j, d :: 0 <= i < j < |inputs| && Overlap(inputs, i, j, d)
  }

  ghost predicate AreValidParties(parties: seq<Party>) {
    forall i :: 0 <= i < |parties| ==> IsValidParty(parties[i])
  }

  /** In valid coins a denomination occurs at most once, so its sum is its one amount. */
  lemma {:induction false} CoinSumIsAmount(coins: seq<Coin>, denom: Bytes)
    requires ValidCoins(coins)
    ensures CoinSum(coins, denom) > 0 ==>
              exists k :: 0 <= k < |coins| && coins[k].denom == denom && coins[k].amount == CoinSum(coins, denom)
    ensures forall k :: 0 <= k < |coins| && coins[k].denom == denom ==> coins[k].amount == CoinSum(coins, denom)
  {
    if coins != [] {
      var n := |coins| - 1;
      CoinSumIsAmount(coins[..n], denom);
      if CoinSum(coins[..n], denom) > 0 {
        var k :| 0 <= k < n && coins[..n][k].denom == denom && coins[..n][k].amount == CoinSum(coins[..n], denom);
        assert coins[k].denom == denom && Less(coins[k].denom, coins[n].denom);
        LessIrreflexive(denom);
      }
      forall k | 0 <= k < |coins| && coins[k].denom == denom ensures coins[k].amount == CoinSum(coins, denom) {
        if k < n {
          assert coins[..n][k] == coins[k] && Less(coins[k].denom, coins[n].denom);
          LessIrreflexive(denom);
        }
      }
      if coins[n].denom == denom {
        assert coins[n].amount == CoinSum(coins, denom);
      }
    }
  }

  /** What the check amounts to: each account has what any one of its inputs takes. */
  lemma {:induction false} CheckedByInput(read: Reader, inputs: seq<Party>, i: nat, denom: Bytes)
    requires AreValidParties(inputs) && i < |inputs| && IsChecked(read, inputs)
    ensures var sum, balance := CoinSum(inputs[i].coins, denom), read(inputs[i].address, denom);
            sum > 0 ==> balance.Some? && sum <= balance.value
  {
    assert IsValidParty(inputs[i]);
    var coins := inputs[i].coins;
    CoinSumIsAmount(coins, denom);
    if CoinSum(coins, denom) > 0 {
      var k :| 0 <= k < |coins| && coins[k].denom == denom && coins[k].amount == CoinSum(coins, denom);
      assert HasEnough(read, inputs[i].address, coins[k]);
    }
  }

  /** The most that one input takes of a denomination from an account. */
  function Largest(inputs: seq<Party>, account: AccountName, denom: Bytes): nat {
    if inputs == [] then 0
    else
      var n := |inputs| - 1;
      var before := Largest(inputs[..n], account, denom);
      if inputs[n].address == account then Max(before, CoinSum(inputs[n].coins, denom)) else before
  }

  /** Without overlap an account sends a denomination in one input, so the largest is the sum. */
  lemma {:induction false} LargestIsSum(inputs: seq<Party>, a: AccountName, d: Bytes)
    ensures Largest(inputs, a, d) <= AccountSum(inputs, a, d)
    ensures Largest(inputs, a, d) > 0 <==> AccountSum(inputs, a, d) > 0
    ensures Largest(inputs, a, d) > 0 ==>
              exists i :: 0 <= i < |inputs| && inputs[i].address == a
                          && CoinSum(inputs[i].coins, d) == Largest(inputs, a, d)
    ensures !HasOverlap(inputs) ==> Largest(inputs, a, d) == AccountSum(inputs, a, d)
  {
    if inputs != [] {
      var n := |inputs| - 1;
      LargestIsSum(inputs[..n], a, d);
      var sum := CoinSum(inputs[n].coins, d);
      if HasOverlap(inputs[..n]) {
        var i, j, e :| 0 <= i < j < n && Overlap(inputs[..n], i, j, e);
        assert Overlap(inputs, i, j, e);
      }
      if Largest(inputs[..n], a, d) > 0 {
        var i :| 0 <= i < n && inputs[..n][i].address == a
                 && CoinSum(inputs[..n][i].coins, d) == Largest(inputs[..n], a, d);
        assert inputs[i] == inputs[..n][i];
        if inputs[n].address == a && sum > 0 {
          assert Overlap(inputs, i, n, d);
        }
      }
      if inputs[n].address == a && sum > 0 {
        assert CoinSum(inputs[n].coins, d) == sum;
      }
    }
  }

  /** An input of an account takes at most the largest; two of them together take more. */
  lemma {:induction false} LargestBounds(inputs: seq<Party>, i: nat, d: Bytes)
    requires i < |inputs|
    ensures CoinSum(inputs[i].coins, d) <= Largest(inputs, inputs[i].address, d)
    ensures Largest(inputs, inputs[i].address, d) <= AccountSum(inputs, inputs[i].address, d)
  {
    var n := |inputs| - 1;
    LargestIsSum(inputs, inputs[i].address, d);
    if i < n {
      assert inputs[..n][i] == inputs[i];
      LargestBounds(inputs[..n], i, d);
    }
  }

  lemma {:induction false} OverlapExceeds(inputs: seq<Party>, i: nat, j: nat, d: Bytes)
    requires i < j < |inputs| && Overlap(inputs, i, j, d)
    ensures Largest(inputs, inputs[i].address, d) < AccountSum(inputs, inputs[i].address, d)
  {
    var n, a := |inputs| - 1, inputs[i].address;
    LargestIsSum(inputs[..n], a, d);
    assert inputs[..n][i] == inputs[i];
    LargestBounds(inputs[..n], i, d);
    if j < n {
      assert inputs[..n][j] == inputs[j];
      OverlapExceeds(inputs[..n], i, j, d);
    }
  }

  /** Balances that hold exactly the largest input of each account. */
  ghost function LargestReader(inputs: seq<Party>): Reader {
    (a, d) => if Largest(inputs, a, d) <= MAX_UINT64 then Some(Largest(inputs, a, d)) else None
  }

  lemma {:induction false} LargestReaderChecks(inputs: seq<Party>)
    requires AreValidParties(inputs)
    ensures IsChecked(LargestReader(inputs), inputs)
    ensures forall a, d :: Largest(inputs, a, d) <= MAX_UINT64
  {
    forall a, d ensures Largest(inputs, a, d) <= MAX_UINT64 {
      LargestIsSum(inputs, a, d);
      if Largest(inputs, a, d) > 0 {
        var i :| 0 <= i < |inputs| && inputs[i].address == a && CoinSum(inputs[i].coins, d) == Largest(inputs, a, d);
        assert IsValidParty(inputs[i]);
        CoinSumIsAmount(inputs[i].coins, d);
      }
    }
    forall i, k | 0 <= i < |inputs| && 0 <= k < |inputs[i].coins|
      ensures HasEnough(LargestReader(inputs), inputs[i].address, inputs[i].coins[k])
    {
      assert IsValidParty(inputs[i]);
      CoinSumIsAmount(inputs[i].coins, inputs[i].coins[k].denom);
      LargestBounds(inputs, i, inputs[i].coins[k].denom);
    }
  }

  lemma {:induction false} CheckedIsCovered(read: Reader, inputs: seq<Party>)
    requires AreValidParties(inputs) && IsChecked(read, inputs) && !HasOverlap(inputs)
    ensures IsCovered(read, inputs)
  {
    forall a, d | AccountSum(inputs, a, d) > 0
      ensures read(a, d).Some? && AccountSum(inputs, a, d) <= read(a, d).value
    {
      LargestIsSum(inputs, a, d);
      var i :| 0 <= i < |inputs| && inputs[i].address == a && CoinSum(inputs[i].coins, d) == Largest(inputs, a, d);
      CheckedByInput(read, inputs, i, d);
    }
  }

  /**
   The check, which looks at one input coin at a time, ensures that every account has what it sends in all,
   whatever the balances are, exactly when no two inputs take the same denomination from one account.
   */
  lemma {:induction false} CheckCoversIff(inputs: seq<Party>)
    requires AreValidParties(inputs)
    ensures (forall read: Reader :: IsChecked(read, inputs) ==> IsCovered(read, inputs)) <==> !HasOverlap(inputs)
  {
    if HasOverlap(inputs) {
      var i, j, d :| 0 <= i < j < |inputs| && Overlap(inputs, i, j, d);
      var read := LargestReader(inputs);
      LargestReaderChecks(inputs);
      OverlapExceeds(inputs, i, j, d);
      assert !IsCovered(read, inputs);
    } else {
      forall read: Reader | IsChecked(read, inputs) ensures IsCovered(read, inputs) {
        CheckedIsCovered(read, inputs);
      }
    }
  }

  /** The handler read the balances that the transfers will meet. */
  ghost predicate ReadsBalances(read: Reader, s: State) {
    forall a, d :: read(a, d) == Some(Balance(s, a, d))
  }

  /** Without overlap, a message that was checked against the executor's balances can be settled if there is room. */
  lemma {:induction false} CheckedCanSettle(read: Reader, s: State, m: Message)
    requires IsValidMessage(m) && IsChecked(read, m.inputs) && ReadsBalances(read, s) && !HasOverlap(m.inputs)
    requires forall a, d :: Balance(s, a, d) + AccountSum(m.outputs, a, d) <= MAX_UINT64
    ensures Ledger.CanSettle(s, m)
  {
    CheckedIsCovered(read, m.inputs);
    forall a, d ensures AccountSum(m.inputs, a, d) <= Balance(s, a, d) {
      assert read(a, d) == Some(Balance(s, a, d));
    }
  }

  // ---- The handler ----

  /** Transfers that settle the message, then the closing event. */
  ghost predicate Settles(effects: seq<Effect>, m: Message, closing: Event) {
    && effects != [] && effects[|effects| - 1] == Emit(closing) && AreTransfers(effects[..|effects| - 1])
    && forall a, d ::
         Sent(effects, a, d) == AccountSum(m.inputs, a, d) && Received(effects, a, d) == AccountSum(m.outputs, a, d)
  }

  /** `handleMultiSend` on a message that passed validation. */
  method HandleMultiSend(account: AccountName, read: Reader, m: Message, closing: Event)
    returns (effects: Option<seq<Effect>>)
    requires IsValidMessage(m)
    ensures effects.Some? <==> IsSender(m.inputs, account) && IsChecked(read, m.inputs)
    ensures effects.Some? ==> Settles(effects.value, m, closing)
  {
    var signers := GetSigners(m);
    var found := false;
    for i := 0 to |signers|
      invariant !found && account !in signers[..i]
    {
      if signers[i] == account {
        found := true;
        break;
      }
    }
    if !found {
      return None;
    }
    var covered := CheckBalances(read, m.inputs);
    if !covered {
      return None;
    }
    var transfers, _ := Settle(m);
    var all := transfers + [Emit(closing)];
    assert all[..|transfers|] == transfers;
    return Some(all);
  }

  // ---- What passes the handler ----

  function BalancesOf(s: State): Reader {
    (a, d) => Some(Balance(s, a, d))
  }

  ghost function InputKeys(inputs: seq<Party>): set<(AccountName, Bytes)> {
    set i, k | 0 <= i < |inputs| && 0 <= k < |inputs[i].coins| :: (inputs[i].address, inputs[i].coins[k].denom)
  }

  /** Each account holds the largest of its inputs, and no more. */
  ghost function LargestState(inputs: seq<Party>): State
    requires forall a, d :: Largest(inputs, a, d) <= MAX_UINT64
  {
    State(map[], map p | p in InputKeys(inputs) :: Largest(inputs, p.0, p.1))
  }

  lemma {:induction false} LargestStateHolds(inputs: seq<Party>, a: AccountName, d: Bytes)
    requires AreValidParties(inputs) && forall a, d :: Largest(inputs, a, d) <= MAX_UINT64
    ensures Balance(LargestState(inputs), a, d) == Largest(inputs, a, d)
  {
    LargestIsSum(inputs, a, d);
    if Largest(inputs, a, d) > 0 {
      var i :| 0 <= i < |inputs| && inputs[i].address == a && CoinSum(inputs[i].coins, d) == Largest(inputs, a, d);
      assert IsValidParty(inputs[i]);
      CoinSumIsAmount(inputs[i].coins, d);
      var k :| 0 <= k < |inputs[i].coins| && inputs[i].coins[k].denom == d;
      assert (inputs[i].address, inputs[i].coins[k].denom) in InputKeys(inputs);
    }
  }

  lemma {:induction false} LargestStateChecks(inputs: seq<Party>)
    requires AreValidParties(inputs)
    ensures forall a, d :: Largest(inputs, a, d) <= MAX_UINT64
    ensures IsChecked(BalancesOf(LargestState(inputs)), inputs)
  {
    LargestReaderChecks(inputs);
    forall i, k | 0 <= i < |inputs| && 0 <= k < |inputs[i].coins|
      ensures HasEnough(BalancesOf(LargestState(inputs)), inputs[i].address, inputs[i].coins[k])
    {
      assert HasEnough(LargestReader(inputs), inputs[i].address, inputs[i].coins[k]);
      LargestStateHolds(inputs, inputs[i].address, inputs[i].coins[k].denom);
    }
  }

  /** Effects that settle a message fail where an account has less than it sends beyond what it gets. */
  lemma {:induction false} UncoveredFails(s: State, effects: seq<Effect>, m: Message, closing: Event, a: AccountName,
                                          d: Bytes)
    requires Settles(effects, m, closing) && Balance(s, a, d) + AccountSum(m.outputs, a, d) < AccountSum(m.inputs, a, d)
    ensures !ApplyAll(s, effects).ok
  {
    if ApplyAll(s, effects).ok {
      Ledger.ExecuteMoves(s, effects, a, d);
    }
  }

  /**
   Two inputs that take one denomination from one account: there are balances on which the handler accepts
   the message from any of its senders, and on which whatever settles it fails when executed.
   */
  lemma {:induction false} OverlapFails(m: Message, i: nat, j: nat, d: Bytes, closing: Event) returns (s: State)
    requires IsValidMessage(m) && i < j < |m.inputs| && Overlap(m.inputs, i, j, d)
    requires AccountSum(m.outputs, m.inputs[i].address, d) == 0
    ensures IsChecked(BalancesOf(s), m.inputs)
    ensures forall effects :: Settles(effects, m, closing) ==> !ApplyAll(s, effects).ok
  {
    var a := m.inputs[i].address;
    LargestStateChecks(m.inputs);
    s := LargestState(m.inputs);
    LargestStateHolds(m.inputs, a, d);
    OverlapExceeds(m.inputs, i, j, d);
    forall effects | Settles(effects, m, closing) ensures !ApplyAll(s, effects).ok {
      UncoveredFails(s, effects, m, closing, a, d);
    }
  }

  /** A message with such inputs: it passes the handler, and fails when executed. */
  lemma {:induction false} HandledThenFails(a: AccountName, b: AccountName, denom: Bytes, closing: Event)
    returns (m: Message, s: State)
    requires IsValidName(a) && IsValidName(b) && a != b && 0 < |denom| <= 64
    ensures IsValidMessage(m) && IsSender(m.inputs, a) && IsChecked(BalancesOf(s), m.inputs)
    ensures forall effects :: Settles(effects, m, closing) ==> !ApplyAll(s, effects).ok
  {
    var one, two := [Coin(denom, 1)], [Coin(denom, 2)];
    m := Message([Party(a, one), Party(a, one)], [Party(b, two)]);
    SmallSums(a, b, denom);
    assert m.inputs[0].address == a;
    s := OverlapFails(m, 0, 1, denom, closing);
  }

  lemma {:induction false} SmallSums(a: AccountName, b: AccountName, denom: Bytes)
    requires a != b
    ensures var one, two := [Coin(denom, 1)], [Coin(denom, 2)];
            var inputs, outputs := [Party(a, one), Party(a, one)], [Party(b, two)];
            && CoinSum(one, denom) == 1 && AccountSum(outputs, a, denom) == 0
            && forall d :: PartySum(inputs, d) == PartySum(outputs, d) == if d == denom then 2 else 0
  {
    var one, two := [Coin(denom, 1)], [Coin(denom, 2)];
    var inputs, outputs := [Party(a, one), Party(a, one)], [Party(b, two)];
    assert one[..0] == [] && two[..0] == [] && outputs[..0] == [];
    assert inputs[..1] == [Party(a, one)] && inputs[..1][..0] == [];
    assert forall d :: CoinSum(one, d) == if d == denom then 1 else 0;
    assert forall d :: CoinSum(two, d) == if d == denom then 2 else 0;
  }

  /** What settles a message succeeds where it is covered, and moves every input and output. */
  lemma {:induction false} SettlementMoves(s: State, effects: seq<Effect>, m: Message, closing: Event)
    requires Settles(effects, m, closing) && closing.kind != []
    ensures Ledger.CanSettle(s, m) ==> ApplyAll(s, effects).ok
    ensures ApplyAll(s, effects).ok ==> forall a, d ::
              Balance(ApplyAll(s, effects).state, a, d) + AccountSum(m.inputs, a, d)
              == Balance(s, a, d) + AccountSum(m.outputs, a, d)
  {
    if Ledger.CanSettle(s, m) {
      var n := |effects| - 1;
      assert forall a, d :: Sent(effects, a, d) == Sent(effects[..n], a, d);
      assert forall a, d :: Received(effects, a, d) == Received(effects[..n], a, d);
      Ledger.FundedSucceeds(s, effects[..n]);
    }
    if ApplyAll(s, effects).ok {
      forall a, d
        ensures Balance(ApplyAll(s, effects).state, a, d) + AccountSum(m.inputs, a, d)
                == Balance(s, a, d) + AccountSum(m.outputs, a, d)
      {
        Ledger.ExecuteMoves(s, effects, a, d);
      }
    }
  }

  /** Every input is the account's own. */
  ghost predicate IsOnlySender(inputs: seq<Party>, account: AccountName) {
    forall i :: 0 <= i < |inputs| ==> inputs[i].address == account
  }

  lemma {:induction false} OthersSendNothing(inputs: seq<Party>, account: AccountName, a: AccountName, d: Bytes)
    requires a != account && IsOnlySender(inputs, account)
    ensures AccountSum(inputs, a, d) == 0
  {
    if inputs != [] {
      OthersSendNothing(inputs[..|inputs| - 1], account, a, d);
    }
  }

  /** Every input takes something from its account. */
  lemma {:induction false} InputSends(inputs: seq<Party>, i: nat) returns (d: Bytes)
    requires AreValidParties(inputs) && i < |inputs|
    ensures AccountSum(inputs, inputs[i].address, d) > 0
  {
    assert IsValidParty(inputs[i]);
    d := inputs[i].coins[0].denom;
    CoinSumIsAmount(inputs[i].coins, d);
    LargestBounds(inputs, i, d);
  }

  /**
   The handler asks only that the account be one of the senders. What it returns takes nothing from any other
   account exactly when every input is the account's own.
   */
  lemma {:induction false} OnlySignerSendsIff(effects: seq<Effect>, m: Message, closing: Event, account: AccountName)
    requires IsValidMessage(m) && Settles(effects, m, closing)
    ensures (forall a, d :: a != account ==> Sent(effects, a, d) == 0) <==> IsOnlySender(m.inputs, account)
  {
    if IsOnlySender(m.inputs, account) {
      forall a, d | a != account ensures Sent(effects, a, d) == 0 {
        OthersSendNothing(m.inputs, account, a, d);
      }
    } else {
      var i :| 0 <= i < |m.inputs| && m.inputs[i].address != account;
      var d := InputSends(m.inputs, i);
      assert Sent(effects, m.inputs[i].address, d) != 0;
    }
  }

  /** Only one sender has to submit the message: what another one sends is taken from it although it did not. */
  lemma {:induction false} NonSignerIsDebited(a: AccountName, c: AccountName, b: AccountName, denom: Bytes,
                                              closing: Event)
    returns (m: Message, s: State)
    requires IsValidName(a) && IsValidName(b) && IsValidName(c) && a != b && a != c && b != c
    requires 0 < |denom| <= 64 && closing.kind != []
    ensures IsValidMessage(m) && IsSender(m.inputs, a) && IsChecked(BalancesOf(s), m.inputs)
    ensures forall effects :: Settles(effects, m, closing) ==>
              ApplyAll(s, effects).ok && Balance(ApplyAll(s, effects).state, c, denom) == Balance(s, c, denom) - 1
  {
    var one, two := [Coin(denom, 1)], [Coin(denom, 2)];
    m := Message([Party(a, one), Party(c, one)], [Party(b, two)]);
    s := State(map[], map[(a, denom) := 1, (c, denom) := 1]);
    PairSums(a, c, b, denom);
    assert m.inputs[0].address == a;
    assert Ledger.CanSettle(s, m);
    forall effects | Settles(effects, m, closing)
      ensures ApplyAll(s, effects).ok
      ensures Balance(ApplyAll(s, effects).state, c, denom) == Balance(s, c, denom) - 1
    {
      SettlementMoves(s, effects, m, closing);
    }
  }

  lemma {:induction false} PairSums(a: AccountName, c: AccountName, b: AccountName, denom: Bytes)
    requires a != c
    ensures var one, two := [Coin(denom, 1)], [Coin(denom, 2)];
            var inputs, outputs := [Party(a, one), Party(c, one)], [Party(b, two)];
            && (forall x, d :: AccountSum(inputs, x, d) == if d == denom && (x == a || x == c) then 1 else 0)
            && (forall x, d :: AccountSum(outputs, x, d) == if d == denom && x == b then 2 else 0)
            && (forall d :: PartySum(inputs, d) == PartySum(outputs, d) == if d == denom then 2 else 0)
  {
    var one, two := [Coin(denom, 1)], [Coin(denom, 2)];
    var inputs, outputs := [Party(a, one), Party(c, one)], [Party(b, two)];
    assert one[..0] == [] && two[..0] == [] && outputs[..0] == [];
    assert inputs[..1] == [Party(a, one)] && inputs[..1][..0] == [];
    assert forall d :: CoinSum(one, d) == if d == denom then 1 else 0;
    assert forall d :: CoinSum(two, d) == if d == denom then 2 else 0;
    forall x, d ensures AccountSum(inputs, x, d) == if d == denom && (x == a || x == c) then 1 else 0 {
      assert AccountSum(inputs[..1], x, d) == if x == a then CoinSum(one, d) else 0;
    }
  }
}
