/** Multi-party transfers: validation and settlement (`modules/bank/messages.go`, `modules/bank/module.go`). */
module MultiSend {
  import opened Basics
  import opened Accounts
  import opened Effects
  import opened Sums

  /** An input or an output: an account and the coins it sends or receives. */
  datatype Party = Party(address: AccountName, coins: seq<Coin>)

  datatype Message = Message(inputs: seq<Party>, outputs: seq<Party>)

  // ---- Totals ----

  function CoinSum(coins: seq<Coin>, denom: Bytes): nat {
    if coins == [] then 0
    else
      var n := |coins| - 1;
      CoinSum(coins[..n], denom) + if coins[n].denom == denom then coins[n].amount else 0
  }

  /** What all parties together have of a denomination. */
  function PartySum(parties: seq<Party>, denom: Bytes): nat {
    if parties == [] then 0
    else
      var n := |parties| - 1;
      PartySum(parties[..n], denom) + CoinSum(parties[n].coins, denom)
  }

  /** What one account has of a denomination, over all its entries. */
  function AccountSum(parties: seq<Party>, account: AccountName, denom: Bytes): nat {
    if parties == [] then 0
    else
      var n := |parties| - 1;
      AccountSum(parties[..n], account, denom)
      + if parties[n].address == account then CoinSum(parties[n].coins, denom) else 0
  }

  predicate IsValidParty(p: Party) {
    IsValidName(p.address) && ValidCoins(p.coins) && AllPositive(p.coins)
  }

  /** Valid, non-empty sides that balance in every denomination without overflow. */
  ghost predicate IsValidMessage(m: Message) {
    && m.inputs != [] && m.outputs != []
    && (forall i :: 0 <= i < |m.inputs| ==> IsValidParty(m.inputs[i]))
    && (forall i :: 0 <= i < |m.outputs| ==> IsValidParty(m.outputs[i]))
    && (forall d :: PartySum(m.inputs, d) == PartySum(m.outputs, d) <= MAX_UINT64)
  }

  lemma {:induction false} CoinSumPrefix(coins: seq<Coin>, k: nat, denom: Bytes)
    requires k <= |coins|
    ensures CoinSum(coins[..k], denom) <= CoinSum(coins, denom)
    decreases |coins|
  {
    if k == |coins| {
      assert coins[..k] == coins;
    } else {
      var n := |coins| - 1;
      assert coins[..n][..k] == coins[..k];
      CoinSumPrefix(coins[..n], k, denom);
    }
  }

  lemma {:induction false} PartySumPrefix(parties: seq<Party>, k: nat, denom: Bytes)
    requires k <= |parties|
    ensures PartySum(parties[..k], denom) <= PartySum(parties, denom)
    decreases |parties|
  {
    if k == |parties| {
      assert parties[..k] == parties;
    } else {
      var n := |parties| - 1;
      assert parties[..n][..k] == parties[..k];
      PartySumPrefix(parties[..n], k, denom);
    }
  }

  /** Up to the k-th coin of the i-th party. */
  function SumUpTo(parties: seq<Party>, i: nat, k: nat, denom: Bytes): nat
    requires i < |parties| && k <= |parties[i].coins|
  {
    PartySum(parties[..i], denom) + CoinSum(parties[i].coins[..k], denom)
  }

  lemma {:induction false} SumUpToWithin(parties: seq<Party>, i: nat, k: nat, denom: Bytes)
    requires i < |parties| && k <= |parties[i].coins|
    ensures SumUpTo(parties, i, k, denom) <= PartySum(parties, denom)
    ensures k == |parties[i].coins| ==> SumUpTo(parties, i, k, denom) == PartySum(parties[..i + 1], denom)
  {
    CoinSumPrefix(parties[i].coins, k, denom);
    PartySumPrefix(parties, i + 1, denom);
    assert parties[..i + 1][..i] == parties[..i];
    assert parties[i].coins[..|parties[i].coins|] == parties[i].coins;
  }

  lemma {:induction false} SumUpToStep(parties: seq<Party>, i: nat, k: nat, denom: Bytes)
    requires i < |parties| && k < |parties[i].coins|
    ensures var c := parties[i].coins[k];
            SumUpTo(parties, i, k + 1, denom)
            == SumUpTo(parties, i, k, denom) + if c.denom == denom then c.amount else 0
  {
    assert parties[i].coins[..k + 1][..k] == parties[i].coins[..k];
  }

  /** The totalling loops of `ValidateBasic`, which stop at an overflow. */
  method Totals(parties: seq<Party>) returns (totals: Option<map<Bytes, Uint64>>)
    ensures totals.Some? <==> forall d :: PartySum(parties, d) <= MAX_UINT64
    ensures totals.Some? ==> forall d :: AmountIn(totals.value, d) == PartySum(parties, d)
    ensures totals.Some? && (forall i :: 0 <= i < |parties| ==> IsValidParty(parties[i])) ==>
              forall d :: d in totals.value ==> totals.value[d] > 0
  {
    var sums: map<Bytes, Uint64> := map[];
    for i := 0 to |parties|
      invariant forall d :: AmountIn(sums, d) == PartySum(parties[..i], d)
      invariant (forall j :: 0 <= j < |parties| ==> IsValidParty(parties[j])) ==> forall d :: d in sums ==> sums[d] > 0
    {
      var coins := parties[i].coins;
      forall d ensures AmountIn(sums, d) == SumUpTo(parties, i, 0, d) {
        assert coins[..0] == [];
      }
      for k := 0 to |coins|
        invariant forall d :: AmountIn(sums, d) == SumUpTo(parties, i, k, d)
        invariant (forall j :: 0 <= j < |parties| ==> IsValidParty(parties[j])) ==>
                    forall d :: d in sums ==> sums[d] > 0
      {
        var coin, before := coins[k], sums;
        var existing := AmountIn(sums, coin.denom);
        SumUpToStep(parties, i, k, coin.denom);
        if existing > MAX_UINT64 - coin.amount {
          SumUpToWithin(parties, i, k + 1, coin.denom);
          return None;
        }
        sums := sums[coin.denom := existing + coin.amount];
        forall d ensures AmountIn(sums, d) == SumUpTo(parties, i, k + 1, d) {
          assert AmountIn(before, d) == SumUpTo(parties, i, k, d);
          SumUpToStep(parties, i, k, d);
        }
      }
      forall d ensures AmountIn(sums, d) == PartySum(parties[..i + 1], d) {
        SumUpToWithin(parties, i, |coins|, d);
      }
    }
    assert parties[..|parties|] == parties;
    return Some(sums);
  }

  method ValidateParties(parties: seq<Party>) returns (ok: bool)
    ensures ok <==> forall i :: 0 <= i < |parties| ==> IsValidParty(parties[i])
  {
    for i := 0 to |parties|
      invariant forall k :: 0 <= k < i ==> IsValidParty(parties[k])
    {
      if !IsValidParty(parties[i]) {
        return false;
      }
    }
    return true;
  }

  /** `MsgMultiSend.ValidateBasic` */
  method ValidateBasic(m: Message) returns (ok: bool)
    ensures ok <==> IsValidMessage(m)
    ensures ok ==> m.inputs != [] && m.outputs != []
    ensures ok ==> forall p :: p in m.inputs || p in m.outputs ==>
              p.coins != [] && forall c :: c in p.coins ==> c.amount > 0
  {
    if m.inputs == [] || m.outputs == [] {
      return false;
    }
    ok := ValidateParties(m.inputs);
    if !ok {
      return;
    }
    ok := ValidateParties(m.outputs);
    if !ok {
      return;
    }
    var inputs := Totals(m.inputs);
    if inputs.None? {
      return false;
    }
    var outputs := Totals(m.outputs);
    if outputs.None? {
      return false;
    }
    var remaining := inputs.value.Keys;
    while remaining != {}
      invariant remaining <= inputs.value.Keys
      invariant forall d :: d in inputs.value && d !in remaining ==>
                AmountIn(inputs.value, d) == AmountIn(outputs.value, d)
      decreases remaining
    {
      var d :| d in remaining;
      remaining := remaining - {d};
      if inputs.value[d] != AmountIn(outputs.value, d) {
        assert AmountIn(inputs.value, d) != AmountIn(outputs.value, d);
        return false;
      }
    }
    if d :| d in outputs.value && d !in inputs.value {
      assert AmountIn(inputs.value, d) != AmountIn(outputs.value, d);
      return false;
    }
    forall d ensures PartySum(m.inputs, d) == PartySum(m.outputs, d) {
      assert AmountIn(inputs.value, d) == PartySum(m.inputs, d);
      assert AmountIn(outputs.value, d) == PartySum(m.outputs, d);
    }
    return true;
  }

  // ---- What the emitted transfers add up to ----

  function Sent(ts: seq<Effect>, account: AccountName, denom: Bytes): nat {
    if ts == [] then 0
    else
      var t := ts[|ts| - 1];
      Sent(ts[..|ts| - 1], account, denom)
      + if t.Transfer? && t.from == account then CoinSum(t.amount, denom) else 0
  }

  function Received(ts: seq<Effect>, account: AccountName, denom: Bytes): nat {
    if ts == [] then 0
    else
      var t := ts[|ts| - 1];
      Received(ts[..|ts| - 1], account, denom)
      + if t.Transfer? && t.to == account then CoinSum(t.amount, denom) else 0
  }

  lemma {:induction false} TransferAdded(ts: seq<Effect>, from: AccountName, to: AccountName, coin: Coin,
                                         account: AccountName, denom: Bytes)
    ensures var ts', amount := ts + [Transfer(from, to, [coin])], if coin.denom == denom then coin.amount else 0;
            && Sent(ts', account, denom) == Sent(ts, account, denom) + (if account == from then amount else 0)
            && Received(ts', account, denom) == Received(ts, account, denom) + (if account == to then amount else 0)
  {
    assert (ts + [Transfer(from, to, [coin])])[..|ts|] == ts;
    var one := [coin];
    assert CoinSum(one[..0], denom) == 0;
    assert CoinSum(one, denom) == if coin.denom == denom then coin.amount else 0;
  }

  // ---- Needs ----

  /** What each recipient still needs, per denomination. */
  type Needs = map<AccountName, map<Bytes, Uint64>>

  function Need(needs: Needs, account: AccountName, denom: Bytes): Uint64 {
    if account in needs then AmountIn(needs[account], denom) else 0
  }

  ghost function NeedsOf(needs: Needs, denom: Bytes): map<AccountName, Uint64> {
    map a | a in needs :: Need(needs, a, denom)
  }

  ghost function TotalNeed(needs: Needs, denom: Bytes): nat {
    SumOf(needs.Keys, NeedsOf(needs, denom))
  }

  function WithNeed(needs: Needs, account: AccountName, denom: Bytes, amount: Uint64): Needs
    requires account in needs
  {
    var amounts: map<Bytes, Uint64> := needs[account][denom := amount];
    needs[account := amounts]
  }

  lemma {:induction false} WithNeedTotals(needs: Needs, account: AccountName, denom: Bytes, amount: Uint64, d: Bytes)
    requires account in needs
    ensures TotalNeed(WithNeed(needs, account, denom, amount), d)
            == TotalNeed(needs, d) + if d == denom then amount - Need(needs, account, denom) else 0
    ensures forall a :: Need(WithNeed(needs, account, denom, amount), a, d)
                        == if a == account && d == denom then amount else Need(needs, a, d)
  {
    var needs' := WithNeed(needs, account, denom, amount);
    if d == denom {
      SumUpdate(needs.Keys, NeedsOf(needs, d), account, amount);
      assert NeedsOf(needs', d) == NeedsOf(needs, d)[account := amount];
    } else {
      assert NeedsOf(needs', d) == NeedsOf(needs, d);
    }
    assert needs'.Keys == needs.Keys;
  }

  lemma {:induction false} SumOfZeros(s: set<AccountName>, w: map<AccountName, Uint64>)
    requires s <= w.Keys
    ensures (forall a :: a in s ==> w[a] == 0) <==> SumOf(s, w) == 0
    decreases s
  {
    if a :| a in s {
      SumPick(s, w, a);
      SumOfZeros(s - {a}, w);
      assert forall b :: b in s <==> b == a || b in s - {a};
    }
  }

  lemma {:induction false} NothingNeeded(needs: Needs, denom: Bytes)
    ensures TotalNeed(needs, denom) == 0 <==> forall a :: Need(needs, a, denom) == 0
  {
    SumOfZeros(needs.Keys, NeedsOf(needs, denom));
    if TotalNeed(needs, denom) == 0 {
      forall a ensures Need(needs, a, denom) == 0 {
        if a in needs {
          assert NeedsOf(needs, denom)[a] == 0;
        }
      }
    }
  }

  /** `transfers` account exactly for the difference between two states of the needs. */
  ghost predicate Covers(before: Needs, after: Needs, transfers: seq<Effect>) {
    && after.Keys == before.Keys
    && (forall a, d :: Need(after, a, d) + Received(transfers, a, d) == Need(before, a, d))
  }

  /** Valid single-coin transfers out of one account, in one denomination. */
  ghost predicate AreFrom(transfers: seq<Effect>, from: AccountName, needs: Needs) {
    forall i :: 0 <= i < |transfers| ==>
      transfers[i].Transfer? && transfers[i].from == from && transfers[i].to in needs && IsValid(transfers[i])
  }

  ghost predicate SendsOnly(transfers: seq<Effect>, from: AccountName, denom: Bytes, amount: nat) {
    forall a, d :: Sent(transfers, a, d) == if a == from && d == denom then amount else 0
  }

  /** One account in the matching loop of `handleMultiSend`. */
  method GiveTo(from: AccountName, to: AccountName, denom: Bytes, needs: Needs, remaining: Uint64,
                transfers: seq<Effect>)
    returns (needs': Needs, remaining': Uint64, transfers': seq<Effect>)
    requires to in needs && remaining > 0 && IsValidName(from) && IsValidName(to) && Coin(denom, 0).IsValid()
    ensures var given := if remaining <= Need(needs, to, denom) then remaining else Need(needs, to, denom);
            && remaining' == remaining - given
            && needs'.Keys == needs.Keys
            && (forall a, d :: Need(needs', a, d) == Need(needs, a, d) - if a == to && d == denom then given else 0)
            && (forall d :: TotalNeed(needs', d) == TotalNeed(needs, d) - if d == denom then given else 0)
            && (transfers' == if given == 0 then transfers else transfers + [Transfer(from, to, [Coin(denom, given)])])
            && (given > 0 ==> IsValid(Transfer(from, to, [Coin(denom, given)])))
  {
    needs', remaining', transfers' := needs, remaining, transfers;
    if denom in needs[to] && needs[to][denom] > 0 {
      var needed := needs[to][denom];
      var toTransfer := remaining;
      if toTransfer > needed {
        toTransfer := needed;
      }
      transfers' := transfers + [Transfer(from, to, [Coin(denom, toTransfer)])];
      needs' := WithNeed(needs, to, denom, needed - toTransfer);
      remaining' := remaining - toTransfer;
      forall d
        ensures TotalNeed(needs', d) == TotalNeed(needs, d) - if d == denom then toTransfer else 0
        ensures forall a :: Need(needs', a, d) == Need(needs, a, d) - if a == to && d == denom then toTransfer else 0
      {
        WithNeedTotals(needs, to, denom, needed - toTransfer, d);
      }
    }
  }

  /** What the matching loop for one coin keeps. */
  ghost predicate IsMatching(from: AccountName, denom: Bytes, sent: nat, before: Needs, after: Needs,
                             given: seq<Effect>)
  {
    && Covers(before, after, given) && AreFrom(given, from, before) && SendsOnly(given, from, denom, sent)
    && (forall d :: TotalNeed(after, d) == TotalNeed(before, d) - if d == denom then sent else 0)
  }

  /** One more gift, or none. */
  lemma {:induction false} MatchingStep(from: AccountName, to: AccountName, denom: Bytes, sent: nat, amount: Uint64,
                     before: Needs, mid: Needs, after: Needs, given: seq<Effect>)
    requires IsMatching(from, denom, sent, before, mid, given) && to in before && amount > 0
    requires IsValid(Transfer(from, to, [Coin(denom, amount)]))
    requires after.Keys == mid.Keys
    requires forall a, d :: Need(after, a, d) == Need(mid, a, d) - if a == to && d == denom then amount else 0
    requires forall d :: TotalNeed(after, d) == TotalNeed(mid, d) - if d == denom then amount else 0
    ensures IsMatching(from, denom, sent + amount, before, after, given + [Transfer(from, to, [Coin(denom, amount)])])
  {
    var given' := given + [Transfer(from, to, [Coin(denom, amount)])];
    forall a, d
      ensures Need(after, a, d) + Received(given', a, d) == Need(before, a, d)
      ensures Sent(given', a, d) == if a == from && d == denom then sent + amount else 0
    {
      TransferAdded(given, from, to, Coin(denom, amount), a, d);
      assert Need(mid, a, d) + Received(given, a, d) == Need(before, a, d);
      assert Sent(given, a, d) == if a == from && d == denom then sent else 0;
    }
  }

  ghost predicate HasValidNames(needs: Needs) {
    forall a :: a in needs ==> IsValidName(a)
  }

  /** One recipient in the matching loop: gets what is left or what it needs, whichever is less. */
  method MatchAccount(from: AccountName, to: AccountName, coin: Coin, ghost before: Needs,
                      needs: Needs, remaining: Uint64, given: seq<Effect>)
    returns (needs': Needs, remaining': Uint64, given': seq<Effect>)
    requires IsValidName(from) && coin.IsValid() && HasValidNames(before) && to in before
            && 0 < remaining <= coin.amount
    requires IsMatching(from, coin.denom, coin.amount - remaining, before, needs, given)
    ensures remaining' <= remaining
    ensures IsMatching(from, coin.denom, coin.amount - remaining', before, needs', given')
    ensures remaining' > 0 ==> Need(needs', to, coin.denom) == 0
    ensures forall a :: Need(needs', a, coin.denom) <= Need(needs, a, coin.denom)
  {
    needs', remaining', given' := GiveTo(from, to, coin.denom, needs, remaining, given);
    if remaining > remaining' {
      MatchingStep(from, to, coin.denom, coin.amount - remaining, remaining - remaining', before, needs, needs', given);
    }
  }

  /** When every recipient has been served and something is left, more was on offer than needed. */
  lemma {:induction false} Exhausted(from: AccountName, denom: Bytes, sent: nat, before: Needs, after: Needs,
                                     given: seq<Effect>)
    requires IsMatching(from, denom, sent, before, after, given)
    requires forall a :: a in before ==> Need(after, a, denom) == 0
    ensures sent == TotalNeed(before, denom)
  {
    forall a ensures Need(after, a, denom) == 0 {
      assert a in before <==> a in after;
    }
    NothingNeeded(after, denom);
  }

  /**
   The matching loop for one coin, over the recipients in any order: the whole amount is given away,
   and the needs go down by exactly what was given.
   */
  method MatchCoin(from: AccountName, coin: Coin, needs: Needs) returns (needs': Needs, given: seq<Effect>)
    requires IsValidName(from) && coin.IsValid() && coin.amount > 0 && HasValidNames(needs)
    requires coin.amount <= TotalNeed(needs, coin.denom)
    ensures IsMatching(from, coin.denom, coin.amount, needs, needs', given)
  {
    needs', given := needs, [];
    var remaining: Uint64, accounts := coin.amount, needs.Keys;
    while accounts != {} && remaining > 0
      invariant accounts <= needs.Keys && remaining <= coin.amount
      invariant IsMatching(from, coin.denom, coin.amount - remaining, needs, needs', given)
      invariant remaining > 0 ==> forall a :: a in needs && a !in accounts ==> Need(needs', a, coin.denom) == 0
      decreases accounts
    {
      var to :| to in accounts;
      accounts := accounts - {to};
      needs', remaining, given := MatchAccount(from, to, coin, needs, needs', remaining, given);
    }
    if remaining > 0 {
      Exhausted(from, coin.denom, coin.amount - remaining, needs, needs', given);
    }
  }

  // ---- Building the needs ----

  /** Up to the k-th coin of the i-th party, for one account. */
  function AccountSumUpTo(parties: seq<Party>, i: nat, k: nat, account: AccountName, denom: Bytes): nat
    requires i < |parties| && k <= |parties[i].coins|
  {
    AccountSum(parties[..i], account, denom)
    + if parties[i].address == account then CoinSum(parties[i].coins[..k], denom) else 0
  }

  lemma {:induction false} AccountSumUpToStep(parties: seq<Party>, i: nat, k: nat, account: AccountName, denom: Bytes)
    requires i < |parties| && k < |parties[i].coins|
    ensures var c := parties[i].coins[k];
            AccountSumUpTo(parties, i, k + 1, account, denom)
            == AccountSumUpTo(parties, i, k, account, denom)
               + if account == parties[i].address && c.denom == denom then c.amount else 0
  {
    assert parties[i].coins[..k + 1][..k] == parties[i].coins[..k];
  }

  lemma {:induction false} AccountSumUpToEnds(parties: seq<Party>, i: nat, account: AccountName, denom: Bytes)
    requires i < |parties|
    ensures AccountSumUpTo(parties, i, 0, account, denom) == AccountSum(parties[..i], account, denom)
    ensures AccountSumUpTo(parties, i, |parties[i].coins|, account, denom)
            == AccountSum(parties[..i + 1], account, denom)
  {
    assert parties[i].coins[..0] == [];
    assert parties[..i + 1][..i] == parties[..i];
    assert parties[i].coins[..|parties[i].coins|] == parties[i].coins;
  }

  lemma {:induction false} SumUpToEnds(parties: seq<Party>, i: nat, denom: Bytes)
    requires i < |parties|
    ensures SumUpTo(parties, i, 0, denom) == PartySum(parties[..i], denom)
    ensures SumUpTo(parties, i, |parties[i].coins|, denom) == PartySum(parties[..i + 1], denom)
  {
    assert parties[i].coins[..0] == [];
    SumUpToWithin(parties, i, |parties[i].coins|, denom);
  }

  /** The needs are exactly the outputs up to the k-th coin of the i-th one. */
  ghost predicate AreNeedsUpTo(needs: Needs, outputs: seq<Party>, i: nat, k: nat)
    requires i < |outputs| && k <= |outputs[i].coins|
  {
    && (forall a, d :: Need(needs, a, d) == AccountSumUpTo(outputs, i, k, a, d))
    && (forall d :: TotalNeed(needs, d) == SumUpTo(outputs, i, k, d))
  }

  ghost predicate AreNeedsOf(needs: Needs, outputs: seq<Party>) {
    && (forall a, d :: Need(needs, a, d) == AccountSum(outputs, a, d))
    && (forall d :: TotalNeed(needs, d) == PartySum(outputs, d))
  }

  /** Opening an account with no needs changes nothing. */
  lemma {:induction false} AccountOpened(needs: Needs, account: AccountName, d: Bytes)
    requires account !in needs
    ensures TotalNeed(needs[account := map[]], d) == TotalNeed(needs, d)
    ensures forall a :: Need(needs[account := map[]], a, d) == Need(needs, a, d)
  {
    var needs' := needs[account := map[]];
    assert needs'.Keys == needs.Keys + {account};
    SumAdd(needs.Keys, NeedsOf(needs', d), account);
    SumSame(needs.Keys, NeedsOf(needs', d), NeedsOf(needs, d));
  }

  lemma {:induction false} NeedWithinTotal(needs: Needs, account: AccountName, denom: Bytes)
    ensures Need(needs, account, denom) <= TotalNeed(needs, denom)
  {
    if account in needs {
      SumPick(needs.Keys, NeedsOf(needs, denom), account);
    }
  }

  /** Go's wrapping `uint64` addition. */
  function WrappingAdd(a: Uint64, b: Uint64): Uint64 {
    (a + b) % 0x1_0000_0000_0000_0000
  }

  lemma {:induction false} NeedAdded(needs: Needs, outputs: seq<Party>, i: nat, k: nat, need: Uint64)
    requires i < |outputs| && k < |outputs[i].coins| && outputs[i].address in needs
            && AreNeedsUpTo(needs, outputs, i, k)
    requires var c := outputs[i].coins[k]; need == Need(needs, outputs[i].address, c.denom) + c.amount
    ensures AreNeedsUpTo(WithNeed(needs, outputs[i].address, outputs[i].coins[k].denom, need), outputs, i, k + 1)
  {
    var address, coin := outputs[i].address, outputs[i].coins[k];
    var needs' := WithNeed(needs, address, coin.denom, need);
    forall a, d ensures Need(needs', a, d) == AccountSumUpTo(outputs, i, k + 1, a, d) {
      WithNeedTotals(needs, address, coin.denom, need, d);
      AccountSumUpToStep(outputs, i, k, a, d);
    }
    forall d ensures TotalNeed(needs', d) == SumUpTo(outputs, i, k + 1, d) {
      WithNeedTotals(needs, address, coin.denom, need, d);
      SumUpToStep(outputs, i, k, d);
    }
  }

  /** One output coin: the need grows by its amount; the sum does not wrap. */
  method AddNeed(needs: Needs, ghost outputs: seq<Party>, ghost i: nat, ghost k: nat, address: AccountName, coin: Coin)
    returns (needs': Needs)
    requires i < |outputs| && k < |outputs[i].coins| && outputs[i].address == address && outputs[i].coins[k] == coin
    requires address in needs && AreNeedsUpTo(needs, outputs, i, k) && PartySum(outputs, coin.denom) <= MAX_UINT64
    ensures needs'.Keys == needs.Keys && AreNeedsUpTo(needs', outputs, i, k + 1)
  {
    NeedWithinTotal(needs, address, coin.denom);
    SumUpToStep(outputs, i, k, coin.denom);
    SumUpToWithin(outputs, i, k + 1, coin.denom);
    var need := WrappingAdd(AmountIn(needs[address], coin.denom), coin.amount);
    NeedAdded(needs, outputs, i, k, need);
    needs' := WithNeed(needs, address, coin.denom, need);
  }

  /** One output: its account is opened if new, then its coins are added. */
  method AddOutput(needs: Needs, outputs: seq<Party>, i: nat) returns (needs': Needs)
    requires i < |outputs| && AreNeedsOf(needs, outputs[..i]) && forall d :: PartySum(outputs, d) <= MAX_UINT64
    ensures needs'.Keys == needs.Keys + {outputs[i].address} && AreNeedsOf(needs', outputs[..i + 1])
  {
    var Party(address, coins) := outputs[i];
    needs' := needs;
    if address !in needs {
      forall d {
        AccountOpened(needs, address, d);
      }
      needs' := needs[address := map[]];
    }
    forall d {
      SumUpToEnds(outputs, i, d);
    }
    forall a, d {
      AccountSumUpToEnds(outputs, i, a, d);
    }
    for k := 0 to |coins|
      invariant needs'.Keys == needs.Keys + {address} && AreNeedsUpTo(needs', outputs, i, k)
    {
      needs' := AddNeed(needs', outputs, i, k, address, coins[k]);
    }
  }

  /** The loop that totals the outputs per account and denomination. */
  method BuildNeeds(outputs: seq<Party>) returns (needs: Needs)
    requires forall d :: PartySum(outputs, d) <= MAX_UINT64
    requires forall i :: 0 <= i < |outputs| ==> IsValidParty(outputs[i])
    ensures AreNeedsOf(needs, outputs) && HasValidNames(needs)
  {
    needs := map[];
    assert outputs[..0] == [];
    for i := 0 to |outputs|
      invariant AreNeedsOf(needs, outputs[..i]) && HasValidNames(needs)
    {
      needs := AddOutput(needs, outputs, i);
    }
    assert outputs[..|outputs|] == outputs;
  }

  // ---- Settlement ----

  lemma {:induction false} SumsAppend(s: seq<Effect>, t: seq<Effect>, account: AccountName, denom: Bytes)
    ensures Sent(s + t, account, denom) == Sent(s, account, denom) + Sent(t, account, denom)
    ensures Received(s + t, account, denom) == Received(s, account, denom) + Received(t, account, denom)
    decreases |t|
  {
    if t == [] {
      assert s + t == s;
    } else {
      var n := |t| - 1;
      assert (s + t)[..|s + t| - 1] == s + t[..n];
      SumsAppend(s, t[..n], account, denom);
    }
  }

  /** Valid transfers, hence of positive amounts. */
  ghost predicate AreTransfers(transfers: seq<Effect>) {
    forall i :: 0 <= i < |transfers| ==> transfers[i].Transfer? && IsValid(transfers[i])
  }

  /** Settled up to the k-th coin of the i-th input. */
  ghost predicate IsSettledUpTo(m: Message, i: nat, k: nat, needs: Needs, transfers: seq<Effect>)
    requires i < |m.inputs| && k <= |m.inputs[i].coins|
  {
    && AreTransfers(transfers) && HasValidNames(needs)
    && (forall a, d :: Sent(transfers, a, d) == AccountSumUpTo(m.inputs, i, k, a, d))
    && (forall a, d :: Received(transfers, a, d) + Need(needs, a, d) == AccountSum(m.outputs, a, d))
    && (forall d :: TotalNeed(needs, d) + SumUpTo(m.inputs, i, k, d) == PartySum(m.outputs, d))
  }

  /** Settled for the first `i` inputs. */
  ghost predicate IsSettledFor(m: Message, i: nat, needs: Needs, transfers: seq<Effect>)
    requires i <= |m.inputs|
  {
    && AreTransfers(transfers) && HasValidNames(needs)
    && (forall a, d :: Sent(transfers, a, d) == AccountSum(m.inputs[..i], a, d))
    && (forall a, d :: Received(transfers, a, d) + Need(needs, a, d) == AccountSum(m.outputs, a, d))
    && (forall d :: TotalNeed(needs, d) + PartySum(m.inputs[..i], d) == PartySum(m.outputs, d))
  }

  lemma {:induction false} SettledEnds(m: Message, i: nat, needs: Needs, transfers: seq<Effect>)
    requires i < |m.inputs|
    ensures IsSettledUpTo(m, i, 0, needs, transfers) <==> IsSettledFor(m, i, needs, transfers)
    ensures IsSettledUpTo(m, i, |m.inputs[i].coins|, needs, transfers) <==> IsSettledFor(m, i + 1, needs, transfers)
  {
    forall a, d {
      AccountSumUpToEnds(m.inputs, i, a, d);
    }
    forall d {
      SumUpToEnds(m.inputs, i, d);
    }
  }

  lemma {:induction false} CoinSettled(m: Message, i: nat, k: nat, needs: Needs, transfers: seq<Effect>, needs': Needs,
                                       given: seq<Effect>)
    requires i < |m.inputs| && k < |m.inputs[i].coins| && IsSettledUpTo(m, i, k, needs, transfers)
    requires var c := m.inputs[i].coins[k]; IsMatching(m.inputs[i].address, c.denom, c.amount, needs, needs', given)
    ensures IsSettledUpTo(m, i, k + 1, needs', transfers + given)
  {
    forall a, d
      ensures Sent(transfers + given, a, d) == AccountSumUpTo(m.inputs, i, k + 1, a, d)
      ensures Received(transfers + given, a, d) + Need(needs', a, d) == AccountSum(m.outputs, a, d)
    {
      AccountSettled(m, i, k, needs, transfers, needs', given, a, d);
    }
    forall d ensures TotalNeed(needs', d) + SumUpTo(m.inputs, i, k + 1, d) == PartySum(m.outputs, d) {
      TotalSettled(m, i, k, needs, transfers, needs', given, d);
    }
  }

  /** What one matched coin means for the total need of one denomination. */
  lemma {:induction false} TotalSettled(
    m: Message, i: nat, k: nat, needs: Needs, transfers: seq<Effect>, needs': Needs, given: seq<Effect>, d: Bytes)
    requires i < |m.inputs| && k < |m.inputs[i].coins| && IsSettledUpTo(m, i, k, needs, transfers)
    requires var c := m.inputs[i].coins[k]; IsMatching(m.inputs[i].address, c.denom, c.amount, needs, needs', given)
    ensures TotalNeed(needs', d) + SumUpTo(m.inputs, i, k + 1, d) == PartySum(m.outputs, d)
  {
    var c := m.inputs[i].coins[k];
    SumUpToStep(m.inputs, i, k, d);
    assert TotalNeed(needs', d) == TotalNeed(needs, d) - if d == c.denom then c.amount else 0;
  }

  /** What one matched coin means for one account and denomination. */
  lemma {:induction false} AccountSettled(
    m: Message, i: nat, k: nat, needs: Needs, transfers: seq<Effect>, needs': Needs, given: seq<Effect>,
    a: AccountName, d: Bytes)
    requires i < |m.inputs| && k < |m.inputs[i].coins| && IsSettledUpTo(m, i, k, needs, transfers)
    requires var c := m.inputs[i].coins[k]; IsMatching(m.inputs[i].address, c.denom, c.amount, needs, needs', given)
    ensures Sent(transfers + given, a, d) == AccountSumUpTo(m.inputs, i, k + 1, a, d)
    ensures Received(transfers + given, a, d) + Need(needs', a, d) == AccountSum(m.outputs, a, d)
  {
    var from, c := m.inputs[i].address, m.inputs[i].coins[k];
    SumsAppend(transfers, given, a, d);
    AccountSumUpToStep(m.inputs, i, k, a, d);
    assert Sent(given, a, d) == if a == from && d == c.denom then c.amount else 0;
    assert Need(needs', a, d) + Received(given, a, d) == Need(needs, a, d);
  }

  /** One input of the matching loop. */
  method SettleInput(m: Message, i: nat, needs: Needs, transfers: seq<Effect>)
    returns (needs': Needs, transfers': seq<Effect>)
    requires IsValidMessage(m) && i < |m.inputs| && IsSettledFor(m, i, needs, transfers)
    ensures IsSettledFor(m, i + 1, needs', transfers')
  {
    var Party(from, coins) := m.inputs[i];
    needs', transfers' := needs, transfers;
    SettledEnds(m, i, needs, transfers);
    for k := 0 to |coins|
      invariant IsSettledUpTo(m, i, k, needs', transfers')
    {
      SumUpToStep(m.inputs, i, k, coins[k].denom);
      SumUpToWithin(m.inputs, i, k + 1, coins[k].denom);
      assert IsValidParty(m.inputs[i]);
      assert TotalNeed(needs', coins[k].denom) + SumUpTo(m.inputs, i, k, coins[k].denom)
          == PartySum(m.outputs, coins[k].denom);
      var after, given := MatchCoin(from, coins[k], needs');
      CoinSettled(m, i, k, needs', transfers', after, given);
      needs', transfers' := after, transfers' + given;
    }
    SettledEnds(m, i, needs', transfers');
  }

  /**
   The transfers of `handleMultiSend` for a message that passed validation, in whatever order the
   recipients are visited: valid transfers of positive amounts that take from every sender exactly its
   inputs and give every recipient exactly its outputs, leaving no need unmet.
   */
  method Settle(m: Message) returns (transfers: seq<Effect>, needs: Needs)
    requires IsValidMessage(m)
    ensures AreTransfers(transfers)
    ensures forall a, d :: Sent(transfers, a, d) == AccountSum(m.inputs, a, d)
    ensures forall a, d :: Received(transfers, a, d) == AccountSum(m.outputs, a, d)
    ensures forall a, d :: Need(needs, a, d) == 0
  {
    needs := BuildNeeds(m.outputs);
    transfers := [];
    assert m.inputs[..0] == [];
    for i := 0 to |m.inputs|
      invariant IsSettledFor(m, i, needs, transfers)
    {
      needs, transfers := SettleInput(m, i, needs, transfers);
    }
    assert m.inputs[..|m.inputs|] == m.inputs;
    forall a, d ensures Need(needs, a, d) == 0 {
      assert PartySum(m.inputs, d) == PartySum(m.outputs, d);
      NothingNeeded(needs, d);
    }
  }
}
