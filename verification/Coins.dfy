/** Arithmetic on coin collections (`types/coin.go`). */
module Coins {
  import opened Basics
  import opened Order
  import opened Accounts

  /** `Coins.IsValid`: the source's one-pass check amounts to strict order of all pairs. */
  method IsValid(coins: seq<Coin>) returns (ok: bool)
    ensures ok <==> ValidCoins(coins)
  {
    for i := 0 to |coins|
      invariant forall k :: 0 <= k < i ==> coins[k].IsValid()
    {
      if !coins[i].IsValid() {
        return false;
      }
    }
    var seen: set<Bytes>, previous: Bytes := {}, [];
    for i := 0 to |coins|
      invariant seen == set c | c in coins[..i] :: c.denom
      invariant i > 0 ==> previous == coins[i - 1].denom
      invariant forall a, b :: 0 <= a < b < i ==> Less(coins[a].denom, coins[b].denom)
    {
      var denom := coins[i].denom;
      if denom in seen {
        var c :| c in coins[..i] && c.denom == denom;
        var k :| 0 <= k < i && coins[k] == c;
        LessIrreflexive(denom);
        return false;
      }
      assert coins[..i + 1] == coins[..i] + [coins[i]];
      seen := seen + {denom};
      if i > 0 && !Less(previous, denom) {
        return false;
      }
      forall a | 0 <= a < i ensures Less(coins[a].denom, denom) {
        if a < i - 1 {
          LessTransitive(coins[a].denom, previous, denom);
        }
      }
      previous := denom;
    }
    return true;
  }

  /** The amount under the first entry of the denomination, or zero. */
  function AmountOf(coins: seq<Coin>, denom: Bytes): Uint64 {
    if coins == [] then 0 else if coins[0].denom == denom then coins[0].amount else AmountOf(coins[1..], denom)
  }

  /** Valid, and every amount positive: the form that `Add` and `Sub` give back. */
  ghost predicate IsCanonical(coins: seq<Coin>) {
    ValidCoins(coins) && forall i :: 0 <= i < |coins| ==> coins[i].amount > 0
  }

  predicate IsAllGTE(coins: seq<Coin>, other: seq<Coin>) {
    forall i :: 0 <= i < |other| ==> AmountOf(coins, other[i].denom) >= other[i].amount
  }

  function Saturating(a: int): Uint64
    requires a >= 0
  {
    if a > MAX_UINT64 then MAX_UINT64 else a
  }

  // ---- The maps that Add and Sub build ----

  function Collected(coins: seq<Coin>): map<Bytes, Uint64> {
    if coins == [] then map[]
    else Collected(coins[..|coins| - 1])[coins[|coins| - 1].denom := coins[|coins| - 1].amount]
  }

  function Added(m: map<Bytes, Uint64>, coins: seq<Coin>): map<Bytes, Uint64> {
    if coins == [] then m
    else
      var m', c := Added(m, coins[..|coins| - 1]), coins[|coins| - 1];
      m'[c.denom := Saturating(AmountIn(m', c.denom) + c.amount)]
  }

  function Subtracted(m: map<Bytes, Uint64>, coins: seq<Coin>): Option<map<Bytes, Uint64>> {
    if coins == [] then Some(m)
    else
      var m', c := Subtracted(m, coins[..|coins| - 1]), coins[|coins| - 1];
      if m'.None? || AmountIn(m'.value, c.denom) < c.amount then None
      else Some(m'.value[c.denom := AmountIn(m'.value, c.denom) - c.amount])
  }

  /** The positive amounts of the map, strictly ascending by denomination. */
  ghost predicate IsListing(coins: seq<Coin>, m: map<Bytes, Uint64>) {
    && (forall i, j :: 0 <= i < j < |coins| ==> Less(coins[i].denom, coins[j].denom))
    && (forall c :: c in coins <==> c.denom in m && m[c.denom] == c.amount > 0)
  }

  /** From the map, iterated in any order, to a sorted collection. */
  method ToCoins(m: map<Bytes, Uint64>) returns (coins: seq<Coin>)
    ensures IsListing(coins, m)
  {
    var denoms: seq<Bytes>, remaining := [], m.Keys;
    while remaining != {}
      invariant remaining <= m.Keys && NoDuplicates(denoms)
      invariant forall d :: d in denoms <==> d in m && d !in remaining && m[d] > 0
      decreases remaining
    {
      var d :| d in remaining;
      remaining := remaining - {d};
      if m[d] > 0 {
        assert d !in denoms;
        denoms := denoms + [d];
      }
    }
    SortDistinct(denoms);
    var sorted := Sort(denoms);
    forall d ensures d in sorted <==> d in m && m[d] > 0 {
      assert d in sorted <==> d in Elements(sorted);
      assert d in denoms <==> d in Elements(denoms);
    }
    coins := [];
    for i := 0 to |sorted|
      invariant |coins| == i
      invariant forall k :: 0 <= k < i ==> sorted[k] in m && coins[k] == Coin(sorted[k], m[sorted[k]])
    {
      assert sorted[i] in sorted;
      coins := coins + [Coin(sorted[i], m[sorted[i]])];
    }
    forall c ensures c in coins <==> c.denom in m && m[c.denom] == c.amount > 0 {
      if c.denom in m && m[c.denom] == c.amount > 0 {
        assert c.denom in sorted;
        var k :| 0 <= k < |sorted| && sorted[k] == c.denom;
        assert coins[k] == c;
      }
      if c in coins {
        var k :| 0 <= k < |coins| && coins[k] == c;
        assert sorted[k] in sorted;
      }
    }
  }

  method Collect(coins: seq<Coin>) returns (m: map<Bytes, Uint64>)
    ensures m == Collected(coins)
  {
    m := map[];
    for i := 0 to |coins|
      invariant m == Collected(coins[..i])
    {
      m := m[coins[i].denom := coins[i].amount];
      assert coins[..i + 1][..i] == coins[..i];
    }
    assert coins[..|coins|] == coins;
  }

  method Add(coins: seq<Coin>, other: seq<Coin>) returns (sum: seq<Coin>)
    ensures IsListing(sum, Added(Collected(coins), other))
  {
    var m := Collect(coins);
    ghost var start := m;
    for i := 0 to |other|
      invariant m == Added(start, other[..i])
    {
      var coin := other[i];
      var existing := AmountIn(m, coin.denom);
      if existing > MAX_UINT64 - coin.amount {
        m := m[coin.denom := MAX_UINT64];
      } else {
        m := m[coin.denom := existing + coin.amount];
      }
      assert other[..i + 1][..i] == other[..i];
    }
    assert other[..|other|] == other;
    sum := ToCoins(m);
  }

  method Sub(coins: seq<Coin>, other: seq<Coin>) returns (difference: Option<seq<Coin>>)
    ensures difference.Some? <==> Subtracted(Collected(coins), other).Some?
    ensures difference.Some? ==> IsListing(difference.value, Subtracted(Collected(coins), other).value)
  {
    var m := Collect(coins);
    ghost var start := m;
    for i := 0 to |other|
      invariant Subtracted(start, other[..i]) == Some(m)
    {
      var coin := other[i];
      assert other[..i + 1][..i] == other[..i];
      if AmountIn(m, coin.denom) < coin.amount {
        RefusalStays(start, other, i + 1);
        return None;
      }
      m := m[coin.denom := AmountIn(m, coin.denom) - coin.amount];
    }
    assert other[..|other|] == other;
    var result := ToCoins(m);
    return Some(result);
  }

  lemma {:induction false} RefusalStays(m: map<Bytes, Uint64>, coins: seq<Coin>, i: nat)
    requires i <= |coins| && Subtracted(m, coins[..i]).None?
    ensures Subtracted(m, coins).None?
    decreases |coins| - i
  {
    if i == |coins| {
      assert coins[..i] == coins;
    } else {
      assert coins[..i + 1][..i] == coins[..i];
      RefusalStays(m, coins, i + 1);
    }
  }

  // ---- What the maps say ----

  ghost predicate HasDenom(coins: seq<Coin>, denom: Bytes) {
    exists i :: 0 <= i < |coins| && coins[i].denom == denom
  }

  lemma {:induction false} AmountOfEntry(coins: seq<Coin>, i: nat)
    requires ValidCoins(coins) && i < |coins|
    ensures AmountOf(coins, coins[i].denom) == coins[i].amount
  {
    if i > 0 {
      LessIrreflexive(coins[i].denom);
      AmountOfEntry(coins[1..], i - 1);
    }
  }

  lemma {:induction false} AmountOfAbsent(coins: seq<Coin>, denom: Bytes)
    requires !HasDenom(coins, denom)
    ensures AmountOf(coins, denom) == 0
  {
    if coins != [] {
      assert coins[0].denom != denom;
      forall i | 0 <= i < |coins[1..]| ensures coins[1..][i].denom != denom {
        assert coins[1..][i] == coins[i + 1];
      }
      AmountOfAbsent(coins[1..], denom);
    }
  }

  /** The last entry of a valid collection is the only one of its denomination. */
  lemma {:induction false} LastIsNew(coins: seq<Coin>)
    requires ValidCoins(coins) && coins != []
    ensures ValidCoins(coins[..|coins| - 1]) && !HasDenom(coins[..|coins| - 1], coins[|coins| - 1].denom)
  {
    var n := |coins| - 1;
    forall i | 0 <= i < n ensures coins[..n][i].denom != coins[n].denom {
      LessIrreflexive(coins[n].denom);
    }
  }

  /** Amounts in a valid collection, entry by entry from the end. */
  lemma {:induction false} AmountOfLast(coins: seq<Coin>, denom: Bytes)
    requires ValidCoins(coins) && coins != []
    ensures var n := |coins| - 1;
            AmountOf(coins, denom) == if coins[n].denom == denom then coins[n].amount else AmountOf(coins[..n], denom)
  {
    var n := |coins| - 1;
    if coins[n].denom == denom {
      AmountOfEntry(coins, n);
    } else if HasDenom(coins[..n], denom) {
      var i :| 0 <= i < n && coins[..n][i].denom == denom;
      LastIsNew(coins);
      AmountOfEntry(coins, i);
      AmountOfEntry(coins[..n], i);
    } else {
      forall i | 0 <= i < |coins| ensures coins[i].denom != denom {
        if i < n {
          assert coins[..n][i] == coins[i];
        }
      }
      AmountOfAbsent(coins, denom);
      AmountOfAbsent(coins[..n], denom);
    }
  }

  lemma {:induction false} CollectedAmounts(coins: seq<Coin>, denom: Bytes)
    requires ValidCoins(coins)
    ensures AmountIn(Collected(coins), denom) == AmountOf(coins, denom)
  {
    if coins != [] {
      LastIsNew(coins);
      CollectedAmounts(coins[..|coins| - 1], denom);
      AmountOfLast(coins, denom);
    }
  }

  lemma {:induction false} AddedAmounts(m: map<Bytes, Uint64>, coins: seq<Coin>, denom: Bytes, start: Uint64)
    requires ValidCoins(coins) && AmountIn(m, denom) == start
    ensures AmountIn(Added(m, coins), denom) == Saturating(start + AmountOf(coins, denom))
    decreases |coins|
  {
    if coins != [] {
      var n := |coins| - 1;
      LastIsNew(coins);
      AddedAmounts(m, coins[..n], denom, start);
      AmountOfLast(coins, denom);
      if coins[n].denom == denom {
        AmountOfAbsent(coins[..n], denom);
      }
    }
  }

  ghost predicate Suffices(m: map<Bytes, Uint64>, coins: seq<Coin>) {
    forall i :: 0 <= i < |coins| ==> AmountIn(m, coins[i].denom) >= coins[i].amount
  }

  lemma {:induction false} SubtractedAmount(m: map<Bytes, Uint64>, coins: seq<Coin>, denom: Bytes)
    requires ValidCoins(coins) && Subtracted(m, coins).Some?
    ensures AmountIn(Subtracted(m, coins).value, denom) == AmountIn(m, denom) - AmountOf(coins, denom)
  {
    if coins != [] {
      LastIsNew(coins);
      SubtractedAmount(m, coins[..|coins| - 1], denom);
      AmountOfLast(coins, denom);
      if coins[|coins| - 1].denom == denom {
        AmountOfAbsent(coins[..|coins| - 1], denom);
      }
    }
  }

  lemma {:induction false} SubtractedIffSuffices(m: map<Bytes, Uint64>, coins: seq<Coin>)
    requires ValidCoins(coins)
    ensures Subtracted(m, coins).Some? <==> Suffices(m, coins)
  {
    if coins != [] {
      var n := |coins| - 1;
      LastIsNew(coins);
      SubtractedIffSuffices(m, coins[..n]);
      if Subtracted(m, coins[..n]).Some? {
        SubtractedAmount(m, coins[..n], coins[n].denom);
        AmountOfAbsent(coins[..n], coins[n].denom);
      }
    }
  }

  // ---- The algebra ----

  /** Denominations that a collection may hold. */
  ghost predicate HasValidDenoms(m: map<Bytes, Uint64>) {
    forall d :: d in m ==> 0 < |d| <= 64
  }

  lemma {:induction false} CollectedDenoms(coins: seq<Coin>)
    requires forall i :: 0 <= i < |coins| ==> coins[i].IsValid()
    ensures HasValidDenoms(Collected(coins))
  {
    if coins != [] {
      CollectedDenoms(coins[..|coins| - 1]);
    }
  }

  lemma {:induction false} AddedDenoms(m: map<Bytes, Uint64>, coins: seq<Coin>)
    requires HasValidDenoms(m) && forall i :: 0 <= i < |coins| ==> coins[i].IsValid()
    ensures HasValidDenoms(Added(m, coins))
  {
    if coins != [] {
      AddedDenoms(m, coins[..|coins| - 1]);
    }
  }

  lemma {:induction false} SubtractedDenoms(m: map<Bytes, Uint64>, coins: seq<Coin>)
    requires HasValidDenoms(m) && Subtracted(m, coins).Some? && forall i :: 0 <= i < |coins| ==> coins[i].IsValid()
    ensures HasValidDenoms(Subtracted(m, coins).value)
  {
    if coins != [] {
      SubtractedDenoms(m, coins[..|coins| - 1]);
    }
  }

  /** A listing of a map with valid denominations is canonical and has the map's amounts. */
  lemma {:induction false} ListingIsCanonical(coins: seq<Coin>, m: map<Bytes, Uint64>)
    requires IsListing(coins, m) && HasValidDenoms(m)
    ensures IsCanonical(coins) && forall d :: AmountOf(coins, d) == AmountIn(m, d)
  {
    forall i | 0 <= i < |coins| ensures coins[i].IsValid() && coins[i].amount > 0 {
      assert coins[i] in coins;
    }
    forall d ensures AmountOf(coins, d) == AmountIn(m, d) {
      if d in m && m[d] > 0 {
        assert Coin(d, m[d]) in coins;
        var i :| 0 <= i < |coins| && coins[i] == Coin(d, m[d]);
        AmountOfEntry(coins, i);
      } else {
        forall i | 0 <= i < |coins| ensures coins[i].denom != d {
          assert coins[i] in coins;
        }
        AmountOfAbsent(coins, d);
      }
    }
  }

  /** A canonical collection is determined by its amounts. */
  lemma {:induction false} CanonicalIsUnique(a: seq<Coin>, b: seq<Coin>)
    requires IsCanonical(a) && IsCanonical(b)
    requires forall d :: AmountOf(a, d) == AmountOf(b, d)
    ensures a == b
  {
    var x, y := seq(|a|, i requires 0 <= i < |a| => a[i].denom), seq(|b|, i requires 0 <= i < |b| => b[i].denom);
    SameDenoms(a, b);
    SameDenoms(b, a);
    assert Elements(x) == Elements(y) by {
      forall d ensures d in x <==> d in y {
        if d in x {
          var i :| 0 <= i < |a| && x[i] == d;
          assert HasDenom(b, a[i].denom);
          var j :| 0 <= j < |b| && b[j].denom == d;
          assert y[j] == d;
        }
        if d in y {
          var i :| 0 <= i < |b| && y[i] == d;
          assert HasDenom(a, b[i].denom);
          var j :| 0 <= j < |a| && a[j].denom == d;
          assert x[j] == d;
        }
      }
    }
    AscendingUnique(x, y);
    forall i | 0 <= i < |a| ensures a[i] == b[i] {
      assert x[i] == y[i];
      AmountOfEntry(a, i);
      AmountOfEntry(b, i);
    }
  }

  lemma {:induction false} SameDenoms(a: seq<Coin>, b: seq<Coin>)
    requires IsCanonical(a) && forall d :: AmountOf(a, d) == AmountOf(b, d)
    ensures forall i :: 0 <= i < |a| ==> HasDenom(b, a[i].denom)
  {
    forall i | 0 <= i < |a| ensures HasDenom(b, a[i].denom) {
      AmountOfEntry(a, i);
      if !HasDenom(b, a[i].denom) {
        AmountOfAbsent(b, a[i].denom);
      }
    }
  }

  lemma {:induction false} SumAmount(a: seq<Coin>, b: seq<Coin>, d: Bytes)
    requires ValidCoins(a) && ValidCoins(b)
    ensures AmountIn(Added(Collected(a), b), d) == Saturating(AmountOf(a, d) + AmountOf(b, d))
  {
    CollectedAmounts(a, d);
    AddedAmounts(Collected(a), b, d, AmountOf(a, d));
  }

  /** The sum is canonical and adds up, saturating, in every denomination. */
  lemma {:induction false} AddIsSaturatingSum(a: seq<Coin>, b: seq<Coin>, sum: seq<Coin>)
    requires ValidCoins(a) && ValidCoins(b) && IsListing(sum, Added(Collected(a), b))
    ensures IsCanonical(sum) && forall d :: AmountOf(sum, d) == Saturating(AmountOf(a, d) + AmountOf(b, d))
  {
    var m := Added(Collected(a), b);
    assert HasValidDenoms(m) by {
      CollectedDenoms(a);
      AddedDenoms(Collected(a), b);
    }
    ListingIsCanonical(sum, m);
    forall d ensures AmountOf(sum, d) == Saturating(AmountOf(a, d) + AmountOf(b, d)) {
      SumAmount(a, b, d);
    }
  }

  /** Subtraction succeeds exactly when every amount suffices. */
  lemma {:induction false} SubIffAllGTE(a: seq<Coin>, b: seq<Coin>)
    requires ValidCoins(a) && ValidCoins(b)
    ensures Subtracted(Collected(a), b).Some? <==> IsAllGTE(a, b)
  {
    SubtractedIffSuffices(Collected(a), b);
    forall d {
      CollectedAmounts(a, d);
    }
  }

  /** The difference is canonical and subtracts in every denomination. */
  lemma {:induction false} SubIsDifference(a: seq<Coin>, b: seq<Coin>, r: seq<Coin>)
    requires ValidCoins(a) && ValidCoins(b)
    requires Subtracted(Collected(a), b).Some? && IsListing(r, Subtracted(Collected(a), b).value)
    ensures IsCanonical(r) && forall d :: AmountOf(r, d) == AmountOf(a, d) - AmountOf(b, d)
  {
    var m := Subtracted(Collected(a), b).value;
    assert HasValidDenoms(m) by {
      CollectedDenoms(a);
      SubtractedDenoms(Collected(a), b);
    }
    ListingIsCanonical(r, m);
    forall d ensures AmountOf(r, d) == AmountOf(a, d) - AmountOf(b, d) {
      CollectedAmounts(a, d);
      SubtractedAmount(Collected(a), b, d);
    }
  }

  /** What is left of a saturating sum after taking one summand off again. */
  function LeftOver(a: Uint64, b: Uint64): int {
    Saturating(a + b) - b
  }

  ghost predicate NeverSaturates(a: seq<Coin>, b: seq<Coin>) {
    forall d :: AmountOf(a, d) + AmountOf(b, d) <= MAX_UINT64
  }

  lemma {:induction false} LeftOverIsAll(a: seq<Coin>, b: seq<Coin>, r: seq<Coin>)
    requires IsCanonical(a) && IsCanonical(r) && forall d :: AmountOf(r, d) == LeftOver(AmountOf(a, d), AmountOf(b, d))
    ensures r == a <==> NeverSaturates(a, b)
  {
    if NeverSaturates(a, b) {
      forall d ensures AmountOf(r, d) == AmountOf(a, d) {
        assert AmountOf(a, d) + AmountOf(b, d) <= MAX_UINT64;
      }
      CanonicalIsUnique(r, a);
    }
    if r == a {
      forall d ensures AmountOf(a, d) + AmountOf(b, d) <= MAX_UINT64 {
        assert AmountOf(r, d) == LeftOver(AmountOf(a, d), AmountOf(b, d));
      }
    }
  }

  /** Subtracting what was added gives the original back if and only if no denomination saturated. */
  lemma {:induction false} AddThenSub(a: seq<Coin>, b: seq<Coin>, sum: seq<Coin>, r: seq<Coin>)
    requires IsCanonical(a) && ValidCoins(b) && IsListing(sum, Added(Collected(a), b))
    ensures Subtracted(Collected(sum), b).Some?
    ensures IsListing(r, Subtracted(Collected(sum), b).value) ==> (r == a <==> NeverSaturates(a, b))
  {
    AddIsSaturatingSum(a, b, sum);
    forall i | 0 <= i < |b| ensures AmountOf(sum, b[i].denom) >= b[i].amount {
      AmountOfEntry(b, i);
    }
    SubIffAllGTE(sum, b);
    if IsListing(r, Subtracted(Collected(sum), b).value) {
      SubIsDifference(sum, b, r);
      LeftOverIsAll(a, b, r);
    }
  }
}
