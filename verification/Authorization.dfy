/**
 Weighted, hierarchical authorization (`types/authorization.go`, `types/account.go`): the recursive
 weight computation against a declarative meaning of an authorization tree.
 */
module Authorization {
  import opened Basics
  import opened Accounts
  import opened Sums

  const MAX_RECURSION_DEPTH: nat := 10

  /** "ed25519" */
  const ED25519: Bytes := [101, 100, 50, 53, 53, 49, 57]

  datatype Authority = Authority(
    threshold: Uint64, keyWeights: map<Bytes, Uint64>, accountWeights: map<AccountName, Uint64>)

  datatype Account = Account(name: AccountName, authority: Authority, nonce: Uint64)

  datatype Signature = Signature(algorithm: Bytes, pubKey: Bytes, signature: Bytes)

  datatype Authorization = Authorization(signatures: seq<Signature>, delegates: map<AccountName, Authorization>)

  /** The signed message, Ed25519 verification (key, message, signature), and the account snapshot. */
  datatype Context = Context(
    message: Bytes, ed25519: (Bytes, Bytes, Bytes) -> bool, accounts: map<AccountName, Account>)

  datatype Error =
    | MaxDepth | Cycle | DuplicateSignature | Overflow | MissingAccount | InvalidSignature | InsufficientWeight

  datatype Result = Weight(weight: Uint64) | Failure(error: Error)

  // ---- Declarative meaning ----

  /** `Signature.ValidateBasic`: only Ed25519, also under the empty name, with its sizes. */
  predicate IsWellFormedSignature(sig: Signature) {
    (sig.algorithm == [] || sig.algorithm == ED25519) && |sig.pubKey| == 32 && |sig.signature| == 64
  }

  /** `Signature.Verify` */
  predicate Verifies(c: Context, sig: Signature) {
    IsWellFormedSignature(sig) && c.ed25519(sig.pubKey, c.message, sig.signature)
  }

  /** The signature contributes the weight of its key. */
  predicate Counts(c: Context, authority: Authority, sig: Signature) {
    sig.pubKey in authority.keyWeights && Verifies(c, sig)
  }

  ghost function CountedKeys(c: Context, authority: Authority, sigs: seq<Signature>): (keys: set<Bytes>)
    ensures keys <= authority.keyWeights.Keys
  {
    set sig | sig in sigs && Counts(c, authority, sig) :: sig.pubKey
  }

  /** No signature follows one of the same key that already counted. */
  ghost predicate NoRepeats(c: Context, authority: Authority, sigs: seq<Signature>) {
    forall i, j :: 0 <= i < j < |sigs| && sigs[i].pubKey == sigs[j].pubKey ==> !Counts(c, authority, sigs[i])
  }

  /** The submitted delegates that the authority lists. */
  function Listed(authority: Authority, auth: Authorization): set<AccountName> {
    auth.delegates.Keys * authority.accountWeights.Keys
  }

  /** Each counted key once, and each listed delegate that meets its own threshold. */
  ghost function TreeWeight(c: Context, authority: Authority, auth: Authorization): nat
    decreases auth, 1
  {
    SumOf(CountedKeys(c, authority, auth.signatures), authority.keyWeights)
    + SumOf(Satisfied(c, authority, auth), authority.accountWeights)
  }

  ghost function Satisfied(c: Context, authority: Authority, auth: Authorization): (names: set<AccountName>)
    ensures names <= Listed(authority, auth)
    decreases auth, 0
  {
    set d | d in auth.delegates && d in authority.accountWeights && MeetsThreshold(c, d, auth.delegates[d])
  }

  ghost predicate MeetsThreshold(c: Context, name: AccountName, auth: Authorization)
    decreases auth, 2
  {
    name in c.accounts && c.accounts[name].authority.threshold <= TreeWeight(c, c.accounts[name].authority, auth)
  }

  /**
   The tree can be weighed: depth and names on the path are in order, listed delegates exist and can be
   weighed themselves, no counted key repeats, and the weight fits.
   */
  ghost predicate IsWeighable(c: Context, name: AccountName, authority: Authority, auth: Authorization,
                              path: set<AccountName>, depth: nat)
    decreases auth, 0
  {
    && depth <= MAX_RECURSION_DEPTH && name !in path
    && NoRepeats(c, authority, auth.signatures)
    && (forall d :: d in Listed(authority, auth) ==>
       IsWeighableDelegate(c, d, auth.delegates[d], path + {name}, depth + 1))
    && TreeWeight(c, authority, auth) <= MAX_UINT64
  }

  ghost predicate IsWeighableDelegate(c: Context, name: AccountName, auth: Authorization, path: set<AccountName>,
                                      depth: nat)
    decreases auth, 1
  {
    name in c.accounts && IsWeighable(c, name, c.accounts[name].authority, auth, path, depth)
  }

  /** The whole authorization is accepted for the account. */
  ghost predicate IsAuthorized(c: Context, account: Account, auth: Authorization) {
    && (forall i :: 0 <= i < |auth.signatures| ==> Verifies(c, auth.signatures[i]))
    && IsWeighable(c, account.name, account.authority, auth, {}, 0)
    && account.authority.threshold <= TreeWeight(c, account.authority, auth)
  }

  // ---- Total possible weight ----

  ghost function TotalPossibleWeight(a: Authority): nat {
    SumOf(a.keyWeights.Keys, a.keyWeights) + SumOf(a.accountWeights.Keys, a.accountWeights)
  }

  lemma {:induction false} WeightIsPossible(c: Context, authority: Authority, auth: Authorization)
    ensures TreeWeight(c, authority, auth) <= TotalPossibleWeight(authority)
  {
    SumMonotone(CountedKeys(c, authority, auth.signatures), authority.keyWeights.Keys, authority.keyWeights);
    SumMonotone(Satisfied(c, authority, auth), authority.accountWeights.Keys, authority.accountWeights);
  }

  // ---- The authorities that are consulted ----

  /** The authority and the authorization at the end of a chain of listed, existing delegates. */
  ghost function EndOf(c: Context, authority: Authority, auth: Authorization,
                       chain: seq<AccountName>): Option<(Authority, Authorization)>
    decreases |chain|
  {
    if chain == [] then Some((authority, auth))
    else if chain[0] in Listed(authority, auth) && chain[0] in c.accounts then
      EndOf(c, c.accounts[chain[0]].authority, auth.delegates[chain[0]], chain[1..])
    else None
  }

  /** A chain of delegates that the computation can follow: not too deep, and no name twice. */
  ghost predicate IsConsulted(c: Context, name: AccountName, authority: Authority, auth: Authorization,
                              path: set<AccountName>, depth: nat, chain: seq<AccountName>)
  {
    && depth + |chain| <= MAX_RECURSION_DEPTH
    && NoDuplicates([name] + chain) && Elements([name] + chain) !! path
    && EndOf(c, authority, auth, chain).Some?
  }

  /** Some consulted authority has more than a `uint64` of weight. */
  ghost predicate CanOverflow(c: Context, name: AccountName, authority: Authority, auth: Authorization,
                              path: set<AccountName>, depth: nat)
  {
    exists chain ::
      && IsConsulted(c, name, authority, auth, path, depth, chain)
      && TotalPossibleWeight(EndOf(c, authority, auth, chain).value.0) > MAX_UINT64
  }

  ghost predicate DelegateCanOverflow(c: Context, d: AccountName, auth: Authorization, path: set<AccountName>,
                                      depth: nat)
  {
    d in c.accounts && CanOverflow(c, d, c.accounts[d].authority, auth, path, depth)
  }

  lemma {:induction false} OverflowsHere(c: Context, name: AccountName, authority: Authority, auth: Authorization,
                                         path: set<AccountName>, depth: nat)
    requires depth <= MAX_RECURSION_DEPTH && name !in path && TotalPossibleWeight(authority) > MAX_UINT64
    ensures CanOverflow(c, name, authority, auth, path, depth)
  {
    assert [name] + [] == [name];
    assert IsConsulted(c, name, authority, auth, path, depth, []);
  }

  lemma {:induction false} OverflowsBelow(c: Context, name: AccountName, authority: Authority, auth: Authorization,
                                          path: set<AccountName>, depth: nat, d: AccountName)
    requires name !in path && d in Listed(authority, auth)
    requires DelegateCanOverflow(c, d, auth.delegates[d], path + {name}, depth + 1)
    ensures CanOverflow(c, name, authority, auth, path, depth)
  {
    var a, t := c.accounts[d].authority, auth.delegates[d];
    var chain :| IsConsulted(c, d, a, t, path + {name}, depth + 1, chain)
                 && TotalPossibleWeight(EndOf(c, a, t, chain).value.0) > MAX_UINT64;
    FreshNames(name, d, chain, path);
    var whole := [d] + chain;
    assert whole[1..] == chain;
    assert IsConsulted(c, name, authority, auth, path, depth, whole);
  }

  // ---- The computation ----

  /** The signature loop of `calculateWeight`. */
  method KeyWeight(c: Context, authority: Authority, auth: Authorization) returns (r: Result)
    ensures r.Weight? ==> NoRepeats(c, authority, auth.signatures)
    ensures r.Weight? ==> r.weight == SumOf(CountedKeys(c, authority, auth.signatures), authority.keyWeights)
    ensures r.Failure? ==> !NoRepeats(c, authority, auth.signatures) || TreeWeight(c, authority, auth) > MAX_UINT64
    ensures r == Failure(Overflow) ==> TotalPossibleWeight(authority) > MAX_UINT64
  {
    var sigs := auth.signatures;
    var total: Uint64, seen: set<Bytes> := 0, {};
    for i := 0 to |sigs|
      invariant seen == CountedKeys(c, authority, sigs[..i])
      invariant total == SumOf(seen, authority.keyWeights)
      invariant NoRepeats(c, authority, sigs[..i])
    {
      var sig := sigs[i];
      assert sigs[..i + 1] == sigs[..i] + [sig];
      if sig.pubKey in seen {
        return Failure(DuplicateSignature);
      }
      if sig.pubKey in authority.keyWeights {
        if Verifies(c, sig) {
          SumAdd(seen, authority.keyWeights, sig.pubKey);
          assert CountedKeys(c, authority, sigs[..i + 1]) == seen + {sig.pubKey};
          seen := seen + {sig.pubKey};
          var weight := authority.keyWeights[sig.pubKey];
          if total > MAX_UINT64 - weight {
            SumMonotone(seen, CountedKeys(c, authority, sigs), authority.keyWeights);
            WeightIsPossible(c, authority, auth);
            return Failure(Overflow);
          }
          total := total + weight;
        }
      }
    }
    assert sigs[..|sigs|] == sigs;
    r := Weight(total);
  }

  /** One listed delegate in the loop of `calculateWeight`: its weight is added if it meets its threshold. */
  method AddDelegate(c: Context, d: AccountName, auth: Authorization, weight: Uint64, total: Uint64,
                     visited: set<AccountName>, depth: nat)
    returns (r: Result, visited': set<AccountName>)
    ensures visited' == visited
    ensures var sum := if MeetsThreshold(c, d, auth) then total + weight else total;
            && (r.Weight? <==> IsWeighableDelegate(c, d, auth, visited, depth) && sum <= MAX_UINT64)
            && (r.Weight? ==> r.weight == sum)
    ensures r == Failure(Overflow) ==>
              || DelegateCanOverflow(c, d, auth, visited, depth)
              || (MeetsThreshold(c, d, auth) && total + weight > MAX_UINT64)
    decreases Max(MAX_RECURSION_DEPTH + 1 - depth, 0), 2
  {
    if d !in c.accounts {
      return Failure(MissingAccount), visited;
    }
    var delegate := c.accounts[d];
    r, visited' := CalculateWeight(c, d, delegate.authority, auth, visited, depth);
    if r.Weight? {
      if r.weight >= delegate.authority.threshold {
        if total > MAX_UINT64 - weight {
          return Failure(Overflow), visited';
        }
        return Weight(total + weight), visited';
      }
      return Weight(total), visited';
    }
  }

  /** The weight with the delegates still in `remaining` not yet considered. */
  ghost function WeightWithout(c: Context, authority: Authority, auth: Authorization,
                               remaining: set<AccountName>): nat
  {
    SumOf(CountedKeys(c, authority, auth.signatures), authority.keyWeights)
    + SumOf(Satisfied(c, authority, auth) - remaining, authority.accountWeights)
  }

  /** The listed delegates outside `remaining` can be weighed. */
  ghost predicate AreWeighable(c: Context, authority: Authority, auth: Authorization, remaining: set<AccountName>,
                               path: set<AccountName>, depth: nat)
  {
    forall d :: d in Listed(authority, auth) && d !in remaining ==>
        IsWeighableDelegate(c, d, auth.delegates[d], path, depth)
  }

  lemma {:induction false} WeightWithoutAllOrNone(c: Context, authority: Authority, auth: Authorization)
    ensures WeightWithout(c, authority, auth, {}) == TreeWeight(c, authority, auth)
    ensures WeightWithout(c, authority, auth, auth.delegates.Keys)
            == SumOf(CountedKeys(c, authority, auth.signatures), authority.keyWeights)
  {
    assert Satisfied(c, authority, auth) - {} == Satisfied(c, authority, auth);
    assert Satisfied(c, authority, auth) - auth.delegates.Keys == {};
  }

  lemma {:induction false} ConsiderDelegate(c: Context, authority: Authority, auth: Authorization,
                                            remaining: set<AccountName>, d: AccountName)
    requires d in remaining && d in auth.delegates
    ensures WeightWithout(c, authority, auth, remaining - {d})
            == WeightWithout(c, authority, auth, remaining)
               + if d in authority.accountWeights && MeetsThreshold(c, d, auth.delegates[d])
                 then authority.accountWeights[d] else 0
    ensures WeightWithout(c, authority, auth, remaining - {d}) <= TreeWeight(c, authority, auth)
  {
    var satisfied, weights := Satisfied(c, authority, auth), authority.accountWeights;
    SumMonotone(satisfied - (remaining - {d}), satisfied, weights);
    if d in satisfied {
      SumAdd(satisfied - remaining, weights, d);
      assert satisfied - (remaining - {d}) == satisfied - remaining + {d};
    } else {
      assert satisfied - (remaining - {d}) == satisfied - remaining;
    }
  }

  /** The delegate loop of `calculateWeight`, in any order of the map. */
  method AddDelegates(c: Context, authority: Authority, auth: Authorization, keys: Uint64, visited: set<AccountName>,
                      depth: nat)
    returns (r: Result, visited': set<AccountName>)
    requires depth <= MAX_RECURSION_DEPTH
    requires keys == SumOf(CountedKeys(c, authority, auth.signatures), authority.keyWeights)
    ensures visited' == visited
    ensures r.Weight? <==>
              && AreWeighable(c, authority, auth, {}, visited, depth + 1)
              && TreeWeight(c, authority, auth) <= MAX_UINT64
    ensures r.Weight? ==> r.weight == TreeWeight(c, authority, auth)
    ensures r == Failure(Overflow) ==>
              || TotalPossibleWeight(authority) > MAX_UINT64
              || exists d ::
                   d in Listed(authority, auth) && DelegateCanOverflow(c, d, auth.delegates[d], visited, depth + 1)
    decreases Max(MAX_RECURSION_DEPTH + 1 - depth, 0), 0
  {
    visited' := visited;
    r := Weight(keys);
    var remaining := auth.delegates.Keys;
    WeightWithoutAllOrNone(c, authority, auth);
    while remaining != {}
      invariant remaining <= auth.delegates.Keys && visited' == visited
      invariant r.Weight? && r.weight == WeightWithout(c, authority, auth, remaining)
      invariant AreWeighable(c, authority, auth, remaining, visited, depth + 1)
      decreases remaining
    {
      var d :| d in remaining;
      ConsiderDelegate(c, authority, auth, remaining, d);
      if d in authority.accountWeights {
        r, visited' := AddDelegate(c, d, auth.delegates[d], authority.accountWeights[d], r.weight, visited', depth + 1);
        if r.Failure? {
          WeightIsPossible(c, authority, auth);
          return;
        }
      }
      remaining := remaining - {d};
    }
  }

  /**
   `calculateWeight`. Succeeds exactly on weighable trees, with the declarative weight, for every order
   in which the delegate map is iterated; `visited` comes back as it was. Overflow is reported only when
   the weights of some authority that is consulted exceed a `uint64`.
   */
  method CalculateWeight(c: Context, name: AccountName, authority: Authority, auth: Authorization,
                         visited: set<AccountName>, depth: nat)
    returns (r: Result, visited': set<AccountName>)
    ensures visited' == visited
    ensures r.Weight? <==> IsWeighable(c, name, authority, auth, visited, depth)
    ensures r.Weight? ==> r.weight == TreeWeight(c, authority, auth)
    ensures r == Failure(Overflow) ==> CanOverflow(c, name, authority, auth, visited, depth)
    decreases Max(MAX_RECURSION_DEPTH + 1 - depth, 0), 1
  {
    visited' := visited;
    if depth > MAX_RECURSION_DEPTH {
      return Failure(MaxDepth), visited';
    }
    if name in visited' {
      return Failure(Cycle), visited';
    }
    visited' := visited' + {name};
    r := KeyWeight(c, authority, auth);
    if r.Weight? {
      r, visited' := AddDelegates(c, authority, auth, r.weight, visited', depth);
    }
    if r == Failure(Overflow) {
      if TotalPossibleWeight(authority) > MAX_UINT64 {
        OverflowsHere(c, name, authority, auth, visited, depth);
      } else {
        ghost var d :| d in Listed(authority, auth)
            && DelegateCanOverflow(c, d, auth.delegates[d], visited + {name}, depth + 1);
        OverflowsBelow(c, name, authority, auth, visited, depth, d);
      }
    }
    visited' := visited' - {name};
  }

  /** `VerifySignatures` */
  method VerifySignatures(c: Context, auth: Authorization) returns (ok: bool)
    ensures ok <==> forall i :: 0 <= i < |auth.signatures| ==> Verifies(c, auth.signatures[i])
  {
    for i := 0 to |auth.signatures|
      invariant forall k :: 0 <= k < i ==> Verifies(c, auth.signatures[k])
    {
      if !Verifies(c, auth.signatures[i]) {
        return false;
      }
    }
    return true;
  }

  /** `VerifyAuthorization` accepts exactly the authorized. */
  method VerifyAuthorization(c: Context, account: Account, auth: Authorization) returns (error: Option<Error>)
    ensures error.None? <==> IsAuthorized(c, account, auth)
    ensures AllConsultedValid(c, account, auth) ==> error != Some(Overflow)
  {
    var valid := VerifySignatures(c, auth);
    if !valid {
      return Some(InvalidSignature);
    }
    var r, _ := CalculateWeight(c, account.name, account.authority, auth, {}, 0);
    if r.Failure? {
      return Some(r.error);
    }
    if r.weight < account.authority.threshold {
      return Some(InsufficientWeight);
    }
    return None;
  }

  // ---- Weighability by chains of delegation ----

  /** Each name is listed where the chain before it ends. */
  ghost predicate IsChain(c: Context, authority: Authority, auth: Authorization, chain: seq<AccountName>) {
    chain == []
    || (var n := |chain| - 1;
        var end := EndOf(c, authority, auth, chain[..n]);
        end.Some? && chain[n] in Listed(end.value.0, end.value.1))
  }

  /** At most ten delegations, no name twice, an existing account at the end, fit to be weighed there. */
  ghost predicate IsSoundChain(c: Context, name: AccountName, authority: Authority, auth: Authorization,
                               path: set<AccountName>, depth: nat, chain: seq<AccountName>)
  {
    && IsConsulted(c, name, authority, auth, path, depth, chain)
    && var (end, rest) := EndOf(c, authority, auth, chain).value;
       NoRepeats(c, end, rest.signatures) && TreeWeight(c, end, rest) <= MAX_UINT64
  }

  lemma {:induction false} ChainStep(c: Context, name: AccountName, authority: Authority, auth: Authorization,
                  path: set<AccountName>, depth: nat, d: AccountName, chain: seq<AccountName>)
    requires d in Listed(authority, auth) && d in c.accounts
    ensures var a, t := c.accounts[d].authority, auth.delegates[d];
            && (IsChain(c, a, t, chain) <==> IsChain(c, authority, auth, [d] + chain))
            && (name !in path && IsSoundChain(c, d, a, t, path + {name}, depth + 1, chain)
                <==> IsSoundChain(c, name, authority, auth, path, depth, [d] + chain))
  {
    var whole := [d] + chain;
    assert whole[1..] == chain;
    if chain != [] {
      var n := |chain| - 1;
      assert whole[..n + 1] == [d] + chain[..n];
      assert ([d] + chain[..n])[1..] == chain[..n];
    } else {
      assert whole[..0] == [];
    }
    assert [name] + whole == [name] + ([d] + chain);
    FreshNames(name, d, chain, path);
  }

  lemma {:induction false} FreshNames(name: AccountName, d: AccountName, chain: seq<AccountName>,
                                      path: set<AccountName>)
    ensures NoDuplicates([name] + ([d] + chain)) && Elements([name] + ([d] + chain)) !! path
            <==> name !in path && NoDuplicates([d] + chain) && Elements([d] + chain) !! path + {name}
  {
    var s, t := [name] + ([d] + chain), [d] + chain;
    assert s[0] == name && forall i :: 0 <= i < |t| ==> s[i + 1] == t[i];
    assert forall x :: x in s <==> x == name || x in t;
    if NoDuplicates(s) {
      forall i, j | 0 <= i < j < |t| ensures t[i] != t[j] {
        assert s[i + 1] != s[j + 1];
      }
      forall i | 0 <= i < |t| ensures t[i] != name {
        assert s[0] != s[i + 1];
      }
    }
  }

  lemma {:induction false} WeighableChains(c: Context, name: AccountName, authority: Authority, auth: Authorization,
                                           path: set<AccountName>, depth: nat, chain: seq<AccountName>)
    requires IsWeighable(c, name, authority, auth, path, depth) && IsChain(c, authority, auth, chain)
    ensures IsSoundChain(c, name, authority, auth, path, depth, chain)
    decreases |chain|
  {
    if chain == [] {
      assert [name] + chain == [name];
    } else {
      var d, rest := chain[0], chain[1..];
      assert chain == [d] + rest;
      HeadIsListed(c, authority, auth, chain);
      assert IsWeighableDelegate(c, d, auth.delegates[d], path + {name}, depth + 1);
      ChainStep(c, name, authority, auth, path, depth, d, rest);
      WeighableChains(c, d, c.accounts[d].authority, auth.delegates[d], path + {name}, depth + 1, rest);
    }
  }

  lemma {:induction false} HeadIsListed(c: Context, authority: Authority, auth: Authorization, chain: seq<AccountName>)
    requires chain != [] && IsChain(c, authority, auth, chain)
    ensures chain[0] in Listed(authority, auth)
  {
    var n := |chain| - 1;
    if n > 0 {
      assert chain[..n][0] == chain[0];
    }
  }

  lemma {:induction false} ChainsWeighable(c: Context, name: AccountName, authority: Authority, auth: Authorization,
                                           path: set<AccountName>, depth: nat)
    requires forall chain :: IsChain(c, authority, auth, chain) ==>
            IsSoundChain(c, name, authority, auth, path, depth, chain)
    ensures IsWeighable(c, name, authority, auth, path, depth)
    decreases auth
  {
    assert IsSoundChain(c, name, authority, auth, path, depth, []);
    assert name in [name] + [];
    forall d | d in Listed(authority, auth)
      ensures IsWeighableDelegate(c, d, auth.delegates[d], path + {name}, depth + 1)
    {
      var one := [d];
      assert one[..0] == [];
      assert IsChain(c, authority, auth, one);
      assert d in c.accounts;
      var a, t := c.accounts[d].authority, auth.delegates[d];
      forall chain | IsChain(c, a, t, chain) ensures IsSoundChain(c, d, a, t, path + {name}, depth + 1, chain) {
        ChainStep(c, name, authority, auth, path, depth, d, chain);
      }
      ChainsWeighable(c, d, a, t, path + {name}, depth + 1);
    }
  }

  /** A tree can be weighed exactly when every chain of delegation in it is sound. */
  lemma {:induction false} WeighableIffChainsSound(c: Context, name: AccountName, authority: Authority,
      auth: Authorization)
    ensures IsWeighable(c, name, authority, auth, {}, 0) <==>
              forall chain :: IsChain(c, authority, auth, chain) ==>
                  IsSoundChain(c, name, authority, auth, {}, 0, chain)
  {
    if IsWeighable(c, name, authority, auth, {}, 0) {
      forall chain | IsChain(c, authority, auth, chain) ensures IsSoundChain(c, name, authority, auth, {}, 0, chain) {
        WeighableChains(c, name, authority, auth, {}, 0, chain);
      }
    }
    if forall chain :: IsChain(c, authority, auth, chain) ==> IsSoundChain(c, name, authority, auth, {}, 0, chain) {
      ChainsWeighable(c, name, authority, auth, {}, 0);
    }
  }

  // ---- Authority.ValidateBasic ----

  ghost predicate IsValidAuthority(a: Authority) {
    && 0 < a.threshold <= TotalPossibleWeight(a) <= MAX_UINT64
    && (forall n :: n in a.accountWeights ==> IsValidName(n))
  }

  /** Every authority that verifying the authorization can consult is valid. */
  ghost predicate AllConsultedValid(c: Context, account: Account, auth: Authorization) {
    forall chain :: IsConsulted(c, account.name, account.authority, auth, {}, 0, chain) ==>
      IsValidAuthority(EndOf(c, account.authority, auth, chain).value.0)
  }

  /** Adding up a weight map in any order, with the overflow check. */
  method AddWeights<K(==)>(start: Uint64, w: map<K, Uint64>) returns (total: Option<Uint64>)
    ensures total == if start + SumOf(w.Keys, w) <= MAX_UINT64 then Some(start + SumOf(w.Keys, w)) else None
  {
    var sum: Uint64, remaining := start, w.Keys;
    ghost var added: set<K> := {};
    while remaining != {}
      invariant remaining !! added && remaining + added == w.Keys
      invariant sum == start + SumOf(added, w)
      decreases remaining
    {
      var k :| k in remaining;
      remaining := remaining - {k};
      SumAdd(added, w, k);
      added := added + {k};
      if sum > MAX_UINT64 - w[k] {
        SumMonotone(added, w.Keys, w);
        return None;
      }
      sum := sum + w[k];
    }
    assert added == w.Keys;
    return Some(sum);
  }

  /** `Authority.ValidateBasic` */
  method ValidateAuthority(a: Authority) returns (ok: bool)
    ensures ok <==> IsValidAuthority(a)
    ensures ok ==> 0 < a.threshold
    ensures ok ==>
              a.threshold <= SumOf(a.keyWeights.Keys, a.keyWeights) + SumOf(a.accountWeights.Keys, a.accountWeights)
  {
    if a.threshold == 0 {
      return false;
    }
    var keys := AddWeights(0, a.keyWeights);
    if keys.None? {
      return false;
    }
    var total := AddWeights(keys.value, a.accountWeights);
    if total.None? || total.value < a.threshold {
      return false;
    }
    return forall n :: n in a.accountWeights ==> IsValidName(n);
  }
}
