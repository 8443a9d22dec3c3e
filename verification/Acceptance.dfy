/**
 What an accepted authorization amounts to (`types/authorization.go`), in terms of Ed25519 signatures over the
 message, the keys and weights of the authorities, and chains of delegation.
 */
module Acceptance {
  import opened Basics
  import opened Accounts
  import opened Sums
  import opened Authorization

  /** A 64-byte Ed25519 signature of the message under a 32-byte key; the empty algorithm name stands for Ed25519. */
  predicate IsSigned(c: Context, g: Signature) {
    && (g.algorithm == [] || g.algorithm == [101, 100, 50, 53, 53, 49, 57]) && |g.pubKey| == 32 && |g.signature| == 64
    && c.ed25519(g.pubKey, c.message, g.signature)
  }

  lemma {:induction false} SignedIsVerified(c: Context, g: Signature)
    ensures Verifies(c, g) <==> IsSigned(c, g)
  {
  }

  /** Every top-level signature of an accepted authorization is a signature of the message. */
  lemma {:induction false} AcceptedIsSigned(c: Context, account: Account, auth: Authorization, i: nat)
    requires IsAuthorized(c, account, auth) && i < |auth.signatures|
    ensures IsSigned(c, auth.signatures[i])
  {
    SignedIsVerified(c, auth.signatures[i]);
  }

  /** No listed key signs twice. */
  lemma {:induction false} AcceptedKeysDiffer(c: Context, account: Account, auth: Authorization, i: nat, j: nat)
    requires IsAuthorized(c, account, auth) && i < j < |auth.signatures|
    requires auth.signatures[i].pubKey in account.authority.keyWeights
    ensures auth.signatures[i].pubKey != auth.signatures[j].pubKey
  {
    assert Verifies(c, auth.signatures[i]);
    assert NoRepeats(c, account.authority, auth.signatures);
  }

  /** Delegation is at most ten deep and never comes back to an account. */
  lemma {:induction false} AcceptedChainsAreShort(c: Context, account: Account, auth: Authorization,
                                                  chain: seq<AccountName>)
    requires IsAuthorized(c, account, auth) && IsChain(c, account.authority, auth, chain)
    ensures |chain| <= 10 && NoDuplicates([account.name] + chain)
    ensures EndOf(c, account.authority, auth, chain).Some?
  {
    WeighableChains(c, account.name, account.authority, auth, {}, 0, chain);
  }

  // ---- Somebody signed ----

  /** A positive sum has a positive part. */
  lemma {:induction false} SumHasPart<K>(s: set<K>, w: map<K, Uint64>) returns (x: K)
    requires s <= w.Keys && SumOf(s, w) > 0
    ensures x in s && w[x] > 0
    decreases s
  {
    x :| x in s;
    if w[x] == 0 {
      SumPick(s, w, x);
      x := SumHasPart(s - {x}, w);
    }
  }

  /** At the end of the chain a listed key with a positive weight signed the message. */
  ghost predicate EndsSigned(c: Context, authority: Authority, auth: Authorization, chain: seq<AccountName>,
                             g: Signature)
  {
    var end := EndOf(c, authority, auth, chain);
    && end.Some? && g in end.value.1.signatures && IsSigned(c, g)
    && g.pubKey in end.value.0.keyWeights && end.value.0.keyWeights[g.pubKey] > 0
  }

  /** Every authority along chains of existing delegates has a positive threshold. */
  ghost predicate HasThresholds(c: Context, authority: Authority, auth: Authorization) {
    forall chain :: var end := EndOf(c, authority, auth, chain); end.Some? ==> end.value.0.threshold > 0
  }

  lemma {:induction false} ThresholdsBelow(c: Context, authority: Authority, auth: Authorization, d: AccountName)
    requires HasThresholds(c, authority, auth) && d in Listed(authority, auth) && d in c.accounts
    ensures HasThresholds(c, c.accounts[d].authority, auth.delegates[d])
  {
    forall chain
      ensures var end := EndOf(c, c.accounts[d].authority, auth.delegates[d], chain);
              end.Some? ==> end.value.0.threshold > 0
    {
      assert ([d] + chain)[1..] == chain;
      assert EndOf(c, authority, auth, [d] + chain) == EndOf(c, c.accounts[d].authority, auth.delegates[d], chain);
    }
  }

  /** A tree that meets a positive threshold has a chain that ends in a signature. */
  lemma {:induction false} WeightIsSigned(c: Context, authority: Authority, auth: Authorization)
    returns (chain: seq<AccountName>, g: Signature)
    requires HasThresholds(c, authority, auth) && TreeWeight(c, authority, auth) > 0
    ensures EndsSigned(c, authority, auth, chain, g)
    decreases auth
  {
    if SumOf(CountedKeys(c, authority, auth.signatures), authority.keyWeights) > 0 {
      var key := SumHasPart(CountedKeys(c, authority, auth.signatures), authority.keyWeights);
      g :| g in auth.signatures && Counts(c, authority, g) && g.pubKey == key;
      SignedIsVerified(c, g);
      chain := [];
    } else {
      var d := SumHasPart(Satisfied(c, authority, auth), authority.accountWeights);
      assert MeetsThreshold(c, d, auth.delegates[d]);
      ThresholdsBelow(c, authority, auth, d);
      var below := c.accounts[d].authority;
      assert EndOf(c, below, auth.delegates[d], []) == Some((below, auth.delegates[d]));
      var rest;
      rest, g := WeightIsSigned(c, below, auth.delegates[d]);
      chain := [d] + rest;
      assert chain[1..] == rest;
    }
  }

  /** Every authority that verification can consult has a positive threshold. */
  ghost predicate HasConsultedThresholds(c: Context, account: Account, auth: Authorization) {
    forall chain :: IsConsulted(c, account.name, account.authority, auth, {}, 0, chain) ==>
      EndOf(c, account.authority, auth, chain).value.0.threshold > 0
  }

  lemma {:induction false} EndIsChain(c: Context, authority: Authority, auth: Authorization, chain: seq<AccountName>)
    requires EndOf(c, authority, auth, chain).Some?
    ensures IsChain(c, authority, auth, chain)
    decreases |chain|
  {
    if |chain| == 1 {
      assert chain[..0] == [];
    } else if |chain| > 1 {
      var d, rest := chain[0], chain[1..];
      assert chain == [d] + rest;
      EndIsChain(c, c.accounts[d].authority, auth.delegates[d], rest);
      ChainStep(c, d, authority, auth, {}, 0, d, rest);
    }
  }

  /**
   If the consulted authorities have positive thresholds, an accepted authorization has a chain of delegation
   that ends with a signature of the message by a key listed there.
   */
  lemma {:induction false} AcceptedHasSigner(c: Context, account: Account, auth: Authorization)
    returns (chain: seq<AccountName>, g: Signature)
    requires IsAuthorized(c, account, auth) && HasConsultedThresholds(c, account, auth)
    ensures EndsSigned(c, account.authority, auth, chain, g)
  {
    forall chain
      ensures var end := EndOf(c, account.authority, auth, chain);
              end.Some? ==> end.value.0.threshold > 0
    {
      if EndOf(c, account.authority, auth, chain).Some? {
        EndIsChain(c, account.authority, auth, chain);
        WeighableChains(c, account.name, account.authority, auth, {}, 0, chain);
      }
    }
    assert EndOf(c, account.authority, auth, []) == Some((account.authority, auth));
    chain, g := WeightIsSigned(c, account.authority, auth);
  }

  /** So it is if the consulted authorities are valid, as `Authority.ValidateBasic` has it. */
  lemma {:induction false} ValidHasThresholds(c: Context, account: Account, auth: Authorization)
    requires AllConsultedValid(c, account, auth)
    ensures HasConsultedThresholds(c, account, auth)
  {
    forall chain | IsConsulted(c, account.name, account.authority, auth, {}, 0, chain)
      ensures EndOf(c, account.authority, auth, chain).value.0.threshold > 0
    {
      assert IsValidAuthority(EndOf(c, account.authority, auth, chain).value.0);
    }
  }

  // ---- Signatures at one account ----

  /** The listed keys that signed. */
  ghost function SigningKeys(c: Context, authority: Authority, sigs: seq<Signature>): (keys: set<Bytes>)
    ensures keys <= authority.keyWeights.Keys
  {
    set g | g in sigs && IsSigned(c, g) && g.pubKey in authority.keyWeights :: g.pubKey
  }

  ghost function SignedWeight(c: Context, authority: Authority, sigs: seq<Signature>): nat {
    SumOf(SigningKeys(c, authority, sigs), authority.keyWeights)
  }

  /** After a listed key has signed, it is not given again. */
  ghost predicate SignsOnce(c: Context, authority: Authority, sigs: seq<Signature>) {
    forall i, j :: 0 <= i < j < |sigs| && sigs[i].pubKey == sigs[j].pubKey ==>
      !(IsSigned(c, sigs[i]) && sigs[i].pubKey in authority.keyWeights)
  }

  lemma {:induction false} SignaturesWeigh(c: Context, authority: Authority, sigs: seq<Signature>)
    ensures CountedKeys(c, authority, sigs) == SigningKeys(c, authority, sigs)
    ensures NoRepeats(c, authority, sigs) <==> SignsOnce(c, authority, sigs)
  {
    forall g ensures Verifies(c, g) <==> IsSigned(c, g) {
      SignedIsVerified(c, g);
    }
  }

  /**
   Without delegates, signatures are accepted exactly when each is one of the message, no listed key is given
   twice, and the weights of the listed keys together fit and reach the threshold.
   */
  lemma {:induction false} FlatAcceptedIff(c: Context, account: Account, sigs: seq<Signature>)
    ensures IsAuthorized(c, account, Authorization(sigs, map[]))
            <==> && (forall i :: 0 <= i < |sigs| ==> IsSigned(c, sigs[i])) && SignsOnce(c, account.authority, sigs)
                 && account.authority.threshold <= SignedWeight(c, account.authority, sigs) <= MAX_UINT64
  {
    var a, auth := account.authority, Authorization(sigs, map[]);
    forall i | 0 <= i < |sigs| ensures Verifies(c, sigs[i]) <==> IsSigned(c, sigs[i]) {
      SignedIsVerified(c, sigs[i]);
    }
    SignaturesWeigh(c, a, sigs);
    assert Listed(a, auth) == {} && Satisfied(c, a, auth) == {};
  }

  // ---- Along one chain of delegation ----

  /** An authorization that delegates along the chain, with signatures at its end. */
  function Nested(chain: seq<AccountName>, sigs: seq<Signature>): Authorization
    decreases |chain|
  {
    if chain == [] then Authorization(sigs, map[]) else Authorization([], map[chain[0] := Nested(chain[1..], sigs)])
  }

  /** Each account gives the next one enough weight, and the last one the keys that signed. */
  ghost predicate Carries(c: Context, authority: Authority, chain: seq<AccountName>, sigs: seq<Signature>)
    decreases |chain|
  {
    if chain == [] then authority.threshold <= SignedWeight(c, authority, sigs)
    else
      && chain[0] in authority.accountWeights && authority.threshold <= authority.accountWeights[chain[0]]
      && chain[0] in c.accounts && Carries(c, c.accounts[chain[0]].authority, chain[1..], sigs)
  }

  /** At the end of the chain no listed key is given twice, and the weights fit. */
  ghost predicate EndsWell(c: Context, authority: Authority, chain: seq<AccountName>, sigs: seq<Signature>)
    decreases |chain|
  {
    if chain == [] then SignsOnce(c, authority, sigs) && SignedWeight(c, authority, sigs) <= MAX_UINT64
    else chain[0] in c.accounts && EndsWell(c, c.accounts[chain[0]].authority, chain[1..], sigs)
  }

  ghost predicate HavePositiveThresholds(c: Context, chain: seq<AccountName>) {
    forall i :: 0 <= i < |chain| && chain[i] in c.accounts ==> c.accounts[chain[i]].authority.threshold > 0
  }

  lemma {:induction false} SumOfOne<K>(w: map<K, Uint64>, x: K)
    requires x in w
    ensures SumOf({x}, w) == w[x]
  {
    SumPick({x}, w, x);
    assert {x} - {x} == {};
  }

  /** The nested authorization reaches the threshold exactly when every link of the chain does. */
  lemma {:induction false} NestedWeight(c: Context, authority: Authority, chain: seq<AccountName>, sigs: seq<Signature>)
    requires authority.threshold > 0 && HavePositiveThresholds(c, chain)
    ensures chain == [] ==> TreeWeight(c, authority, Nested(chain, sigs)) == SignedWeight(c, authority, sigs)
    ensures chain != [] ==> TreeWeight(c, authority, Nested(chain, sigs)) <= MAX_UINT64
    ensures authority.threshold <= TreeWeight(c, authority, Nested(chain, sigs)) <==> Carries(c, authority, chain, sigs)
    decreases |chain|
  {
    var auth := Nested(chain, sigs);
    if chain == [] {
      assert Satisfied(c, authority, auth) == {};
      SignaturesWeigh(c, authority, sigs);
    } else {
      var d := chain[0];
      assert CountedKeys(c, authority, auth.signatures) == {};
      assert auth.delegates[d] == Nested(chain[1..], sigs);
      if d in c.accounts {
        NestedWeight(c, c.accounts[d].authority, chain[1..], sigs);
      }
      if d in authority.accountWeights && MeetsThreshold(c, d, auth.delegates[d]) {
        assert Satisfied(c, authority, auth) == {d};
        SumOfOne(authority.accountWeights, d);
      } else {
        assert Satisfied(c, authority, auth) == {};
      }
    }
  }

  lemma {:induction false} NestedWeighableIff(c: Context, name: AccountName, authority: Authority,
                                              chain: seq<AccountName>, sigs: seq<Signature>, path: set<AccountName>,
                                              depth: nat)
    requires authority.threshold > 0 && HavePositiveThresholds(c, chain) && Carries(c, authority, chain, sigs)
    ensures IsWeighable(c, name, authority, Nested(chain, sigs), path, depth)
            <==> && depth + |chain| <= MAX_RECURSION_DEPTH && EndsWell(c, authority, chain, sigs)
                 && NoDuplicates([name] + chain) && Elements([name] + chain) !! path
    decreases |chain|
  {
    NestedWeight(c, authority, chain, sigs);
    var auth := Nested(chain, sigs);
    if chain == [] {
      assert [name] + chain == [name] && Elements([name]) == {name};
      assert Listed(authority, auth) == {};
      SignaturesWeigh(c, authority, sigs);
    } else {
      var d, rest := chain[0], chain[1..];
      assert chain == [d] + rest;
      FreshNames(name, d, rest, path);
      NestedWeighableIff(c, d, c.accounts[d].authority, rest, sigs, path + {name}, depth + 1);
      assert Listed(authority, auth) == {d};
      assert IsWeighable(c, name, authority, auth, path, depth)
          <==> && depth <= MAX_RECURSION_DEPTH && name !in path
               && IsWeighableDelegate(c, d, auth.delegates[d], path + {name}, depth + 1);
    }
  }

  /**
   With positive thresholds, delegation along one chain is accepted exactly when it has at most ten links, no
   name twice, enough weight at every link, and at its end enough weight of listed keys that signed, each given
   once. Other signatures at the end of a delegation are passed over; those of the account itself must all be
   of the message.
   */
  lemma {:induction false} ChainAcceptedIff(c: Context, account: Account, chain: seq<AccountName>, sigs: seq<Signature>)
    requires account.authority.threshold > 0 && HavePositiveThresholds(c, chain)
    ensures IsAuthorized(c, account, Nested(chain, sigs))
            <==> && |chain| <= 10 && NoDuplicates([account.name] + chain)
                 && Carries(c, account.authority, chain, sigs) && EndsWell(c, account.authority, chain, sigs)
                 && (chain == [] ==> forall i :: 0 <= i < |sigs| ==> IsSigned(c, sigs[i]))
  {
    NestedWeight(c, account.authority, chain, sigs);
    forall i | 0 <= i < |sigs| ensures Verifies(c, sigs[i]) <==> IsSigned(c, sigs[i]) {
      SignedIsVerified(c, sigs[i]);
    }
    if Carries(c, account.authority, chain, sigs) {
      NestedWeighableIff(c, account.name, account.authority, chain, sigs, {}, 0);
    }
  }

  // ---- Keys and delegates together ----

  /** Signatures, and a delegation along a chain. */
  function Mixed(own: seq<Signature>, d: AccountName, rest: seq<AccountName>, sigs: seq<Signature>): Authorization {
    Authorization(own, map[d := Nested(rest, sigs)])
  }

  /** The delegate is listed, seen, and carried by what is delegated to it. */
  ghost predicate IsCarried(c: Context, authority: Authority, d: AccountName, rest: seq<AccountName>,
                            sigs: seq<Signature>)
  {
    && d in authority.accountWeights && d in c.accounts && c.accounts[d].authority.threshold > 0
    && HavePositiveThresholds(c, rest) && Carries(c, c.accounts[d].authority, rest, sigs)
  }

  lemma {:induction false} MixedWeight(c: Context, authority: Authority, own: seq<Signature>, d: AccountName,
                                       rest: seq<AccountName>, sigs: seq<Signature>)
    requires IsCarried(c, authority, d, rest, sigs)
    ensures TreeWeight(c, authority, Mixed(own, d, rest, sigs))
            == SignedWeight(c, authority, own) + authority.accountWeights[d]
  {
    var auth := Mixed(own, d, rest, sigs);
    SignaturesWeigh(c, authority, own);
    NestedWeight(c, c.accounts[d].authority, rest, sigs);
    assert MeetsThreshold(c, d, auth.delegates[d]);
    assert Satisfied(c, authority, auth) == {d};
    SumOfOne(authority.accountWeights, d);
  }

  /** The weights of keys and of delegates add up. */
  lemma {:induction false} MixedAcceptedIff(c: Context, account: Account, own: seq<Signature>, d: AccountName,
                                            rest: seq<AccountName>, sigs: seq<Signature>)
    requires IsCarried(c, account.authority, d, rest, sigs)
    ensures var sum := SignedWeight(c, account.authority, own) + account.authority.accountWeights[d];
            IsAuthorized(c, account, Mixed(own, d, rest, sigs))
            <==> && |rest| < 10 && NoDuplicates([account.name] + ([d] + rest))
                 && EndsWell(c, c.accounts[d].authority, rest, sigs) && SignsOnce(c, account.authority, own)
                 && (forall i :: 0 <= i < |own| ==> IsSigned(c, own[i]))
                 && account.authority.threshold <= sum <= MAX_UINT64
  {
    var a, auth, name := account.authority, Mixed(own, d, rest, sigs), account.name;
    forall i | 0 <= i < |own| ensures Verifies(c, own[i]) <==> IsSigned(c, own[i]) {
      SignedIsVerified(c, own[i]);
    }
    SignaturesWeigh(c, a, own);
    MixedWeight(c, a, own, d, rest, sigs);
    NestedWeighableIff(c, d, c.accounts[d].authority, rest, sigs, {name}, 1);
    FreshNames(name, d, rest, {});
    assert Listed(a, auth) == {d} && {} + {name} == {name};
    assert IsWeighable(c, name, a, auth, {}, 0)
        <==> && NoRepeats(c, a, own) && IsWeighableDelegate(c, d, auth.delegates[d], {name}, 1)
             && TreeWeight(c, a, auth) <= MAX_UINT64;
  }
}
