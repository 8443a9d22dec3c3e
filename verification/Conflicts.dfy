/**
 Which effects conflict, in terms of what they name (`effects/effect.go` and the effect types beside it),
 and which of these conflicts the pairwise check on primary keys finds.
 */
module Conflicts {
  import opened Basics
  import opened Accounts
  import opened Effects
  import opened Balances

  // ---- The declared keys ----

  /** "balance/account/denom" */
  function BalancePath(account: AccountName, denom: Bytes): Bytes {
    [98, 97, 108, 97, 110, 99, 101, 47] + account + [47] + denom
  }

  /** The balance key of a coin that the transfer moves, on either side. */
  ghost predicate IsBalancePath(t: Effect, key: Bytes)
    requires t.Transfer?
  {
    exists i :: 0 <= i < |t.amount|
                && (key == BalancePath(t.from, t.amount[i].denom) || key == BalancePath(t.to, t.amount[i].denom))
  }

  lemma {:induction false} CoinKeys(from: AccountName, to: AccountName, coins: seq<Coin>, d: Dependency)
    ensures d in CoinDependencies(from, to, coins)
            <==> && d.kind == BalanceDependency && !d.readOnly
                 && IsBalancePath(Transfer(from, to, coins), d.key)
  {
    if coins != [] {
      var n := |coins| - 1;
      var t, before := Transfer(from, to, coins), Transfer(from, to, coins[..n]);
      CoinKeys(from, to, coins[..n], d);
      if IsBalancePath(before, d.key) {
        var i :| 0 <= i < n && (d.key == BalancePath(from, coins[..n][i].denom)
                                || d.key == BalancePath(to, coins[..n][i].denom));
        assert coins[i] == coins[..n][i];
      }
      if i :| 0 <= i < n && (d.key == BalancePath(from, coins[i].denom) || d.key == BalancePath(to, coins[i].denom)) {
        assert coins[i] == coins[..n][i];
      }
      assert CoinDependencies(from, to, coins)
          == CoinDependencies(from, to, coins[..n])
             + [Dependency(BalanceDependency, BalancePath(from, coins[n].denom), false),
                Dependency(BalanceDependency, BalancePath(to, coins[n].denom), false)];
    }
  }

  /** A transfer writes its two accounts and the balance keys of its coins, and reads nothing else. */
  lemma {:induction false} TransferWrites(t: Effect, key: Bytes)
    requires t.Transfer?
    ensures key in WriteKeys(t) <==> key == t.from || key == t.to || IsBalancePath(t, key)
    ensures key !in ReadKeys(t)
  {
    var deps := Dependencies(t);
    var first := [Dependency(AccountDependency, t.from, false), Dependency(AccountDependency, t.to, false)];
    assert deps == first + CoinDependencies(t.from, t.to, t.amount);
    forall d ensures d in deps <==> d == first[0] || d == first[1] || d in CoinDependencies(t.from, t.to, t.amount) {
    }
    forall d
      ensures d in CoinDependencies(t.from, t.to, t.amount)
              <==> d.kind == BalanceDependency && !d.readOnly && IsBalancePath(t, d.key)
    {
      CoinKeys(t.from, t.to, t.amount, d);
    }
    if key == t.from || key == t.to {
      assert (if key == t.from then first[0] else first[1]) in deps;
    }
    if IsBalancePath(t, key) {
      assert Dependency(BalanceDependency, key, false) in deps;
    }
  }

  predicate IsRaw(e: Effect) {
    e.Read? || e.Write? || e.Delete?
  }

  /** What a raw effect reads or writes: `store/key`. */
  function RawPath(e: Effect): Bytes
    requires IsRaw(e)
  {
    e.store + [47] + e.key
  }

  lemma {:induction false} RawKeys(e: Effect, key: Bytes)
    requires IsRaw(e)
    ensures key in ReadKeys(e) <==> e.Read? && key == RawPath(e)
    ensures key in WriteKeys(e) <==> !e.Read? && key == RawPath(e)
  {
    var deps := Dependencies(e);
    assert deps == [Dependency(GenericDependency, RawPath(e), e.Read?)];
    assert deps[0] in deps;
  }

  lemma {:induction false} NamesHaveNoSlash(name: AccountName)
    requires IsValidName(name)
    ensures 47 !in name
  {
  }

  lemma {:induction false} PathsHaveSlashes(e: Effect, account: AccountName, denom: Bytes)
    ensures IsRaw(e) ==> 47 in RawPath(e)
    ensures 47 in BalancePath(account, denom)
  {
    if IsRaw(e) {
      assert RawPath(e)[|e.store|] == 47;
    }
    assert BalancePath(account, denom)[7] == 47;
  }

  lemma {:induction false} PathNamesAccount(a: AccountName, c: Bytes, b: AccountName, d: Bytes)
    requires IsValidName(a) && IsValidName(b) && BalancePath(a, c) == BalancePath(b, d)
    ensures a == b
  {
    assert BalanceKey(a, c) == BalancePath(a, c)[8..] && BalanceKey(b, d) == BalancePath(b, d)[8..];
    BalanceKeyInjective(a, c, b, d);
  }

  // ---- Declared conflicts ----

  /** An event conflicts with nothing. */
  lemma {:induction false} EventsConflictWithNothing(a: Effect, b: Effect)
    requires a.Emit?
    ensures !Conflicting(a, b) && !Conflicting(b, a)
  {
    assert Dependencies(a) == [];
  }

  /** Two raw effects conflict exactly when they name the same key and not both only read it. */
  lemma {:induction false} RawConflictIff(a: Effect, b: Effect)
    requires IsRaw(a) && IsRaw(b)
    ensures Conflicting(a, b) <==> RawPath(a) == RawPath(b) && !(a.Read? && b.Read?)
  {
    forall key
      ensures key in ReadKeys(a) <==> a.Read? && key == RawPath(a)
      ensures key in WriteKeys(a) <==> !a.Read? && key == RawPath(a)
    {
      RawKeys(a, key);
    }
    forall key
      ensures key in ReadKeys(b) <==> b.Read? && key == RawPath(b)
      ensures key in WriteKeys(b) <==> !b.Read? && key == RawPath(b)
    {
      RawKeys(b, key);
    }
    if RawPath(a) == RawPath(b) && !(a.Read? && b.Read?) {
      if a.Read? {
        assert RawPath(a) in ReadKeys(a) * WriteKeys(b);
      } else {
        assert RawPath(a) in WriteKeys(a) * (ReadKeys(b) + WriteKeys(b));
      }
    }
  }

  predicate ShareAccount(a: Effect, b: Effect)
    requires a.Transfer? && b.Transfer?
  {
    a.from == b.from || a.from == b.to || a.to == b.from || a.to == b.to
  }

  /** Two transfers conflict exactly when they share an account. */
  lemma {:induction false} TransferConflictIff(a: Effect, b: Effect)
    requires IsValid(a) && IsValid(b) && a.Transfer? && b.Transfer?
    ensures Conflicting(a, b) <==> ShareAccount(a, b)
  {
    forall key ensures key !in ReadKeys(a) && key !in ReadKeys(b) {
      TransferWrites(a, key);
      TransferWrites(b, key);
    }
    if ShareAccount(a, b) {
      var key := if a.from == b.from || a.from == b.to then a.from else a.to;
      TransferWrites(a, key);
      TransferWrites(b, key);
      assert key in WriteKeys(a) * (ReadKeys(b) + WriteKeys(b));
    }
    if key :| key in WriteKeys(a) && key in WriteKeys(b) {
      TransferWrites(a, key);
      TransferWrites(b, key);
      SharedKeyNamesAccount(a, b, key);
    }
  }

  lemma {:induction false} SharedKeyNamesAccount(a: Effect, b: Effect, key: Bytes)
    requires IsValid(a) && IsValid(b) && a.Transfer? && b.Transfer?
    requires key == a.from || key == a.to || IsBalancePath(a, key)
    requires key == b.from || key == b.to || IsBalancePath(b, key)
    ensures ShareAccount(a, b)
  {
    NamesHaveNoSlash(a.from);
    NamesHaveNoSlash(a.to);
    NamesHaveNoSlash(b.from);
    NamesHaveNoSlash(b.to);
    if IsBalancePath(a, key) {
      var x, c := PathOf(a, key);
      PathsHaveSlashes(a, x, c);
      if IsBalancePath(b, key) {
        var y, d := PathOf(b, key);
        PathNamesAccount(x, c, y, d);
      }
    } else if IsBalancePath(b, key) {
      var y, d := PathOf(b, key);
      PathsHaveSlashes(b, y, d);
    }
  }

  lemma {:induction false} PathOf(t: Effect, key: Bytes) returns (account: AccountName, denom: Bytes)
    requires t.Transfer? && IsBalancePath(t, key)
    ensures key == BalancePath(account, denom) && (account == t.from || account == t.to)
  {
    var i :| 0 <= i < |t.amount|
             && (key == BalancePath(t.from, t.amount[i].denom) || key == BalancePath(t.to, t.amount[i].denom));
    denom := t.amount[i].denom;
    account := if key == BalancePath(t.from, denom) then t.from else t.to;
  }

  /** A raw effect, read or write, and a transfer conflict exactly when the raw key is such a balance key. */
  lemma {:induction false} RawTransferConflictIff(e: Effect, t: Effect)
    requires IsRaw(e) && IsValid(t) && t.Transfer?
    ensures Conflicting(e, t) <==> IsBalancePath(t, RawPath(e))
    ensures Conflicting(t, e) <==> IsBalancePath(t, RawPath(e))
  {
    var k := RawPath(e);
    forall key
      ensures key in ReadKeys(e) <==> e.Read? && key == k
      ensures key in WriteKeys(e) <==> !e.Read? && key == k
    {
      RawKeys(e, key);
    }
    forall key ensures key !in ReadKeys(t) {
      TransferWrites(t, key);
    }
    TransferWrites(t, k);
    NamesHaveNoSlash(t.from);
    NamesHaveNoSlash(t.to);
    PathsHaveSlashes(e, t.from, []);
    assert k in WriteKeys(t) <==> IsBalancePath(t, k);
    if k in WriteKeys(t) {
      if e.Read? {
        assert k in ReadKeys(e) * WriteKeys(t) && k in WriteKeys(t) * (ReadKeys(e) + WriteKeys(e));
      } else {
        assert k in WriteKeys(e) * (ReadKeys(t) + WriteKeys(t)) && k in WriteKeys(t) * (ReadKeys(e) + WriteKeys(e));
      }
    }
  }

  // ---- Detected conflicts ----

  /** Between raw effects the pairwise check finds every conflict, and calls it by what the two do. */
  lemma {:induction false} RawDetectedIff(a: Effect, b: Effect)
    requires IsRaw(a) && IsRaw(b)
    ensures DetectConflict(a, b).Some? <==> Conflicting(a, b)
    ensures DetectConflict(a, b) == Some(WriteWrite) <==> RawPath(a) == RawPath(b) && !a.Read? && !b.Read?
    ensures DetectConflict(a, b) == Some(ReadWrite) <==> RawPath(a) == RawPath(b) && a.Read? != b.Read?
  {
    RawConflictIff(a, b);
  }

  /** Between transfers it finds those of one sender, and no other; elsewhere it finds nothing. */
  lemma {:induction false} OtherwiseDetectedIff(a: Effect, b: Effect)
    requires IsValid(a) && IsValid(b) && !(IsRaw(a) && IsRaw(b))
    ensures DetectConflict(a, b) == if a.Transfer? && b.Transfer? && a.from == b.from then Some(WriteWrite) else None
  {
    if a.Transfer? {
      NamesHaveNoSlash(a.from);
    }
    if b.Transfer? {
      NamesHaveNoSlash(b.from);
    }
    PathsHaveSlashes(a, [], []);
    PathsHaveSlashes(b, [], []);
  }

  /** The conflict of a pair that the pairwise check does not see. */
  ghost predicate IsMissed(a: Effect, b: Effect) {
    || (a.Transfer? && b.Transfer? && ShareAccount(a, b) && a.from != b.from)
    || (IsRaw(a) && b.Transfer? && IsBalancePath(b, RawPath(a)))
    || (a.Transfer? && IsRaw(b) && IsBalancePath(a, RawPath(b)))
  }

  /**
   The pairwise check misses exactly the transfers of different senders that share an account, and the raw
   effects on a balance key of a transfer.
   */
  lemma {:induction false} MissedIff(a: Effect, b: Effect)
    requires IsValid(a) && IsValid(b)
    ensures Conflicting(a, b) && DetectConflict(a, b).None? <==> IsMissed(a, b)
  {
    if IsRaw(a) && IsRaw(b) {
      RawDetectedIff(a, b);
    } else {
      OtherwiseDetectedIff(a, b);
      if a.Emit? || b.Emit? {
        EventsConflictWithNothing(if a.Emit? then a else b, if a.Emit? then b else a);
      } else if a.Transfer? && b.Transfer? {
        TransferConflictIff(a, b);
      } else if a.Transfer? {
        RawTransferConflictIff(b, a);
      } else {
        RawTransferConflictIff(a, b);
      }
    }
  }
}
