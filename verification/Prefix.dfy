/** Namespaced views of a backing store and their iterators (`store/prefix.go`). */
module Prefix {
  import opened Basics
  import opened Order
  import opened MemoryStore

  // ---- The upper bound of a prefix ----

  /** The least key above all keys with the prefix, if there is one. */
  function BoundOf(p: Bytes): Option<Bytes>
    decreases |p|
  {
    if p == [] then None
    else
      var n := |p| - 1;
      if p[n] < 255 then Some(p[..n] + [p[n] + 1]) else BoundOf(p[..n])
  }

  /** `prefixBound`: increments the last byte below 0xFF and cuts the rest. */
  method PrefixBound(prefix: Bytes) returns (r: Option<Bytes>)
    ensures r == BoundOf(prefix)
  {
    var bound := prefix;
    assert prefix[..|prefix|] == prefix;
    var i := |bound| - 1;
    while i >= 0
      invariant -1 <= i < |prefix| && bound == prefix
      invariant BoundOf(prefix[..i + 1]) == BoundOf(prefix)
    {
      if bound[i] < 255 {
        bound := bound[i := bound[i] + 1];
        assert bound[..i + 1] == prefix[..i] + [prefix[i] + 1];
        assert prefix[..i + 1][..i] == prefix[..i];
        return Some(bound[..i + 1]);
      }
      assert prefix[..i + 1][..i] == prefix[..i];
      i := i - 1;
    }
    return None;
  }

  lemma {:induction false} BoundOfCons(a: Byte, q: Bytes)
    ensures BoundOf([a] + q) == if BoundOf(q).Some? then Some([a] + BoundOf(q).value)
                                else if a < 255 then Some([a + 1]) else None
    decreases |q|
  {
    var p := [a] + q;
    if q == [] {
      assert p[..0] == [] && [] + [a + 1] == [a + 1];
    } else {
      var n := |q| - 1;
      assert p[..n + 1] == [a] + q[..n];
      if q[n] == 255 {
        BoundOfCons(a, q[..n]);
      } else {
        assert [a] + (q[..n] + [q[n] + 1]) == p[..n + 1] + [p[n + 1] + 1];
      }
    }
  }

  /** The keys with a prefix are exactly those from the prefix up to its bound. */
  lemma {:induction false} PrefixIsRange(p: Bytes, k: Bytes)
    ensures p <= k <==> IsWithin(k, Some(p), BoundOf(p))
    decreases |p|
  {
    if p != [] && k != [] {
      BoundOfCons(p[0], p[1..]);
      assert p == [p[0]] + p[1..] && k == [k[0]] + k[1..];
      var b := BoundOf(p);
      if b.Some? {
        assert b.value[1..] == if BoundOf(p[1..]).Some? then BoundOf(p[1..]).value else [];
      }
      if k[0] == p[0] {
        PrefixIsRange(p[1..], k[1..]);
        assert p <= k <==> p[1..] <= k[1..];
        assert LessEq(p, k) <==> LessEq(p[1..], k[1..]);
      } else {
        assert !(p <= k);
        assert b.Some? && k[0] > p[0] ==> !Less(k, b.value);
      }
    }
  }

  lemma {:induction false} BelowExtension(p: Bytes, e: Bytes, k: Bytes)
    requires LessEq(p, k) && Less(k, p + e)
    ensures p <= k
    decreases |p|
  {
    if p != [] {
      assert k != [] && k[0] == p[0];
      assert (p + e)[1..] == p[1..] + e && k == [k[0]] + k[1..] && p == [p[0]] + p[1..];
      BelowExtension(p[1..], e, k[1..]);
    }
  }

  lemma {:induction false} PrefixLessEq(p: Bytes, a: Bytes)
    ensures LessEq(p, p + a)
  {
    assert p + [] == p;
    LessCancel(p, [], a);
    if a == [] {
      assert p + a == p;
    }
  }

  function StartKey(p: Bytes, start: Option<Bytes>): Option<Bytes> {
    Some(if start.Some? then p + start.value else p)
  }

  function EndKey(p: Bytes, end: Option<Bytes>): Option<Bytes> {
    if end.Some? then Some(p + end.value) else BoundOf(p)
  }

  /** The prefixed range holds exactly the prefixed keys of the range. */
  lemma {:induction false} PrefixedRange(p: Bytes, start: Option<Bytes>, end: Option<Bytes>, k: Bytes)
    ensures IsWithin(k, StartKey(p, start), EndKey(p, end)) <==> p <= k && IsWithin(k[|p|..], start, end)
  {
    if p <= k {
      var x := k[|p|..];
      assert k == p + x;
      PrefixIsRange(p, k);
      if start.Some? {
        LessCancel(p, start.value, x);
      } else {
        PrefixLessEq(p, x);
      }
      if end.Some? {
        LessCancel(p, x, end.value);
      }
    } else {
      PrefixIsRange(p, k);
      if IsWithin(k, StartKey(p, start), EndKey(p, end)) {
        if start.Some? {
          PrefixLessEq(p, start.value);
          if Less(p, p + start.value) && Less(p + start.value, k) {
            LessTransitive(p, p + start.value, k);
          }
        }
        if end.Some? {
          BelowExtension(p, end.value, k);
        }
      }
    }
  }

  // ---- Views ----

  ghost function StrippedKeys(data: map<Bytes, Bytes>, p: Bytes): set<Bytes> {
    set k | k in data && p <= k :: k[|p|..]
  }

  /** What a store with the prefix sees. */
  ghost function View(data: map<Bytes, Bytes>, p: Bytes): (view: map<Bytes, Bytes>)
    ensures forall x :: x in view <==> p + x in data
    ensures forall x :: x in view ==> view[x] == data[p + x]
  {
    forall x ensures x in StrippedKeys(data, p) <==> p + x in data {
      if p + x in data {
        assert (p + x)[|p|..] == x;
      }
      if x in StrippedKeys(data, p) {
        var k :| k in data && p <= k && k[|p|..] == x;
        assert k == p + x;
      }
    }
    map x | x in StrippedKeys(data, p) :: data[p + x]
  }

  /** Neither is a prefix of the other. */
  predicate Incomparable(p: Bytes, q: Bytes) {
    !(p <= q) && !(q <= p)
  }

  /** Keys under incomparable prefixes never coincide. */
  lemma {:induction false} NamespacesAreDisjoint(p: Bytes, q: Bytes, x: Bytes, y: Bytes)
    requires Incomparable(p, q)
    ensures p + x != q + y
  {
    assert p <= p + x && q <= q + y;
  }

  /** A change under one prefix is invisible under an incomparable one. */
  lemma {:induction false} ChangeIsIsolated(before: map<Bytes, Bytes>, after: map<Bytes, Bytes>, p: Bytes, q: Bytes,
                                            x: Bytes)
    requires Incomparable(p, q)
    requires forall k :: k != p + x ==> (k in after <==> k in before) && (k in before ==> after[k] == before[k])
    ensures View(after, q) == View(before, q)
  {
    forall y ensures y in View(after, q) <==> y in View(before, q) {
      NamespacesAreDisjoint(p, q, x, y);
    }
    forall y | y in View(before, q) ensures View(after, q)[y] == View(before, q)[y] {
      NamespacesAreDisjoint(p, q, x, y);
    }
  }

  /** The entries with the first `n` bytes of every key removed. */
  function Stripped(items: seq<(Bytes, Bytes)>, n: nat): seq<(Bytes, Bytes)>
    requires forall i :: 0 <= i < |items| ==> n <= |items[i].0|
  {
    seq(|items|, i requires 0 <= i < |items| => (items[i].0[n..], items[i].1))
  }

  // ---- The store ----

  class PrefixIterator {
    const parent: MemoryIterator
    const prefix: Bytes
    var closed: bool

    constructor (parent: MemoryIterator, prefix: Bytes)
      ensures this.parent == parent && this.prefix == prefix && !closed
    {
      this.parent := parent;
      this.prefix := prefix;
      closed := false;
    }

    predicate Valid()
      reads this, parent
    {
      !closed && parent.Valid() && prefix <= parent.items[parent.index].0
    }

    method Next()
      modifies parent
      ensures parent.items == old(parent.items) && parent.closed == old(parent.closed)
      ensures parent.index == if closed || old(parent.closed) then old(parent.index) else old(parent.index) + 1
    {
      if !closed {
        parent.Next();
      }
    }

    /** The key with the prefix stripped, and the value. */
    function Entry(): Option<(Bytes, Bytes)>
      reads this, parent
    {
      if Valid() then Some((parent.items[parent.index].0[|prefix|..], parent.items[parent.index].1)) else None
    }

    /** A client's loop over an iterator whose items all have the prefix: every item, stripped, in order. */
    method Drain() returns (entries: seq<(Bytes, Bytes)>)
      requires !closed && !parent.closed && parent.index == 0
      requires forall i :: 0 <= i < |parent.items| ==> prefix <= parent.items[i].0
      modifies parent
      ensures entries == Stripped(old(parent.items), |prefix|)
    {
      entries := [];
      while Valid()
        invariant !closed && !parent.closed && parent.items == old(parent.items) && parent.index <= |parent.items|
        invariant |entries| == parent.index
        invariant forall i :: 0 <= i < |entries| ==> entries[i] == (parent.items[i].0[|prefix|..], parent.items[i].1)
        decreases |parent.items| - parent.index
      {
        entries := entries + [Entry().value];
        Next();
      }
    }
  }

  class PrefixStore {
    const parent: MemoryStore
    const prefix: Bytes
    var closed: bool

    constructor (parent: MemoryStore, prefix: Bytes)
      requires prefix != []
      ensures this.parent == parent && this.prefix == prefix && !closed
    {
      this.parent := parent;
      this.prefix := prefix;
      closed := false;
    }

    ghost function Contents(): map<Bytes, Bytes>
      reads parent
    {
      View(parent.data, prefix)
    }

    method Get(key: Bytes) returns (r: Result<Bytes>)
      ensures r == if closed then Error(Closed) else if key == [] then Error(InvalidKey)
                   else if key in Contents() then Ok(Contents()[key]) else Error(NotFound)
    {
      if closed {
        return Error(Closed);
      }
      if key == [] {
        return Error(InvalidKey);
      }
      r := parent.Get(prefix + key);
    }

    method Set(key: Bytes, value: Bytes) returns (ok: bool)
      modifies parent
      ensures ok <==> !closed && key != []
      ensures Contents() == if ok then old(Contents())[key := value] else old(Contents())
      ensures forall q :: Incomparable(prefix, q) ==> View(parent.data, q) == View(old(parent.data), q)
    {
      if closed || key == [] {
        return false;
      }
      ok := parent.Set(prefix + key, value);
      ViewUpdated(old(parent.data), prefix, key, value);
      forall q | Incomparable(prefix, q) ensures View(parent.data, q) == View(old(parent.data), q) {
        ChangeIsIsolated(old(parent.data), parent.data, prefix, q, key);
      }
    }

    method Delete(key: Bytes) returns (ok: bool)
      modifies parent
      ensures ok <==> !closed && key != []
      ensures Contents() == if ok then old(Contents()) - {key} else old(Contents())
      ensures forall q :: Incomparable(prefix, q) ==> View(parent.data, q) == View(old(parent.data), q)
    {
      if closed || key == [] {
        return false;
      }
      ok := parent.Delete(prefix + key);
      forall q | Incomparable(prefix, q) ensures View(parent.data, q) == View(old(parent.data), q) {
        ChangeIsIsolated(old(parent.data), parent.data, prefix, q, key);
      }
    }

    method Has(key: Bytes) returns (r: Result<bool>)
      ensures r == if closed then Error(Closed) else if key == [] then Error(InvalidKey) else Ok(key in Contents())
    {
      if closed {
        return Error(Closed);
      }
      if key == [] {
        return Error(InvalidKey);
      }
      r := parent.Has(prefix + key);
    }

    /**
     `Iterator` and `ReverseIterator`: the stripped items are exactly the entries of the view within the
     range, ascending, or descending in reverse.
     */
    method Iterator(start: Option<Bytes>, end: Option<Bytes>, reverse: bool)
      returns (it: Option<PrefixIterator>, ghost sorted: seq<Bytes>)
      ensures it.Some? <==> !closed
      ensures it.Some? ==> fresh(it.value) && fresh(it.value.parent)
      ensures it.Some? ==> it.value.prefix == prefix && !it.value.closed
      ensures it.Some? ==> !it.value.parent.closed && it.value.parent.index == 0
      ensures it.Some? ==> Ascending(sorted) && Elements(sorted) == KeysWithin(Contents(), start, end)
      ensures it.Some? ==> forall i :: 0 <= i < |it.value.parent.items| ==> prefix <= it.value.parent.items[i].0
      ensures it.Some? ==>
                AreEntries(Stripped(it.value.parent.items, |prefix|), Contents(),
                           if reverse then Reverse(sorted) else sorted)
    {
      if closed {
        return None, [];
      }
      var last;
      if end.Some? {
        last := Some(prefix + end.value);
      } else {
        last := PrefixBound(prefix);
      }
      var inner, keys := parent.Iterator(StartKey(prefix, start), last, reverse);
      sorted := StrippedSorted(parent.data, prefix, start, end, keys);
      StrippedEntries(parent.data, prefix, keys, sorted, inner.items, reverse);
      var wrapped := new PrefixIterator(inner, prefix);
      it := Some(wrapped);
    }
  }

  lemma {:induction false} ViewUpdated(data: map<Bytes, Bytes>, p: Bytes, key: Bytes, value: Bytes)
    ensures View(data[p + key := value], p) == View(data, p)[key := value]
  {
    forall x ensures x == key <==> p + x == p + key {
      assert (p + x)[|p|..] == x && (p + key)[|p|..] == key;
    }
  }

  /** The sorted keys of the prefixed range, stripped, are the sorted keys of the range in the view. */
  lemma {:induction false} StrippedSorted(data: map<Bytes, Bytes>, p: Bytes, start: Option<Bytes>, end: Option<Bytes>,
                                          keys: seq<Bytes>)
    returns (stripped: seq<Bytes>)
    requires Ascending(keys) && Elements(keys) == KeysWithin(data, StartKey(p, start), EndKey(p, end))
    ensures |stripped| == |keys| && forall i :: 0 <= i < |keys| ==> keys[i] == p + stripped[i]
    ensures Ascending(stripped) && Elements(stripped) == KeysWithin(View(data, p), start, end)
  {
    forall k | k in keys ensures |p| <= |k| && p <= k && k in data && IsWithin(k[|p|..], start, end) {
      assert k in Elements(keys);
      PrefixedRange(p, start, end, k);
    }
    stripped := seq(|keys|, i requires 0 <= i < |keys| && keys[i] in keys => keys[i][|p|..]);
    forall i | 0 <= i < |keys| ensures keys[i] == p + stripped[i] {
      assert keys[i] in keys;
    }
    forall i, j | 0 <= i < j < |keys| ensures Less(stripped[i], stripped[j]) {
      LessCancel(p, stripped[i], stripped[j]);
    }
    StrippedCovers(data, p, start, end, keys, stripped);
  }

  lemma {:induction false} StrippedCovers(data: map<Bytes, Bytes>, p: Bytes, start: Option<Bytes>, end: Option<Bytes>,
                                          keys: seq<Bytes>, stripped: seq<Bytes>)
    requires Elements(keys) == KeysWithin(data, StartKey(p, start), EndKey(p, end))
    requires |stripped| == |keys| && forall i :: 0 <= i < |keys| ==> keys[i] == p + stripped[i]
    ensures Elements(stripped) == KeysWithin(View(data, p), start, end)
  {
    forall x ensures x in stripped <==> x in KeysWithin(View(data, p), start, end) {
      PrefixedRange(p, start, end, p + x);
      assert (p + x)[|p|..] == x;
      if x in stripped {
        var i :| 0 <= i < |stripped| && stripped[i] == x;
        assert keys[i] in Elements(keys);
      }
      if x in KeysWithin(View(data, p), start, end) {
        assert p + x in Elements(keys);
        var i :| 0 <= i < |keys| && keys[i] == p + x;
        assert stripped[i] == (p + stripped[i])[|p|..];
      }
    }
  }

  lemma {:induction false} StrippedEntries(data: map<Bytes, Bytes>, p: Bytes, keys: seq<Bytes>, stripped: seq<Bytes>,
                                           items: seq<(Bytes, Bytes)>, reverse: bool)
    requires |stripped| == |keys| && forall i :: 0 <= i < |keys| ==> keys[i] == p + stripped[i]
    requires AreEntries(items, data, if reverse then Reverse(keys) else keys)
    ensures forall i :: 0 <= i < |items| ==> p <= items[i].0
    ensures AreEntries(Stripped(items, |p|), View(data, p), if reverse then Reverse(stripped) else stripped)
  {
    var order, tails := if reverse then Reverse(keys) else keys, if reverse then Reverse(stripped) else stripped;
    assert |order| == |tails|;
    forall i | 0 <= i < |order| ensures order[i] == p + tails[i] {
      assert reverse ==> order[i] == keys[|keys| - 1 - i] && tails[i] == stripped[|keys| - 1 - i];
    }
  }

}
