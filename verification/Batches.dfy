/**
 The batch operations of the cached store (`store/cached_store.go`): each is a run of single operations,
 except that `SetBatch` does not refuse the empty key, which then blocks every flush.
 */
module Batches {
  import opened Basics
  import opened Codecs
  import opened Cache
  import opened MemoryStore
  import opened CachedStore

  // ---- Batches as runs ----

  function Gets<T>(keys: seq<Bytes>): seq<Op<T>> {
    seq(|keys|, i requires 0 <= i < |keys| => Op<T>.Get(keys[i]))
  }

  function Deletes<T>(keys: seq<Bytes>): seq<Op<T>> {
    seq(|keys|, i requires 0 <= i < |keys| => Op<T>.Put(keys[i], None))
  }

  function Sets<T>(items: map<Bytes, T>, order: seq<Bytes>): seq<Op<T>>
    requires Elements(order) <= items.Keys
  {
    assert forall i :: 0 <= i < |order| ==> order[i] in Elements(order);
    seq(|order|, i requires 0 <= i < |order| => Op.Put(order[i], Some(items[order[i]])))
  }

  /** What `GetBatch` keeps of the replies: the values found, under their keys. */
  function Found<T>(keys: seq<Bytes>, replies: seq<Reply<T>>): map<Bytes, T>
    requires |keys| == |replies|
  {
    if keys == [] then map[]
    else
      var n := |keys| - 1;
      var before := Found(keys[..n], replies[..n]);
      if replies[n].GetReply? && replies[n].got.Ok? then before[keys[n] := replies[n].got.value] else before
  }

  /** The loop of `SetBatch`: every key goes to the cache, the empty one included. */
  function StoreAll<T>(s: Store<T>, items: map<Bytes, T>, order: seq<Bytes>): Store<T>
    requires Elements(order) <= items.Keys
  {
    if order == [] then s
    else
      var n := |order| - 1;
      assert Elements(order[..n]) <= Elements(order) && order[n] in Elements(order);
      var t := StoreAll(s, items, order[..n]);
      t.(l1 := Stored(t.l1, order[n], Entry(Some(items[order[n]]), true)))
  }

  lemma {:induction false} RunOneMore<T>(codec: Codec<T>, s: Store<T>, ops: seq<Op<T>>, op: Op<T>)
    ensures var (t, replies) := RunStore(codec, s, ops);
            RunStore(codec, s, ops + [op]) == (Step(codec, t, op).0, replies + [Step(codec, t, op).1])
    decreases |ops|
  {
    if ops == [] {
      var (s', reply) := Step(codec, s, op);
      assert ops + [op] == [op] && [op][1..] == [] && RunStore(codec, s', []) == (s', []);
      assert [reply] + [] == [] + [reply];
    } else {
      assert (ops + [op])[1..] == ops[1..] + [op];
      var (s', reply) := Step(codec, s, ops[0]);
      RunOneMore(codec, s', ops[1..], op);
      var (t, replies) := RunStore(codec, s', ops[1..]);
      assert [reply] + (replies + [Step(codec, t, op).1]) == ([reply] + replies) + [Step(codec, t, op).1];
    }
  }

  /** Without the empty key, a batch of writes is the run of its writes. */
  lemma {:induction false} SetBatchIsRun<T>(codec: Codec<T>, s: Store<T>, items: map<Bytes, T>, order: seq<Bytes>)
    requires Elements(order) <= items.Keys && [] !in items
    ensures StoreAll(s, items, order) == RunStore(codec, s, Sets(items, order)).0
  {
    if order != [] {
      var n := |order| - 1;
      assert Elements(order[..n]) <= Elements(order) && order[n] in Elements(order);
      SetBatchIsRun(codec, s, items, order[..n]);
      assert Sets(items, order) == Sets(items, order[..n]) + [Op.Put(order[n], Some(items[order[n]]))];
      RunOneMore(codec, s, Sets(items, order[..n]), Op.Put(order[n], Some(items[order[n]])));
    }
  }

  // ---- Batches on the plain map ----

  ghost predicate NamesOnly<T>(ops: seq<Op<T>>, keys: set<Bytes>) {
    forall i :: 0 <= i < |ops| ==> ops[i].Flush? || ops[i].key in keys
  }

  /** A run that names no more keys than L1 has room for is within the bound. */
  lemma {:induction false} FewKeysAreWithinBound<T>(codec: Codec<T>, s: Store<T>, touched: set<Bytes>, ops: seq<Op<T>>,
                                                    keys: set<Bytes>)
    requires touched <= keys && |keys| <= s.l1.capacity && NamesOnly(ops, keys)
    ensures WithinBound(codec, s, touched, ops)
    decreases |ops|
  {
    if ops != [] {
      var touched' := TouchedBy(s, touched, ops[0]);
      SubsetCount(touched', keys);
      FewKeysAreWithinBound(codec, Step(codec, s, ops[0]).0, touched', ops[1..], keys);
    }
  }

  lemma {:induction false} PlainSets<T>(m: map<Bytes, T>, items: map<Bytes, T>, order: seq<Bytes>)
    requires Elements(order) <= items.Keys && [] !in items
    ensures RunPlain(m, Sets(items, order)).0 == m + map k | k in Elements(order) :: items[k]
    decreases |order|
  {
    if order != [] {
      assert order[0] in Elements(order) && Elements(order[1..]) <= Elements(order);
      assert Elements(order) == {order[0]} + Elements(order[1..]);
      assert Sets(items, order)[1..] == Sets(items, order[1..]);
      PlainSets(m[order[0] := items[order[0]]], items, order[1..]);
    }
  }

  lemma {:induction false} PlainSetBatch<T>(m: map<Bytes, T>, items: map<Bytes, T>, order: seq<Bytes>)
    requires Elements(order) == items.Keys && [] !in items
    ensures RunPlain(m, Sets(items, order)).0 == m + items
  {
    PlainSets(m, items, order);
    assert (map k | k in Elements(order) :: items[k]) == items;
  }

  lemma {:induction false} PlainDeletes<T>(m: map<Bytes, T>, keys: seq<Bytes>)
    requires [] !in m
    ensures RunPlain(m, Deletes<T>(keys)).0 == m - Elements(keys)
    decreases |keys|
  {
    if keys != [] {
      assert Elements(keys) == {keys[0]} + Elements(keys[1..]);
      assert Deletes<T>(keys)[1..] == Deletes<T>(keys[1..]);
      PlainDeletes(PlainStep(m, Deletes<T>(keys)[0]).0, keys[1..]);
    }
  }

  lemma {:induction false} PlainGets<T>(m: map<Bytes, T>, keys: seq<Bytes>)
    requires [] !in m
    ensures RunPlain(m, Gets<T>(keys)).0 == m && |RunPlain(m, Gets<T>(keys)).1| == |keys|
    ensures forall i :: 0 <= i < |keys| ==>
              var r := RunPlain(m, Gets<T>(keys)).1[i];
              r.GetReply? && (r.got.Ok? <==> keys[i] in m) && (r.got.Ok? ==> r.got.value == m[keys[i]])
    decreases |keys|
  {
    if keys != [] {
      assert Gets<T>(keys)[1..] == Gets<T>(keys[1..]);
      PlainGets(m, keys[1..]);
    }
  }

  lemma {:induction false} FoundInPlain<T>(m: map<Bytes, T>, keys: seq<Bytes>, replies: seq<Reply<T>>)
    requires |replies| == |keys|
    requires forall i :: 0 <= i < |keys| ==>
               var r := replies[i];
               r.GetReply? && (r.got.Ok? <==> keys[i] in m) && (r.got.Ok? ==> r.got.value == m[keys[i]])
    ensures Found(keys, replies) == map k | k in Elements(keys) && k in m :: m[k]
  {
    if keys != [] {
      var n := |keys| - 1;
      FoundInPlain(m, keys[..n], replies[..n]);
      assert keys == keys[..n] + [keys[n]];
      assert Elements(keys) == Elements(keys[..n]) + {keys[n]};
    }
  }

  /** The keys of a batch, each once: the order in which the map is visited. */
  ghost predicate IsOrderOf<T>(order: seq<Bytes>, items: map<Bytes, T>) {
    NoDuplicates(order) && Elements(order) == items.Keys
  }

  lemma {:induction false} SetsWithinBound<T>(codec: Codec<T>, s: Store<T>, touched: set<Bytes>, items: map<Bytes, T>,
                                              order: seq<Bytes>)
    requires Elements(order) == items.Keys && |touched + items.Keys| <= s.l1.capacity
    ensures WithinBound(codec, s, touched, Sets(items, order))
  {
    assert forall i :: 0 <= i < |order| ==> order[i] in Elements(order);
    FewKeysAreWithinBound(codec, s, touched, Sets(items, order), touched + items.Keys);
  }

  /** Within the bound a batch of writes acts as merging it into the plain map, in any order of the batch. */
  lemma {:induction false} SetBatchIsPlain<T(!new)>(codec: Codec<T>, s: Store<T>, m: map<Bytes, T>, touched: set<Bytes>,
                                             items: map<Bytes, T>, order: seq<Bytes>)
    requires IsFaithful(codec) && Tracks(codec, s, m, touched) && [] !in items
    requires IsOrderOf(order, items) && |touched + items.Keys| <= s.l1.capacity
    ensures IsConsistent(codec, StoreAll(s, items, order)) && Represents(codec, StoreAll(s, items, order), m + items)
  {
    SetsWithinBound(codec, s, touched, items, order);
    RunRefinesPlainMap(codec, s, m, touched, Sets(items, order));
    SetBatchIsRun(codec, s, items, order);
    PlainSetBatch(m, items, order);
  }

  lemma {:induction false} NoEmptyKey<T>(codec: Codec<T>, s: Store<T>, m: map<Bytes, T>)
    requires IsConsistent(codec, s) && Represents(codec, s, m)
    ensures [] !in m
  {
    assert Lookup(codec, s, []) == PlainLookup(m, []);
  }

  /** Within the bound a batch of deletions takes its keys out of the plain map. */
  lemma {:induction false} DeleteBatchIsPlain<T(!new)>(codec: Codec<T>, s: Store<T>, m: map<Bytes, T>,
      touched: set<Bytes>, keys: seq<Bytes>)
    requires IsFaithful(codec) && Tracks(codec, s, m, touched) && |touched + Elements(keys)| <= s.l1.capacity
    ensures var t := RunStore(codec, s, Deletes<T>(keys)).0;
            IsConsistent(codec, t) && Represents(codec, t, m - Elements(keys))
  {
    assert forall i :: 0 <= i < |keys| ==> keys[i] in Elements(keys);
    FewKeysAreWithinBound(codec, s, touched, Deletes<T>(keys), touched + Elements(keys));
    RunRefinesPlainMap(codec, s, m, touched, Deletes<T>(keys));
    NoEmptyKey(codec, s, m);
    PlainDeletes(m, keys);
  }

  /** Within the bound a batch of reads finds exactly what the plain map has under its keys, and changes nothing. */
  lemma {:induction false} GetBatchIsPlain<T(!new)>(codec: Codec<T>, s: Store<T>, m: map<Bytes, T>, touched: set<Bytes>,
                                             keys: seq<Bytes>)
    requires IsFaithful(codec) && Tracks(codec, s, m, touched) && |touched + Elements(keys)| <= s.l1.capacity
    ensures var (t, replies) := RunStore(codec, s, Gets<T>(keys));
            && |replies| == |keys| && Found(keys, replies) == (map k | k in Elements(keys) && k in m :: m[k])
            && IsConsistent(codec, t) && Represents(codec, t, m)
  {
    assert forall i :: 0 <= i < |keys| ==> keys[i] in Elements(keys);
    FewKeysAreWithinBound(codec, s, touched, Gets<T>(keys), touched + Elements(keys));
    RunRefinesPlainMap(codec, s, m, touched, Gets<T>(keys));
    NoEmptyKey(codec, s, m);
    PlainGets(m, keys);
    FoundInPlain(m, keys, RunPlain(m, Gets<T>(keys)).1);
  }

  // ---- The empty key ----

  /** The empty key is dirty among the touched keys, which are in front of L1. */
  ghost predicate IsBlocked<T>(s: Store<T>, touched: set<Bytes>) {
    && s.l1.Valid() && s.l2.items == map[] && InFront(s.l1.order, touched)
    && [] in touched && [] in s.l1.items && s.l1.items[[]].dirty
  }

  lemma {:induction false} StoringKeepsBlocked<T>(s: Store<T>, touched: set<Bytes>, key: Bytes, entry: Entry<T>)
    requires IsBlocked(s, touched) && key != [] && |touched + {key}| <= s.l1.capacity
    ensures IsBlocked(s.(l1 := Stored(s.l1, key, entry)), touched + {key})
  {
    VictimIsUntouched(s.l1, touched, key);
    StoredContents(s.l1, key, entry);
    StoredOrder(s.l1, touched, key, entry);
  }

  lemma {:induction false} TouchingKeepsBlocked<T>(s: Store<T>, touched: set<Bytes>, key: Bytes)
    requires IsBlocked(s, touched) && key in s.l1.items
    ensures IsBlocked(s.(l1 := Touched(s.l1, key)), touched + {key})
  {
    TouchedIsValid(s.l1, key);
    assert key in Elements(s.l1.order);
    FrontIsRecent(s.l1.order, key, touched);
  }

  /** The keys touched in L1 when flushes do not go through; an undecodable record is not cached. */
  function TouchedBlocked<T>(codec: Codec<T>, s: Store<T>, touched: set<Bytes>, op: Op<T>): set<Bytes> {
    if op.Flush? || op.key == [] then touched
    else if op.Get? && op.key !in s.l1.items && Decoded(codec, s.backing, op.key).None? then touched
    else TouchedBy(s, touched, op)
  }

  predicate StaysWithin<T>(codec: Codec<T>, s: Store<T>, touched: set<Bytes>, ops: seq<Op<T>>)
    decreases |ops|
  {
    ops == []
    || (var touched' := TouchedBlocked(codec, s, touched, ops[0]);
        |touched'| <= s.l1.capacity && StaysWithin(codec, Step(codec, s, ops[0]).0, touched', ops[1..]))
  }

  lemma {:induction false} StepStaysBlocked<T>(codec: Codec<T>, s: Store<T>, touched: set<Bytes>, op: Op<T>)
    requires IsBlocked(s, touched) && |TouchedBlocked(codec, s, touched, op)| <= s.l1.capacity
    ensures var (t, reply) := Step(codec, s, op);
            && IsBlocked(t, TouchedBlocked(codec, s, touched, op)) && t.backing == s.backing
            && (op.Flush? ==> reply == FlushReply(false))
  {
    match op
    case Get(key) =>
      if key != [] {
        if key in s.l1.items {
          TouchingKeepsBlocked(s, touched, key);
        } else if Decoded(codec, s.backing, key).Some? {
          StoringKeepsBlocked(s, touched, key, Entry(Decoded(codec, s.backing, key), false));
        }
      }
    case Put(key, value) =>
      if key != [] {
        StoringKeepsBlocked(s, touched, key, Entry(value, true));
      }
    case Has(key) =>
      if key != [] && key in s.l1.items {
        TouchingKeepsBlocked(s, touched, key);
      }
    case Flush =>
      assert [] in DirtyEntries(s);
  }

  /** Once the empty key is dirty, every flush of every run within the bound fails, and nothing is saved. */
  lemma {:induction false} NoFlushSucceeds<T>(codec: Codec<T>, s: Store<T>, touched: set<Bytes>, ops: seq<Op<T>>)
    requires IsBlocked(s, touched) && StaysWithin(codec, s, touched, ops)
    ensures var (t, replies) := RunStore(codec, s, ops);
            && t.backing == s.backing && |replies| == |ops|
            && forall i :: 0 <= i < |ops| && ops[i].Flush? ==> replies[i] == FlushReply(false)
    decreases |ops|
  {
    if ops != [] {
      StepStaysBlocked(codec, s, touched, ops[0]);
      NoFlushSucceeds(codec, Step(codec, s, ops[0]).0, TouchedBlocked(codec, s, touched, ops[0]), ops[1..]);
    }
  }

  /** The given items are in L1 and dirty, and with `touched` they are in front. */
  ghost predicate HoldsDirty<T>(c: Lru<T>, touched: set<Bytes>, items: map<Bytes, T>, keys: set<Bytes>)
    requires keys <= items.Keys
  {
    && c.Valid() && InFront(c.order, touched)
    && forall k :: k in keys ==> k in c.items && c.items[k] == Entry(Some(items[k]), true)
  }

  lemma {:induction false} StoringHoldsDirty<T>(c: Lru<T>, touched: set<Bytes>, items: map<Bytes, T>, keys: set<Bytes>,
                                                key: Bytes)
    requires keys <= touched && keys <= items.Keys && key in items && |touched + {key}| <= c.capacity
    requires HoldsDirty(c, touched, items, keys)
    ensures HoldsDirty(Stored(c, key, Entry(Some(items[key]), true)), touched + {key}, items, keys + {key})
  {
    var entry := Entry(Some(items[key]), true);
    VictimIsUntouched(c, touched, key);
    StoredContents(c, key, entry);
    StoredOrder(c, touched, key, entry);
  }

  lemma {:induction false} LastElement(order: seq<Bytes>, touched: set<Bytes>)
    requires order != []
    ensures var n := |order| - 1;
            && Elements(order) == Elements(order[..n]) + {order[n]}
            && touched + Elements(order) == touched + Elements(order[..n]) + {order[n]}
            && |touched + Elements(order[..n])| <= |touched + Elements(order)|
  {
    var n := |order| - 1;
    assert order == order[..n] + [order[n]];
    SubsetCount(touched + Elements(order[..n]), touched + Elements(order));
  }

  /** Within the bound, everything a batch writes is in L1 and dirty. */
  lemma {:induction false} BatchIsCached<T>(s: Store<T>, touched: set<Bytes>, items: map<Bytes, T>, order: seq<Bytes>)
    requires s.l1.Valid() && InFront(s.l1.order, touched) && Elements(order) <= items.Keys
    requires |touched + Elements(order)| <= s.l1.capacity
    ensures var t := StoreAll(s, items, order);
            && t == s.(l1 := t.l1) && t.l1.capacity == s.l1.capacity
            && HoldsDirty(t.l1, touched + Elements(order), items, Elements(order))
  {
    if order == [] {
      assert touched + Elements(order) == touched;
    } else {
      var n := |order| - 1;
      var k, before := order[n], Elements(order[..n]);
      LastElement(order, touched);
      BatchIsCached(s, touched, items, order[..n]);
      StoringHoldsDirty(StoreAll(s, items, order[..n]).l1, touched + before, items, before, k);
    }
  }

  /**
   A batch of writes and a flush: within the bound, in any order of the batch, the flush goes through exactly
   when the batch has no empty key. Then the backing store holds the merged map; else the backing store is as
   before the batch, and the empty key blocks later flushes.
   */
  lemma {:induction false} BatchThenFlush<T(!new)>(codec: Codec<T>, s: Store<T>, m: map<Bytes, T>, touched: set<Bytes>,
                                            items: map<Bytes, T>, order: seq<Bytes>)
    requires IsFaithful(codec) && Tracks(codec, s, m, touched)
    requires IsOrderOf(order, items) && |touched + items.Keys| <= s.l1.capacity
    ensures var t := StoreAll(s, items, order);
            var (t', reply) := Step(codec, t, Op<T>.Flush);
            && (reply == FlushReply(true) <==> [] !in items)
            && ([] !in items ==>
                  && t'.backing.Keys == (m + items).Keys
                  && forall k :: k in m + items ==> codec.unmarshal(t'.backing[k]) == Some((m + items)[k]))
            && ([] in items ==> t' == t && t.backing == s.backing && IsBlocked(t, touched + items.Keys))
  {
    var t := StoreAll(s, items, order);
    if [] in items {
      BatchIsCached(s, touched, items, order);
      assert [] in Elements(order);
      assert [] in DirtyEntries(t);
    } else {
      SetBatchIsPlain(codec, s, m, touched, items, order);
      FlushSaves(codec, t, m + items);
    }
  }

  // ---- The methods ----

  method GetBatch<T>(s: CachedObjectStore<T>, keys: seq<Bytes>) returns (found: Option<map<Bytes, T>>)
    requires s.Valid()
    modifies s.cache.l1, s.cache.l2
    ensures found.Some? <==> !s.closed
    ensures found.None? ==> s.Contents() == old(s.Contents())
    ensures found.Some? ==>
              var (t, replies) := RunStore(s.codec, old(s.Contents()), Gets<T>(keys));
              |replies| == |keys| && s.Contents() == t && found.value == Found(keys, replies)
  {
    if s.closed {
      return None;
    }
    var result: map<Bytes, T> := map[];
    ghost var was, codec := s.Contents(), s.codec;
    ghost var replies: seq<Reply<T>> := [];
    for i := 0 to |keys|
      invariant s.closed == old(s.closed) && |replies| == i
      invariant RunStore(codec, was, Gets<T>(keys[..i])) == (s.Contents(), replies)
      invariant result == Found(keys[..i], replies)
    {
      ghost var op, before := Op<T>.Get(keys[i]), s.Contents();
      assert Gets<T>(keys[..i + 1]) == Gets<T>(keys[..i]) + [op];
      RunOneMore(codec, was, Gets<T>(keys[..i]), op);
      ghost var reply := Step(codec, before, op).1;
      assert keys[..i + 1][..i] == keys[..i] && (replies + [reply])[..i] == replies;
      replies := replies + [reply];
      if keys[i] != [] {
        var r := s.Get(keys[i]);
        if r.Ok? {
          result := result[keys[i] := r.value];
        }
      }
    }
    assert keys[..|keys|] == keys;
    return Some(result);
  }

  method SetBatch<T>(s: CachedObjectStore<T>, items: map<Bytes, T>) returns (ok: bool, ghost order: seq<Bytes>)
    requires s.Valid()
    modifies s.cache.l1
    ensures ok <==> !s.closed
    ensures !ok ==> s.Contents() == old(s.Contents())
    ensures ok ==> IsOrderOf(order, items) && s.Contents() == StoreAll(old(s.Contents()), items, order)
  {
    order := [];
    if s.closed {
      return false, order;
    }
    var remaining := items.Keys;
    while remaining != {}
      invariant remaining <= items.Keys && NoDuplicates(order) && Elements(order) == items.Keys - remaining
      invariant s.Contents() == StoreAll(old(s.Contents()), items, order)
      decreases remaining
    {
      var k :| k in remaining;
      remaining := remaining - {k};
      assert k !in Elements(order);
      assert (order + [k])[..|order|] == order && Elements(order + [k]) == Elements(order) + {k};
      s.cache.Set(k, Entry(Some(items[k]), true));
      order := order + [k];
    }
    ok := true;
  }

  method DeleteBatch<T>(s: CachedObjectStore<T>, keys: seq<Bytes>) returns (ok: bool)
    requires s.Valid()
    modifies s.cache.l1
    ensures ok <==> !s.closed
    ensures s.Contents() == if ok then RunStore(s.codec, old(s.Contents()), Deletes<T>(keys)).0 else old(s.Contents())
  {
    if s.closed {
      return false;
    }
    for i := 0 to |keys|
      invariant s.Contents() == RunStore(s.codec, old(s.Contents()), Deletes<T>(keys[..i])).0
    {
      assert Deletes<T>(keys[..i + 1]) == Deletes<T>(keys[..i]) + [Op<T>.Put(keys[i], None)];
      RunOneMore(s.codec, old(s.Contents()), Deletes<T>(keys[..i]), Op<T>.Put(keys[i], None));
      if keys[i] != [] {
        s.cache.Set(keys[i], Entry(None, true));
      }
    }
    assert keys[..|keys|] == keys;
    ok := true;
  }
}
