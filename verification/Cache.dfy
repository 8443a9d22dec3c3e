/** The LRU cache and the two-level cache (`store/cache.go`). */
module Cache {
  import opened Basics

  /** A cached value; `None` stands for a deleted one. */
  datatype Entry<+T> = Entry(value: Option<T>, dirty: bool)

  /** The cache as a value: keys from most to least recently used, and the entries. */
  datatype Lru<+T> = Lru(capacity: nat, order: seq<Bytes>, items: map<Bytes, Entry<T>>) {

    ghost predicate Valid() {
      0 < capacity && |order| <= capacity && NoDuplicates(order) && Elements(order) == items.Keys
    }

    function Full(): bool {
      |order| == capacity
    }
  }

  function Remove(order: seq<Bytes>, key: Bytes): seq<Bytes> {
    if order == [] then []
    else if order[0] == key then order[1..]
    else [order[0]] + Remove(order[1..], key)
  }

  /** `MoveToFront` */
  function ToFront(order: seq<Bytes>, key: Bytes): seq<Bytes> {
    [key] + Remove(order, key)
  }

  function Touched<T>(c: Lru<T>, key: Bytes): Lru<T> {
    if key in c.items then c.(order := ToFront(c.order, key)) else c
  }

  function Evicted<T>(c: Lru<T>): Lru<T>
    requires c.order != []
  {
    var last := c.order[|c.order| - 1];
    c.(order := c.order[..|c.order| - 1], items := c.items - {last})
  }

  /** `Set`: moves or pushes the key to the front, then evicts the last one if over capacity. */
  function Stored<T>(c: Lru<T>, key: Bytes, entry: Entry<T>): Lru<T> {
    if key in c.items then c.(order := ToFront(c.order, key), items := c.items[key := entry])
    else
      var pushed := c.(order := [key] + c.order, items := c.items[key := entry]);
      if |pushed.order| > c.capacity then Evicted(pushed) else pushed
  }

  lemma {:induction false} RemoveKeepsOthers(order: seq<Bytes>, key: Bytes)
    requires NoDuplicates(order)
    ensures NoDuplicates(Remove(order, key)) && Elements(Remove(order, key)) == Elements(order) - {key}
    ensures |Remove(order, key)| == |order| - if key in order then 1 else 0
    ensures key !in Remove(order, key)
  {
    if order != [] {
      var rest := order[1..];
      assert forall x :: x in order <==> x == order[0] || x in rest;
      if order[0] == key {
        assert key !in rest;
      } else {
        RemoveKeepsOthers(rest, key);
        var r := Remove(rest, key);
        assert forall x :: x in [order[0]] + r <==> x == order[0] || x in r;
        assert order[0] !in rest;
        forall x ensures x in r <==> x in rest && x != key {
          assert x in Elements(r) <==> x in Elements(rest) - {key};
        }
      }
    }
  }

  /** Moving a key to the front reorders, and changes nothing else. */
  lemma {:induction false} TouchedIsValid<T>(c: Lru<T>, key: Bytes)
    requires c.Valid()
    ensures Touched(c, key).Valid() && Touched(c, key).items == c.items
  {
    if key in c.items {
      assert key in Elements(c.order);
      FrontIsValid(c.order, key);
    }
  }

  lemma {:induction false} FrontIsValid(order: seq<Bytes>, key: Bytes)
    requires NoDuplicates(order) && key in order
    ensures NoDuplicates(ToFront(order, key)) && Elements(ToFront(order, key)) == Elements(order)
    ensures |ToFront(order, key)| == |order|
  {
    RemoveKeepsOthers(order, key);
    var r := Remove(order, key);
    assert forall x :: x in [key] + r <==> x == key || x in r;
    forall x ensures x in ToFront(order, key) <==> x in order {
      assert x in Elements(r) <==> x in Elements(order) - {key};
    }
  }

  /** The key that storing `key` would push out. */
  function Victim<T>(c: Lru<T>, key: Bytes): Option<Bytes> {
    if key !in c.items && c.order != [] && c.Full() then Some(c.order[|c.order| - 1]) else None
  }

  /** Storing a key writes that key and drops at most the victim. */
  lemma {:induction false} StoredContents<T>(c: Lru<T>, key: Bytes, entry: Entry<T>)
    requires c.Valid()
    ensures Stored(c, key, entry).Valid() && Stored(c, key, entry).capacity == c.capacity
    ensures var victim := Victim(c, key);
            Stored(c, key, entry).items == (if victim.Some? then c.items - {victim.value} else c.items)[key := entry]
  {
    if key in c.items {
      assert key in Elements(c.order);
      FrontIsValid(c.order, key);
    } else {
      PushedIsValid(c, key, entry);
    }
  }

  lemma {:induction false} PushedIsValid<T>(c: Lru<T>, key: Bytes, entry: Entry<T>)
    requires c.Valid() && key !in c.items
    ensures Stored(c, key, entry).Valid()
    ensures var victim := Victim(c, key);
            Stored(c, key, entry).items == (if victim.Some? then c.items - {victim.value} else c.items)[key := entry]
  {
    assert key !in Elements(c.order);
    var pushed, items := [key] + c.order, c.items[key := entry];
    assert NoDuplicates(pushed) && Elements(pushed) == items.Keys by {
      assert forall x :: x in pushed <==> x == key || x in Elements(c.order);
    }
    if |pushed| > c.capacity {
      var last := pushed[|pushed| - 1];
      assert last == c.order[|c.order| - 1] && last in c.order && last != key;
      assert items - {last} == (c.items - {last})[key := entry];
    }
  }

  function DirtyOf<T>(c: Lru<T>): map<Bytes, Entry<T>> {
    map k | k in c.items && c.items[k].dirty :: c.items[k]
  }

  function Cleaned<T>(c: Lru<T>, keys: set<Bytes>): Lru<T> {
    c.(items := map k | k in c.items :: if k in keys then c.items[k].(dirty := false) else c.items[k])
  }

  class Cache<T> {
    const capacity: nat
    var items: map<Bytes, Entry<T>>
    var order: seq<Bytes>
    var hits: nat
    var misses: nat

    constructor (capacity: int)
      ensures this.capacity == if capacity <= 0 then 1 else capacity
      ensures Contents() == Lru(this.capacity, [], map[]) && Contents().Valid()
    {
      this.capacity := if capacity <= 0 then 1 else capacity;
      items := map[];
      order := [];
      hits, misses := 0, 0;
    }

    function Contents(): Lru<T>
      reads this
    {
      Lru(capacity, order, items)
    }

    method Get(key: Bytes) returns (r: Option<Entry<T>>)
      modifies this
      ensures Contents() == Touched(old(Contents()), key)
      ensures r == if key in old(items) then Some(old(items)[key]) else None
      ensures hits + misses == old(hits) + old(misses) + 1 && hits == old(hits) + if r.Some? then 1 else 0
    {
      if key !in items {
        misses := misses + 1;
        return None;
      }
      order := ToFront(order, key);
      hits := hits + 1;
      return Some(items[key]);
    }

    method EvictLru()
      modifies this`items, this`order
      ensures Contents() == if old(order) == [] then old(Contents()) else Evicted(old(Contents()))
    {
      if order != [] {
        var last := order[|order| - 1];
        order := order[..|order| - 1];
        items := items - {last};
      }
    }

    method Set(key: Bytes, entry: Entry<T>)
      modifies this`items, this`order
      ensures Contents() == Stored(old(Contents()), key, entry)
    {
      if key in items {
        order := ToFront(order, key);
        items := items[key := entry];
        return;
      }
      order := [key] + order;
      items := items[key := entry];
      if |order| > capacity {
        EvictLru();
      }
    }

    /** Over the entries in any order. */
    method GetDirtyEntries() returns (dirty: map<Bytes, Entry<T>>)
      ensures dirty == DirtyOf(Contents())
    {
      dirty := map[];
      var remaining := items.Keys;
      while remaining != {}
        invariant remaining <= items.Keys
        invariant dirty.Keys == set k | k in items && items[k].dirty && k !in remaining
        invariant forall k :: k in dirty ==> dirty[k] == items[k]
        decreases remaining
      {
        var k :| k in remaining;
        remaining := remaining - {k};
        if items[k].dirty {
          dirty := dirty[k := items[k]];
        }
      }
    }

    /** `ClearDirtyFlag` */
    method ClearDirtyFlag(key: Bytes)
      modifies this`items
      ensures items == if key in old(items) then old(items)[key := old(items)[key].(dirty := false)] else old(items)
    {
      if key in items {
        items := items[key := items[key].(dirty := false)];
      }
    }
  }

  /** `MultiLevelCache` */
  class MultiLevelCache<T> {
    const l1: Cache<T>
    const l2: Cache<T>

    constructor (l1Size: int, l2Size: int)
      ensures fresh(l1) && fresh(l2) && l1 != l2
      ensures l1.Contents() == Lru(if l1Size <= 0 then 1 else l1Size, [], map[])
      ensures l2.Contents() == Lru(if l2Size <= 0 then 1 else l2Size, [], map[])
    {
      l1 := new Cache<T>(l1Size);
      l2 := new Cache<T>(l2Size);
    }

    /** L1, then L2 with promotion to L1. */
    method Get(key: Bytes) returns (r: Option<Entry<T>>)
      requires l1 != l2
      modifies l1, l2
      ensures var a, b := old(l1.Contents()), old(l2.Contents());
              && r == Find(a, b, key)
              && l1.Contents() == AfterFind(a, b, key)
                 && l2.Contents() == (if key in a.items then b else Touched(b, key))
    {
      r := l1.Get(key);
      if r.Some? {
        return;
      }
      r := l2.Get(key);
      if r.Some? {
        l1.Set(key, r.value);
      }
    }

    /** The dirty entries of both levels, those of L1 taking precedence. */
    method GetDirtyEntries() returns (dirty: map<Bytes, Entry<T>>)
      ensures dirty == DirtyOf(l2.Contents()) + DirtyOf(l1.Contents())
    {
      dirty := l1.GetDirtyEntries();
      var lower := l2.GetDirtyEntries();
      ghost var upper := dirty;
      var remaining := lower.Keys;
      while remaining != {}
        invariant remaining <= lower.Keys
        invariant dirty.Keys == upper.Keys + (lower.Keys - remaining)
        invariant forall k :: k in dirty ==> dirty[k] == if k in upper then upper[k] else lower[k]
        decreases remaining
      {
        var k :| k in remaining;
        remaining := remaining - {k};
        if k !in dirty {
          dirty := dirty[k := lower[k]];
        }
      }
    }

    method ClearDirtyFlags(keys: seq<Bytes>)
      requires l1 != l2
      modifies l1`items, l2`items
      ensures l1.Contents() == Cleaned(old(l1.Contents()), Elements(keys))
      ensures l2.Contents() == Cleaned(old(l2.Contents()), Elements(keys))
    {
      for i := 0 to |keys|
        invariant l1.Contents() == Cleaned(old(l1.Contents()), Elements(keys[..i]))
        invariant l2.Contents() == Cleaned(old(l2.Contents()), Elements(keys[..i]))
      {
        assert Elements(keys[..i + 1]) == Elements(keys[..i]) + {keys[i]} by {
          assert keys[..i + 1] == keys[..i] + [keys[i]];
        }
        l1.ClearDirtyFlag(keys[i]);
        l2.ClearDirtyFlag(keys[i]);
      }
      assert keys[..|keys|] == keys;
    }

    /** Writes L1 only. */
    method Set(key: Bytes, entry: Entry<T>)
      modifies l1
      ensures l1.Contents() == Stored(old(l1.Contents()), key, entry)
    {
      l1.Set(key, entry);
    }
  }

  function Find<T>(l1: Lru<T>, l2: Lru<T>, key: Bytes): Option<Entry<T>> {
    if key in l1.items then Some(l1.items[key]) else if key in l2.items then Some(l2.items[key]) else None
  }

  /** L1 after looking up a key. */
  function AfterFind<T>(l1: Lru<T>, l2: Lru<T>, key: Bytes): Lru<T> {
    if key in l1.items then Touched(l1, key)
    else if key in l2.items then Stored(l1, key, l2.items[key])
    else l1
  }
}
