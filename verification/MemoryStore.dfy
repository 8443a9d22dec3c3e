/** The in-memory backing store and its range iterator (`store/memory_store.go`). */
module MemoryStore {
  import opened Basics
  import opened Order

  datatype StoreError = InvalidKey | NotFound | Corrupt | Closed

  datatype Result<+T> = Ok(value: T) | Error(error: StoreError)

  /** Within [start, end), either bound absent. */
  predicate IsWithin(key: Bytes, start: Option<Bytes>, end: Option<Bytes>) {
    && (start.Some? ==> LessEq(start.value, key))
    && (end.Some? ==> Less(key, end.value))
  }

  ghost function KeysWithin(data: map<Bytes, Bytes>, start: Option<Bytes>, end: Option<Bytes>): set<Bytes> {
    set k | k in data && IsWithin(k, start, end)
  }

  function Reverse<T>(s: seq<T>): (r: seq<T>)
    ensures |r| == |s|
    ensures forall i :: 0 <= i < |s| ==> r[i] == s[|s| - 1 - i]
  {
    if s == [] then [] else Reverse(s[1..]) + [s[0]]
  }

  /** The entries of `data` under the given keys, in their order. */
  ghost predicate AreEntries(items: seq<(Bytes, Bytes)>, data: map<Bytes, Bytes>, keys: seq<Bytes>) {
    |items| == |keys| && forall i :: 0 <= i < |keys| ==> keys[i] in data && items[i] == (keys[i], data[keys[i]])
  }

  /** The iterator: its items, the position and the closed flag. */
  class MemoryIterator {
    var items: seq<(Bytes, Bytes)>
    var index: nat
    var closed: bool

    constructor (items: seq<(Bytes, Bytes)>)
      ensures this.items == items && index == 0 && !closed
    {
      this.items := items;
      index := 0;
      closed := false;
    }

    predicate Valid()
      reads this
    {
      !closed && index < |items|
    }

    method Next()
      modifies this
      ensures items == old(items) && closed == old(closed)
      ensures index == if old(closed) then old(index) else old(index) + 1
    {
      if !closed {
        index := index + 1;
      }
    }

    function Value(): Option<Bytes>
      reads this
    {
      if Valid() then Some(items[index].1) else None
    }
  }

  class MemoryStore {
    var data: map<Bytes, Bytes>

    constructor ()
      ensures data == map[]
    {
      data := map[];
    }

    method Get(key: Bytes) returns (r: Result<Bytes>)
      ensures r == if key == [] then Error(InvalidKey) else if key in data then Ok(data[key]) else Error(NotFound)
    {
      if key == [] {
        return Error(InvalidKey);
      }
      if key !in data {
        return Error(NotFound);
      }
      return Ok(data[key]);
    }

    method Set(key: Bytes, value: Bytes) returns (ok: bool)
      modifies this
      ensures ok <==> key != []
      ensures data == if ok then old(data)[key := value] else old(data)
    {
      if key == [] {
        return false;
      }
      data := data[key := value];
      return true;
    }

    method Delete(key: Bytes) returns (ok: bool)
      modifies this
      ensures ok <==> key != []
      ensures data == if ok then old(data) - {key} else old(data)
    {
      if key == [] {
        return false;
      }
      data := data - {key};
      return true;
    }

    method Has(key: Bytes) returns (r: Result<bool>)
      ensures r == if key == [] then Error(InvalidKey) else Ok(key in data)
    {
      if key == [] {
        return Error(InvalidKey);
      }
      return Ok(key in data);
    }

    /** The filter loop of `iterator`, over the map in any order. */
    method CollectKeys(start: Option<Bytes>, end: Option<Bytes>) returns (keys: seq<Bytes>)
      ensures NoDuplicates(keys) && Elements(keys) == KeysWithin(data, start, end)
    {
      keys := [];
      var remaining := data.Keys;
      while remaining != {}
        invariant remaining <= data.Keys && NoDuplicates(keys)
        invariant forall k :: k in keys <==> k in data && k !in remaining && IsWithin(k, start, end)
        decreases remaining
      {
        var k :| k in remaining;
        remaining := remaining - {k};
        if start.Some? && Less(k, start.value) {
          LessAsymmetric(k, start.value);
          continue;
        }
        if end.Some? && !Less(k, end.value) {
          continue;
        }
        if start.Some? {
          LessTotal(k, start.value);
        }
        assert k !in keys;
        keys := keys + [k];
      }
    }

    /** The in-place reversal of `iterator`. */
    method ReverseKeys(keys: seq<Bytes>) returns (r: seq<Bytes>)
      ensures r == Reverse(keys)
    {
      r := keys;
      var i, j := 0, |keys| - 1;
      while i < j
        invariant 0 <= i && j == |keys| - 1 - i && i <= j + 1 && |r| == |keys|
        invariant forall k :: 0 <= k < i || j < k < |keys| ==> r[k] == keys[|keys| - 1 - k]
        invariant forall k :: i <= k <= j ==> r[k] == keys[k]
      {
        r := r[i := r[j]][j := r[i]];
        i, j := i + 1, j - 1;
      }
      assert forall k :: 0 <= k < |keys| ==> r[k] == Reverse(keys)[k];
    }

    /** The copying loop of `iterator`. */
    method CopyItems(keys: seq<Bytes>) returns (items: seq<(Bytes, Bytes)>)
      requires forall i :: 0 <= i < |keys| ==> keys[i] in data
      ensures AreEntries(items, data, keys)
    {
      items := [];
      for i := 0 to |keys|
        invariant |items| == i && forall k :: 0 <= k < i ==> items[k] == (keys[k], data[keys[k]])
      {
        items := items + [(keys[i], data[keys[i]])];
      }
    }

    /**
     `iterator`: exactly the entries whose key is in the range, ascending, or descending in reverse.
     */
    method Iterator(start: Option<Bytes>, end: Option<Bytes>, reverse: bool)
      returns (it: MemoryIterator, ghost sorted: seq<Bytes>)
      ensures fresh(it) && it.index == 0 && !it.closed
      ensures Ascending(sorted) && Elements(sorted) == KeysWithin(data, start, end)
      ensures AreEntries(it.items, data, if reverse then Reverse(sorted) else sorted)
    {
      var keys := CollectKeys(start, end);
      SortDistinct(keys);
      keys := Sort(keys);
      sorted := keys;
      forall k | 0 <= k < |sorted| ensures sorted[k] in data {
        assert sorted[k] in Elements(sorted);
      }
      if reverse {
        keys := ReverseKeys(keys);
      }
      var items := CopyItems(keys);
      it := new MemoryIterator(items);
    }
  }
}
