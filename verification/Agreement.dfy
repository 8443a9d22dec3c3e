/**
 A cached store above a backing store that others write to as well: while the keys touched since the last
 flush fit in L1, nothing unsaved is evicted, and what a reader sees changes only as the operations say.
 */
module Agreement {
  import opened Basics
  import opened Codecs
  import opened Cache
  import opened CachedStore

  /** The data under the key, absent or not. */
  function DataAt(data: map<Bytes, Bytes>, k: Bytes): Option<Bytes> {
    if k in data then Some(data[k]) else None
  }

  /** The levels are in order, and L2 is not used. */
  ghost predicate IsLayered<T>(s: Store<T>) {
    s.l1.Valid() && s.l2.items == map[]
  }

  /** The backing store has what the clean entry under the key has. */
  predicate IsSavedAt<T(==)>(codec: Codec<T>, s: Store<T>, k: Bytes) {
    k in s.l1.items && !s.l1.items[k].dirty ==> s.l1.items[k].value == Decoded(codec, s.backing, k)
  }

  /**
   The touched keys are in front of L1, only they may be dirty, and clean entries under the keys that
   matter are saved.
   */
  ghost predicate Agrees<T>(codec: Codec<T>, s: Store<T>, touched: set<Bytes>, matters: Bytes -> bool) {
    && IsLayered(s) && InFront(s.l1.order, touched)
    && (forall k :: k in s.l1.items && s.l1.items[k].dirty ==> k in touched)
    && (forall k :: matters(k) ==> IsSavedAt(codec, s, k))
  }

  /** What a reader sees under the keys that matter is the same, except under one key. */
  ghost predicate SeesSame<T>(codec: Codec<T>, s: Store<T>, t: Store<T>, matters: Bytes -> bool, key: Option<Bytes>) {
    forall k :: matters(k) && Some(k) != key ==> Lookup(codec, t, k) == Lookup(codec, s, k)
  }

  /** A clean key that is pushed out is as it was below. */
  lemma {:induction false} StoringSees<T>(codec: Codec<T>, s: Store<T>, matters: Bytes -> bool, key: Bytes,
                                          entry: Entry<T>)
    requires IsLayered(s)
    requires var v := Victim(s.l1, key);
             v.Some? ==> v.value in s.l1.items && !s.l1.items[v.value].dirty
                         && (matters(v.value) ==> IsSavedAt(codec, s, v.value))
    ensures var t := s.(l1 := Stored(s.l1, key, entry));
            Lookup(codec, t, key) == entry.value && SeesSame(codec, s, t, matters, Some(key))
  {
    StoredContents(s.l1, key, entry);
  }

  lemma {:induction false} StoringSaves<T>(codec: Codec<T>, s: Store<T>, key: Bytes, entry: Entry<T>, k: Bytes)
    requires IsLayered(s) && IsSavedAt(codec, s, k) && (entry.dirty || entry.value == Decoded(codec, s.backing, key))
    ensures IsSavedAt(codec, s.(l1 := Stored(s.l1, key, entry)), k)
  {
    StoredContents(s.l1, key, entry);
  }

  lemma {:induction false} StoringAgrees<T>(codec: Codec<T>, s: Store<T>, touched: set<Bytes>, matters: Bytes -> bool,
                                            key: Bytes, entry: Entry<T>)
    requires Agrees(codec, s, touched, matters) && |touched + {key}| <= s.l1.capacity
    requires entry.dirty || entry.value == Decoded(codec, s.backing, key)
    ensures var t := s.(l1 := Stored(s.l1, key, entry));
            && Agrees(codec, t, touched + {key}, matters) && Lookup(codec, t, key) == entry.value
            && SeesSame(codec, s, t, matters, Some(key))
  {
    hide SeesSame, Lookup, IsSavedAt, Stored;
    assert Victim(s.l1, key).Some? ==> Victim(s.l1, key).value !in touched by {
      VictimIsUntouched(s.l1, touched, key);
    }
    if Victim(s.l1, key).Some? {
      VictimIsCached(s, key);
    }
    StoringSees(codec, s, matters, key, entry);
    StoredContents(s.l1, key, entry);
    StoredOrder(s.l1, touched, key, entry);
    forall k | matters(k) ensures IsSavedAt(codec, s.(l1 := Stored(s.l1, key, entry)), k) {
      StoringSaves(codec, s, key, entry, k);
    }
  }

  lemma {:induction false} TouchingAgrees<T>(codec: Codec<T>, s: Store<T>, touched: set<Bytes>, matters: Bytes -> bool,
                                             key: Bytes)
    requires Agrees(codec, s, touched, matters) && key in s.l1.items
    ensures var t := s.(l1 := Touched(s.l1, key));
            Agrees(codec, t, touched + {key}, matters) && forall k :: Lookup(codec, t, k) == Lookup(codec, s, k)
  {
    TouchedIsValid(s.l1, key);
    assert key in Elements(s.l1.order);
    FrontIsRecent(s.l1.order, key, touched);
    forall k | matters(k) ensures IsSavedAt(codec, s.(l1 := Touched(s.l1, key)), k) {
      assert IsSavedAt(codec, s, k);
    }
  }

  /** The keys among `named` that L1 was made to hold. */
  ghost predicate AgreesWithin<T>(codec: Codec<T>, s: Store<T>, named: set<Bytes>, matters: Bytes -> bool) {
    exists touched :: touched <= named && Agrees(codec, s, touched, matters)
  }

  lemma {:induction false} StoringWithin<T>(codec: Codec<T>, s: Store<T>, named: set<Bytes>, matters: Bytes -> bool,
                                            key: Bytes, entry: Entry<T>)
    requires AgreesWithin(codec, s, named, matters) && |named + {key}| <= s.l1.capacity
    requires entry.dirty || entry.value == Decoded(codec, s.backing, key)
    ensures var t := s.(l1 := Stored(s.l1, key, entry));
            && AgreesWithin(codec, t, named + {key}, matters) && Lookup(codec, t, key) == entry.value
            && SeesSame(codec, s, t, matters, Some(key))
  {
    var touched :| touched <= named && Agrees(codec, s, touched, matters);
    SubsetCount(touched + {key}, named + {key});
    StoringAgrees(codec, s, touched, matters, key, entry);
    assert Agrees(codec, s.(l1 := Stored(s.l1, key, entry)), touched + {key}, matters);
  }

  lemma {:induction false} TouchingWithin<T>(codec: Codec<T>, s: Store<T>, named: set<Bytes>, matters: Bytes -> bool,
                                             key: Bytes)
    requires AgreesWithin(codec, s, named, matters) && key in s.l1.items
    ensures var t := s.(l1 := Touched(s.l1, key));
            && AgreesWithin(codec, t, named + {key}, matters) && t.l1.items == s.l1.items
            && forall k :: Lookup(codec, t, k) == Lookup(codec, s, k)
  {
    var touched :| touched <= named && Agrees(codec, s, touched, matters);
    TouchingAgrees(codec, s, touched, matters, key);
    assert Agrees(codec, s.(l1 := Touched(s.l1, key)), touched + {key}, matters);
  }

  /** Within the bound a read changes nothing that a reader sees. */
  lemma {:induction false} GetAgrees<T>(codec: Codec<T>, s: Store<T>, named: set<Bytes>, matters: Bytes -> bool,
                                        key: Bytes)
    requires AgreesWithin(codec, s, named, matters) && |named + {key}| <= s.l1.capacity
    ensures var t := AfterGet(codec, s, key);
            && t.l1.capacity == s.l1.capacity && t.backing == s.backing
            && AgreesWithin(codec, t, named + {key}, matters) && SeesSame(codec, s, t, matters, None)
  {
    var touched :| touched <= named && Agrees(codec, s, touched, matters);
    SubsetCount(touched + {key}, named + {key});
    var t := AfterGet(codec, s, key);
    if key == [] {
      assert touched <= named + {key};
    } else if key in s.l1.items {
      TouchingWithin(codec, s, named, matters, key);
      assert t == s.(l1 := Touched(s.l1, key));
    } else if Decoded(codec, s.backing, key).Some? {
      StoringWithin(codec, s, named, matters, key, Entry(Decoded(codec, s.backing, key), false));
      assert t == s.(l1 := Stored(s.l1, key, Entry(Decoded(codec, s.backing, key), false)));
    } else {
      assert t == s;
      assert Agrees(codec, t, touched, matters) && touched <= named + {key};
    }
  }

  /** Within the bound a write changes what a reader sees under its key, and nothing else. */
  lemma {:induction false} PutAgrees<T>(codec: Codec<T>, s: Store<T>, named: set<Bytes>, matters: Bytes -> bool,
                                        key: Bytes, value: Option<T>)
    requires AgreesWithin(codec, s, named, matters) && |named + {key}| <= s.l1.capacity && key != []
    ensures var t := AfterPut(s, key, value);
            && t.l1.capacity == s.l1.capacity && t.backing == s.backing
            && AgreesWithin(codec, t, named + {key}, matters) && Lookup(codec, t, key) == value
            && SeesSame(codec, s, t, matters, Some(key))
  {
    StoringWithin(codec, s, named, matters, key, Entry(value, true));
  }

  /** A flush cleans every entry of L1, and the backing store has what was dirty. */
  lemma {:induction false} FlushAt<T(!new)>(codec: Codec<T>, s: Store<T>, k: Bytes)
    requires IsFaithful(codec) && IsLayered(s) && [] !in s.l1.items
    ensures var t := AfterFlush(codec, s);
            && (k in t.l1.items <==> k in s.l1.items)
            && (k in s.l1.items ==> t.l1.items[k] == s.l1.items[k].(dirty := false))
            && (k in s.l1.items && s.l1.items[k].dirty ==> Decoded(codec, t.backing, k) == s.l1.items[k].value)
            && (!(k in s.l1.items && s.l1.items[k].dirty) ==> DataAt(t.backing, k) == DataAt(s.backing, k))
  {
    var dirty := DirtyEntries(s);
    assert forall x :: x in dirty <==> x in s.l1.items && s.l1.items[x].dirty;
    if k in dirty && dirty[k].value.Some? {
      assert codec.unmarshal(codec.marshal(dirty[k].value.value)) == dirty[k].value;
    }
  }

  lemma {:induction false} FlushIsLayered<T>(codec: Codec<T>, s: Store<T>)
    requires IsLayered(s)
    ensures IsLayered(AfterFlush(codec, s))
    ensures AfterFlush(codec, s).l1.order == s.l1.order && AfterFlush(codec, s).l1.capacity == s.l1.capacity
    ensures AfterFlush(codec, s).l1.items.Keys == s.l1.items.Keys
  {
    assert Cleaned(s.l1, DirtyEntries(s).Keys).items.Keys == s.l1.items.Keys;
    assert Cleaned(s.l2, DirtyEntries(s).Keys).items == map[];
  }

  lemma {:induction false} FlushSees<T(!new)>(codec: Codec<T>, s: Store<T>, k: Bytes)
    requires IsFaithful(codec) && IsLayered(s) && [] !in s.l1.items
    ensures var t := AfterFlush(codec, s);
            && Lookup(codec, t, k) == Lookup(codec, s, k) && (k in t.l1.items ==> !t.l1.items[k].dirty)
            && (IsSavedAt(codec, s, k) ==> IsSavedAt(codec, t, k))
  {
    FlushIsLayered(codec, s);
    FlushAt(codec, s, k);
    hide AfterFlush;
  }

  /** A flush saves what is dirty, and changes nothing that a reader sees. */
  lemma {:induction false} FlushAgrees<T(!new)>(codec: Codec<T>, s: Store<T>, named: set<Bytes>, matters: Bytes -> bool)
    requires IsFaithful(codec) && AgreesWithin(codec, s, named, matters) && [] !in s.l1.items
    ensures AgreesWithin(codec, AfterFlush(codec, s), {}, matters)
    ensures forall k :: Lookup(codec, AfterFlush(codec, s), k) == Lookup(codec, s, k)
  {
    hide AfterFlush, Lookup, IsSavedAt, IsFaithful;
    var touched :| touched <= named && Agrees(codec, s, touched, matters);
    var t := AfterFlush(codec, s);
    FlushIsLayered(codec, s);
    forall k
      ensures Lookup(codec, t, k) == Lookup(codec, s, k)
      ensures matters(k) ==> IsSavedAt(codec, t, k)
      ensures k in t.l1.items ==> !t.l1.items[k].dirty
    {
      FlushSees(codec, s, k);
    }
    assert t.l1.order[..0] == [];
    assert Agrees(codec, t, {}, matters);
  }

  /** Others may change the backing store where L1 has no clean entry that matters. */
  lemma {:induction false} BackingAgrees<T>(codec: Codec<T>, s: Store<T>, named: set<Bytes>, matters: Bytes -> bool,
                                            data: map<Bytes, Bytes>)
    requires AgreesWithin(codec, s, named, matters)
    requires forall k :: matters(k) && k in s.l1.items && !s.l1.items[k].dirty ==>
                           DataAt(data, k) == DataAt(s.backing, k)
    ensures AgreesWithin(codec, s.(backing := data), named, matters)
  {
    var touched :| touched <= named && Agrees(codec, s, touched, matters);
    forall k | matters(k) ensures IsSavedAt(codec, s.(backing := data), k) {
      assert IsSavedAt(codec, s, k);
    }
    assert Agrees(codec, s.(backing := data), touched, matters);
  }
}
