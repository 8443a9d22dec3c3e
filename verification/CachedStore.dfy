/**
 The write-back cached object store (`store/cached_store.go`), and when it answers as the plain map it
 stands for.
 */
module CachedStore {
  import opened Basics
  import opened Order
  import opened Codecs
  import opened Cache
  import opened MemoryStore

  /** Both cache levels and the backing data. */
  datatype Store<+T> = Store(l1: Lru<T>, l2: Lru<T>, backing: map<Bytes, Bytes>)

  // ---- The operations as functions ----

  function AfterLookup<T>(s: Store<T>, key: Bytes): Store<T> {
    s.(l1 := AfterFind(s.l1, s.l2, key), l2 := if key in s.l1.items then s.l2 else Touched(s.l2, key))
  }

  function GetResult<T>(codec: Codec<T>, s: Store<T>, key: Bytes): Result<T> {
    if key == [] then Error(InvalidKey)
    else
      var found := Find(s.l1, s.l2, key);
      if found.Some? then
        if found.value.value.Some? then Ok(found.value.value.value) else Error(NotFound)
      else if key !in s.backing then Error(NotFound)
      else
        var v := codec.unmarshal(s.backing[key]);
        if v.Some? then Ok(v.value) else Error(Corrupt)
  }

  function AfterGet<T>(codec: Codec<T>, s: Store<T>, key: Bytes): Store<T> {
    if key == [] then s
    else
      var s' := AfterLookup(s, key);
      if Find(s.l1, s.l2, key).None? && Decoded(codec, s.backing, key).Some? then
        s'.(l1 := Stored(s'.l1, key, Entry(Decoded(codec, s.backing, key), false)))
      else s'
  }

  /** `Set` with a value, `Delete` with none: both only write L1. */
  function AfterPut<T>(s: Store<T>, key: Bytes, value: Option<T>): Store<T> {
    if key == [] then s else s.(l1 := Stored(s.l1, key, Entry(value, true)))
  }

  function HasResult<T>(s: Store<T>, key: Bytes): Result<bool> {
    if key == [] then Error(InvalidKey)
    else
      var found := Find(s.l1, s.l2, key);
      if found.Some? then Ok(found.value.value.Some?) else Ok(key in s.backing)
  }

  function AfterHas<T>(s: Store<T>, key: Bytes): Store<T> {
    if key == [] then s else AfterLookup(s, key)
  }

  /** The dirty entries, those of L1 taking precedence. */
  function DirtyEntries<T>(s: Store<T>): map<Bytes, Entry<T>> {
    DirtyOf(s.l2) + DirtyOf(s.l1)
  }

  /** The backing data after writing the given dirty entries. */
  function Written<T>(codec: Codec<T>, backing: map<Bytes, Bytes>, dirty: map<Bytes, Entry<T>>): map<Bytes, Bytes> {
    map k | k in backing.Keys + dirty.Keys && (k in dirty ==> dirty[k].value.Some?) ::
      if k in dirty then codec.marshal(dirty[k].value.value) else backing[k]
  }

  /** `Flush`: fails, changing nothing, exactly when the empty key is dirty. */
  function AfterFlush<T>(codec: Codec<T>, s: Store<T>): Store<T> {
    var dirty := DirtyEntries(s);
    if [] in dirty then s
    else Store(Cleaned(s.l1, dirty.Keys), Cleaned(s.l2, dirty.Keys), Written(codec, s.backing, dirty))
  }

  // ---- What a store stands for ----

  /** What the caller sees under a key. */
  function Lookup<T>(codec: Codec<T>, s: Store<T>, key: Bytes): Option<T> {
    var found := Find(s.l1, s.l2, key);
    if found.Some? then found.value.value else Decoded(codec, s.backing, key)
  }

  function PlainLookup<T>(m: map<Bytes, T>, key: Bytes): Option<T> {
    if key in m then Some(m[key]) else None
  }

  function PlainPut<T>(m: map<Bytes, T>, key: Bytes, value: Option<T>): map<Bytes, T> {
    if value.Some? then m[key := value.value] else m - {key}
  }

  ghost predicate Represents<T>(codec: Codec<T>, s: Store<T>, m: map<Bytes, T>) {
    forall k :: Lookup(codec, s, k) == PlainLookup(m, k)
  }

  /** Valid levels, L2 never used, decodable backing data, clean entries equal to the backing data. */
  ghost predicate IsConsistent<T>(codec: Codec<T>, s: Store<T>) {
    && s.l1.Valid() && s.l2.Valid() && s.l2.items == map[] && [] !in s.l1.items && [] !in s.backing
    && (forall k :: k in s.backing ==> codec.unmarshal(s.backing[k]).Some?)
    && (forall k :: k in s.l1.items && !s.l1.items[k].dirty ==> s.l1.items[k].value == Decoded(codec, s.backing, k))
  }

  /** Storing `key` pushes nothing out of L1 that the backing store does not have. */
  predicate LosesNothing<T(==)>(codec: Codec<T>, s: Store<T>, key: Bytes) {
    var victim := Victim(s.l1, key);
    victim.Some? && victim.value in s.l1.items ==>
      s.l1.items[victim.value].value == Decoded(codec, s.backing, victim.value)
  }

  lemma {:induction false} VictimIsCached<T>(s: Store<T>, key: Bytes)
    requires s.l1.Valid() && Victim(s.l1, key).Some?
    ensures Victim(s.l1, key).value in s.l1.items && Victim(s.l1, key).value != key
  {
    assert s.l1.order[|s.l1.order| - 1] in Elements(s.l1.order);
  }

  /** After storing into L1: the key has the new value, the victim that of the backing store. */
  lemma {:induction false} StoringMeaning<T>(codec: Codec<T>, s: Store<T>, key: Bytes, entry: Entry<T>, k: Bytes)
    requires IsConsistent(codec, s)
    ensures var s' := s.(l1 := Stored(s.l1, key, entry));
            Lookup(codec, s', k) == if k == key then entry.value
                                    else if Some(k) == Victim(s.l1, key) then Decoded(codec, s.backing, k)
                                    else Lookup(codec, s, k)
  {
    StoredContents(s.l1, key, entry);
    if Victim(s.l1, key).Some? {
      VictimIsCached(s, key);
    }
  }

  lemma {:induction false} StoringIsConsistent<T>(codec: Codec<T>, s: Store<T>, key: Bytes, entry: Entry<T>)
    requires IsConsistent(codec, s) && key != []
    requires !entry.dirty ==> entry.value == Decoded(codec, s.backing, key)
    ensures IsConsistent(codec, s.(l1 := Stored(s.l1, key, entry)))
  {
    StoredContents(s.l1, key, entry);
  }

  /** A write acts as on the plain map if and only if nothing unsaved is pushed out. */
  lemma {:induction false} PutIsPlainIff<T>(codec: Codec<T>, s: Store<T>, m: map<Bytes, T>, key: Bytes,
                                            value: Option<T>)
    requires IsConsistent(codec, s) && Represents(codec, s, m) && key != []
    ensures IsConsistent(codec, AfterPut(s, key, value))
    ensures Represents(codec, AfterPut(s, key, value), PlainPut(m, key, value)) <==> LosesNothing(codec, s, key)
  {
    var s', m' := AfterPut(s, key, value), PlainPut(m, key, value);
    StoringIsConsistent(codec, s, key, Entry(value, true));
    forall k
      ensures Lookup(codec, s', k) == PlainLookup(m', k)
              <==> (Some(k) == Victim(s.l1, key) ==> LosesNothing(codec, s, key))
    {
      StoringMeaning(codec, s, key, Entry(value, true), k);
      assert Lookup(codec, s, k) == PlainLookup(m, k);
      if Victim(s.l1, key).Some? {
        VictimIsCached(s, key);
      }
    }
    if Victim(s.l1, key).Some? && Represents(codec, s', m') {
      var v := Victim(s.l1, key).value;
      assert Lookup(codec, s', v) == PlainLookup(m', v);
    }
  }

  /** A lookup answers as the plain map. */
  lemma {:induction false} AnswersArePlain<T>(codec: Codec<T>, s: Store<T>, m: map<Bytes, T>, key: Bytes)
    requires IsConsistent(codec, s) && Represents(codec, s, m) && key != []
    ensures GetResult(codec, s, key) == if key in m then Ok(m[key]) else Error(NotFound)
    ensures HasResult(s, key) == Ok(key in m)
  {
    assert Lookup(codec, s, key) == PlainLookup(m, key);
  }

  /** A miss that finds its key in the backing store also stores into L1. */
  predicate GetStores<T>(s: Store<T>, key: Bytes) {
    key !in s.l1.items && key in s.backing
  }

  /** A read leaves the plain map as it is if and only if nothing unsaved is pushed out. */
  lemma {:induction false} GetIsPlainIff<T>(codec: Codec<T>, s: Store<T>, m: map<Bytes, T>, key: Bytes)
    requires IsConsistent(codec, s) && Represents(codec, s, m) && key != []
    ensures IsConsistent(codec, AfterGet(codec, s, key))
    ensures Represents(codec, AfterGet(codec, s, key), m)
            <==> (GetStores(s, key) ==> LosesNothing(codec, s, key))
  {
    TouchedIsValid(s.l1, key);
    if GetStores(s, key) {
      var value := Decoded(codec, s.backing, key);
      assert Lookup(codec, s, key) == value;
      var s' := AfterGet(codec, s, key);
      assert s' == s.(l1 := Stored(s.l1, key, Entry(value, false)));
      StoringIsConsistent(codec, s, key, Entry(value, false));
      forall k
        ensures Lookup(codec, s', k) == PlainLookup(m, k)
                <==> (Some(k) == Victim(s.l1, key) ==> LosesNothing(codec, s, key))
      {
        StoringMeaning(codec, s, key, Entry(value, false), k);
        assert Lookup(codec, s, k) == PlainLookup(m, k);
        if Victim(s.l1, key).Some? {
          VictimIsCached(s, key);
        }
      }
      if Victim(s.l1, key).Some? && Represents(codec, s', m) {
        var v := Victim(s.l1, key).value;
        assert Lookup(codec, s', v) == PlainLookup(m, v);
      }
    } else {
      TouchKeepsMeaning(codec, s, m, key);
    }
  }

  lemma {:induction false} TouchKeepsMeaning<T>(codec: Codec<T>, s: Store<T>, m: map<Bytes, T>, key: Bytes)
    requires IsConsistent(codec, s) && Represents(codec, s, m)
    ensures IsConsistent(codec, AfterLookup(s, key)) && Represents(codec, AfterLookup(s, key), m)
    ensures AfterLookup(s, key) == s.(l1 := Touched(s.l1, key))
  {
    TouchedIsValid(s.l1, key);
    forall k ensures Lookup(codec, AfterLookup(s, key), k) == PlainLookup(m, k) {
      assert Lookup(codec, s, k) == PlainLookup(m, k);
    }
  }

  /** What is dirty is written; what is clean was already there. */
  lemma {:induction false} FlushWrites<T(!new)>(codec: Codec<T>, s: Store<T>, k: Bytes)
    requires IsFaithful(codec) && IsConsistent(codec, s)
    ensures Decoded(codec, Written(codec, s.backing, DirtyEntries(s)), k) == Lookup(codec, s, k)
    ensures k in Written(codec, s.backing, DirtyEntries(s)) <==> Lookup(codec, s, k).Some?
  {
    var dirty := DirtyEntries(s);
    assert k in dirty <==> k in s.l1.items && s.l1.items[k].dirty;
    if k in dirty && dirty[k].value.Some? {
      assert codec.unmarshal(codec.marshal(dirty[k].value.value)) == dirty[k].value;
    }
  }

  lemma {:induction false} FlushIsConsistent<T(!new)>(codec: Codec<T>, s: Store<T>)
    requires IsFaithful(codec) && IsConsistent(codec, s)
    ensures IsConsistent(codec, AfterFlush(codec, s))
    ensures forall k :: k in AfterFlush(codec, s).l1.items ==> !AfterFlush(codec, s).l1.items[k].dirty
    ensures forall k :: Lookup(codec, AfterFlush(codec, s), k) == Lookup(codec, s, k)
  {
    var s', dirty := AfterFlush(codec, s), DirtyEntries(s);
    assert forall k :: k in dirty <==> k in s.l1.items && s.l1.items[k].dirty;
    assert s'.l2.items == map[];
    forall k ensures Lookup(codec, s', k) == Lookup(codec, s, k) == Decoded(codec, s'.backing, k) {
      FlushWrites(codec, s, k);
    }
    forall k | k in s'.backing ensures codec.unmarshal(s'.backing[k]).Some? {
      FlushWrites(codec, s, k);
    }
    forall k | k in s'.l1.items ensures s'.l1.items[k].value == Decoded(codec, s'.backing, k) {
      FlushWrites(codec, s, k);
    }
  }

  /** Flushing saves everything: the plain map is unchanged, and the backing store now holds it. */
  lemma {:induction false} FlushSaves<T(!new)>(codec: Codec<T>, s: Store<T>, m: map<Bytes, T>)
    requires IsFaithful(codec) && IsConsistent(codec, s) && Represents(codec, s, m)
    ensures [] !in DirtyEntries(s)
    ensures var s' := AfterFlush(codec, s);
            && Represents(codec, s', m)
            && s'.backing.Keys == m.Keys && (forall k :: k in m ==> codec.unmarshal(s'.backing[k]) == Some(m[k]))
  {
    var s' := AfterFlush(codec, s);
    FlushIsConsistent(codec, s);
    forall k
      ensures Lookup(codec, s', k) == PlainLookup(m, k) == Decoded(codec, s'.backing, k)
      ensures k in s'.backing <==> k in m
    {
      FlushWrites(codec, s, k);
      assert Lookup(codec, s, k) == PlainLookup(m, k);
    }
  }

  // ---- Recency: what was touched since the last flush is still in L1 ----

  /** The touched keys are the most recently used ones, and only they may be dirty. */
  ghost predicate IsRecent<T>(c: Lru<T>, touched: set<Bytes>) {
    && |touched| <= |c.order| && Elements(c.order[..|touched|]) == touched
    && (forall k :: k in c.items && c.items[k].dirty ==> k in touched)
  }

  lemma {:induction false} RemovePrefix(order: seq<Bytes>, key: Bytes, n: nat)
    requires NoDuplicates(order) && key in order && n <= |order|
    ensures key in order[..n] ==>
            n > 0 && n - 1 <= |Remove(order, key)| && Remove(order, key)[..n - 1] == Remove(order[..n], key)
    ensures key !in order[..n] ==> n <= |Remove(order, key)| && Remove(order, key)[..n] == order[..n]
  {
    RemoveKeepsOthers(order, key);
    if n > 0 && order[0] != key {
      var rest := order[1..];
      assert order[..n][1..] == rest[..n - 1];
      assert forall x :: x in order[..n] <==> x == order[0] || x in rest[..n - 1];
      assert key in rest;
      RemovePrefix(rest, key, n - 1);
      RemoveKeepsOthers(rest, key);
    } else if n > 0 {
      assert order[..n][1..] == order[1..n];
    }
  }

  /** Moving one of the first `n` keys to the front permutes them. */
  lemma {:induction false} FrontPermutes(order: seq<Bytes>, key: Bytes, n: nat)
    requires NoDuplicates(order) && n <= |order| && key in order[..n]
    ensures |ToFront(order, key)| == |order| && Elements(ToFront(order, key)[..n]) == Elements(order[..n])
  {
    assert key in order;
    RemoveKeepsOthers(order, key);
    RemovePrefix(order, key, n);
    RemoveKeepsOthers(order[..n], key);
    var r := Remove(order[..n], key);
    assert ToFront(order, key)[..n] == [key] + r;
    assert forall x :: x in [key] + r <==> x == key || x in Elements(r);
  }

  /** Moving a later key to the front adds it to them. */
  lemma {:induction false} FrontAdds(order: seq<Bytes>, key: Bytes, n: nat)
    requires NoDuplicates(order) && n <= |order| && key in order && key !in order[..n]
    ensures |ToFront(order, key)| == |order| && n < |order| && ToFront(order, key)[..n + 1] == [key] + order[..n]
  {
    RemoveKeepsOthers(order, key);
    RemovePrefix(order, key, n);
    assert order[..|order|] == order;
  }

  lemma {:induction false} FrontIsRecent(order: seq<Bytes>, key: Bytes, touched: set<Bytes>)
    requires NoDuplicates(order) && key in order && |touched| <= |order| && Elements(order[..|touched|]) == touched
    ensures var touched', order' := touched + {key}, ToFront(order, key);
            |touched'| <= |order'| && Elements(order'[..|touched'|]) == touched'
  {
    FrontIsValid(order, key);
    assert key in touched <==> key in order[..|touched|];
    if key in touched {
      FrontPermutes(order, key, |touched|);
      assert touched + {key} == touched;
    } else {
      FrontAdds(order, key, |touched|);
    }
  }

  lemma {:induction false} PushIsRecent(order: seq<Bytes>, key: Bytes, touched: set<Bytes>)
    requires key !in order && |touched| <= |order| && Elements(order[..|touched|]) == touched
    ensures |touched + {key}| == |touched| + 1
    ensures ([key] + order)[..|touched| + 1] == [key] + order[..|touched|]
    ensures Elements([key] + order[..|touched|]) == touched + {key}
  {
    assert key !in Elements(order[..|touched|]);
  }

  /** Within the bound, storing pushes out only clean entries. */
  lemma {:induction false} StoringLosesNothing<T>(codec: Codec<T>, s: Store<T>, touched: set<Bytes>, key: Bytes)
    requires IsConsistent(codec, s) && IsRecent(s.l1, touched) && |touched + {key}| <= s.l1.capacity
    ensures LosesNothing(codec, s, key)
  {
    if Victim(s.l1, key).Some? {
      assert key !in Elements(s.l1.order);
      PushIsRecent(s.l1.order, key, touched);
    }
  }

  /** Pushing a key and then cutting the list to `m` keys keeps the touched ones in front. */
  lemma {:induction false} PushedAndCut(order: seq<Bytes>, key: Bytes, touched: set<Bytes>, m: nat)
    requires key !in order && |touched| <= |order| && Elements(order[..|touched|]) == touched
    requires |touched + {key}| <= m <= |order| + 1
    ensures Elements(([key] + order)[..m][..|touched + {key}|]) == touched + {key}
  {
    PushIsRecent(order, key, touched);
    assert ([key] + order)[..m][..|touched| + 1] == ([key] + order)[..|touched| + 1];
  }

  /** The touched keys are in front of the list. */
  ghost predicate InFront(order: seq<Bytes>, touched: set<Bytes>) {
    |touched| <= |order| && Elements(order[..|touched|]) == touched
  }

  lemma {:induction false} PushedOrder<T>(c: Lru<T>, touched: set<Bytes>, key: Bytes, entry: Entry<T>)
    requires key !in c.items && key !in c.order && |c.order| <= c.capacity
    requires InFront(c.order, touched) && |touched + {key}| <= c.capacity
    ensures InFront(Stored(c, key, entry).order, touched + {key})
  {
    PushIsRecent(c.order, key, touched);
    var pushed := [key] + c.order;
    var m := if |pushed| > c.capacity then |pushed| - 1 else |pushed|;
    PushedAndCut(c.order, key, touched, m);
    assert pushed[..|pushed|] == pushed;
    assert Stored(c, key, entry).order == pushed[..m];
  }

  lemma {:induction false} StoredOrder<T>(c: Lru<T>, touched: set<Bytes>, key: Bytes, entry: Entry<T>)
    requires c.Valid() && InFront(c.order, touched) && |touched + {key}| <= c.capacity
    ensures InFront(Stored(c, key, entry).order, touched + {key})
  {
    assert key in c.items <==> key in Elements(c.order);
    if key in c.items {
      FrontIsRecent(c.order, key, touched);
    } else {
      PushedOrder(c, touched, key, entry);
    }
  }

  /** Within the bound, storing keeps the touched keys in front. */
  lemma {:induction false} StoringIsRecent<T>(c: Lru<T>, touched: set<Bytes>, key: Bytes, entry: Entry<T>)
    requires c.Valid() && IsRecent(c, touched) && |touched + {key}| <= c.capacity
    ensures IsRecent(Stored(c, key, entry), touched + {key})
  {
    StoredContents(c, key, entry);
    StoredOrder(c, touched, key, entry);
  }

  lemma {:induction false} TouchingIsRecent<T>(c: Lru<T>, touched: set<Bytes>, key: Bytes)
    requires c.Valid() && IsRecent(c, touched) && key in c.items
    ensures IsRecent(Touched(c, key), touched + {key})
  {
    assert key in Elements(c.order);
    FrontIsRecent(c.order, key, touched);
  }

  /** Within the bound storing a key pushes no touched key out. */
  lemma {:induction false} VictimIsUntouched<T>(c: Lru<T>, touched: set<Bytes>, key: Bytes)
    requires c.Valid() && InFront(c.order, touched) && |touched + {key}| <= c.capacity
    ensures Victim(c, key).Some? ==> Victim(c, key).value !in touched
  {
    if Victim(c, key).Some? {
      assert key !in Elements(c.order);
      PushIsRecent(c.order, key, touched);
      assert c.order[|c.order| - 1] !in c.order[..|touched|];
    }
  }

  // ---- Whole runs ----

  datatype Op<+T> = Get(key: Bytes) | Put(key: Bytes, value: Option<T>) | Has(key: Bytes) | Flush

  datatype Reply<+T> =
    | GetReply(got: Result<T>) | PutReply(stored: bool) | HasReply(has: Result<bool>) | FlushReply(flushed: bool)

  function Step<T>(codec: Codec<T>, s: Store<T>, op: Op<T>): (Store<T>, Reply<T>) {
    match op
    case Get(key) => (AfterGet(codec, s, key), GetReply(GetResult(codec, s, key)))
    case Put(key, value) => (AfterPut(s, key, value), PutReply(key != []))
    case Has(key) => (AfterHas(s, key), HasReply(HasResult(s, key)))
    case Flush => (AfterFlush(codec, s), FlushReply([] !in DirtyEntries(s)))
  }

  /** The same operation on a plain map. */
  function PlainStep<T>(m: map<Bytes, T>, op: Op<T>): (map<Bytes, T>, Reply<T>) {
    match op
    case Get(key) =>
      (m, GetReply(if key == [] then Error(InvalidKey) else if key in m then Ok(m[key]) else Error(NotFound)))
    case Put(key, value) => (if key == [] then m else PlainPut(m, key, value), PutReply(key != []))
    case Has(key) => (m, HasReply(if key == [] then Error(InvalidKey) else Ok(key in m)))
    case Flush => (m, FlushReply(true))
  }

  function RunStore<T>(codec: Codec<T>, s: Store<T>, ops: seq<Op<T>>): (Store<T>, seq<Reply<T>>)
    decreases |ops|
  {
    if ops == [] then (s, [])
    else
      var (s', reply) := Step(codec, s, ops[0]);
      var (s'', replies) := RunStore(codec, s', ops[1..]);
      (s'', [reply] + replies)
  }

  function RunPlain<T>(m: map<Bytes, T>, ops: seq<Op<T>>): (map<Bytes, T>, seq<Reply<T>>)
    decreases |ops|
  {
    if ops == [] then (m, [])
    else
      var (m', reply) := PlainStep(m, ops[0]);
      var (m'', replies) := RunPlain(m', ops[1..]);
      (m'', [reply] + replies)
  }

  /** The keys touched in L1 since the last flush, after one more operation. */
  function TouchedBy<T>(s: Store<T>, touched: set<Bytes>, op: Op<T>): set<Bytes> {
    match op
    case Get(key) => if key in s.l1.items || key in s.backing then touched + {key} else touched
    case Put(key, _) => if key == [] then touched else touched + {key}
    case Has(key) => if key in s.l1.items then touched + {key} else touched
    case Flush => {}
  }

  /** Between two flushes never more distinct keys are touched in L1 than it has room for. */
  predicate WithinBound<T>(codec: Codec<T>, s: Store<T>, touched: set<Bytes>, ops: seq<Op<T>>)
    decreases |ops|
  {
    ops == []
    || (var touched' := TouchedBy(s, touched, ops[0]);
        |touched'| <= s.l1.capacity && WithinBound(codec, Step(codec, s, ops[0]).0, touched', ops[1..]))
  }

  /** What holds of a store standing for `m`, with `touched` touched since the last flush. */
  ghost predicate Tracks<T>(codec: Codec<T>, s: Store<T>, m: map<Bytes, T>, touched: set<Bytes>) {
    IsConsistent(codec, s) && Represents(codec, s, m) && IsRecent(s.l1, touched)
  }

  lemma {:induction false} GetTracks<T>(codec: Codec<T>, s: Store<T>, m: map<Bytes, T>, touched: set<Bytes>, key: Bytes)
    requires Tracks(codec, s, m, touched) && key != []
    requires |TouchedBy(s, touched, Op<T>.Get(key))| <= s.l1.capacity
    ensures AfterGet(codec, s, key).l1.capacity == s.l1.capacity
    ensures Tracks(codec, AfterGet(codec, s, key), m, TouchedBy(s, touched, Op<T>.Get(key)))
  {
    GetIsPlainIff(codec, s, m, key);
    TouchKeepsMeaning(codec, s, m, key);
    if key in s.l1.items {
      TouchingIsRecent(s.l1, touched, key);
    } else if key in s.backing {
      StoringLosesNothing(codec, s, touched, key);
      StoringIsRecent(s.l1, touched, key, Entry(Decoded(codec, s.backing, key), false));
    }
  }

  lemma {:induction false} PutTracks<T>(codec: Codec<T>, s: Store<T>, m: map<Bytes, T>, touched: set<Bytes>, key: Bytes,
                                        value: Option<T>)
    requires Tracks(codec, s, m, touched) && key != [] && |touched + {key}| <= s.l1.capacity
    ensures Tracks(codec, AfterPut(s, key, value), PlainPut(m, key, value), touched + {key})
  {
    StoringLosesNothing(codec, s, touched, key);
    StoringIsRecent(s.l1, touched, key, Entry(value, true));
    PutIsPlainIff(codec, s, m, key, value);
  }

  lemma {:induction false} HasTracks<T>(codec: Codec<T>, s: Store<T>, m: map<Bytes, T>, touched: set<Bytes>, key: Bytes)
    requires Tracks(codec, s, m, touched) && key != []
    ensures Tracks(codec, AfterHas(s, key), m, TouchedBy(s, touched, Op<T>.Has(key)))
  {
    TouchKeepsMeaning(codec, s, m, key);
    if key in s.l1.items {
      TouchingIsRecent(s.l1, touched, key);
    }
  }

  lemma {:induction false} FlushTracks<T(!new)>(codec: Codec<T>, s: Store<T>, m: map<Bytes, T>)
    requires IsFaithful(codec) && IsConsistent(codec, s) && Represents(codec, s, m)
    ensures [] !in DirtyEntries(s) && Tracks(codec, AfterFlush(codec, s), m, {})
  {
    FlushIsConsistent(codec, s);
    FlushSaves(codec, s, m);
    assert AfterFlush(codec, s).l1.order[..0] == [];
  }

  /** One operation within the bound: the plain map's answer, and the store still stands for it. */
  lemma {:induction false} StepTracks<T(!new)>(codec: Codec<T>, s: Store<T>, m: map<Bytes, T>, touched: set<Bytes>,
                                        op: Op<T>)
    requires IsFaithful(codec) && Tracks(codec, s, m, touched)
    requires |TouchedBy(s, touched, op)| <= s.l1.capacity
    ensures Step(codec, s, op).1 == PlainStep(m, op).1
    ensures Tracks(codec, Step(codec, s, op).0, PlainStep(m, op).0, TouchedBy(s, touched, op))
  {
    match op
    case Get(key) =>
      if key != [] {
        AnswersArePlain(codec, s, m, key);
        GetTracks(codec, s, m, touched, key);
      }
    case Put(key, value) =>
      if key != [] {
        PutTracks(codec, s, m, touched, key, value);
      }
    case Has(key) =>
      if key != [] {
        AnswersArePlain(codec, s, m, key);
        HasTracks(codec, s, m, touched, key);
      }
    case Flush =>
      FlushTracks(codec, s, m);
  }

  /**
   Refinement over whole runs. Within the recency bound every operation answers as the plain map with
   the same history would, and the store goes on standing for that map.
   */
  lemma {:induction false} RunRefinesPlainMap<T(!new)>(codec: Codec<T>, s: Store<T>, m: map<Bytes, T>,
      touched: set<Bytes>, ops: seq<Op<T>>)
    requires IsFaithful(codec) && Tracks(codec, s, m, touched) && WithinBound(codec, s, touched, ops)
    ensures RunStore(codec, s, ops).1 == RunPlain(m, ops).1
    ensures IsConsistent(codec, RunStore(codec, s, ops).0)
    ensures Represents(codec, RunStore(codec, s, ops).0, RunPlain(m, ops).0)
    decreases |ops|
  {
    if ops != [] {
      StepTracks(codec, s, m, touched, ops[0]);
      RunRefinesPlainMap(codec, Step(codec, s, ops[0]).0, PlainStep(m, ops[0]).0, TouchedBy(s, touched, ops[0]),
                         ops[1..]);
    }
  }

  /** A store just opened over decodable data. */
  ghost predicate IsFresh<T>(codec: Codec<T>, s: Store<T>, m: map<Bytes, T>) {
    && 0 < s.l1.capacity && s.l1.order == [] && s.l1.items == map[]
    && 0 < s.l2.capacity && s.l2.order == [] && s.l2.items == map[]
    && [] !in s.backing && s.backing.Keys == m.Keys
    && (forall k :: k in m ==> codec.unmarshal(s.backing[k]) == Some(m[k]))
  }

  /**
   From opening a store on: within the bound, every answer is the plain map's, and a flush at the end
   leaves exactly that map in the backing store.
   */
  lemma {:induction false} FlushAfterRunSavesPlainMap<T(!new)>(codec: Codec<T>, s: Store<T>, m: map<Bytes, T>,
      ops: seq<Op<T>>)
    requires IsFaithful(codec) && IsFresh(codec, s, m) && WithinBound(codec, s, {}, ops)
    ensures RunStore(codec, s, ops).1 == RunPlain(m, ops).1
    ensures var backing, final := AfterFlush(codec, RunStore(codec, s, ops).0).backing, RunPlain(m, ops).0;
            backing.Keys == final.Keys && forall k :: k in final ==> codec.unmarshal(backing[k]) == Some(final[k])
  {
    assert s.l1.order[..0] == [];
    assert Tracks(codec, s, m, {});
    RunRefinesPlainMap(codec, s, m, {}, ops);
    FlushSaves(codec, RunStore(codec, s, ops).0, RunPlain(m, ops).0);
  }

  // ---- The bound is tight ----

  function PutAll<T>(s: Store<T>, keys: seq<Bytes>, value: T): Store<T> {
    if keys == [] then s
    else AfterPut(PutAll(s, keys[..|keys| - 1], value), keys[|keys| - 1], Some(value))
  }

  lemma {:induction false} FillsUp<T>(s: Store<T>, keys: seq<Bytes>, value: T)
    requires s.l1.order == [] && s.l1.items == map[] && |keys| <= s.l1.capacity
    requires NoDuplicates(keys) && [] !in keys
    ensures var s' := PutAll(s, keys, value);
            && s'.l1.capacity == s.l1.capacity && s'.l2 == s.l2 && s'.backing == s.backing
            && s'.l1.order == Reverse(keys) && s'.l1.items.Keys == Elements(keys)
  {
    if keys != [] {
      var n := |keys| - 1;
      FillsUp(s, keys[..n], value);
      assert keys == keys[..n] + [keys[n]];
      assert keys[n] !in Elements(keys[..n]);
      assert [keys[n]] + Reverse(keys[..n]) == Reverse(keys);
    }
  }

  /** One key more than L1 has room for, written without a flush, and the first write is gone. */
  lemma {:induction false} BoundIsTight<T>(codec: Codec<T>, s: Store<T>, keys: seq<Bytes>, value: T)
    requires IsFresh(codec, s, map[]) && |keys| == s.l1.capacity + 1
    requires NoDuplicates(keys) && [] !in keys
    ensures GetResult(codec, PutAll(s, keys, value), keys[0]) == Error(NotFound)
  {
    var n := |keys| - 1;
    var full := PutAll(s, keys[..n], value);
    FullButOne(s, keys, value);
  }

  lemma {:induction false} FullButOne<T>(s: Store<T>, keys: seq<Bytes>, value: T)
    requires s.l1.order == [] && s.l1.items == map[] && |keys| == s.l1.capacity + 1 > 1
    requires NoDuplicates(keys) && [] !in keys
    ensures var n := |keys| - 1;
            var full := PutAll(s, keys[..n], value);
            && keys[0] != [] && keys[n] != []
            && full.l1.capacity == |full.l1.order| == n && full.l2 == s.l2 && full.backing == s.backing
            && full.l1.order[n - 1] == keys[0] && keys[n] !in full.l1.items
  {
    var n := |keys| - 1;
    FillsUp(s, keys[..n], value);
    assert keys[n] !in Elements(keys[..n]);
    assert keys[0] in keys && keys[n] in keys;
  }

  // ---- The store as an object ----

  /** The entries among `keys`. */
  function Among<T>(dirty: map<Bytes, Entry<T>>, keys: set<Bytes>): map<Bytes, Entry<T>> {
    map k | k in dirty && k in keys :: dirty[k]
  }

  lemma {:induction false} WrittenOne<T>(codec: Codec<T>, backing: map<Bytes, Bytes>, dirty: map<Bytes, Entry<T>>,
                                         keys: set<Bytes>, k: Bytes)
    requires k in dirty && k !in keys
    ensures var before := Written(codec, backing, Among(dirty, keys));
            Written(codec, backing, Among(dirty, keys + {k}))
            == if dirty[k].value.Some? then before[k := codec.marshal(dirty[k].value.value)] else before - {k}
  {
  }

  /** The backing data after writing the first `i` keys. */
  ghost function WrittenUpTo<T>(codec: Codec<T>, backing: map<Bytes, Bytes>, dirty: map<Bytes, Entry<T>>,
                                keys: seq<Bytes>, i: nat): map<Bytes, Bytes>
    requires i <= |keys|
  {
    Written(codec, backing, Among(dirty, Elements(keys[..i])))
  }

  lemma {:induction false} WrittenStep<T>(codec: Codec<T>, backing: map<Bytes, Bytes>, dirty: map<Bytes, Entry<T>>,
                                          keys: seq<Bytes>, i: nat)
    requires Ascending(keys) && i < |keys| && keys[i] in dirty
    ensures var before, k := WrittenUpTo(codec, backing, dirty, keys, i), keys[i];
            WrittenUpTo(codec, backing, dirty, keys, i + 1)
            == if dirty[k].value.Some? then before[k := codec.marshal(dirty[k].value.value)] else before - {k}
  {
    AscendingDistinct(keys);
    assert keys[i] !in Elements(keys[..i]);
    assert keys[..i + 1] == keys[..i] + [keys[i]];
    assert Elements(keys[..i + 1]) == Elements(keys[..i]) + {keys[i]};
    WrittenOne(codec, backing, dirty, Elements(keys[..i]), keys[i]);
  }

  lemma {:induction false} WrittenNoneOrAll<T>(codec: Codec<T>, backing: map<Bytes, Bytes>, dirty: map<Bytes, Entry<T>>,
      keys: seq<Bytes>)
    requires Elements(keys) == dirty.Keys
    ensures WrittenUpTo(codec, backing, dirty, keys, 0) == backing
    ensures WrittenUpTo(codec, backing, dirty, keys, |keys|) == Written(codec, backing, dirty)
  {
    assert keys[..|keys|] == keys;
    assert Among(dirty, Elements(keys)) == dirty;
  }

  lemma {:induction false} EmptyKeyIsFirst(keys: seq<Bytes>, i: nat)
    requires Ascending(keys) && i < |keys|
    ensures keys[i] == [] ==> i == 0
  {
    assert i > 0 ==> Less(keys[0], keys[i]);
  }

  class CachedObjectStore<T> {
    const cache: MultiLevelCache<T>
    const backing: MemoryStore
    const codec: Codec<T>
    var closed: bool

    constructor (backing: MemoryStore, codec: Codec<T>, l1Size: int, l2Size: int)
      ensures this.backing == backing && this.codec == codec && !closed && Valid()
      ensures fresh(cache) && fresh(cache.l1) && fresh(cache.l2)
      ensures Contents().l1 == Lru(if l1Size <= 0 then 1 else l1Size, [], map[])
      ensures Contents().l2 == Lru(if l2Size <= 0 then 1 else l2Size, [], map[])
    {
      cache := new MultiLevelCache<T>(l1Size, l2Size);
      this.backing := backing;
      this.codec := codec;
      closed := false;
    }

    ghost predicate Valid() {
      cache.l1 != cache.l2
    }

    function Contents(): Store<T>
      reads cache.l1, cache.l2, backing
    {
      Store(cache.l1.Contents(), cache.l2.Contents(), backing.data)
    }

    method Get(key: Bytes) returns (r: Result<T>)
      requires Valid()
      modifies cache.l1, cache.l2
      ensures r == if closed then Error(Closed) else GetResult(codec, old(Contents()), key)
      ensures Contents() == if closed then old(Contents()) else AfterGet(codec, old(Contents()), key)
    {
      if closed {
        return Error(Closed);
      }
      if key == [] {
        return Error(InvalidKey);
      }
      var found := cache.Get(key);
      if found.Some? {
        if found.value.value.None? {
          return Error(NotFound);
        }
        return Ok(found.value.value.value);
      }
      var data := backing.Get(key);
      if data.Error? {
        return Error(NotFound);
      }
      var obj := codec.unmarshal(data.value);
      if obj.None? {
        return Error(Corrupt);
      }
      cache.Set(key, Entry(obj, false));
      return Ok(obj.value);
    }

    /** `Set` with a value, `Delete` with none. */
    method Put(key: Bytes, value: Option<T>) returns (ok: bool)
      requires Valid()
      modifies cache.l1
      ensures ok <==> !closed && key != []
      ensures Contents() == if closed then old(Contents()) else AfterPut(old(Contents()), key, value)
    {
      if closed || key == [] {
        return false;
      }
      cache.Set(key, Entry(value, true));
      return true;
    }

    method Has(key: Bytes) returns (r: Result<bool>)
      requires Valid()
      modifies cache.l1, cache.l2
      ensures r == if closed then Error(Closed) else HasResult(old(Contents()), key)
      ensures Contents() == if closed then old(Contents()) else AfterHas(old(Contents()), key)
    {
      if closed {
        return Error(Closed);
      }
      if key == [] {
        return Error(InvalidKey);
      }
      var found := cache.Get(key);
      if found.Some? {
        return Ok(found.value.value.Some?);
      }
      r := backing.Has(key);
    }

    /** The sorted dirty keys, collected from the map in any order. */
    method SortedKeys(dirty: map<Bytes, Entry<T>>) returns (keys: seq<Bytes>)
      ensures Ascending(keys) && Elements(keys) == dirty.Keys
    {
      keys := [];
      var remaining := dirty.Keys;
      while remaining != {}
        invariant remaining <= dirty.Keys && NoDuplicates(keys)
        invariant forall k :: k in keys <==> k in dirty && k !in remaining
        decreases remaining
      {
        var k :| k in remaining;
        remaining := remaining - {k};
        assert k !in keys;
        keys := keys + [k];
      }
      assert Elements(keys) == dirty.Keys;
      SortDistinct(keys);
      keys := Sort(keys);
    }

    /** One entry in the write loop of `Flush`. */
    method WriteEntry(k: Bytes, value: Option<T>) returns (ok: bool)
      modifies backing
      ensures ok <==> k != []
      ensures backing.data == if !ok then old(backing.data)
                              else if value.Some? then old(backing.data)[k := codec.marshal(value.value)]
                              else old(backing.data) - {k}
    {
      if value.None? {
        ok := backing.Delete(k);
      } else {
        ok := backing.Set(k, codec.marshal(value.value));
      }
    }

    /** The write loop of `Flush`. The empty key sorts first, so a refusal comes before any write. */
    method WriteBack(dirty: map<Bytes, Entry<T>>, keys: seq<Bytes>) returns (ok: bool)
      requires Ascending(keys) && Elements(keys) == dirty.Keys
      modifies backing
      ensures ok <==> [] !in dirty
      ensures backing.data == if ok then Written(codec, old(backing.data), dirty) else old(backing.data)
    {
      WrittenNoneOrAll(codec, backing.data, dirty, keys);
      for i := 0 to |keys|
        invariant backing.data == WrittenUpTo(codec, old(backing.data), dirty, keys, i)
        invariant i > 0 ==> keys[0] != []
      {
        assert keys[i] in Elements(keys);
        EmptyKeyIsFirst(keys, i);
        WrittenStep(codec, old(backing.data), dirty, keys, i);
        ok := WriteEntry(keys[i], dirty[keys[i]].value);
        if !ok {
          return;
        }
      }
      if [] in Elements(keys) {
        var i :| 0 <= i < |keys| && keys[i] == [];
        EmptyKeyIsFirst(keys, i);
      }
      ok := true;
    }

    method Flush() returns (ok: bool)
      requires Valid()
      modifies cache.l1, cache.l2, backing
      ensures ok <==> !closed && [] !in DirtyEntries(old(Contents()))
      ensures Contents() == if closed then old(Contents()) else AfterFlush(codec, old(Contents()))
    {
      if closed {
        return false;
      }
      var dirty := cache.GetDirtyEntries();
      var keys := SortedKeys(dirty);
      ok := WriteBack(dirty, keys);
      if ok {
        cache.ClearDirtyFlags(keys);
      }
    }
  }
}
