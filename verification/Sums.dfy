/** Sums of weights or amounts over finite sets of keys. */
module Sums {
  import opened Basics

  ghost function SumOf<K>(s: set<K>, w: map<K, Uint64>): nat
    requires s <= w.Keys
  {
    if s == {} then 0
    else
      var x :| x in s;
      w[x] + SumOf(s - {x}, w)
  }

  /** The order of summation does not matter. */
  lemma {:induction false} SumPick<K>(s: set<K>, w: map<K, Uint64>, x: K)
    requires s <= w.Keys && x in s
    ensures SumOf(s, w) == w[x] + SumOf(s - {x}, w)
    decreases |s|
  {
    var y :| y in s && SumOf(s, w) == w[y] + SumOf(s - {y}, w);
    if x != y {
      SumPick(s - {y}, w, x);
      SumPick(s - {x}, w, y);
      assert s - {y} - {x} == s - {x} - {y};
    }
  }

  lemma {:induction false} SumAdd<K>(s: set<K>, w: map<K, Uint64>, x: K)
    requires s <= w.Keys && x in w && x !in s
    ensures SumOf(s + {x}, w) == SumOf(s, w) + w[x]
  {
    SumPick(s + {x}, w, x);
    assert s + {x} - {x} == s;
  }

  lemma {:induction false} SumMonotone<K>(s: set<K>, t: set<K>, w: map<K, Uint64>)
    requires s <= t <= w.Keys
    ensures SumOf(s, w) <= SumOf(t, w)
    decreases |t|
  {
    if x :| x in t - s {
      SumPick(t, w, x);
      SumMonotone(s, t - {x}, w);
    } else {
      assert forall x :: x in t ==> x in t - s || x in s;
      assert s == t;
    }
  }

  lemma {:induction false} SumSame<K>(s: set<K>, w: map<K, Uint64>, v: map<K, Uint64>)
    requires s <= w.Keys && s <= v.Keys
    requires forall x :: x in s ==> w[x] == v[x]
    ensures SumOf(s, w) == SumOf(s, v)
    decreases |s|
  {
    if s != {} {
      var x :| x in s;
      SumPick(s, w, x);
      SumPick(s, v, x);
      SumSame(s - {x}, w, v);
    }
  }

  /** Changing one weight changes the sum by the difference. */
  lemma {:induction false} SumUpdate<K>(s: set<K>, w: map<K, Uint64>, x: K, v: Uint64)
    requires s <= w.Keys && x in s
    ensures SumOf(s, w[x := v]) == SumOf(s, w) - w[x] + v
  {
    SumPick(s, w, x);
    SumPick(s, w[x := v], x);
    SumSame(s - {x}, w, w[x := v]);
  }
}
