/** Integers as big-endian octets, and the nonce generator of RFC 6979 (`crypto/rfc6979.go`). */
module Octets {
  import opened Basics

  // ---- Big-endian integers ----

  function Pow2(n: nat): (r: nat)
    ensures r > 0
  {
    if n == 0 then 1 else 2 * Pow2(n - 1)
  }

  /** `big.Int.SetBytes` */
  function ToInt(b: Bytes): nat {
    if b == [] then 0 else 256 * ToInt(b[..|b| - 1]) + b[|b| - 1]
  }

  /** `big.Int.Bytes`: no leading zero, and nothing for zero. */
  function ToBytes(x: nat): Bytes {
    if x == 0 then [] else ToBytes(x / 256) + [x % 256]
  }

  /** `big.Int.BitLen` */
  function BitLen(x: nat): nat {
    if x == 0 then 0 else 1 + BitLen(x / 2)
  }

  function Zeros(n: nat): Bytes {
    seq(n, _ => 0)
  }

  lemma {:induction false} Pow2Add(m: nat, n: nat)
    ensures Pow2(m + n) == Pow2(m) * Pow2(n)
  {
    if m > 0 {
      Pow2Add(m - 1, n);
      assert Pow2(m) * Pow2(n) == 2 * (Pow2(m - 1) * Pow2(n));
    }
  }

  lemma {:induction false} Pow2Eight(n: nat)
    ensures Pow2(8 * (n + 1)) == 256 * Pow2(8 * n)
  {
    Pow2Add(8, 8 * n);
    assert Pow2(8) == 256 by {
      assert Pow2(4) == 16;
      Pow2Add(4, 4);
    }
  }

  lemma {:induction false} Pow2Monotone(m: nat, n: nat)
    requires m <= n
    ensures Pow2(m) <= Pow2(n)
  {
    Pow2Add(n - m, m);
    assert Pow2(n - m) * Pow2(m) >= Pow2(m);
  }

  lemma {:induction false} BitLenBounds(x: nat)
    ensures x < Pow2(BitLen(x))
    ensures x > 0 ==> Pow2(BitLen(x) - 1) <= x
  {
    if x > 1 {
      BitLenBounds(x / 2);
    }
  }

  lemma {:induction false} ToIntBound(b: Bytes)
    ensures ToInt(b) < Pow2(8 * |b|)
  {
    if b != [] {
      ToIntBound(b[..|b| - 1]);
      Pow2Eight(|b| - 1);
    }
  }

  lemma {:induction false} ToIntOfToBytes(x: nat)
    ensures ToInt(ToBytes(x)) == x
  {
    if x > 0 {
      ToIntOfToBytes(x / 256);
      assert ToBytes(x)[..|ToBytes(x)| - 1] == ToBytes(x / 256);
    }
  }

  /** The minimal form has at most `n` octets exactly when the integer fits in `n` octets. */
  lemma {:induction false} ToBytesFits(x: nat, n: nat)
    ensures |ToBytes(x)| <= n <==> x < Pow2(8 * n)
  {
    if x > 0 && n > 0 {
      ToBytesFits(x / 256, n - 1);
      Pow2Eight(n - 1);
    }
  }

  lemma {:induction false} ToIntOfPadded(n: nat, b: Bytes)
    ensures ToInt(Zeros(n) + b) == ToInt(b)
  {
    if b != [] {
      ToIntOfPadded(n, b[..|b| - 1]);
      assert (Zeros(n) + b)[..n + |b| - 1] == Zeros(n) + b[..|b| - 1];
    } else if n > 0 {
      ToIntOfPadded(n - 1, []);
      assert (Zeros(n) + b)[..n - 1] == Zeros(n - 1) + [];
    }
  }

  /** Octet strings of equal length are determined by their integer. */
  lemma {:induction false} ToIntInjective(a: Bytes, b: Bytes)
    requires |a| == |b| && ToInt(a) == ToInt(b)
    ensures a == b
  {
    if a != [] {
      var n := |a| - 1;
      ToIntInjective(a[..n], b[..n]);
      assert a == a[..n] + [a[n]] && b == b[..n] + [b[n]];
    }
  }

  lemma {:induction false} ToIntOfLeading(b: Bytes, n: nat)
    requires n <= |b|
    ensures ToInt(b[..n]) == ShiftRight(ToInt(b), 8 * (|b| - n))
  {
    if n < |b| {
      var m := |b| - 1;
      ToIntOfLeading(b[..m], n);
      assert b[..m][..n] == b[..n];
      ShiftEight(ToInt(b[..m]), b[m]);
      ShiftTwice(ToInt(b), 8, 8 * (m - n));
    } else {
      assert b[..n] == b;
    }
  }

  /** `x` shifted right. */
  function ShiftRight(x: nat, n: nat): nat {
    if n == 0 then x else ShiftRight(x / 2, n - 1)
  }

  lemma {:induction false} ShiftTwice(x: nat, m: nat, n: nat)
    ensures ShiftRight(x, m + n) == ShiftRight(ShiftRight(x, m), n)
  {
    if m > 0 {
      ShiftTwice(x / 2, m - 1, n);
    }
  }

  lemma {:induction false} TwiceProduct(p: nat, q: nat)
    ensures (2 * p) * q == 2 * (p * q)
  {
  }

  /** Shifting right by `n` divides by 2^n. */
  lemma {:induction false} ShiftDivides(x: nat, n: nat)
    ensures Pow2(n) * ShiftRight(x, n) <= x < Pow2(n) * ShiftRight(x, n) + Pow2(n)
  {
    if n > 0 {
      ShiftDivides(x / 2, n - 1);
      TwiceProduct(Pow2(n - 1), ShiftRight(x / 2, n - 1));
    }
  }

  lemma {:induction false} ShiftEight(x: nat, d: nat)
    requires d < 256
    ensures ShiftRight(256 * x + d, 8) == x
  {
    ShiftDivides(256 * x + d, 8);
    var q := ShiftRight(256 * x + d, 8);
    assert Pow2(8) == 256 by { Pow2Eight(0); }
    assert 256 * q <= 256 * x + d < 256 * q + 256;
  }

  lemma {:induction false} QuotientIs(x: nat, d: nat, q: nat, r: nat)
    requires d > 0 && x == d * q + r && r < d
    ensures x / d == q
  {
    var p := x / d;
    assert d * p <= x < d * p + d;
    if p < q {
      Times(d, p, q);
    } else if p > q {
      Times(d, q, p);
    }
  }

  lemma {:induction false} Times(d: nat, p: nat, q: nat)
    requires p < q
    ensures d * p + d <= d * q
  {
    var r := q - p - 1;
    assert d * r >= 0;
    assert d * (p + 1 + r) == d * p + d + d * r;
  }

  // ---- Conversions of RFC 6979 ----

  /** Section 2.3.3. The source truncates an integer that does not fit instead of failing. */
  function Int2Octets(x: nat, length: nat): Bytes {
    var b := ToBytes(x);
    if |b| >= length then b[..length] else Zeros(length - |b|) + b
  }

  /** The result always has the length asked for, and stands for the integer exactly when it fits. */
  lemma {:induction false} Int2OctetsRoundTrip(x: nat, length: nat)
    ensures |Int2Octets(x, length)| == length
    ensures ToInt(Int2Octets(x, length)) == x <==> x < Pow2(8 * length)
    ensures |ToBytes(x)| > length ==> ToInt(Int2Octets(x, length)) == ShiftRight(x, 8 * (|ToBytes(x)| - length))
  {
    var b := ToBytes(x);
    ToIntOfToBytes(x);
    ToBytesFits(x, length);
    ToIntBound(Int2Octets(x, length));
    if |b| >= length {
      ToIntOfLeading(b, length);
      assert |b| == length ==> b[..length] == b;
    } else {
      ToIntOfPadded(length - |b|, b);
    }
  }

  /** The octets of an integer that fits are the only octets of that length that stand for it. */
  lemma {:induction false} Int2OctetsUnique(x: nat, b: Bytes)
    requires ToInt(b) == x
    ensures Int2Octets(x, |b|) == b
  {
    ToIntBound(b);
    Int2OctetsRoundTrip(x, |b|);
    ToIntInjective(Int2Octets(x, |b|), b);
  }

  /** Section 2.3.2, by a shift. */
  function Bits2Int(b: Bytes, n: nat): nat {
    var excess := 8 * |b| - BitLen(n);
    if excess > 0 then ShiftRight(ToInt(b), excess) else ToInt(b)
  }

  /** The bits of an integer, most significant first. */
  ghost function Bits(x: nat, count: nat): seq<bool> {
    if count == 0 then [] else Bits(x / 2, count - 1) + [x % 2 == 1]
  }

  ghost function BitsOf(b: Bytes): seq<bool> {
    if b == [] then [] else BitsOf(b[..|b| - 1]) + Bits(b[|b| - 1], 8)
  }

  ghost function ValueOf(bits: seq<bool>): nat {
    if bits == [] then 0 else 2 * ValueOf(bits[..|bits| - 1]) + if bits[|bits| - 1] then 1 else 0
  }

  ghost function ShiftLeft(x: nat, n: nat): nat {
    if n == 0 then x else 2 * ShiftLeft(x, n - 1)
  }

  lemma {:induction false} ValueOfAppended(s: seq<bool>, x: nat, count: nat)
    requires x < Pow2(count)
    ensures |Bits(x, count)| == count && ValueOf(s + Bits(x, count)) == ShiftLeft(ValueOf(s), count) + x
  {
    if count == 0 {
      assert s + Bits(x, count) == s;
    } else {
      ValueOfAppended(s, x / 2, count - 1);
      var t := s + Bits(x, count);
      assert t[..|t| - 1] == s + Bits(x / 2, count - 1);
    }
  }

  lemma {:induction false} ShiftLeftEight(x: nat)
    ensures ShiftLeft(x, 8) == 256 * x
  {
    assert ShiftLeft(x, 1) == 2 * ShiftLeft(x, 0);
    assert ShiftLeft(x, 2) == 4 * x;
    assert ShiftLeft(x, 4) == 4 * ShiftLeft(x, 2);
    assert ShiftLeft(x, 6) == 4 * ShiftLeft(x, 4);
  }

  lemma {:induction false} ValueOfBitsOf(b: Bytes)
    ensures |BitsOf(b)| == 8 * |b| && ValueOf(BitsOf(b)) == ToInt(b)
  {
    if b != [] {
      var n := |b| - 1;
      ValueOfBitsOf(b[..n]);
      assert Pow2(8) == 256 by {
        Pow2Eight(0);
      }
      ValueOfAppended(BitsOf(b[..n]), b[n], 8);
      ShiftLeftEight(ToInt(b[..n]));
    }
  }

  lemma {:induction false} ValueOfLeading(bits: seq<bool>, n: nat)
    requires n <= |bits|
    ensures ValueOf(bits[..n]) == ShiftRight(ValueOf(bits), |bits| - n)
  {
    if n < |bits| {
      var m := |bits| - 1;
      ValueOfLeading(bits[..m], n);
      assert bits[..m][..n] == bits[..n];
    } else {
      assert bits[..n] == bits;
    }
  }

  /** The shift takes the leftmost bits, as many as the order has. */
  lemma {:induction false} Bits2IntTakesLeftmost(b: Bytes, n: nat)
    ensures |BitsOf(b)| == 8 * |b|
    ensures Bits2Int(b, n) == ValueOf(if BitLen(n) < |BitsOf(b)| then BitsOf(b)[..BitLen(n)] else BitsOf(b))
    ensures Bits2Int(b, n) < Pow2(BitLen(n))
  {
    ValueOfBitsOf(b);
    ToIntBound(b);
    if BitLen(n) < |BitsOf(b)| {
      ValueOfLeading(BitsOf(b), BitLen(n));
      var excess := 8 * |b| - BitLen(n);
      Pow2Add(BitLen(n), excess);
      ShiftDivides(ToInt(b), excess);
      Scale(Pow2(excess), ShiftRight(ToInt(b), excess), Pow2(BitLen(n)));
    } else {
      Pow2Monotone(8 * |b|, BitLen(n));
    }
  }

  lemma {:induction false} Scale(d: nat, q: nat, bound: nat)
    requires d * q < bound * d
    ensures q < bound
  {
    if bound <= q {
      Times(d, bound, q + 1);
    }
  }

  /** Section 2.3.4, by one conditional subtraction. */
  function Bits2Octets(hash: Bytes, n: nat, length: nat): Bytes {
    var z := Bits2Int(hash, n);
    Int2Octets(if z >= n then z - n else z, length)
  }

  /** The octet length of the order. */
  function OctetLength(n: nat): nat {
    (BitLen(n) + 7) / 8
  }

  lemma {:induction false} BelowOrderFits(x: nat, n: nat)
    requires x < n
    ensures x < Pow2(8 * OctetLength(n))
  {
    BitLenBounds(n);
    Pow2Monotone(BitLen(n), 8 * OctetLength(n));
  }

  /** One subtraction reduces modulo the order, for every hash of every length. */
  lemma {:induction false} Bits2OctetsReduces(hash: Bytes, n: nat)
    requires n > 0
    ensures |Bits2Octets(hash, n, OctetLength(n))| == OctetLength(n)
    ensures ToInt(Bits2Octets(hash, n, OctetLength(n))) == Bits2Int(hash, n) % n
  {
    var z := Bits2Int(hash, n);
    BelowTwice(hash, n);
    SubtractionReduces(z, n);
    BelowOrderFits(z % n, n);
    Int2OctetsRoundTrip(z % n, OctetLength(n));
  }

  lemma {:induction false} BelowTwice(hash: Bytes, n: nat)
    requires n > 0
    ensures Bits2Int(hash, n) < 2 * n
  {
    Bits2IntTakesLeftmost(hash, n);
    BitLenBounds(n);
  }

  lemma {:induction false} SubtractionReduces(z: nat, n: nat)
    requires z < 2 * n
    ensures (if z >= n then z - n else z) == z % n
  {
    QuotientIs(z, n, if z >= n then 1 else 0, if z >= n then z - n else z);
  }

  // ---- Nonces ----

  /** An output of HMAC-SHA-256. */
  type Digest = b: Bytes | |b| == 32 witness Zeros(32)

  type Hmac = (Bytes, Bytes) -> Digest

  /** `K` and `V` of section 3.2. */
  datatype Generator = Generator(key: Bytes, value: Bytes)

  function Mix(hmac: Hmac, g: Generator, input: Bytes): Generator {
    var key := hmac(g.key, g.value + input);
    Generator(key, hmac(key, g.value))
  }

  /** Steps b to g. */
  function Seed(hmac: Hmac, x: Bytes, h: Bytes): Generator {
    Mix(hmac, Mix(hmac, Generator(Zeros(32), seq(32, _ => 1)), [0] + x + h), [1] + x + h)
  }

  /** The output chain: `V`, then HMAC of it, and so on. */
  function ValueAfter(hmac: Hmac, g: Generator, i: nat): Bytes {
    if i == 0 then g.value else hmac(g.key, ValueAfter(hmac, g, i - 1))
  }

  function Output(hmac: Hmac, g: Generator, blocks: nat): (t: Bytes)
    ensures |t| == 32 * blocks
  {
    if blocks == 0 then [] else Output(hmac, g, blocks - 1) + ValueAfter(hmac, g, blocks)
  }

  function Blocks(n: nat): (r: nat)
    ensures 32 * r >= OctetLength(n)
  {
    (OctetLength(n) + 31) / 32
  }

  /** Steps h.1 and h.2: the candidate that this generator state yields. */
  function Candidate(hmac: Hmac, g: Generator, n: nat): nat {
    Bits2Int(Output(hmac, g, Blocks(n))[..OctetLength(n)], n)
  }

  /** Step h.3: the generator state after a rejected candidate. */
  function Retry(hmac: Hmac, g: Generator, n: nat): Generator {
    Mix(hmac, g.(value := ValueAfter(hmac, g, Blocks(n))), [0])
  }

  function GeneratorAt(hmac: Hmac, seed: Generator, n: nat, i: nat): Generator {
    if i == 0 then seed else Retry(hmac, GeneratorAt(hmac, seed, n, i - 1), n)
  }

  function CandidateAt(hmac: Hmac, seed: Generator, n: nat, i: nat): nat {
    Candidate(hmac, GeneratorAt(hmac, seed, n, i), n)
  }

  /** The generator state that a private key and a hash start from. */
  function SeedOf(hmac: Hmac, x: nat, hash: Bytes, n: nat): Generator {
    Seed(hmac, Int2Octets(x, OctetLength(n)), Bits2Octets(hash, n, OctetLength(n)))
  }

  predicate IsUsable(k: nat, n: nat) {
    0 < k < n
  }

  /** The filling loop of step h.2. */
  method Fill(hmac: Hmac, g: Generator, n: nat) returns (t: Bytes, value: Bytes)
    ensures t == Output(hmac, g, Blocks(n)) && value == ValueAfter(hmac, g, Blocks(n))
  {
    t, value := [], g.value;
    ghost var blocks := 0;
    while |t| < OctetLength(n)
      invariant blocks <= Blocks(n)
      invariant t == Output(hmac, g, blocks) && value == ValueAfter(hmac, g, blocks)
      decreases OctetLength(n) - |t|
    {
      value := hmac(g.key, value);
      t := t + value;
      blocks := blocks + 1;
    }
  }

  /** Steps b to g of the source, one assignment at a time. */
  method Start(hmac: Hmac, x: Bytes, h: Bytes) returns (g: Generator)
    ensures g == Seed(hmac, x, h)
    ensures var v: Bytes := seq(32, _ => 1);
            var k1 := hmac(seq(32, _ => 0), v + [0] + x + h);
            var v1 := hmac(k1, v);
            var k2 := hmac(k1, v1 + [1] + x + h);
            g == Generator(k2, hmac(k2, v1))
  {
    var ones: Bytes := seq(32, _ => 1);
    var key: Bytes, value: Bytes := Zeros(32), ones;
    assert Zeros(32) == seq(32, _ => 0);
    assert value + [0] + x + h == value + ([0] + x + h);
    key := hmac(key, value + [0] + x + h);
    value := hmac(key, value);
    assert value + [1] + x + h == value + ([1] + x + h);
    key := hmac(key, value + [1] + x + h);
    value := hmac(key, value);
    g := Generator(key, value);
  }

  /** The j-th block of step h.2 is the j-th value of the chain `V`, `HMAC_K(V)`, and so on. */
  lemma {:induction false} OutputBlock(hmac: Hmac, g: Generator, blocks: nat, j: nat)
    requires j < blocks
    ensures ValueAfter(hmac, g, 0) == g.value && ValueAfter(hmac, g, j + 1) == hmac(g.key, ValueAfter(hmac, g, j))
    ensures Output(hmac, g, blocks)[32 * j..32 * (j + 1)] == ValueAfter(hmac, g, j + 1)
  {
    if j < blocks - 1 {
      OutputBlock(hmac, g, blocks - 1, j);
      assert Output(hmac, g, blocks)[32 * j..32 * (j + 1)] == Output(hmac, g, blocks - 1)[32 * j..32 * (j + 1)];
    }
  }

  /** Step h.3: from `K` and the last `V`, `K = HMAC_K(V || 0x00)` and `V = HMAC_K(V)`. */
  lemma {:induction false} RetryTerms(hmac: Hmac, seed: Generator, n: nat, i: nat)
    ensures GeneratorAt(hmac, seed, n, 0) == seed
    ensures var g, next := GeneratorAt(hmac, seed, n, i), GeneratorAt(hmac, seed, n, i + 1);
            var v := ValueAfter(hmac, g, Blocks(n));
            next.key == hmac(g.key, v + [0]) && next.value == hmac(next.key, v)
  {
  }

  /** For an order of 32 octets one block is the whole candidate. */
  lemma {:induction false} OneBlockTerms(hmac: Hmac, seed: Generator, n: nat, i: nat)
    requires OctetLength(n) == 32
    ensures var g := GeneratorAt(hmac, seed, n, i);
            var v := hmac(g.key, g.value);
            && CandidateAt(hmac, seed, n, i) == Bits2Int(v, n)
            && GeneratorAt(hmac, seed, n, i + 1)
               == Generator(hmac(g.key, v + [0]), hmac(hmac(g.key, v + [0]), v))
  {
    var g := GeneratorAt(hmac, seed, n, i);
    RetryTerms(hmac, seed, n, i);
    OutputBlock(hmac, g, 1, 0);
    assert Blocks(n) == 1;
    assert Output(hmac, g, 1)[..32] == Output(hmac, g, 1)[0..32];
  }

  /** The i-th candidate is usable and no earlier one is. */
  ghost predicate IsFirstUsable(hmac: Hmac, seed: Generator, n: nat, i: nat) {
    IsUsable(CandidateAt(hmac, seed, n, i), n) && forall j: nat :: j < i ==> !IsUsable(CandidateAt(hmac, seed, n, j), n)
  }

  /** Step h, giving up after `attempts` candidates. */
  method Search(hmac: Hmac, seed: Generator, n: nat, attempts: nat) returns (k: Option<nat>)
    ensures k.Some? ==>
            exists i: nat :: i < attempts && IsFirstUsable(hmac, seed, n, i) && k.value == CandidateAt(hmac, seed, n, i)
    ensures k.Some? ==> 0 < k.value < n
    ensures k.None? ==> forall i: nat :: i < attempts ==>
              CandidateAt(hmac, seed, n, i) == 0 || CandidateAt(hmac, seed, n, i) >= n
  {
    var key, value := seed.key, seed.value;
    for i := 0 to attempts
      invariant Generator(key, value) == GeneratorAt(hmac, seed, n, i)
      invariant forall j: nat :: j < i ==> !IsUsable(CandidateAt(hmac, seed, n, j), n)
    {
      var t, next := Fill(hmac, Generator(key, value), n);
      var candidate := Bits2Int(t[..OctetLength(n)], n);
      if 0 < candidate < n {
        assert IsFirstUsable(hmac, seed, n, i);
        return Some(candidate);
      }
      value := next;
      key := hmac(key, value + [0]);
      value := hmac(key, value);
    }
    k := None;
  }

  /**
   `rfc6979Nonce`, giving up after `attempts` candidates: the first usable candidate of the sequence
   that the key and the hash determine, which lies strictly between zero and the order.
   */
  method Nonce(hmac: Hmac, x: nat, hash: Bytes, n: nat, attempts: nat) returns (k: Option<nat>)
    ensures var seed := SeedOf(hmac, x, hash, n);
            if k.Some?
            then && 0 < k.value < n
                 && exists i: nat ::
                      i < attempts && IsFirstUsable(hmac, seed, n, i) && k.value == CandidateAt(hmac, seed, n, i)
            else forall i: nat :: i < attempts ==> !IsUsable(CandidateAt(hmac, seed, n, i), n)
  {
    var seed := Start(hmac, Int2Octets(x, OctetLength(n)), Bits2Octets(hash, n, OctetLength(n)));
    k := Search(hmac, seed, n, attempts);
  }
}
