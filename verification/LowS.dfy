/** Low-S form of 64-byte ECDSA signatures (`crypto/signature.go`). */
module LowS {
  import opened Basics
  import opened Octets

  datatype Algorithm = Ed25519 | Secp256k1 | Secp256r1

  const SECP256K1_ORDER := 0xFFFFFFFFFFFFFFFFFFFFFFFFFFFFFFFEBAAEDCE6AF48A03BBFD25E8CD0364141
  const SECP256R1_ORDER := 0xFFFFFFFF00000000FFFFFFFFFFFFFFFFBCE6FAADA7179E84F3B9CAC2FC632551

  const TWO_256 := 0x1_0000000000000000_0000000000000000_0000000000000000_0000000000000000

  /** The curve order, for the algorithms that have a low-S form. */
  function Order(algorithm: Algorithm): (n: Option<nat>)
    ensures n.Some? ==> IsOrder(n.value)
  {
    match algorithm
    case Ed25519 => None
    case Secp256k1 => Some(SECP256K1_ORDER)
    case Secp256r1 => Some(SECP256R1_ORDER)
  }

  /** An odd order so close to 2^256 that what exceeds it is less than half of it. */
  predicate IsOrder(n: nat) {
    n % 2 == 1 && n < TWO_256 <= n + n / 2
  }

  function R(sig: Bytes): Bytes
    requires |sig| == 64
  {
    sig[..32]
  }

  function S(sig: Bytes): nat
    requires |sig| == 64
  {
    ToInt(sig[32..])
  }

  predicate IsSignature(sig: Bytes, algorithm: Algorithm) {
    |sig| == 64 && Order(algorithm).Some?
  }

  /** `IsLowSForAlgorithm` */
  predicate IsLow(sig: Bytes, algorithm: Algorithm) {
    IsSignature(sig, algorithm) && S(sig) <= Order(algorithm).value / 2
  }

  /** The magnitude of `n - s`, which is what `big.Int.Bytes` yields. */
  function Negated(s: nat, n: nat): nat {
    if s <= n then n - s else s - n
  }

  /** A buffer of 64 bytes with `r` in front and the minimal octets of `s` copied to its end. */
  function Assemble(r: Bytes, s: nat): Bytes
    requires |r| == 32 && |ToBytes(s)| <= 32
  {
    r + Zeros(32 - |ToBytes(s)|) + ToBytes(s)
  }

  /** `NormalizeSignature` */
  function Normalize(sig: Bytes, algorithm: Algorithm): Option<Bytes> {
    if !IsSignature(sig, algorithm) then None
    else
      var n := Order(algorithm).value;
      if S(sig) <= n / 2 then Some(sig)
      else
        SFits(sig, n);
        Some(Assemble(R(sig), Negated(S(sig), n)))
  }

  /** `MakeHighS` */
  function MakeHigh(sig: Bytes, algorithm: Algorithm): Option<Bytes> {
    if !IsSignature(sig, algorithm) then None
    else
      var n := Order(algorithm).value;
      if S(sig) > n / 2 then Some(sig)
      else
        SFits(sig, n);
        Some(Assemble(R(sig), Negated(S(sig), n)))
  }

  lemma {:induction false} TwoTo256()
    ensures Pow2(256) == TWO_256
  {
    assert Pow2(32) == 0x1_0000_0000 by {
      assert Pow2(8) == 0x100 by { Pow2Eight(0); }
      Doubled(8, 0x100);
      Doubled(16, 0x1_0000);
    }
    Doubled(32, 0x1_0000_0000);
    Doubled(64, 0x1_0000000000000000);
    Doubled(128, 0x1_0000000000000000_0000000000000000);
  }

  lemma {:induction false} Doubled(m: nat, value: nat)
    requires Pow2(m) == value
    ensures Pow2(2 * m) == value * value
  {
    Pow2Add(m, m);
  }

  lemma {:induction false} SFits(sig: Bytes, n: nat)
    requires |sig| == 64 && n < TWO_256
    ensures S(sig) < TWO_256 && |ToBytes(Negated(S(sig), n))| <= 32
  {
    TwoTo256();
    ToIntBound(sig[32..]);
    ToBytesFits(Negated(S(sig), n), 32);
  }

  lemma {:induction false} Assembled(r: Bytes, s: nat)
    requires |r| == 32 && |ToBytes(s)| <= 32
    ensures |Assemble(r, s)| == 64 && R(Assemble(r, s)) == r && S(Assemble(r, s)) == s
  {
    var tail := Zeros(32 - |ToBytes(s)|) + ToBytes(s);
    assert Assemble(r, s) == r + tail;
    assert (r + tail)[..32] == r && (r + tail)[32..] == tail;
    ToIntOfPadded(32 - |ToBytes(s)|, ToBytes(s));
    ToIntOfToBytes(s);
  }

  /** A signature is its `r` octets and its `s`. */
  lemma {:induction false} SignatureIsPair(a: Bytes, b: Bytes)
    requires |a| == |b| == 64 && R(a) == R(b) && S(a) == S(b)
    ensures a == b
  {
    ToIntInjective(a[32..], b[32..]);
    assert a == a[..32] + a[32..] && b == b[..32] + b[32..];
  }

  /** `a` is `b` or its negation modulo `n`. */
  predicate SameUpToSign(a: nat, b: nat, n: nat)
    requires n > 0
  {
    (a + b) % n == 0 || (if a >= b then a - b else b - a) % n == 0
  }

  lemma {:induction false} Remainders(x: nat, n: nat)
    requires n > 0 && x <= 3 * n
    ensures x % n == 0 <==> x == 0 || x == n || x == 2 * n || x == 3 * n
  {
    var q := if x < n then 0 else if x < 2 * n then 1 else if x < 3 * n then 2 else 3;
    QuotientIs(x, n, q, x - n * q);
  }

  /**
   Normalizing fails exactly for a wrong length or an unsupported algorithm, and otherwise keeps `r`
   and gives the low one of `s` and its negation modulo the order, for every 64 bytes.
   */
  lemma {:induction false} NormalizeIsLow(sig: Bytes, algorithm: Algorithm)
    ensures Normalize(sig, algorithm).None? <==> !IsSignature(sig, algorithm)
    ensures var low := Normalize(sig, algorithm);
            low.Some? ==>
              && IsLow(low.value, algorithm) && R(low.value) == R(sig)
              && SameUpToSign(S(low.value), S(sig), Order(algorithm).value)
  {
    if IsSignature(sig, algorithm) {
      var n := Order(algorithm).value;
      SFits(sig, n);
      if S(sig) > n / 2 {
        var s := Negated(S(sig), n);
        Assembled(R(sig), s);
        Remainders(s + S(sig), n);
        Remainders(S(sig) - s, n);
      } else {
        Remainders(0, n);
      }
    }
  }

  /** What is low of `s` and its negation modulo the order, in magnitude. */
  function LowOf(s: nat, n: nat): nat {
    if 2 * s < n then s else if s <= n then n - s else s - n
  }

  /** The order of each curve, in figures. */
  lemma {:induction false} NormalizeByCurve(sig: Bytes)
    requires |sig| == 64
    ensures var low := Normalize(sig, Secp256k1);
            && low.Some? && |low.value| == 64 && low.value[..32] == sig[..32]
            && ToInt(low.value[32..])
               == LowOf(ToInt(sig[32..]), 0xFFFFFFFFFFFFFFFFFFFFFFFFFFFFFFFEBAAEDCE6AF48A03BBFD25E8CD0364141)
    ensures var low := Normalize(sig, Secp256r1);
            && low.Some? && |low.value| == 64 && low.value[..32] == sig[..32]
            && ToInt(low.value[32..])
               == LowOf(ToInt(sig[32..]), 0xFFFFFFFF00000000FFFFFFFFFFFFFFFFBCE6FAADA7179E84F3B9CAC2FC632551)
    ensures Normalize(sig, Ed25519).None?
  {
    NormalForm(sig, Secp256k1);
    NormalForm(sig, Secp256r1);
  }

  /** Low signatures are fixed, so normalizing twice is normalizing once. */
  lemma {:induction false} NormalizeIsIdempotent(sig: Bytes, algorithm: Algorithm)
    requires IsSignature(sig, algorithm)
    ensures Normalize(sig, algorithm).value == sig <==> IsLow(sig, algorithm)
    ensures Normalize(Normalize(sig, algorithm).value, algorithm) == Normalize(sig, algorithm)
  {
    NormalizeIsLow(sig, algorithm);
  }

  /** The low one of `s` and its negation. */
  function Folded(s: nat, n: nat): nat {
    if s <= n / 2 then s else Negated(s, n)
  }

  lemma {:induction false} FoldedIdentifies(s: nat, t: nat, n: nat)
    requires IsOrder(n) && s < TWO_256 && t < TWO_256
    ensures Folded(s, n) == Folded(t, n) <==> SameUpToSign(s, t, n)
  {
    Remainders(s + t, n);
    Remainders(if s >= t then s - t else t - s, n);
  }

  /** Two signatures have one normal form exactly when they share `r` and agree on `s` up to sign modulo the order. */
  lemma {:induction false} NormalizeIdentifies(a: Bytes, b: Bytes, algorithm: Algorithm)
    requires IsSignature(a, algorithm) && IsSignature(b, algorithm)
    ensures Normalize(a, algorithm) == Normalize(b, algorithm)
            <==> R(a) == R(b) && SameUpToSign(S(a), S(b), Order(algorithm).value)
  {
    var n := Order(algorithm).value;
    NormalForm(a, algorithm);
    NormalForm(b, algorithm);
    FoldedIdentifies(S(a), S(b), n);
    var low, other := Normalize(a, algorithm).value, Normalize(b, algorithm).value;
    if R(low) == R(other) && S(low) == S(other) {
      SignatureIsPair(low, other);
    }
  }

  lemma {:induction false} NormalForm(sig: Bytes, algorithm: Algorithm)
    requires IsSignature(sig, algorithm)
    ensures S(sig) < TWO_256
    ensures var low := Normalize(sig, algorithm).value;
            |low| == 64 && R(low) == R(sig) && S(low) == Folded(S(sig), Order(algorithm).value)
  {
    var n := Order(algorithm).value;
    SFits(sig, n);
    if S(sig) > n / 2 {
      Assembled(R(sig), Negated(S(sig), n));
    }
  }

  lemma {:induction false} HighForm(sig: Bytes, algorithm: Algorithm)
    requires IsSignature(sig, algorithm)
    ensures var n, high := Order(algorithm).value, MakeHigh(sig, algorithm).value;
            |high| == 64 && R(high) == R(sig) && S(high) == if S(sig) > n / 2 then S(sig) else n - S(sig)
  {
    var n := Order(algorithm).value;
    SFits(sig, n);
    if S(sig) <= n / 2 {
      Assembled(R(sig), Negated(S(sig), n));
    }
  }

  /** The high form is never low and has the same normal form. */
  lemma {:induction false} NormalizeUndoesMakeHigh(sig: Bytes, algorithm: Algorithm)
    ensures MakeHigh(sig, algorithm).None? <==> !IsSignature(sig, algorithm)
    ensures var high := MakeHigh(sig, algorithm);
            high.Some? ==>
              !IsLow(high.value, algorithm) && Normalize(high.value, algorithm) == Normalize(sig, algorithm)
  {
    if IsSignature(sig, algorithm) {
      var n := Order(algorithm).value;
      HighForm(sig, algorithm);
      var high := MakeHigh(sig, algorithm).value;
      SFits(sig, n);
      Remainders(S(high) + S(sig), n);
      Remainders(0, n);
      NormalizeIdentifies(high, sig, algorithm);
    }
  }

  /** Making a normalized signature high again restores it exactly when its `s` was high and at most the order. */
  lemma {:induction false} MakeHighUndoesNormalize(sig: Bytes, algorithm: Algorithm)
    requires IsSignature(sig, algorithm)
    ensures MakeHigh(Normalize(sig, algorithm).value, algorithm) == Some(sig)
            <==> Order(algorithm).value / 2 < S(sig) <= Order(algorithm).value
  {
    var low := Normalize(sig, algorithm).value;
    NormalForm(sig, algorithm);
    HighForm(low, algorithm);
    var high := MakeHigh(low, algorithm).value;
    if S(high) == S(sig) {
      SignatureIsPair(high, sig);
    }
  }

  /** So it is no inverse on all high signatures: `s` one above the order comes back one below it. */
  lemma {:induction false} MakeHighIsNoInverse() returns (sig: Bytes)
    ensures IsSignature(sig, Secp256k1) && !IsLow(sig, Secp256k1)
    ensures MakeHigh(Normalize(sig, Secp256k1).value, Secp256k1) != Some(sig)
  {
    TwoTo256();
    ToBytesFits(SECP256K1_ORDER + 1, 32);
    sig := Assemble(Zeros(32), SECP256K1_ORDER + 1);
    Assembled(Zeros(32), SECP256K1_ORDER + 1);
    MakeHighUndoesNormalize(sig, Secp256k1);
  }
}
