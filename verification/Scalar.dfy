/**
 The scalar field of BN254 and its byte encodings (program/src/plonk.rs).

 An element is its canonical representative, an integer below R. An expression
 of several field operations is written over the integers and reduced once:
 reduction is a ring homomorphism, so that is the element the field operations
 reach one by one.
 */
module Scalar {
  import opened Bytes
  import opened Modular

  /**
   p is the number these limbs spell, least significant first. The two moduli are
   declared by their limbs, and only the few lemmas that need their size spell
   them out.
   */
  predicate HasLimbs(p: int, limbs: seq<U64>)
    decreases limbs, p
  {
    if limbs == [] then p == 0 else p % TWO_64 == limbs[0] && HasLimbs(p / TWO_64, limbs[1..])
  }

  lemma OneLimbMore(limb: U64, rest: nat, limbs: seq<U64>, p: int)
    requires p == limb + TWO_64 * rest
    ensures HasLimbs(p, [limb] + limbs) <==> HasLimbs(rest, limbs)
  {
    assert ([limb] + limbs)[1..] == limbs;
  }

  lemma FourLimbs(a: U64, b: U64, c: U64, d: U64)
    ensures HasLimbs(a + TWO_64 * (b + TWO_64 * (c + TWO_64 * d)), [a, b, c, d])
  {
    assert HasLimbs(0, []);
    OneLimbMore(d, 0, [], d);
    OneLimbMore(c, d, [d], c + TWO_64 * d);
    OneLimbMore(b, c + TWO_64 * d, [c, d], b + TWO_64 * (c + TWO_64 * d));
    OneLimbMore(a, b + TWO_64 * (c + TWO_64 * d), [b, c, d], a + TWO_64 * (b + TWO_64 * (c + TWO_64 * d)));
    assert [d] + [] == [d] && [c] + [d] == [c, d] && [b] + [c, d] == [b, c, d] && [a] + [b, c, d] == [a, b, c, d];
  }

  lemma {:induction false} LimbsDetermine(p: int, q: int, limbs: seq<U64>)
    requires HasLimbs(p, limbs) && HasLimbs(q, limbs)
    ensures p == q
    decreases limbs
  {
    if limbs == [] {
    } else {
      LimbsDetermine(p / TWO_64, q / TWO_64, limbs[1..]);
    }
  }

  /** A modulus given by its limbs. */
  function Modulus(a: U64, b: U64, c: U64, d: U64): (p: int)
    ensures HasLimbs(p, [a, b, c, d])
    ensures d > 0 ==> p > 3
  {
    FourLimbs(a, b, c, d);
    a + TWO_64 * (b + TWO_64 * (c + TWO_64 * d))
  }

  /** The order of BN254's G1 (EIP-196), 0x30644e72e131a029b85045b68181585d2833e84879b9709143e1f593f0000001. */
  type ScalarModulus = p: int | p > 3
      && HasLimbs(p, [0x43e1f593f0000001, 0x2833e84879b97091, 0xb85045b68181585d, 0x30644e72e131a029])
    witness Modulus(0x43e1f593f0000001, 0x2833e84879b97091, 0xb85045b68181585d, 0x30644e72e131a029)

  const R: ScalarModulus

  lemma ScalarModulusValue()
    ensures R == 0x30644e72e131a029b85045b68181585d2833e84879b9709143e1f593f0000001
  {
    FourLimbs(0x43e1f593f0000001, 0x2833e84879b97091, 0xb85045b68181585d, 0x30644e72e131a029);
    LimbsDetermine(R, 0x30644e72e131a029b85045b68181585d2833e84879b9709143e1f593f0000001,
                   [0x43e1f593f0000001, 0x2833e84879b97091, 0xb85045b68181585d, 0x30644e72e131a029]);
  }

  type Fr = x: int | 0 <= x < R

  function Red(x: int): Fr {
    Residue(x, R)
  }

  lemma RedIsMod(x: int)
    ensures Red(x) == x % R
  {
    ResidueIsMod(x, R);
  }

  function FAdd(a: Fr, b: Fr): Fr {
    Red(a + b)
  }

  function FMul(a: Fr, b: Fr): Fr {
    Red(a * b)
  }

  /** x and y name one element of the field. */
  ghost predicate Eq(x: int, y: int) {
    Congruent(x, y, R)
  }

  lemma EqDifference(x: int, y: int)
    ensures Eq(x - y, 0) <==> Eq(x, y)
  {
    DifferenceVanishes(x, y, R);
  }

  /** A field has no zero divisors. */
  lemma EqProductZero(x: int, y: int)
    requires Prime(R)
    ensures Eq(x * y, 0) <==> Eq(x, 0) || Eq(y, 0)
  {
    NoZeroDivisors(x, y, R);
  }

  lemma EqCancel(d: int, x: int, y: int)
    requires Prime(R) && !Eq(d, 0) && Eq(d * x, d * y)
    ensures Eq(x, y)
  {
    EqDifference(d * x, d * y);
    Factored(d, x, y);
    EqProductZero(d, x - y);
    EqDifference(x, y);
  }

  lemma Factored(d: int, x: int, y: int)
    ensures d * x - d * y == d * (x - y)
  {
  }

  lemma RedEq(x: int)
    ensures Eq(Red(x), x) && Eq(x, Red(x))
  {
  }

  lemma EqAdd(a: int, a': int, b: int, b': int)
    requires Eq(a, a') && Eq(b, b')
    ensures Eq(a + b, a' + b') && Eq(a - b, a' - b')
  {
    CongruentAdd(a, a', b, b', R);
  }

  lemma EqMul(a: int, a': int, b: int, b': int)
    requires Eq(a, a') && Eq(b, b')
    ensures Eq(a * b, a' * b')
  {
    CongruentMul(a, a', b, b', R);
  }

  lemma EqScale(k: int, a: int, b: int)
    requires Eq(a, b)
    ensures Eq(k * a, k * b)
  {
    EqMul(k, k, a, b);
  }

  /** The field operations agree with the integers' own. */
  lemma FieldHomomorphism(x: int, y: int)
    ensures FAdd(Red(x), Red(y)) == Red(x + y)
    ensures FMul(Red(x), Red(y)) == Red(x * y)
  {
    RedEq(x);
    RedEq(y);
    EqAdd(Red(x), x, Red(y), y);
    EqMul(Red(x), x, Red(y), y);
  }

  // ---------------------------------------------------------------------------
  // fr_reduce
  // ---------------------------------------------------------------------------

  /** Two u128 halves and one multiplication by 2^128, built as `u128::MAX + 1`. */
  function FrReduce(bytes: seq<Byte>): Fr
    requires |bytes| >= 32
  {
    var hi := BE(bytes[..16]);
    var lo := BE(bytes[16..32]);
    FAdd(FMul(Red(hi), FAdd(Red(TWO_128 - 1), Red(1))), Red(lo))
  }

  /** The halves give the 256-bit big-endian value modulo R, for every input. */
  lemma FrReduceIsValueModR(bytes: seq<Byte>)
    requires |bytes| >= 32
    ensures FrReduce(bytes) == BE(bytes[..32]) % R
  {
    var hi, lo := BE(bytes[..16]), BE(bytes[16..32]);
    RedIsMod(hi * TWO_128 + lo);
    FieldHomomorphism(TWO_128 - 1, 1);
    FieldHomomorphism(hi, TWO_128);
    FieldHomomorphism(hi * TWO_128, lo);
    BEConcat(bytes[..16], bytes[16..32]);
    Pow256Values();
    assert bytes[..32] == bytes[..16] + bytes[16..32];
  }

  /** So a digest is read as its 256-bit value modulo R. */
  lemma DigestReduced(digest: Bytes32)
    ensures FrReduce(digest) == BE(digest) % R
  {
    FrReduceIsValueModR(digest);
    assert digest[..32] == digest;
  }

  // ---------------------------------------------------------------------------
  // Limbs
  // ---------------------------------------------------------------------------

  function Word(bytes: seq<Byte>, i: nat): (w: U64)
    requires 8 * i + 8 <= |bytes|
  {
    BEBound(bytes[8 * i..8 * i + 8]);
    Pow256Values();
    BE(bytes[8 * i..8 * i + 8])
  }

  /** The first n words as limbs, least significant first. */
  function LimbsFrom(bytes: seq<Byte>, n: nat): (limbs: seq<U64>)
    requires 8 * n <= |bytes|
    ensures |limbs| == n
    decreases n, bytes
  {
    if n == 0 then [] else [Word(bytes, n - 1)] + LimbsFrom(bytes, n - 1)
  }

  function LimbsOf(bytes: seq<Byte>): (limbs: seq<U64>)
    requires |bytes| >= 32
    ensures |limbs| == 4
  {
    LimbsFrom(bytes, 4)
  }

  /** The integer a BigInt of these limbs holds. */
  function BigIntValue(limbs: seq<U64>): nat {
    if limbs == [] then 0 else limbs[0] + TWO_64 * BigIntValue(limbs[1..])
  }

  method BeLimbs(bytes: seq<Byte>) returns (limbs: array<U64>)
    requires |bytes| >= 32
    ensures fresh(limbs) && limbs[..] == LimbsOf(bytes)
  {
    limbs := new U64[4](_ => 0);
    for i := 0 to 4
      invariant limbs.Length == 4
      invariant limbs[4 - i..] == LimbsFrom(bytes, i)
    {
      limbs[3 - i] := Word(bytes, i);
    }
    assert limbs[..] == limbs[4 - 4..];
  }

  lemma {:induction false} LimbsHoldWords(bytes: seq<Byte>, n: nat)
    requires 8 * n <= |bytes|
    ensures BigIntValue(LimbsFrom(bytes, n)) == BE(bytes[..8 * n])
    decreases n
  {
    if n == 0 {
    } else {
      LimbsHoldWords(bytes, n - 1);
      NextWord(bytes, n - 1);
      BigIntPrepend(Word(bytes, n - 1), LimbsFrom(bytes, n - 1));
    }
  }

  lemma BigIntPrepend(limb: U64, limbs: seq<U64>)
    ensures BigIntValue([limb] + limbs) == limb + TWO_64 * BigIntValue(limbs)
  {
    assert ([limb] + limbs)[1..] == limbs;
  }

  lemma LimbsHoldValue(bytes: seq<Byte>)
    requires |bytes| >= 32
    ensures BigIntValue(LimbsOf(bytes)) == BE(bytes[..32])
  {
    LimbsHoldWords(bytes, 4);
  }

  lemma NextWord(bytes: seq<Byte>, i: nat)
    requires 8 * i + 8 <= |bytes|
    ensures BE(bytes[..8 * i + 8]) == BE(bytes[..8 * i]) * TWO_64 + Word(bytes, i)
  {
    Pow256Values();
    BEConcat(bytes[..8 * i], bytes[8 * i..8 * i + 8]);
    assert bytes[..8 * i + 8] == bytes[..8 * i] + bytes[8 * i..8 * i + 8];
  }

  /** `Fr::from_bigint`, which refuses what is not below the modulus. */
  function FrCanonical(bytes: seq<Byte>): Option<Fr>
    requires |bytes| >= 32
  {
    var v := BigIntValue(LimbsOf(bytes));
    if v < R then Some(v) else None
  }

  /** The limbs of `into_bigint`. */
  function Limb(x: nat, j: nat): U64 {
    Shr(x, 8 * j) % TWO_64
  }

  /** The bytes `fr_bytes` has laid down after i limbs. */
  ghost function Prefix(x: Fr, i: nat): (s: seq<Byte>)
    requires i <= 4
    ensures |s| == 8 * i
  {
    ToBE(Shr(x, 32 - 8 * i), 8 * i)
  }

  /** `fr_bytes`: four limbs, most significant first, eight bytes each. */
  method FrBytes(x: Fr) returns (out: array<Byte>)
    ensures fresh(out) && out[..] == ToBE(x, 32)
  {
    out := new Byte[32](_ => 0);
    for i := 0 to 4
      invariant out.Length == 32
      invariant out[..8 * i] == Prefix(x, i)
    {
      var limb := ToBE(Limb(x, 3 - i), 8);
      ghost var was := out[..8 * i];
      CopyInto(out, 8 * i, limb);
      assert out[..8 * i + 8] == was + limb;
      PrefixStep(x, i);
    }
    PrefixFull(x);
    assert out[..] == out[..32];
  }

  lemma PrefixFull(x: Fr)
    ensures Prefix(x, 4) == ToBE(x, 32)
  {
  }

  lemma PrefixStep(x: Fr, i: nat)
    requires i < 4
    ensures Prefix(x, i + 1) == Prefix(x, i) + ToBE(Limb(x, 3 - i), 8)
  {
    var j := 24 - 8 * i;
    ShrShr(x, j, 8);
    NextLimb(Shr(x, j), 8 * i);
  }

  /** The low eight bytes split off. */
  lemma NextLimb(y: nat, m: nat)
    ensures ToBE(y, m + 8) == ToBE(Shr(y, 8), m) + ToBE(y % TWO_64, 8)
  {
    ToBESplit(y, m, 8);
    ToBELow(y, 8);
    Pow256Values();
  }

  lemma FrFits(x: Fr)
    ensures x < Pow256(32)
  {
    ScalarModulusValue();
    Pow256Values();
  }

  /**
   The canonical parse succeeds exactly below the modulus, `fr_bytes` undoes it,
   and it undoes `fr_bytes`.
   */
  lemma FrCanonicalExact(bytes: seq<Byte>)
    requires |bytes| == 32
    ensures FrCanonical(bytes) == if BE(bytes) < R then Some(BE(bytes)) else None
    ensures FrCanonical(bytes).Some? ==> ToBE(FrCanonical(bytes).value, 32) == bytes
  {
    LimbsHoldValue(bytes);
    assert bytes[..32] == bytes;
    ToBEOfBE(bytes);
  }

  lemma FrBytesParse(x: Fr)
    ensures FrCanonical(ToBE(x, 32)) == Some(x)
  {
    FrFits(x);
    BEOfToBE(x, 32);
    FrCanonicalExact(ToBE(x, 32));
  }

  // ---------------------------------------------------------------------------
  // Inversion
  // ---------------------------------------------------------------------------

  /** `Fr::inverse`: none exactly for zero. */
  function FrInverse(x: Fr): (i: Option<Fr>)
    requires Prime(R)
    ensures i.None? <==> x == 0
    ensures i.Some? ==> Red(x * i.value) == 1
  {
    if x == 0 then
      None
    else
      var i := Inverse(x, R);
      RedIsMod(x * i);
      Some(i)
  }
}
