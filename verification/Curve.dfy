/**
 Points of BN254's G1 in the EIP-197 encoding, and what the `alt_bn128`
 syscalls are taken to compute on them.
 */
module Curve {
  import opened Bytes
  import opened Modular
  import opened Scalar

  /** The base field modulus (EIP-196), 0x30644e72e131a029b85045b68181585d97816a916871ca8d3c208c16d87cfd47. */
  type BaseModulus = p: int | p > 3
      && HasLimbs(p, [0x3c208c16d87cfd47, 0x97816a916871ca8d, 0xb85045b68181585d, 0x30644e72e131a029])
    witness Modulus(0x3c208c16d87cfd47, 0x97816a916871ca8d, 0xb85045b68181585d, 0x30644e72e131a029)

  const Q: BaseModulus

  lemma BaseModulusValue()
    ensures Q == 0x30644e72e131a029b85045b68181585d97816a916871ca8d3c208c16d87cfd47
  {
    FourLimbs(0x3c208c16d87cfd47, 0x97816a916871ca8d, 0xb85045b68181585d, 0x30644e72e131a029);
    LimbsDetermine(Q, 0x30644e72e131a029b85045b68181585d97816a916871ca8d3c208c16d87cfd47,
                   [0x3c208c16d87cfd47, 0x97816a916871ca8d, 0xb85045b68181585d, 0x30644e72e131a029]);
  }

  type G1 = s: seq<Byte> | |s| == 64 witness Zeros(64)

  /** The encoded point at infinity. */
  const INFINITY: G1 := Zeros(64)

  const G1_GEN: G1 := Zeros(31) + [1] + Zeros(31) + [2]

  function Encode(x: nat, y: nat): G1 {
    ToBE(x, 32) + ToBE(y, 32)
  }

  function FqCanonical(bytes: seq<Byte>): Option<nat>
    requires |bytes| >= 32
  {
    var v := BigIntValue(LimbsOf(bytes));
    if v < Q then Some(v) else None
  }

  predicate CurveEquation(x: int, y: int) {
    Congruent(y * y, x * x * x + 3, Q)
  }

  /** `y^2 == x^3 + 3`, with both coordinates canonical. */
  predicate OnCurve(point: G1) {
    match (FqCanonical(point[..32]), FqCanonical(point[32..]))
    case (Some(x), Some(y)) => CurveEquation(x, y)
    case _ => false
  }

  /** What a syscall accepts as an operand. */
  predicate Valid(point: G1) {
    point == INFINITY || OnCurve(point)
  }

  /** `(x, y)` becomes `(x, -y)`, with no syscall. */
  function G1Neg(point: G1): G1 {
    var y := Residue(BE(point[32..]), Q);
    if y == 0 then point else point[..32] + ToBE(Q - y, 32)
  }

  lemma FqCanonicalExact(bytes: seq<Byte>)
    requires |bytes| == 32
    ensures FqCanonical(bytes) == if BE(bytes) < Q then Some(BE(bytes)) else None
  {
    LimbsHoldValue(bytes);
    assert bytes[..32] == bytes;
  }

  lemma QFits()
    ensures Q < Pow256(32)
  {
    BaseModulusValue();
    Pow256Values();
  }

  /** A point on the curve is the encoding of its two coordinates. */
  lemma Coordinates(point: G1) returns (x: nat, y: nat)
    requires OnCurve(point)
    ensures x < Q && y < Q && CurveEquation(x, y) && point == Encode(x, y)
    ensures x == BE(point[..32]) && y == BE(point[32..])
  {
    FqCanonicalExact(point[..32]);
    FqCanonicalExact(point[32..]);
    x, y := BE(point[..32]), BE(point[32..]);
    ToBEOfBE(point[..32]);
    ToBEOfBE(point[32..]);
    assert point == point[..32] + point[32..];
  }

  lemma EncodedCoordinates(x: nat, y: nat)
    requires x < Q && y < Q
    ensures BE(Encode(x, y)[..32]) == x && BE(Encode(x, y)[32..]) == y
    ensures Encode(x, y)[..32] == ToBE(x, 32) && Encode(x, y)[32..] == ToBE(y, 32)
  {
    QFits();
    BEOfToBE(x, 32);
    BEOfToBE(y, 32);
    assert Encode(x, y)[..32] == ToBE(x, 32);
    assert Encode(x, y)[32..] == ToBE(y, 32);
  }

  lemma EncodedOnCurve(x: nat, y: nat)
    requires x < Q && y < Q
    ensures OnCurve(Encode(x, y)) <==> CurveEquation(x, y)
  {
    EncodedCoordinates(x, y);
    FqCanonicalExact(ToBE(x, 32));
    FqCanonicalExact(ToBE(y, 32));
  }

  lemma InfinityOffCurve()
    ensures !OnCurve(INFINITY)
  {
    assert INFINITY[..32] == Zeros(32) && INFINITY[32..] == Zeros(32);
    BEZeros(32);
    FqCanonicalExact(Zeros(32));
    assert !CurveEquation(0, 0);
  }

  function NegY(y: nat): nat
    requires y < Q
  {
    Opposite(y, Q)
  }

  lemma NegCoordinates(x: nat, y: nat)
    requires x < Q && y < Q
    ensures G1Neg(Encode(x, y)) == Encode(x, NegY(y))
  {
    EncodedCoordinates(x, y);
  }

  lemma NegOnCurve(x: nat, y: nat)
    requires x < Q && y < Q && CurveEquation(x, y)
    ensures OnCurve(Encode(x, NegY(y)))
  {
    NegatedEquation(x, y);
    EncodedOnCurve(x, NegY(y));
  }

  lemma NegatedEquation(x: int, y: int)
    requires CurveEquation(x, y)
    ensures CurveEquation(x, Q - y)
  {
    CongruentBy((Q - y) * (Q - y), y * y, Q - 2 * y, Q);
  }

  lemma NegValid(point: G1)
    requires Valid(point)
    ensures Valid(G1Neg(point))
  {
    if OnCurve(point) {
      var x, y := Coordinates(point);
      NegCoordinates(x, y);
      NegOnCurve(x, y);
    } else {
      BEZeros(32);
      assert point[32..] == Zeros(32);
    }
  }

  // ---------------------------------------------------------------------------
  // What the group and the syscalls are taken to be
  // ---------------------------------------------------------------------------

  datatype Syscalls = Syscalls(
    g1Mul: seq<Byte> -> Option<G1>,
    g1Add: seq<Byte> -> Option<G1>,
    pairing: seq<Byte> -> Option<seq<Byte>>,
    compress: G1 -> Option<Bytes32>,
    decompress: Bytes32 -> Option<G1>,
    keccak: seq<Byte> -> Bytes32,
    sha256: seq<Byte> -> Bytes32)

  /**
   The group the points live in: which encodings are elements, the discrete
   logarithm to the base of the generator, and the setup secret.
   */
  datatype Group = Group(valid: G1 -> bool, log: G1 -> int, tau: int)

  /** d is the double of the point (x, y) by the tangent rule. */
  ghost predicate IsDouble(x: int, y: int, dx: int, dy: int, slope: int) {
    && Congruent(2 * y * slope, 3 * x * x, Q)
    && Congruent(slope * slope, 2 * x + dx, Q)
    && Congruent(slope * (x - dx), y + dy, Q)
  }

  /**
   The points are a cyclic group of order R generated by (1, 2): the logarithm
   is defined on every valid encoding, loses nothing, and carries negation and
   doubling to those of the exponents.
   */
  ghost predicate IsLogarithm(log: G1 -> int) {
    && (forall p: G1 :: Valid(p) ==> 0 <= log(p) < R)
    && (forall p: G1, q: G1 :: Valid(p) && Valid(q) && log(p) == log(q) ==> p == q)
    && log(INFINITY) == 0
    && log(G1_GEN) == 1
    && (forall p: G1 {:trigger G1Neg(p)} :: Valid(p) ==> log(G1Neg(p)) == Red(-log(p)))
    && (forall x: nat, y: nat, dx: nat, dy: nat, slope: int ::
          x < Q && y < Q && dx < Q && dy < Q && CurveEquation(x, y) && y != 0 && IsDouble(x, y, dx, dy, slope) ==>
            log(Encode(dx, dy)) == Red(2 * log(Encode(x, y))))
  }

  /** The elements are the canonical curve points and infinity. */
  ghost predicate CurveGroup(g: Group) {
    && (forall p: G1 :: g.valid(p) <==> Valid(p))
    && IsLogarithm(g.log)
  }

  /** Multiplication and addition refuse what is not an element, and otherwise compute in the exponent. */
  ghost predicate GroupSyscalls(sys: Syscalls, g: Group) {
    && (forall p: G1, k: seq<Byte> {:trigger sys.g1Mul(p + k)} | |k| == 32 ::
          && (sys.g1Mul(p + k).Some? <==> g.valid(p))
          && (g.valid(p) ==> g.valid(sys.g1Mul(p + k).value) && g.log(sys.g1Mul(p + k).value) == Red(g.log(p) * BE(k))))
    && (forall p: G1, q: G1 {:trigger sys.g1Add(p + q)} ::
          && (sys.g1Add(p + q).Some? <==> g.valid(p) && g.valid(q))
          && (g.valid(p) && g.valid(q) ==>
                g.valid(sys.g1Add(p + q).value) && g.log(sys.g1Add(p + q).value) == Red(g.log(p) + g.log(q))))
  }

  /** The pairing check on the verifier's two fixed G2 points, `[tau]_2` and `[1]_2`. */
  ghost predicate PairingSyscall(sys: Syscalls, g: Group, x2: seq<Byte>, g2: seq<Byte>) {
    forall a: G1, b: G1 {:trigger sys.pairing(a + x2 + b + g2)} ::
      && (sys.pairing(a + x2 + b + g2).Some? <==> g.valid(a) && g.valid(b))
      && (g.valid(a) && g.valid(b) ==>
            var out := sys.pairing(a + x2 + b + g2).value;
            (out != [] && out[|out| - 1] == 1) <==> Eq(g.log(a) * g.tau + g.log(b), 0))
  }

  /** Coordinate negation is group negation. */
  ghost predicate NegationLaw(g: Group) {
    forall p: G1 {:trigger G1Neg(p)} | g.valid(p) :: g.valid(G1Neg(p)) && g.log(G1Neg(p)) == Red(-g.log(p))
  }

  lemma SameElements(g: Group, p: G1)
    requires CurveGroup(g)
    ensures g.valid(p) <==> Valid(p)
  {
  }

  lemma NegationOf(g: Group, p: G1, n: G1)
    requires CurveGroup(g) && g.valid(p) && n == G1Neg(p)
    ensures g.valid(n) && g.log(n) == Red(-g.log(p))
  {
    SameElements(g, p);
    SameElements(g, n);
    NegValid(p);
    LogOfNegation(g.log, p);
  }

  lemma CurveNegation(g: Group)
    requires CurveGroup(g)
    ensures NegationLaw(g)
  {
    forall p: G1 | g.valid(p) ensures g.valid(G1Neg(p)) && g.log(G1Neg(p)) == Red(-g.log(p)) {
      NegationOf(g, p, G1Neg(p));
    }
  }

  // ---------------------------------------------------------------------------
  // Torsion: consequences of the prime order
  // ---------------------------------------------------------------------------

  lemma SmallOrder(k: int, l: Fr)
    requires Prime(R) && 0 < k < R && Eq(k * l, 0)
    ensures l == 0
  {
    EqProductZero(k, l);
  }

  lemma OwnNegation(l: int)
    requires Prime(R) && 0 <= l < R && l == Red(-l)
    ensures l == 0
  {
    EqAdd(l, -l, l, l);
    SmallOrder(2, l);
  }

  lemma NegatedByDoubling(l: int)
    requires Prime(R) && 0 <= l < R && Red(2 * l) == Red(-l)
    ensures l == 0
  {
    EqAdd(2 * l, -l, l, l);
    SmallOrder(3, l);
  }

  lemma ZeroLogarithm(log: G1 -> int, p: G1)
    requires IsLogarithm(log) && OnCurve(p)
    ensures 0 < log(p) < R
  {
    InfinityOffCurve();
    assert Valid(INFINITY) && Valid(p);
  }

  lemma LogOfNegation(log: G1 -> int, p: G1)
    requires IsLogarithm(log) && Valid(p)
    ensures log(G1Neg(p)) == Red(-log(p))
  {
  }

  lemma NotOwnNegation(log: G1 -> int, p: G1)
    requires Prime(R) && IsLogarithm(log) && OnCurve(p)
    ensures G1Neg(p) != p
  {
    ZeroLogarithm(log, p);
    LogOfNegation(log, p);
    if G1Neg(p) == p {
      OwnNegation(log(p));
      assert false;
    }
  }

  /** No point has y = 0: it would be its own negation. */
  lemma NoTwoTorsion(log: G1 -> int, x: nat, y: nat)
    requires Prime(R) && IsLogarithm(log) && x < Q && y < Q && CurveEquation(x, y)
    ensures y != 0
  {
    EncodedOnCurve(x, y);
    NegCoordinates(x, y);
    NotOwnNegation(log, Encode(x, y));
  }

  lemma FlatTangent(log: G1 -> int, x: nat, y: nat)
    requires IsLogarithm(log) && x == 0 && 0 < y < Q && CurveEquation(x, y)
    ensures log(Encode(x, Q - y)) == Red(2 * log(Encode(x, y)))
  {
    CongruentBy(0, Q, -1, Q);
    assert IsDouble(x, y, x, Q - y, 0);
  }

  /** No point has x = 0: its tangent is horizontal, so its double is its negation. */
  lemma NoThreeTorsion(log: G1 -> int, x: nat, y: nat)
    requires Prime(R) && IsLogarithm(log) && x < Q && y < Q && CurveEquation(x, y)
    ensures x != 0
  {
    NoTwoTorsion(log, x, y);
    if x == 0 {
      EncodedOnCurve(x, y);
      NegCoordinates(x, y);
      FlatTangent(log, x, y);
      DoubleIsNotNegation(log, Encode(x, y), Encode(x, Q - y));
      assert false;
    }
  }

  lemma DoubleIsNotNegation(log: G1 -> int, p: G1, d: G1)
    requires Prime(R) && IsLogarithm(log) && OnCurve(p) && log(d) == Red(2 * log(p))
    ensures G1Neg(p) != d
  {
    ZeroLogarithm(log, p);
    LogOfNegation(log, p);
    if G1Neg(p) == d {
      NegatedByDoubling(log(p));
      assert false;
    }
  }
}
