/** The PLONK verifier over points, and what it accepts (program/src/plonk.rs). */
module Verifier {
  import opened Bytes
  import opened Modular
  import opened Scalar
  import opened Curve
  import opened Compression
  import opened Algebra
  import opened Batching
  import opened Acceptance
  import opened Transcript

  /** The runtime, the circuit constants, and the group the points live in. */
  datatype Env = Env(sys: Syscalls, vk: Vk, g: Group)

  ghost predicate ValidVk(vk: Vk, g: Group) {
    && g.valid(vk.qm) && g.valid(vk.ql) && g.valid(vk.qr) && g.valid(vk.qo) && g.valid(vk.qc)
    && g.valid(vk.s1) && g.valid(vk.s2) && g.valid(vk.s3)
    && FrCanonical(vk.w1).Some?
    && |vk.x2| == 128 && |vk.g2| == 128
  }

  /** The assumptions: both moduli are prime, and syscalls and constants are what they should be. */
  ghost predicate Trusted(env: Env) {
    && Prime(R) && Prime(Q)
    && CurveGroup(env.g)
    && GroupSyscalls(env.sys, env.g)
    && PairingSyscall(env.sys, env.g, env.vk.x2, env.vk.g2)
    && CompressionSyscalls(env.sys)
    && ValidVk(env.vk, env.g)
  }

  // ---------------------------------------------------------------------------
  // What is accepted
  // ---------------------------------------------------------------------------

  ghost function PointLogs(log: G1 -> int, vk: Vk, p: Proof): (s: seq<int>)
    ensures |s| == 15
  {
    [log(vk.qc), log(vk.qm), log(vk.ql), log(vk.qr), log(vk.qo), log(p.z), log(vk.s3),
     log(p.t1), log(p.t2), log(p.t3), log(p.a), log(p.b), log(p.c), log(vk.s1), log(vk.s2)]
  }

  ghost function ExponentsOf(log: G1 -> int, vk: Vk, p: Proof): (x: Exponents)
    ensures |x.points| == 15
  {
    Exponents(PointLogs(log, vk, p), log(p.wxi), log(p.wxiw))
  }

  ghost predicate CommitmentsValid(g: Group, p: Proof) {
    && g.valid(p.a) && g.valid(p.b) && g.valid(p.c) && g.valid(p.z)
    && g.valid(p.t1) && g.valid(p.t2) && g.valid(p.t3) && g.valid(p.wxi) && g.valid(p.wxiw)
  }

  /** `checkProofData`, which the program does not run. */
  predicate WellFormed(p: Proof) {
    && OnCurve(p.a) && OnCurve(p.b) && OnCurve(p.c) && OnCurve(p.z)
    && OnCurve(p.t1) && OnCurve(p.t2) && OnCurve(p.t3) && OnCurve(p.wxi) && OnCurve(p.wxiw)
  }

  predicate SomeInfinity(p: Proof) {
    || p.a == INFINITY || p.b == INFINITY || p.c == INFINITY || p.z == INFINITY
    || p.t1 == INFINITY || p.t2 == INFINITY || p.t3 == INFINITY || p.wxi == INFINITY || p.wxiw == INFINITY
  }

  /** The algebraic half of acceptance, for a parsed proof and its public input. */
  ghost predicate AlgebraAccepts(env: Env, p: Proof, pi: Fr)
    requires Prime(R) && FrCanonical(env.vk.w1).Some? && |p.raw| == PROOF_LEN
  {
    AcceptsWithL1(ExponentsOf(env.g.log, env.vk, p), p.evals, ChallengesOf(env.sys, env.vk, p, pi), pi,
                  FrCanonical(env.vk.w1).value, env.g.tau)
  }

  /** Exactly the byte strings `verify_with` accepts. */
  ghost predicate Verifies(env: Env, bytes: seq<Byte>, programVk: Bytes32, publicValues: seq<Byte>, checked: bool)
    requires Prime(R) && FrCanonical(env.vk.w1).Some?
  {
    match Parse(bytes)
    case None => false
    case Some(p) =>
      && (checked ==> WellFormed(p))
      && CommitmentsValid(env.g, p)
      && AlgebraAccepts(env, p, PublicInput(env.sys, env.vk, programVk, publicValues))
  }

  // ---------------------------------------------------------------------------
  // Point operations
  // ---------------------------------------------------------------------------

  method G1Mul(sys: Syscalls, ghost g: Group, point: G1, scalar: Fr) returns (r: Option<G1>)
    requires GroupSyscalls(sys, g)
    ensures r.Some? <==> g.valid(point)
    ensures r.Some? ==> g.valid(r.value) && Eq(g.log(r.value), g.log(point) * scalar)
  {
    var input := new Byte[96](_ => 0);
    Append(input, 0, point);
    assert input[..64] == point;
    AppendFr(input, 64, scalar);
    assert input[..] == point + FrB(scalar);
    FrFits(scalar);
    BEOfToBE(scalar, 32);
    r := sys.g1Mul(input[..]);
    RedEq(g.log(point) * scalar);
  }

  method G1Add(sys: Syscalls, ghost g: Group, a: G1, b: G1) returns (r: Option<G1>)
    requires GroupSyscalls(sys, g)
    ensures r.Some? <==> g.valid(a) && g.valid(b)
    ensures r.Some? ==> g.valid(r.value) && Eq(g.log(r.value), g.log(a) + g.log(b))
  {
    var input := new Byte[128](_ => 0);
    Append(input, 0, a);
    assert input[..64] == a;
    Append(input, 64, b);
    assert input[..] == a + b;
    r := sys.g1Add(input[..]);
    RedEq(g.log(a) + g.log(b));
  }

  lemma EqAccumulate(acc: int, sum: int, point: int, s: int, k: int, product: int, r: int)
    requires Eq(acc, sum) && Eq(s, k) && Eq(product, point * s) && Eq(r, acc + product)
    ensures Eq(r, sum + k * point)
  {
    EqScale(point, s, k);
    EqAdd(acc, sum, product, point * k);
  }

  /** `g1_mul_acc`; `sum` and `k` are what acc and scalar stand for. */
  method G1MulAcc(sys: Syscalls, ghost g: Group, acc: G1, point: G1, scalar: Fr, ghost sum: int, ghost k: int)
    returns (r: Option<G1>)
    requires GroupSyscalls(sys, g) && Eq(g.log(acc), sum) && Eq(scalar, k)
    ensures r.Some? <==> g.valid(acc) && g.valid(point)
    ensures r.Some? ==> g.valid(r.value) && Eq(g.log(r.value), sum + k * g.log(point))
  {
    var product :- G1Mul(sys, g, point, scalar);
    r := G1Add(sys, g, acc, product);
    if r.Some? {
      EqAccumulate(g.log(acc), sum, g.log(point), scalar, k, g.log(product), g.log(r.value));
    }
  }

  lemma EqProduct(point: int, x: int, s: int, k: int, r: int)
    requires Eq(point, x) && Eq(s, k) && Eq(r, point * s)
    ensures Eq(r, x * k)
  {
    EqMul(point, x, s, k);
  }

  lemma EqSum(a: int, x: int, b: int, y: int, r: int)
    requires Eq(a, x) && Eq(b, y) && Eq(r, a + b)
    ensures Eq(r, x + y)
  {
    EqAdd(a, x, b, y);
  }

  /** A multiplication by a field expression k, reduced as it is passed. */
  method ScaledBy(sys: Syscalls, ghost g: Group, point: G1, k: int) returns (r: Option<G1>)
    requires GroupSyscalls(sys, g)
    ensures r.Some? <==> g.valid(point)
    ensures r.Some? ==> g.valid(r.value) && Eq(g.log(r.value), g.log(point) * k)
  {
    r := G1Mul(sys, g, point, Red(k));
    RedEq(k);
    if r.Some? {
      assert Eq(g.log(point), g.log(point));
      EqProduct(g.log(point), g.log(point), Red(k), k, g.log(r.value));
    }
  }

  /** The addition of two elements, which no syscall refuses. */
  method AddValid(sys: Syscalls, ghost g: Group, a: G1, b: G1) returns (r: G1)
    requires GroupSyscalls(sys, g) && g.valid(a) && g.valid(b)
    ensures g.valid(r) && Eq(g.log(r), g.log(a) + g.log(b))
  {
    var sum := G1Add(sys, g, a, b);
    r := sum.value;
  }

  // ---------------------------------------------------------------------------
  // D, F and E
  // ---------------------------------------------------------------------------

  ghost function GateExponent(g: Group, vk: Vk, e: Evals): int {
    g.log(vk.qc) + (e.a * e.b) * g.log(vk.qm) + e.a * g.log(vk.ql) + e.b * g.log(vk.qr) + e.c * g.log(vk.qo)
  }

  ghost function QuotientExponent(g: Group, p: Proof, c: Challenges): int {
    (g.log(p.t1) + c.xin * g.log(p.t2) + (c.xin * c.xin) * g.log(p.t3)) * c.zh
  }

  /** The gate part of D: `qC + ab qM + a qL + b qR + c qO`. */
  method GatePart(sys: Syscalls, ghost g: Group, vk: Vk, e: Evals) returns (r: Option<G1>)
    requires GroupSyscalls(sys, g)
    ensures r.Some? <==> g.valid(vk.qc) && g.valid(vk.qm) && g.valid(vk.ql) && g.valid(vk.qr) && g.valid(vk.qo)
    ensures r.Some? ==> g.valid(r.value)
    ensures r.Some? ==> Eq(g.log(r.value), GateExponent(g, vk, e))
  {
    var d := vk.qc;
    ghost var sum := g.log(vk.qc);
    RedEq(e.a * e.b);
    d :- G1MulAcc(sys, g, d, vk.qm, Red(e.a * e.b), sum, e.a * e.b);
    sum := sum + (e.a * e.b) * g.log(vk.qm);
    d :- G1MulAcc(sys, g, d, vk.ql, e.a, sum, e.a);
    sum := sum + e.a * g.log(vk.ql);
    d :- G1MulAcc(sys, g, d, vk.qr, e.b, sum, e.b);
    sum := sum + e.b * g.log(vk.qr);
    r := G1MulAcc(sys, g, d, vk.qo, e.c, sum, e.c);
  }

  /** The quotient part of D: `zh (t1 + xi^n t2 + xi^2n t3)`. */
  method QuotientPart(sys: Syscalls, ghost g: Group, p: Proof, c: Challenges) returns (r: Option<G1>)
    requires GroupSyscalls(sys, g)
    ensures r.Some? <==> g.valid(p.t1) && g.valid(p.t2) && g.valid(p.t3)
    ensures r.Some? ==> g.valid(r.value)
    ensures r.Some? ==> Eq(g.log(r.value), QuotientExponent(g, p, c))
  {
    var d4 := p.t1;
    ghost var sum := g.log(p.t1);
    var product :- G1Mul(sys, g, p.t2, c.xin);
    d4 :- G1Add(sys, g, d4, product);
    EqAccumulate(sum, sum, g.log(p.t2), c.xin, c.xin, g.log(product), g.log(d4));
    sum := sum + c.xin * g.log(p.t2);
    RedEq(c.xin * c.xin);
    d4 :- G1MulAcc(sys, g, d4, p.t3, Red(c.xin * c.xin), sum, c.xin * c.xin);
    sum := sum + (c.xin * c.xin) * g.log(p.t3);
    r := G1Mul(sys, g, d4, c.zh);
    EqProduct(g.log(d4), sum, c.zh, c.zh, g.log(r.value));
  }

  /** The scalar on Z in D: permutation numerator, L1 term and u. */
  function ZScalar(e: Evals, c: Challenges, l1: Fr): int {
    var val1 := e.a + c.betaXi + c.gamma;
    var val2 := e.b + c.betaXi * K1 + c.gamma;
    var val3 := e.c + c.betaXi * K2 + c.gamma;
    val1 * val2 * val3 * c.alpha + l1 * c.alpha2 + c.u
  }

  /** The scalar on S3 in D, before it is subtracted. */
  function S3Scalar(e: Evals, c: Challenges): int {
    var val1 := e.a + c.beta * e.s1 + c.gamma;
    var val2 := e.b + c.beta * e.s2 + c.gamma;
    var val3 := c.alpha * c.beta * e.zw;
    val1 * val2 * val3
  }

  /** What the exponent of D adds up to, part by part. */
  ghost function DExponent(g: Group, vk: Vk, p: Proof, c: Challenges, l1: Fr): int {
    GateExponent(g, vk, p.evals) + g.log(p.z) * ZScalar(p.evals, c, l1)
    - g.log(vk.s3) * S3Scalar(p.evals, c) - QuotientExponent(g, p, c)
  }

  ghost predicate DOperands(g: Group, p: Proof) {
    g.valid(p.z) && g.valid(p.t1) && g.valid(p.t2) && g.valid(p.t3)
  }

  lemma EqSubtracted(a: int, b: int, n: int, r: int)
    requires n == Red(-b) && Eq(r, a + n)
    ensures Eq(r, a - b)
  {
    RedEq(-b);
    EqAdd(a, a, n, -b);
  }

  /** `g1_add(a, &g1_neg(b))` on two elements. */
  method SubtractValid(sys: Syscalls, ghost g: Group, a: G1, b: G1) returns (r: G1)
    requires GroupSyscalls(sys, g) && NegationLaw(g) && g.valid(a) && g.valid(b)
    ensures g.valid(r) && Eq(g.log(r), g.log(a) - g.log(b))
  {
    r := AddValid(sys, g, a, G1Neg(b));
    EqSubtracted(g.log(a), g.log(b), g.log(G1Neg(b)), g.log(r));
  }

  lemma EqMinus(a: int, x: int, b: int, y: int, r: int)
    requires Eq(a, x) && Eq(b, y) && Eq(r, a - b)
    ensures Eq(r, x - y)
  {
    EqAdd(a, x, b, y);
  }

  /** The last three additions of `calculate_d`; the arguments after the points are what they stand for. */
  method AssembleD(sys: Syscalls, ghost g: Group, gate: G1, d2: G1, d3: G1, d4: G1,
                  ghost x: int, ghost x2: int, ghost x3: int, ghost x4: int) returns (d: G1)
    requires GroupSyscalls(sys, g) && NegationLaw(g) && g.valid(gate) && g.valid(d2) && g.valid(d3) && g.valid(d4)
    requires Eq(g.log(gate), x) && Eq(g.log(d2), x2) && Eq(g.log(d3), x3) && Eq(g.log(d4), x4)
    ensures g.valid(d) && Eq(g.log(d), x + x2 - x3 - x4)
  {
    var sum2 := AddValid(sys, g, gate, d2);
    EqSum(g.log(gate), x, g.log(d2), x2, g.log(sum2));
    var sum3 := SubtractValid(sys, g, sum2, d3);
    EqMinus(g.log(sum2), x + x2, g.log(d3), x3, g.log(sum3));
    d := SubtractValid(sys, g, sum3, d4);
    EqMinus(g.log(sum3), x + x2 - x3, g.log(d4), x4, g.log(d));
  }

  /** `calculate_d`. */
  method CalculateD(sys: Syscalls, ghost g: Group, vk: Vk, p: Proof, c: Challenges, l1: Fr) returns (r: Option<G1>)
    requires GroupSyscalls(sys, g) && NegationLaw(g) && ValidVk(vk, g)
    ensures r.Some? <==> DOperands(g, p)
    ensures r.Some? ==> g.valid(r.value)
    ensures r.Some? ==> Eq(g.log(r.value), DExponent(g, vk, p, c, l1))
  {
    var e := p.evals;
    var gate := GatePart(sys, g, vk, e);
    var d2 :- ScaledBy(sys, g, p.z, ZScalar(e, c, l1));
    var d3 := ScaledBy(sys, g, vk.s3, S3Scalar(e, c));
    var d4 :- QuotientPart(sys, g, p, c);
    var d := AssembleD(sys, g, gate.value, d2, d3.value, d4, GateExponent(g, vk, e), g.log(p.z) * ZScalar(e, c, l1),
                      g.log(vk.s3) * S3Scalar(e, c), QuotientExponent(g, p, c));
    r := Some(d);
  }

  /** The exponent of F, given D's. */
  ghost function FSum(g: Group, vk: Vk, p: Proof, c: Challenges, d: int): int
    requires |c.v| == 5
  {
    d + c.v[0] * g.log(p.a) + c.v[1] * g.log(p.b) + c.v[2] * g.log(p.c) + c.v[3] * g.log(vk.s1) + c.v[4] * g.log(vk.s2)
  }

  /** `calculate_f`. */
  method CalculateF(sys: Syscalls, ghost g: Group, vk: Vk, p: Proof, c: Challenges, d: G1, ghost dx: int)
    returns (r: Option<G1>)
    requires GroupSyscalls(sys, g) && ValidVk(vk, g) && |c.v| == 5
    requires g.valid(d) && Eq(g.log(d), dx)
    ensures r.Some? <==> g.valid(p.a) && g.valid(p.b) && g.valid(p.c)
    ensures r.Some? ==> g.valid(r.value) && Eq(g.log(r.value), FSum(g, vk, p, c, dx))
  {
    ghost var sum := dx;
    var f :- G1MulAcc(sys, g, d, p.a, c.v[0], sum, c.v[0]);
    sum := sum + c.v[0] * g.log(p.a);
    f :- G1MulAcc(sys, g, f, p.b, c.v[1], sum, c.v[1]);
    sum := sum + c.v[1] * g.log(p.b);
    f :- G1MulAcc(sys, g, f, p.c, c.v[2], sum, c.v[2]);
    sum := sum + c.v[2] * g.log(p.c);
    var withS1 := G1MulAcc(sys, g, f, vk.s1, c.v[3], sum, c.v[3]);
    sum := sum + c.v[3] * g.log(vk.s1);
    r := G1MulAcc(sys, g, withS1.value, vk.s2, c.v[4], sum, c.v[4]);
  }

  ghost predicate Generates(g: Group) {
    g.valid(G1_GEN) && g.log(G1_GEN) == 1
  }

  /** `calculate_e`. */
  method CalculateE(sys: Syscalls, ghost g: Group, e: Evals, c: Challenges, r0: Fr) returns (r: G1)
    requires GroupSyscalls(sys, g) && Generates(g) && |c.v| == 5
    ensures g.valid(r) && Eq(g.log(r), EExponent(e, c, r0))
  {
    var s := -(r0 as int) + e.a * c.v[0] + e.b * c.v[1] + e.c * c.v[2] + e.s1 * c.v[3] + e.s2 * c.v[4] + e.zw * c.u;
    assert s == EExponent(e, c, r0);
    var product := ScaledBy(sys, g, G1_GEN, s);
    r := product.value;
  }

  // ---------------------------------------------------------------------------
  // The pairing
  // ---------------------------------------------------------------------------

  /** The first pairing operand, `-(u Wxiw + Wxi)`. */
  method FirstOperand(sys: Syscalls, ghost g: Group, p: Proof, c: Challenges) returns (r: Option<G1>)
    requires GroupSyscalls(sys, g) && NegationLaw(g)
    ensures r.Some? <==> g.valid(p.wxi) && g.valid(p.wxiw)
    ensures r.Some? ==> g.valid(r.value) && Eq(g.log(r.value), -(g.log(p.wxiw) * c.u + g.log(p.wxi)))
  {
    var product :- G1Mul(sys, g, p.wxiw, c.u);
    var sum :- G1Add(sys, g, product, p.wxi);
    assert Eq(g.log(p.wxi), g.log(p.wxi));
    EqSum(g.log(product), g.log(p.wxiw) * c.u, g.log(p.wxi), g.log(p.wxi), g.log(sum));
    r := Some(G1Neg(sum));
    RedEq(-g.log(sum));
    EqAdd(0, 0, g.log(sum), g.log(p.wxiw) * c.u + g.log(p.wxi));
  }

  /** The second, `xi Wxi + u xi w Wxiw + F - E`. */
  method SecondOperand(sys: Syscalls, ghost g: Group, p: Proof, c: Challenges, w: Fr, f: G1, e: G1,
                       ghost fx: int, ghost ex: int) returns (r: Option<G1>)
    requires GroupSyscalls(sys, g) && NegationLaw(g)
    requires g.valid(f) && g.valid(e) && Eq(g.log(f), fx) && Eq(g.log(e), ex)
    ensures r.Some? <==> g.valid(p.wxi) && g.valid(p.wxiw)
    ensures r.Some? ==> g.valid(r.value)
    ensures r.Some? ==> Eq(g.log(r.value), g.log(p.wxi) * c.xi + g.log(p.wxiw) * (c.u * c.xi * w) + fx - ex)
  {
    var first :- G1Mul(sys, g, p.wxi, c.xi);
    var second :- ScaledBy(sys, g, p.wxiw, c.u * c.xi * w);
    var b1 := AddValid(sys, g, first, second);
    ghost var x, y := g.log(p.wxi) * c.xi, g.log(p.wxiw) * (c.u * c.xi * w);
    EqSum(g.log(first), x, g.log(second), y, g.log(b1));
    var b2 := AddValid(sys, g, b1, f);
    EqSum(g.log(b1), x + y, g.log(f), fx, g.log(b2));
    var b3 := SubtractValid(sys, g, b2, e);
    EqMinus(g.log(b2), x + y + fx, g.log(e), ex, g.log(b3));
    r := Some(b3);
  }

  /** The two-pair input: each G1 operand beside its fixed G2 point. */
  method PairingInput(vk: Vk, a1: G1, b1: G1) returns (input: array<Byte>)
    requires |vk.x2| == 128 && |vk.g2| == 128
    ensures fresh(input) && input[..] == a1 + vk.x2 + b1 + vk.g2
  {
    input := new Byte[384](_ => 0);
    Append(input, 0, a1);
    assert input[..64] == a1;
    Append(input, 64, vk.x2);
    Append(input, 192, b1);
    Append(input, 256, vk.g2);
    assert input[..] == input[..384];
  }

  lemma EqPairing(a: int, x: int, b: int, y: int, tau: int)
    requires Eq(a, x) && Eq(b, y)
    ensures Eq(a * tau + b, 0) <==> Eq(x * tau + y, 0)
  {
    EqMul(a, x, tau, tau);
    EqAdd(a * tau, x * tau, b, y);
  }

  /** The syscall's verdict on two operands that stand for the exponents x and y. */
  method PairsToOne(env: Env, a1: G1, b1: G1, ghost x: int, ghost y: int) returns (ok: bool)
    requires PairingSyscall(env.sys, env.g, env.vk.x2, env.vk.g2) && |env.vk.x2| == 128 && |env.vk.g2| == 128
    requires env.g.valid(a1) && env.g.valid(b1) && Eq(env.g.log(a1), x) && Eq(env.g.log(b1), y)
    ensures ok <==> Eq(x * env.g.tau + y, 0)
  {
    var input := PairingInput(env.vk, a1, b1);
    var out := env.sys.pairing(input[..]);
    EqPairing(env.g.log(a1), x, env.g.log(b1), y, env.g.tau);
    ok := out.Some? && out.value != [] && out.value[|out.value| - 1] == 1;
  }

  lemma PairingOfProof(g: Group, vk: Vk, p: Proof, c: Challenges, w: Fr, fx: int, ex: int, x: int, y: int)
    requires x == -(g.log(p.wxiw) * c.u + g.log(p.wxi))
    requires y == g.log(p.wxi) * c.xi + g.log(p.wxiw) * (c.u * c.xi * w) + fx - ex
    ensures PairingExponent(ExponentsOf(g.log, vk, p), c, w, fx, ex, g.tau) == x * g.tau + y
  {
  }

  /** `check_pairing`, where f and e stand for the exponents fx and ex. */
  method CheckPairing(env: Env, p: Proof, c: Challenges, f: G1, e: G1, ghost fx: int, ghost ex: int) returns (ok: bool)
    requires GroupSyscalls(env.sys, env.g) && NegationLaw(env.g) && ValidVk(env.vk, env.g)
    requires PairingSyscall(env.sys, env.g, env.vk.x2, env.vk.g2)
    requires env.g.valid(f) && env.g.valid(e) && Eq(env.g.log(f), fx) && Eq(env.g.log(e), ex)
    ensures ok <==> env.g.valid(p.wxi) && env.g.valid(p.wxiw)
                    && Eq(PairingExponent(ExponentsOf(env.g.log, env.vk, p), c, FrCanonical(env.vk.w1).value,
                                          fx, ex, env.g.tau), 0)
  {
    ghost var g := env.g;
    var w := FrCanonical(env.vk.w1).value;
    var a1 := FirstOperand(env.sys, g, p, c);
    var b1 := SecondOperand(env.sys, g, p, c, w, f, e, fx, ex);
    if a1.None? || b1.None? {
      return false;
    }
    ghost var x, y := -(g.log(p.wxiw) * c.u + g.log(p.wxi)),
                      g.log(p.wxi) * c.xi + g.log(p.wxiw) * (c.u * c.xi * w) + fx - ex;
    ok := PairsToOne(env, a1.value, b1.value, x, y);
    PairingOfProof(g, env.vk, p, c, w, fx, ex, x, y);
  }
}
