/**
 The verifier's equation as the PLONK paper writes it, every commitment and
 evaluation by name, and that the bytes `verify_with` accepts are exactly those
 that meet it (program/src/plonk.rs).
 */
module Reference {
  import opened Bytes
  import opened Modular
  import opened Polynomials
  import opened Scalar
  import opened Curve
  import opened Algebra
  import opened Batching
  import opened Domain
  import opened Acceptance
  import opened Transcript
  import opened Verifier
  import opened Plonk
  import Constraints

  function Gate(log: G1 -> int, vk: Vk, e: Evals): int {
    e.a * e.b * log(vk.qm) + e.a * log(vk.ql) + e.b * log(vk.qr) + e.c * log(vk.qo) + log(vk.qc)
  }

  function PermutationNumerator(e: Evals, c: Challenges): int {
    (e.a + c.beta * c.xi + c.gamma) * (e.b + 2 * c.beta * c.xi + c.gamma) * (e.c + 3 * c.beta * c.xi + c.gamma)
  }

  function PermutationDenominator(log: G1 -> int, vk: Vk, e: Evals, c: Challenges): int {
    (e.a + c.beta * e.s1 + c.gamma) * (e.b + c.beta * e.s2 + c.gamma) * (e.c + c.beta * log(vk.s3) + c.gamma)
  }

  function SplitQuotient(log: G1 -> int, p: Proof, xn: int): int {
    (xn - 1) * (log(p.t1) + xn * log(p.t2) + xn * xn * log(p.t3))
  }

  /**
   The PLONK identity at xi with logarithms in place of the polynomials'
   values: gate and public input, permutation, L_1, and the split quotient.
   */
  function InExponents(log: G1 -> int, vk: Vk, p: Proof, c: Challenges, pi: Fr, l1: Fr, xn: int): int {
    var e := p.evals;
    var permutation := PermutationNumerator(e, c) * log(p.z) - PermutationDenominator(log, vk, e, c) * e.zw;
    Gate(log, vk, e) - l1 * pi + c.alpha * permutation + c.alpha * c.alpha * l1 * (log(p.z) - 1)
    - SplitQuotient(log, p, xn)
  }

  /** The five other claims at xi, weighed by powers of v. */
  ghost function OtherClaims(log: G1 -> int, vk: Vk, p: Proof, v: int): int {
    var e := p.evals;
    v * (log(p.a) - e.a) + v * v * (log(p.b) - e.b) + v * v * v * (log(p.c) - e.c)
    + v * v * v * v * (log(vk.s1) - e.s1) + v * v * v * v * v * (log(vk.s2) - e.s2)
  }

  // ---------------------------------------------------------------------------
  // The model's sums are these
  // ---------------------------------------------------------------------------

  lemma GateNamed(log: G1 -> int, vk: Vk, p: Proof)
    ensures var s, e := PointLogs(log, vk, p), p.evals;
      Gate(log, vk, e) == s[1] * e.a * e.b + s[2] * e.a + s[3] * e.b + s[4] * e.c + s[0]
  {
    Reorder3(p.evals.a, p.evals.b, log(vk.qm));
  }

  lemma NumeratorNamed(e: Evals, c: Challenges)
    ensures PermutationNumerator(e, c) == Numerator(e, c.beta * c.xi, c.gamma)
  {
    assert (c.beta * c.xi) * 2 == 2 * c.beta * c.xi && (c.beta * c.xi) * 3 == 3 * c.beta * c.xi;
  }

  lemma DenominatorNamed(log: G1 -> int, vk: Vk, e: Evals, c: Challenges)
    ensures PermutationDenominator(log, vk, e, c)
         == Denominator12(e, c.beta, c.gamma) * (e.c + c.beta * log(vk.s3) + c.gamma)
  {
  }

  /** The quotient as the code computes it. */
  function CodeQuotient(log: G1 -> int, p: Proof, c: Challenges): int {
    c.zh * (log(p.t1) + c.xin * log(p.t2) + c.xin * c.xin * log(p.t3))
  }

  /** What the identity is but for public input and quotient. */
  lemma NamedRest(log: G1 -> int, vk: Vk, p: Proof, c: Challenges, pi: Fr, l1: Fr, xn: int, publicAt: Fr)
    ensures InExponents(log, vk, p, c, pi, l1, xn) + l1 * pi + SplitQuotient(log, p, xn)
         == PlonkIdentity(p.evals, c, publicAt, l1, PointLogs(log, vk, p)) - publicAt + CodeQuotient(log, p, c)
  {
    GateNamed(log, vk, p);
    NumeratorNamed(p.evals, c);
    DenominatorNamed(log, vk, p.evals, c);
  }

  lemma QuotientNamed(log: G1 -> int, vk: Vk, p: Proof, c: Challenges, xn: int)
    requires Eq(c.zh, xn - 1) && Eq(c.xin, xn)
    ensures Eq(CodeQuotient(log, p, c), SplitQuotient(log, p, xn))
  {
    Constraints.QuotientClaims(PointLogs(log, vk, p), c.zh, c.xin, xn);
  }

  /** The identity with the code's reduced values, on the logarithms in their order. */
  lemma NamedIdentity(log: G1 -> int, vk: Vk, p: Proof, c: Challenges, pi: Fr, l1: Fr, xn: int)
    requires Eq(c.zh, xn - 1) && Eq(c.xin, xn)
    ensures Eq(PlonkIdentity(p.evals, c, PublicAtXi(l1, pi), l1, PointLogs(log, vk, p)),
               InExponents(log, vk, p, c, pi, l1, xn))
  {
    var publicAt := PublicAtXi(l1, pi);
    var x, y := PlonkIdentity(p.evals, c, publicAt, l1, PointLogs(log, vk, p)), InExponents(log, vk, p, c, pi, l1, xn);
    RedEq(-(l1 * pi));
    QuotientNamed(log, vk, p, c, xn);
    NamedRest(log, vk, p, c, pi, l1, xn, publicAt);
    PartsAgree(y + l1 * pi + SplitQuotient(log, p, xn), publicAt, -(l1 * pi), CodeQuotient(log, p, c),
               SplitQuotient(log, p, xn), x, y);
  }

  lemma PartsAgree(rest: int, a: int, a': int, q: int, q': int, x: int, y: int)
    requires Eq(a, a') && Eq(q, q') && x == rest + a - q && y == rest + a' - q'
    ensures Eq(x, y)
  {
    EqAdd(rest, rest, a, a');
    EqAdd(rest + a, rest + a', q, q');
  }

  /** The code's side of the opening at xi: F with r0, less the batched claims. */
  ghost function Opened(log: G1 -> int, vk: Vk, p: Proof, c: Challenges, pi: Fr, l1: Fr): int
    requires |c.v| == 5
  {
    Dot(Scalars(p.evals, c, l1), PointLogs(log, vk, p), F_TERMS)
    + EvalR0(p.evals, c, PublicAtXi(l1, pi), l1) - Claims(p.evals, c)
  }

  /** The errors at v are the linearisation's value and the other claims. */
  lemma ErrorsNamed(log: G1 -> int, vk: Vk, p: Proof, v: int, f: Poly)
    requires var s, e := PointLogs(log, vk, p), p.evals;
      |f| == 6 && f[1] == s[10] - e.a && f[2] == s[11] - e.b && f[3] == s[12] - e.c
      && f[4] == s[13] - e.s1 && f[5] == s[14] - e.s2
    ensures Eval(f, v) == f[0] + OtherClaims(log, vk, p, v)
  {
    Horner6(f, v);
  }

  lemma OpenedIsErrors(log: G1 -> int, vk: Vk, p: Proof, c: Challenges, pi: Fr, l1: Fr)
    requires Derived(c)
    ensures Eq(Opened(log, vk, p, c, pi, l1),
               LinearisationValue(p.evals, c, PublicAtXi(l1, pi), l1, PointLogs(log, vk, p))
               + OtherClaims(log, vk, p, c.v[0]))
  {
    var s, publicAt := PointLogs(log, vk, p), PublicAtXi(l1, pi);
    var f := Errors(p.evals, c, publicAt, l1, s);
    BatchSplits(p.evals, c, publicAt, l1, s);
    EqPowersEval(f, c.v[0], c.v);
    ErrorsNamed(log, vk, p, c.v[0], f);
  }

  lemma LinearisationNamed(log: G1 -> int, vk: Vk, p: Proof, c: Challenges, pi: Fr, l1: Fr, xn: int)
    requires Derived(c) && Eq(c.zh, xn - 1) && Eq(c.xin, xn)
    ensures Eq(LinearisationValue(p.evals, c, PublicAtXi(l1, pi), l1, PointLogs(log, vk, p)),
               InExponents(log, vk, p, c, pi, l1, xn))
  {
    LinearisationMeaning(p.evals, c, PublicAtXi(l1, pi), l1, PointLogs(log, vk, p));
    NamedIdentity(log, vk, p, c, pi, l1, xn);
  }

  /** What the opening at xi commits to is the identity and the other claims. */
  lemma OpenedAtXi(log: G1 -> int, vk: Vk, p: Proof, c: Challenges, pi: Fr, l1: Fr, xn: int)
    requires Derived(c) && Eq(c.zh, xn - 1) && Eq(c.xin, xn)
    ensures Eq(Opened(log, vk, p, c, pi, l1),
               InExponents(log, vk, p, c, pi, l1, xn) + OtherClaims(log, vk, p, c.v[0]))
  {
    OpenedIsErrors(log, vk, p, c, pi, l1);
    LinearisationNamed(log, vk, p, c, pi, l1, xn);
    FirstReplaced(Opened(log, vk, p, c, pi, l1),
                  LinearisationValue(p.evals, c, PublicAtXi(l1, pi), l1, PointLogs(log, vk, p)),
                  InExponents(log, vk, p, c, pi, l1, xn), OtherClaims(log, vk, p, c.v[0]));
  }

  lemma FirstReplaced(x: int, a: int, a': int, b: int)
    requires Eq(x, a + b) && Eq(a, a')
    ensures Eq(x, a' + b)
  {
    EqAdd(a, a', b, b);
  }

  // ---------------------------------------------------------------------------
  // The equation
  // ---------------------------------------------------------------------------

  /** Both openings at once: `at` opened at xi by Wxi, and u times z's claim at xi w by Wxiw. */
  ghost predicate Opens(g: Group, p: Proof, c: Challenges, w: Fr, at: int) {
    Eq(at + c.u * (g.log(p.z) - p.evals.zw),
       (g.tau - c.xi) * g.log(p.wxi) + c.u * ((g.tau - c.xi * w) * g.log(p.wxiw)))
  }

  /** The whole equation. */
  ghost predicate EquationHolds(g: Group, vk: Vk, p: Proof, c: Challenges, pi: Fr, l1: Fr, w: Fr)
    requires |c.v| == 5
  {
    Opens(g, p, c, w, InExponents(g.log, vk, p, c, pi, l1, Pow(c.xi, N)) + OtherClaims(g.log, vk, p, c.v[0]))
  }

  lemma Balance(a: int, b: int, z: int, u: int, s: int, t: int)
    requires Eq(s, t)
    ensures Eq((a - s) + u * (b - z), 0) <==> Eq(t + u * z, a + u * b)
  {
    Expanded(a, b, z, u, s);
    EqDifference(a + u * b, s + u * z);
    EqAdd(s, t, u * z, u * z);
  }

  lemma Expanded(a: int, b: int, z: int, u: int, s: int)
    ensures (a - s) + u * (b - z) == (a + u * b) - (s + u * z)
  {
  }

  /** The openings cancel exactly when what the code opens at xi does open. */
  lemma CancelIsOpening(g: Group, vk: Vk, p: Proof, c: Challenges, pi: Fr, l1: Fr, w: Fr, at: int)
    requires |c.v| == 5 && Eq(Opened(g.log, vk, p, c, pi, l1), at)
    ensures OpeningsCancel(ExponentsOf(g.log, vk, p), p.evals, c, pi, l1, w, g.tau) <==> Opens(g, p, c, w, at)
  {
    DefectsNamed(g, vk, p, c, pi, l1, w);
    Balance((g.tau - c.xi) * g.log(p.wxi), (g.tau - c.xi * w) * g.log(p.wxiw), g.log(p.z) - p.evals.zw, c.u,
            Opened(g.log, vk, p, c, pi, l1), at);
  }

  lemma DefectsNamed(g: Group, vk: Vk, p: Proof, c: Challenges, pi: Fr, l1: Fr, w: Fr)
    requires |c.v| == 5
    ensures OpeningsCancel(ExponentsOf(g.log, vk, p), p.evals, c, pi, l1, w, g.tau)
       <==> Eq(((g.tau - c.xi) * g.log(p.wxi) - Opened(g.log, vk, p, c, pi, l1))
               + c.u * ((g.tau - c.xi * w) * g.log(p.wxiw) - (g.log(p.z) - p.evals.zw)), 0)
  {
  }

  /** They cancel exactly when the equation holds. */
  lemma CancelIsEquation(g: Group, vk: Vk, p: Proof, c: Challenges, pi: Fr, l1: Fr, w: Fr)
    requires Derived(c) && Eq(c.zh, Pow(c.xi, N) - 1) && Eq(c.xin, Pow(c.xi, N))
    ensures OpeningsCancel(ExponentsOf(g.log, vk, p), p.evals, c, pi, l1, w, g.tau)
       <==> EquationHolds(g, vk, p, c, pi, l1, w)
  {
    var xn := Pow(c.xi, N);
    OpenedAtXi(g.log, vk, p, c, pi, l1, xn);
    CancelIsOpening(g, vk, p, c, pi, l1, w,
                    InExponents(g.log, vk, p, c, pi, l1, xn) + OtherClaims(g.log, vk, p, c.v[0]));
  }

  /** Only bytes that spell a proof with canonical evaluations are accepted. */
  lemma AcceptedSpells(env: Env, bytes: seq<Byte>, programVk: Bytes32, publicValues: seq<Byte>, checked: bool)
    returns (p: Proof)
    requires Prime(R) && FrCanonical(env.vk.w1).Some? && Verifies(env, bytes, programVk, publicValues, checked)
    ensures p.raw == bytes && Spells(bytes, p)
  {
    p := Parse(bytes).value;
    ParsesIffSpelled(bytes, p);
  }

  /**
   And such bytes are accepted exactly when their commitments are elements, xi
   is off the domain and the equation holds, where the public input is the
   digest of the statement's 576 bytes and each challenge the digest of the
   bytes named for it.
   */
  lemma AcceptedExactly(env: Env, bytes: seq<Byte>, p: Proof, programVk: Bytes32, publicValues: seq<Byte>,
                        pi: Fr, c: Challenges, w: Fr, l1: Fr) returns (s: seq<Byte>, t: Preimages)
    requires Prime(R) && FrCanonical(env.vk.w1) == Some(w) && |publicValues| == 512
    requires p.raw == bytes && Spells(bytes, p)
    requires pi == PublicInput(env.sys, env.vk, programVk, publicValues)
    requires c == ChallengesOf(env.sys, env.vk, p, pi) && IsL1(l1, c.xi)
    ensures Verifies(env, bytes, programVk, publicValues, false)
       <==> CommitmentsValid(env.g, p) && !OnDomain(c.xi) && EquationHolds(env.g, env.vk, p, c, pi, l1, w)
    ensures StatementBytes(s, env.vk, programVk, publicValues) && pi == BE(env.sys.sha256(s)) % R
    ensures N == 0x100_0000 && HashedFrom(t, env.vk, p, pi, c) && AreDigests(env.sys, t, c)
  {
    ParsesIffSpelled(bytes, p);
    s := PublicInputHashed(env.sys, env.vk, programVk, publicValues);
    t := ChallengesHashed(env.sys, env.vk, p, pi);
    ChallengesDerived(env.sys, env.vk, p, pi);
    RedEq(Pow(c.xi, N));
    AcceptanceIsTwoOpenings(env, bytes, p, programVk, publicValues, pi, ExponentsOf(env.g.log, env.vk, p), c, w, l1);
    CancelIsEquation(env.g, env.vk, p, c, pi, l1, w);
  }
}
