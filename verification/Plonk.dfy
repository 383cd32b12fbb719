/** `verify_with`: exactly what it accepts, and the properties of that set (program/src/plonk.rs). */
module Plonk {
  import opened Bytes
  import opened Modular
  import opened Polynomials
  import opened Scalar
  import opened Curve
  import opened Compression
  import opened Algebra
  import opened Batching
  import opened Domain
  import opened Acceptance
  import opened Transcript
  import opened Verifier

  /** D, with the `u * Z` term, as the fifteen-term combination. */
  lemma DExponentIsDot(g: Group, vk: Vk, p: Proof, c: Challenges, l1: Fr)
    requires |c.v| == 5
    ensures DExponent(g, vk, p, c, l1)
         == Dot(Scalars(p.evals, c, l1), PointLogs(g.log, vk, p), D_TERMS) + c.u * g.log(p.z)
  {
    var s, l := Scalars(p.evals, c, l1), PointLogs(g.log, vk, p);
    DotD(s, l);
    assert ZScalar(p.evals, c, l1) == s[5] + c.u;
    assert S3Scalar(p.evals, c) == -s[6] by {
      NegatedProduct(Denominator12(p.evals, c.beta, c.gamma), c.alpha * c.beta * p.evals.zw);
    }
    DParts(l[5], s[5], c.u, l[6], s[6], l[7], l[8], l[9], c.xin, c.zh);
  }

  lemma NegatedProduct(a: int, b: int)
    ensures a * b == -(-(a * b))
  {
  }

  lemma DParts(z: int, s5: int, u: int, l6: int, s6: int, t1: int, t2: int, t3: int, xin: int, zh: int)
    ensures z * (s5 + u) == s5 * z + u * z
    ensures l6 * -s6 == -(s6 * l6)
    ensures (t1 + xin * t2 + (xin * xin) * t3) * zh == -((-zh) * t1 + (-(zh * xin)) * t2 + (-(zh * xin * xin)) * t3)
  {
  }

  lemma FSumIsFExponent(g: Group, vk: Vk, p: Proof, c: Challenges, l1: Fr)
    requires |c.v| == 5
    ensures FSum(g, vk, p, c, DExponent(g, vk, p, c, l1)) == FExponent(ExponentsOf(g.log, vk, p), p.evals, c, l1)
  {
    DExponentIsDot(g, vk, p, c, l1);
    DotF(Scalars(p.evals, c, l1), PointLogs(g.log, vk, p));
  }

  lemma GeneratorLaw(g: Group)
    requires CurveGroup(g)
    ensures Generates(g)
  {
    GeneratorOnCurve();
    SameElements(g, G1_GEN);
  }

  lemma GeneratorOnCurve()
    ensures OnCurve(G1_GEN)
  {
    var xs, ys := G1_GEN[..32], G1_GEN[32..];
    assert xs == Zeros(31) + [1] && ys == Zeros(31) + [2];
    LastByte(1);
    LastByte(2);
    FqCanonicalExact(xs);
    FqCanonicalExact(ys);
    assert 2 * 2 - (1 * 1 * 1 + 3) == 0;
    MultipleMod(0, Q);
  }

  lemma LastByte(b: Byte)
    ensures BE(Zeros(31) + [b]) == b
  {
    BEZeros(31);
    assert (Zeros(31) + [b])[..31] == Zeros(31);
  }

  /** `verify_with` after parsing. */
  method VerifyProof(env: Env, p: Proof, pi: Fr) returns (ok: bool)
    requires Prime(R) && GroupSyscalls(env.sys, env.g) && NegationLaw(env.g) && Generates(env.g)
    requires PairingSyscall(env.sys, env.g, env.vk.x2, env.vk.g2) && ValidVk(env.vk, env.g)
    requires |p.raw| == PROOF_LEN
    ensures ok <==> CommitmentsValid(env.g, p) && AlgebraAccepts(env, p, pi)
  {
    var sys, vk := env.sys, env.vk;
    ghost var g := env.g;
    var c := DeriveChallenges(sys, vk, p, pi);
    var lagrange := Lagrange1(c.xi, c.zh);
    if lagrange.None? {
      return false;
    }
    var l1 := lagrange.value;
    var piXi := PublicAtXi(l1, pi);
    var r0 := EvalR0(p.evals, c, piXi, l1);
    var d := CalculateD(sys, g, vk, p, c, l1);
    if d.None? {
      return false;
    }
    ghost var dx := DExponent(g, vk, p, c, l1);
    var f := CalculateF(sys, g, vk, p, c, d.value, dx);
    if f.None? {
      return false;
    }
    var e := CalculateE(sys, g, p.evals, c, r0);
    FSumIsFExponent(g, vk, p, c, l1);
    ok := CheckPairing(env, p, c, f.value, e, FSum(g, vk, p, c, dx), EExponent(p.evals, c, r0));
  }

  /** `verify_with` accepts exactly `Verifies`. */
  method VerifyWith(env: Env, bytes: seq<Byte>, programVk: Bytes32, publicValues: seq<Byte>, checked: bool)
    returns (ok: bool)
    requires Trusted(env)
    ensures ok <==> Verifies(env, bytes, programVk, publicValues, checked)
  {
    CurveNegation(env.g);
    GeneratorLaw(env.g);
    var parsed := Parse(bytes);
    if parsed.None? {
      return false;
    }
    if checked && !WellFormed(parsed.value) {
      return false;
    }
    var pi := PublicInput(env.sys, env.vk, programVk, publicValues);
    ok := VerifyProof(env, parsed.value, pi);
  }

  // ---------------------------------------------------------------------------
  // Why the membership check may be skipped
  // ---------------------------------------------------------------------------

  /** The nine commitments are canonical curve points or the 64 zero bytes. */
  ghost predicate OnCurveOrInfinity(p: Proof) {
    && Valid(p.a) && Valid(p.b) && Valid(p.c) && Valid(p.z)
    && Valid(p.t1) && Valid(p.t2) && Valid(p.t3) && Valid(p.wxi) && Valid(p.wxiw)
  }

  lemma ElementsAreOnCurve(g: Group, p: Proof)
    requires CurveGroup(g)
    ensures CommitmentsValid(g, p) <==> OnCurveOrInfinity(p)
  {
    SameElements(g, p.a);
    SameElements(g, p.b);
    SameElements(g, p.c);
    SameElements(g, p.z);
    SameElements(g, p.t1);
    SameElements(g, p.t2);
    SameElements(g, p.t3);
    SameElements(g, p.wxi);
    SameElements(g, p.wxiw);
  }

  lemma FiniteIsOnCurve(p: G1)
    ensures OnCurve(p) <==> Valid(p) && p != INFINITY
  {
    InfinityOffCurve();
  }

  lemma WellFormedIsFinite(p: Proof)
    ensures WellFormed(p) <==> OnCurveOrInfinity(p) && !SomeInfinity(p)
  {
    FiniteIsOnCurve(p.a);
    FiniteIsOnCurve(p.b);
    FiniteIsOnCurve(p.c);
    FiniteIsOnCurve(p.z);
    FiniteIsOnCurve(p.t1);
    FiniteIsOnCurve(p.t2);
    FiniteIsOnCurve(p.t3);
    FiniteIsOnCurve(p.wxi);
    FiniteIsOnCurve(p.wxiw);
  }

  /**
   Without `checkProofData` every accepted byte string still has all nine
   commitments on the curve or at infinity, so running the check changes the
   verdict only by refusing encoded infinity.
   */
  lemma MembershipCheckOnlyRefusesInfinity(env: Env, bytes: seq<Byte>, programVk: Bytes32, publicValues: seq<Byte>)
    requires Trusted(env)
    ensures Verifies(env, bytes, programVk, publicValues, false) ==>
              Parse(bytes).Some? && OnCurveOrInfinity(Parse(bytes).value)
    ensures Verifies(env, bytes, programVk, publicValues, true)
       <==> Verifies(env, bytes, programVk, publicValues, false) && !SomeInfinity(Parse(bytes).value)
  {
    if Parse(bytes).Some? {
      ElementsAreOnCurve(env.g, Parse(bytes).value);
      WellFormedIsFinite(Parse(bytes).value);
    }
  }

  // ---------------------------------------------------------------------------
  // Completeness
  // ---------------------------------------------------------------------------

  lemma ChallengeFacts(env: Env, p: Proof, pi: Fr, c: Challenges)
    requires |p.raw| == PROOF_LEN && c == ChallengesOf(env.sys, env.vk, p, pi)
    ensures Derived(c) && Eq(c.zh, Pow(c.xi, N) - 1)
  {
    ChallengesDerived(env.sys, env.vk, p, pi);
  }

  lemma AlgebraOf(env: Env, p: Proof, pi: Fr, x: Exponents, c: Challenges, w: Fr)
    requires Prime(R) && FrCanonical(env.vk.w1) == Some(w) && |p.raw| == PROOF_LEN
    requires c == ChallengesOf(env.sys, env.vk, p, pi) && x == ExponentsOf(env.g.log, env.vk, p)
    ensures AlgebraAccepts(env, p, pi) <==> AcceptsWithL1(x, p.evals, c, pi, w, env.g.tau)
  {
  }

  /** Every proof honest under the challenges its own bytes hash to is accepted, whatever those are. */
  lemma HonestProofVerifies(env: Env, bytes: seq<Byte>, p: Proof, programVk: Bytes32, publicValues: seq<Byte>,
                            pi: Fr, x: Exponents, c: Challenges, w: Fr, l1: Fr, polys: seq<Poly>)
    requires Prime(R) && FrCanonical(env.vk.w1) == Some(w) && |polys| == 15 && |p.raw| == PROOF_LEN
    requires Parse(bytes) == Some(p) && CommitmentsValid(env.g, p)
    requires pi == PublicInput(env.sys, env.vk, programVk, publicValues)
    requires c == ChallengesOf(env.sys, env.vk, p, pi) && x == ExponentsOf(env.g.log, env.vk, p)
    requires !OnDomain(c.xi) && IsL1(l1, c.xi)
    requires HonestProver(x, p.evals, c, pi, l1, w, env.g.tau, polys)
    ensures Verifies(env, bytes, programVk, publicValues, false)
  {
    ChallengeFacts(env, p, pi, c);
    HonestAccepted(x, p.evals, c, pi, l1, w, env.g.tau, polys);
    AlgebraOf(env, p, pi, x, c, w);
  }

  // ---------------------------------------------------------------------------
  // What acceptance means
  // ---------------------------------------------------------------------------

  /**
   A proof is accepted exactly when its commitments are elements, xi is off the
   domain, and the two opening defects cancel under u.
   */
  lemma AcceptanceIsTwoOpenings(env: Env, bytes: seq<Byte>, p: Proof, programVk: Bytes32, publicValues: seq<Byte>,
                                pi: Fr, x: Exponents, c: Challenges, w: Fr, l1: Fr)
    requires Prime(R) && FrCanonical(env.vk.w1) == Some(w) && |p.raw| == PROOF_LEN
    requires Parse(bytes) == Some(p) && pi == PublicInput(env.sys, env.vk, programVk, publicValues)
    requires c == ChallengesOf(env.sys, env.vk, p, pi) && x == ExponentsOf(env.g.log, env.vk, p) && IsL1(l1, c.xi)
    ensures Verifies(env, bytes, programVk, publicValues, false)
       <==> CommitmentsValid(env.g, p) && !OnDomain(c.xi) && OpeningsCancel(x, p.evals, c, pi, l1, w, env.g.tau)
  {
    ChallengeFacts(env, p, pi, c);
    AcceptedIffCancel(x, p.evals, c, pi, l1, w, env.g.tau);
    AlgebraOf(env, p, pi, x, c, w);
  }

  // ---------------------------------------------------------------------------
  // Compressed submissions
  // ---------------------------------------------------------------------------

  /** What `submit_finalization` and `verify_only` run: expand, then verify. */
  ghost predicate SubmissionVerifies(env: Env, compressed: seq<Byte>, programVk: Bytes32, publicValues: seq<Byte>)
    requires Prime(R) && FrCanonical(env.vk.w1).Some?
  {
    match Decompressed(env.sys, compressed)
    case None => false
    case Some(bytes) => Verifies(env, bytes, programVk, publicValues, false)
  }

  method VerifySubmission(env: Env, compressed: seq<Byte>, programVk: Bytes32, publicValues: seq<Byte>)
    returns (ok: bool)
    requires Trusted(env)
    ensures ok <==> SubmissionVerifies(env, compressed, programVk, publicValues)
  {
    var expanded := DecompressProof(env.sys, compressed);
    if expanded.None? {
      return false;
    }
    ok := VerifyWith(env, expanded.value[..], programVk, publicValues, false);
  }

  /** Compressing a proof with valid commitments leaves the verdict as it was. */
  lemma CompressionPreservesVerdict(env: Env, bytes: seq<Byte>, programVk: Bytes32, publicValues: seq<Byte>)
    requires Trusted(env) && |bytes| == PROOF_LEN
    requires forall i: nat | i < COMMITMENTS :: Valid(Commitment(bytes, i))
    ensures Compressed(env.sys, bytes).Some?
    ensures SubmissionVerifies(env, Compressed(env.sys, bytes).value, programVk, publicValues)
       <==> Verifies(env, bytes, programVk, publicValues, false)
  {
    ProofRoundTrip(env.sys, env.g.log, bytes);
  }

  /** Whatever a compressed proof expands to, its nine commitments are elements. */
  lemma ExpandedCommitments(env: Env, compressed: seq<Byte>, i: nat)
    requires Trusted(env) && Decompressed(env.sys, compressed).Some? && i < COMMITMENTS
    ensures Valid(Commitment(Decompressed(env.sys, compressed).value, i))
  {
    var points, bytes := Expand(env.sys, compressed, COMMITMENTS).value, Decompressed(env.sys, compressed).value;
    ExpandedPoint(env.sys, compressed, COMMITMENTS, i);
    CommitmentInPrefix(bytes, points, i);
    WordExpandsValid(env.sys, WordAt(compressed, i));
  }

  lemma WordExpandsValid(sys: Syscalls, w: Bytes32)
    requires CompressionSyscalls(sys) && sys.decompress(w).Some?
    ensures Valid(sys.decompress(w).value)
  {
    ExpandedValid(w, sys.decompress(w));
  }

  lemma ExpandedValid(w: Bytes32, out: Option<G1>)
    requires Decompresses(w, out) && out.Some?
    ensures Valid(out.value)
  {
    if out.value != INFINITY {
      var x, y := FinitePoint(w, out.value);
      EncodedOnCurve(x, y);
    }
  }
}
