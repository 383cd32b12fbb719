/** Acceptance over exponents, with L_1 computed as the verifier computes it (program/src/plonk.rs). */
module Acceptance {
  import opened Bytes
  import opened Modular
  import opened Polynomials
  import opened Scalar
  import opened Algebra
  import opened Batching
  import opened Domain

  /** PI(xi) for the one public input. */
  function PublicAtXi(l1: Fr, pi: Fr): Fr {
    Red(-(l1 * pi))
  }

  /** `verify_with` from `lagrange_1` on. */
  ghost predicate AcceptsWithL1(x: Exponents, e: Evals, c: Challenges, pi: Fr, w: Fr, tau: int)
    requires Prime(R) && |x.points| == 15 && |c.v| == 5
  {
    match L1At(c.xi, c.zh)
    case None => false
    case Some(l1) => Accepts(x, e, c, PublicAtXi(l1, pi), l1, w, tau)
  }

  /** l1 is the value of L_1 at xi: `n l1 = 1 + xi + ... + xi^(n-1)`. */
  ghost predicate IsL1(l1: Fr, xi: Fr) {
    Eq(N * l1, Geometric(xi, N))
  }

  ghost predicate OnDomain(xi: Fr) {
    Eq(Pow(xi, N), 1)
  }

  lemma L1Unique(l: Fr, l': Fr, xi: Fr)
    requires Prime(R) && IsL1(l, xi) && IsL1(l', xi)
    ensures l == l'
  {
    SizeIsUnit();
    EqCancel(N, l, l');
  }

  /** `lagrange_1` refuses exactly the domain, and elsewhere returns L_1. */
  lemma L1Computed(l1: Fr, xi: Fr, zh: Fr)
    requires Prime(R) && Eq(zh, Pow(xi, N) - 1) && IsL1(l1, xi)
    ensures L1At(xi, zh) == if OnDomain(xi) then None else Some(l1)
  {
    L1RefusedOnDomain(xi, zh);
    if L1At(xi, zh).Some? {
      L1IsMeanOfPowers(xi, zh);
      L1Unique(l1, L1At(xi, zh).value, xi);
    }
  }

  /** The two opening defects cancel under u. */
  ghost predicate OpeningsCancel(x: Exponents, e: Evals, c: Challenges, pi: Fr, l1: Fr, w: Fr, tau: int)
    requires |x.points| == 15 && |c.v| == 5
  {
    Eq(DefectXi(x, e, c, PublicAtXi(l1, pi), l1, tau) + c.u * DefectXiW(x, e, c, w, tau), 0)
  }

  /** Acceptance is: xi off the domain, and the openings cancelling. */
  lemma AcceptedIffCancel(x: Exponents, e: Evals, c: Challenges, pi: Fr, l1: Fr, w: Fr, tau: int)
    requires Prime(R) && |x.points| == 15 && |c.v| == 5
    requires Eq(c.zh, Pow(c.xi, N) - 1) && IsL1(l1, c.xi)
    ensures AcceptsWithL1(x, e, c, pi, w, tau) <==> !OnDomain(c.xi) && OpeningsCancel(x, e, c, pi, l1, w, tau)
  {
    L1Computed(l1, c.xi, c.zh);
    BatchingIsExact(x, e, c, PublicAtXi(l1, pi), l1, w, tau);
  }

  /** Commitments, evaluations and openings are those of `polys`, which meet the PLONK identity at xi. */
  ghost predicate HonestProver(x: Exponents, e: Evals, c: Challenges, pi: Fr, l1: Fr, w: Fr, tau: int, polys: seq<Poly>)
    requires |x.points| == 15 && |c.v| == 5 && |polys| == 15
  {
    && Commits(x.points, polys, tau)
    && TrueClaims(e, c, PublicAtXi(l1, pi), l1, EvalAll(polys, c.xi))
    && HonestZw(e, polys, c.xi, w)
    && HonestOpenings(x, polys, e, c, PublicAtXi(l1, pi), l1, w, tau)
  }

  /** An honest prover is accepted whenever xi is off the domain. */
  lemma HonestAccepted(x: Exponents, e: Evals, c: Challenges, pi: Fr, l1: Fr, w: Fr, tau: int, polys: seq<Poly>)
    requires Prime(R) && |x.points| == 15 && |polys| == 15 && Derived(c)
    requires Eq(c.zh, Pow(c.xi, N) - 1) && IsL1(l1, c.xi) && !OnDomain(c.xi)
    requires HonestProver(x, e, c, pi, l1, w, tau, polys)
    ensures AcceptsWithL1(x, e, c, pi, w, tau)
  {
    L1Computed(l1, c.xi, c.zh);
    Completeness(x, polys, e, c, PublicAtXi(l1, pi), l1, w, tau);
  }
}
