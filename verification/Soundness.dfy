/**
 From accepted equations at single values of the setup secret to identities of
 polynomials: what a prover bound to fixed polynomials must have proved to be
 accepted often enough (program/src/plonk.rs).
 */
module Soundness {
  import opened Modular
  import opened Polynomials
  import opened Scalar
  import opened Algebra
  import opened Batching

  /** What the prover's polynomials commit to at one value of the secret: the fifteen, and the two openings. */
  function Committed(polys: seq<Poly>, opening: Poly, openingW: Poly, tau: int): (x: Exponents)
    ensures |x.points| == |polys|
  {
    Exponents(EvalAll(polys, tau), Eval(opening, tau), Eval(openingW, tau))
  }

  // ---------------------------------------------------------------------------
  // The two opening equations
  // ---------------------------------------------------------------------------

  /** `(X - xi) W - F`, with r0 and the claims in F. */
  function EquationXi(polys: seq<Poly>, opening: Poly, e: Evals, c: Challenges, pi: Fr, l1: Fr): Poly
    requires |polys| == 15 && |c.v| == 5
  {
    Difference(TimesRoot(opening, c.xi), BatchPoly(polys, e, c, pi, l1))
  }

  /** `(X - xi w) W' - (z - zw)`. */
  function EquationXiW(polys: seq<Poly>, openingW: Poly, e: Evals, c: Challenges, w: Fr): Poly
    requires |polys| == 15
  {
    Difference(TimesRoot(openingW, c.xi * w), Add(polys[Z_SLOT], [-(e.zw as int)]))
  }

  /** The defect at xi is that equation's value at the secret. */
  lemma DefectIsValue(polys: seq<Poly>, opening: Poly, openingW: Poly, e: Evals, c: Challenges, pi: Fr, l1: Fr,
                      tau: int)
    requires |polys| == 15 && |c.v| == 5
    ensures DefectXi(Committed(polys, opening, openingW, tau), e, c, pi, l1, tau)
         == Eval(EquationXi(polys, opening, e, c, pi, l1), tau)
  {
    EvalDifference(TimesRoot(opening, c.xi), BatchPoly(polys, e, c, pi, l1), tau);
    EvalTimesRoot(opening, c.xi, tau);
    EvalBatch(polys, e, c, pi, l1, tau);
  }

  lemma EvalEquationXiW(polys: seq<Poly>, openingW: Poly, e: Evals, c: Challenges, w: Fr, x: int)
    requires |polys| == 15
    ensures Eval(EquationXiW(polys, openingW, e, c, w), x)
         == (x - c.xi * w) * Eval(openingW, x) - (Eval(polys[Z_SLOT], x) - e.zw)
  {
    var claim := [-(e.zw as int)];
    EvalDifference(TimesRoot(openingW, c.xi * w), Add(polys[Z_SLOT], claim), x);
    EvalTimesRoot(openingW, c.xi * w, x);
    EvalAdd(polys[Z_SLOT], claim, x);
    EvalConstant(-(e.zw as int), x);
  }

  lemma DefectWIsValue(polys: seq<Poly>, opening: Poly, openingW: Poly, e: Evals, c: Challenges, w: Fr, tau: int)
    requires |polys| == 15
    ensures DefectXiW(Committed(polys, opening, openingW, tau), e, c, w, tau)
         == Eval(EquationXiW(polys, openingW, e, c, w), tau)
  {
    EvalEquationXiW(polys, openingW, e, c, w, tau);
  }

  /** Vanishing at as many secrets as it has coefficients, a polynomial vanishes. */
  lemma ManyRoots(f: Poly, taus: seq<Fr>)
    requires Prime(R) && Distinct(taus) && |taus| >= |f|
    requires forall i | 0 <= i < |taus| :: Vanishes(Eval(f, taus[i]), R)
    ensures Zero(f, R)
  {
    if !Zero(f, R) {
      RootBound(f, taus, R);
      assert false;
    }
  }

  // ---------------------------------------------------------------------------
  // Openings
  // ---------------------------------------------------------------------------

  /** Both openings hold in the exponent at this secret. */
  ghost predicate OpensAt(polys: seq<Poly>, opening: Poly, openingW: Poly, e: Evals, c: Challenges, pi: Fr, l1: Fr,
                          w: Fr, tau: int)
    requires |polys| == 15 && |c.v| == 5
  {
    && Eq(DefectXi(Committed(polys, opening, openingW, tau), e, c, pi, l1, tau), 0)
    && Eq(DefectXiW(Committed(polys, opening, openingW, tau), e, c, w, tau), 0)
  }

  /** There are at least as many secrets as either equation has coefficients. */
  predicate Enough(polys: seq<Poly>, opening: Poly, openingW: Poly, e: Evals, c: Challenges, pi: Fr, l1: Fr, w: Fr,
                   taus: seq<Fr>)
    requires |polys| == 15 && |c.v| == 5
  {
    && |taus| >= |EquationXi(polys, opening, e, c, pi, l1)|
    && |taus| >= |EquationXiW(polys, openingW, e, c, w)|
  }

  /** Openings that hold at enough secrets hold as identities of polynomials. */
  lemma OpeningsAreIdentities(polys: seq<Poly>, opening: Poly, openingW: Poly, e: Evals, c: Challenges, pi: Fr, l1: Fr,
                              w: Fr, taus: seq<Fr>)
    requires Prime(R) && |polys| == 15 && |c.v| == 5 && Distinct(taus)
    requires Enough(polys, opening, openingW, e, c, pi, l1, w, taus)
    requires forall i | 0 <= i < |taus| :: OpensAt(polys, opening, openingW, e, c, pi, l1, w, taus[i])
    ensures Same(TimesRoot(opening, c.xi), BatchPoly(polys, e, c, pi, l1), R)
    ensures Zero(EquationXiW(polys, openingW, e, c, w), R)
  {
    var f, g := EquationXi(polys, opening, e, c, pi, l1), EquationXiW(polys, openingW, e, c, w);
    forall i | 0 <= i < |taus| ensures Vanishes(Eval(f, taus[i]), R) && Vanishes(Eval(g, taus[i]), R) {
      assert OpensAt(polys, opening, openingW, e, c, pi, l1, w, taus[i]);
      DefectIsValue(polys, opening, openingW, e, c, pi, l1, taus[i]);
      DefectWIsValue(polys, opening, openingW, e, c, w, taus[i]);
    }
    ManyRoots(f, taus);
    ManyRoots(g, taus);
  }

  /** The identity at xi w says z takes the claimed value there. */
  lemma IdentityGivesZw(polys: seq<Poly>, openingW: Poly, e: Evals, c: Challenges, w: Fr)
    requires |polys| == 15 && Zero(EquationXiW(polys, openingW, e, c, w), R)
    ensures HonestZw(e, polys, c.xi, w)
  {
    var at := c.xi * w;
    ZeroEval(EquationXiW(polys, openingW, e, c, w), at, R);
    EvalEquationXiW(polys, openingW, e, c, w, at);
    var d := Eval(polys[Z_SLOT], at) - e.zw;
    EqNegZero(d);
    EqDifference(Eval(polys[Z_SLOT], at), e.zw);
  }

  // ---------------------------------------------------------------------------
  // Acceptances
  // ---------------------------------------------------------------------------

  /** The check accepts under both u at every one of these secrets. */
  ghost predicate AcceptedAt(polys: seq<Poly>, opening: Poly, openingW: Poly, e: Evals, c: Challenges, u: Fr, u': Fr,
                             pi: Fr, l1: Fr, w: Fr, taus: seq<Fr>)
    requires |polys| == 15 && |c.v| == 5
  {
    forall i | 0 <= i < |taus| ::
      var x := Committed(polys, opening, openingW, taus[i]);
      Accepts(x, e, c.(u := u), pi, l1, w, taus[i]) && Accepts(x, e, c.(u := u'), pi, l1, w, taus[i])
  }

  lemma AcceptedOpens(polys: seq<Poly>, opening: Poly, openingW: Poly, e: Evals, c: Challenges, u: Fr, u': Fr,
                      pi: Fr, l1: Fr, w: Fr, taus: seq<Fr>, i: nat)
    requires Prime(R) && |polys| == 15 && |c.v| == 5 && u != u' && i < |taus|
    requires AcceptedAt(polys, opening, openingW, e, c, u, u', pi, l1, w, taus)
    ensures OpensAt(polys, opening, openingW, e, c, pi, l1, w, taus[i])
  {
    OneU(Committed(polys, opening, openingW, taus[i]), e, c, u, u', pi, l1, w, taus[i]);
  }

  /** Accepted under two u at enough secrets, a prover bound to polynomials has opened them. */
  lemma AcceptancesOpen(polys: seq<Poly>, opening: Poly, openingW: Poly, e: Evals, c: Challenges, u: Fr, u': Fr,
                        pi: Fr, l1: Fr, w: Fr, taus: seq<Fr>)
    requires Prime(R) && |polys| == 15 && |c.v| == 5 && u != u' && Distinct(taus)
    requires Enough(polys, opening, openingW, e, c, pi, l1, w, taus)
    requires AcceptedAt(polys, opening, openingW, e, c, u, u', pi, l1, w, taus)
    ensures OpensAtXi(polys, e, c, pi, l1) && HonestZw(e, polys, c.xi, w)
  {
    forall i: nat | i < |taus| ensures OpensAt(polys, opening, openingW, e, c, pi, l1, w, taus[i]) {
      AcceptedOpens(polys, opening, openingW, e, c, u, u', pi, l1, w, taus, i);
    }
    OpeningsAreIdentities(polys, opening, openingW, e, c, pi, l1, w, taus);
    IdentityGivesZw(polys, openingW, e, c, w);
  }

  /** The openings a prover chose after seeing v. */
  datatype Answer = Answer(v: Fr, opening: Poly, openingW: Poly)

  /** The answer is accepted under both u at every secret, and there are enough of them. */
  ghost predicate Convinces(polys: seq<Poly>, a: Answer, e: Evals, c: Challenges, u: Fr, u': Fr, pi: Fr, l1: Fr, w: Fr,
                            taus: seq<Fr>)
    requires |polys| == 15
  {
    var d := c.(v := VPowers(a.v));
    && Enough(polys, a.opening, a.openingW, e, d, pi, l1, w, taus)
    && AcceptedAt(polys, a.opening, a.openingW, e, d, u, u', pi, l1, w, taus)
  }

  lemma AnswerOpens(polys: seq<Poly>, a: Answer, e: Evals, c: Challenges, u: Fr, u': Fr, pi: Fr, l1: Fr, w: Fr,
                    taus: seq<Fr>)
    requires Prime(R) && |polys| == 15 && u != u' && Distinct(taus)
    requires Convinces(polys, a, e, c, u, u', pi, l1, w, taus)
    ensures OpensAtXi(polys, e, c.(v := VPowers(a.v)), pi, l1) && HonestZw(e, polys, c.xi, w)
  {
    AcceptancesOpen(polys, a.opening, a.openingW, e, c.(v := VPowers(a.v)), u, u', pi, l1, w, taus);
  }

  /**
   Acceptances alone force the statement: a prover bound to its polynomials and
   evaluations, whose openings are accepted for more than five v, under two u and
   at enough values of the secret, has met the PLONK identity at xi with true
   values of all six claims.
   */
  lemma AcceptancesForceTruth(polys: seq<Poly>, answers: seq<Answer>, e: Evals, c: Challenges, u: Fr, u': Fr, pi: Fr,
                              l1: Fr,
                              w: Fr, taus: seq<Fr>)
    requires Prime(R) && |polys| == 15 && Derived(c) && u != u' && Distinct(taus) && |answers| > 5
    requires forall i, j | 0 <= i < j < |answers| :: answers[i].v != answers[j].v
    requires forall i | 0 <= i < |answers| :: Convinces(polys, answers[i], e, c, u, u', pi, l1, w, taus)
    ensures TrueClaims(e, c, pi, l1, EvalAll(polys, c.xi)) && HonestZw(e, polys, c.xi, w)
  {
    var accepted := seq(|answers|, i requires 0 <= i < |answers| => answers[i].v);
    AnswerOpens(polys, answers[0], e, c, u, u', pi, l1, w, taus);
    TruthFromAnswers(polys, answers, accepted, e, c, u, u', pi, l1, w, taus);
  }

  lemma TruthFromAnswers(polys: seq<Poly>, answers: seq<Answer>, accepted: seq<Fr>, e: Evals, c: Challenges, u: Fr,
                         u': Fr,
                         pi: Fr, l1: Fr, w: Fr, taus: seq<Fr>)
    requires Prime(R) && |polys| == 15 && Derived(c) && u != u' && Distinct(taus) && Distinct(accepted)
    requires |accepted| == |answers| > 5
    requires forall i | 0 <= i < |answers| ::
               Convinces(polys, answers[i], e, c, u, u', pi, l1, w, taus) && accepted[i] == answers[i].v
    ensures TrueClaims(e, c, pi, l1, EvalAll(polys, c.xi))
  {
    forall i | 0 <= i < |accepted| ensures OpensAtXi(polys, e, c.(v := VPowers(accepted[i])), pi, l1) {
      AnswerOpens(polys, answers[i], e, c, u, u', pi, l1, w, taus);
    }
    AtMostFiveV(polys, e, c, pi, l1, accepted);
  }
}
