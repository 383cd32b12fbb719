/** The final check: batching, its exactness, and completeness of the verifier. */
module Batching {
  import opened Modular
  import opened Polynomials
  import opened Scalar
  import opened Algebra

  /** The exponents the verifier computes with. `points` is in the order of `Scalars`. */
  datatype Exponents = Exponents(points: seq<int>, wxi: int, wxiw: int)

  /** The claimed evaluations on the five openings batched by v: `calculate_e` without r0 and u. */
  function Claims(e: Evals, c: Challenges): int
    requires |c.v| == 5
  {
    e.a * c.v[0] + e.b * c.v[1] + e.c * c.v[2] + e.s1 * c.v[3] + e.s2 * c.v[4]
  }

  /** The exponent of `calculate_f`. */
  function FExponent(x: Exponents, e: Evals, c: Challenges, l1: Fr): int
    requires |x.points| == 15 && |c.v| == 5
  {
    Dot(Scalars(e, c, l1), x.points, F_TERMS) + c.u * x.points[Z_SLOT]
  }

  /** The exponent of `calculate_e`. */
  function EExponent(e: Evals, c: Challenges, r0: Fr): int
    requires |c.v| == 5
  {
    -(r0 as int) + Claims(e, c) + e.zw * c.u
  }

  /** What the pairing compares with zero. */
  function PairingExponent(x: Exponents, c: Challenges, w: Fr, f: int, g: int, tau: int): int {
    -(x.wxiw * c.u + x.wxi) * tau + (x.wxi * c.xi + x.wxiw * (c.u * c.xi * w) + f - g)
  }

  /** `check_pairing` over exponents. */
  ghost predicate Accepts(x: Exponents, e: Evals, c: Challenges, pi: Fr, l1: Fr, w: Fr, tau: int)
    requires |x.points| == 15 && |c.v| == 5
  {
    var f := FExponent(x, e, c, l1);
    var g := EExponent(e, c, EvalR0(e, c, pi, l1));
    Eq(PairingExponent(x, c, w, f, g, tau), 0)
  }

  // ---------------------------------------------------------------------------
  // Batching by u
  // ---------------------------------------------------------------------------

  /** By how much the opening at xi fails in the exponent. */
  function DefectXi(x: Exponents, e: Evals, c: Challenges, pi: Fr, l1: Fr, tau: int): int
    requires |x.points| == 15 && |c.v| == 5
  {
    (tau - c.xi) * x.wxi - (Dot(Scalars(e, c, l1), x.points, F_TERMS) + EvalR0(e, c, pi, l1) - Claims(e, c))
  }

  /** By how much the opening of z at xi * w fails. */
  function DefectXiW(x: Exponents, e: Evals, c: Challenges, w: Fr, tau: int): int
    requires |x.points| == 15
  {
    (tau - c.xi * w) * x.wxiw - (x.points[Z_SLOT] - e.zw)
  }

  lemma PairingSplits(wxi: int, wxiw: int, u: int, xi: int, w: int, tau: int, f: int, r0: int, claims: int, z: int,
                      zw: int)
    ensures -(wxiw * u + wxi) * tau + (wxi * xi + wxiw * (u * xi * w) + (f + u * z) - (-r0 + claims + zw * u))
         == -(((tau - xi) * wxi - (f + r0 - claims)) + u * ((tau - xi * w) * wxiw - (z - zw)))
  {
  }

  lemma EqNegZero(a: int)
    ensures Eq(-a, 0) <==> Eq(a, 0)
  {
    if Eq(-a, 0) {
      EqAdd(0, 0, -a, 0);
    }
    if Eq(a, 0) {
      EqAdd(0, 0, a, 0);
    }
  }

  /** The check accepts exactly when the two defects cancel under u. */
  lemma BatchingIsExact(x: Exponents, e: Evals, c: Challenges, pi: Fr, l1: Fr, w: Fr, tau: int)
    requires |x.points| == 15 && |c.v| == 5
    ensures Accepts(x, e, c, pi, l1, w, tau)
       <==> Eq(DefectXi(x, e, c, pi, l1, tau) + c.u * DefectXiW(x, e, c, w, tau), 0)
  {
    var r0 := EvalR0(e, c, pi, l1);
    var dot := Dot(Scalars(e, c, l1), x.points, F_TERMS);
    PairingSplits(x.wxi, x.wxiw, c.u, c.xi, w, tau, dot, r0, Claims(e, c), x.points[Z_SLOT], e.zw);
    var d, d' := DefectXi(x, e, c, pi, l1, tau), DefectXiW(x, e, c, w, tau);
    var pairing := PairingExponent(x, c, w, FExponent(x, e, c, l1), EExponent(e, c, r0), tau);
    assert pairing == -(d + c.u * d');
    EqNegZero(d + c.u * d');
  }

  /** The defects do not depend on u. */
  lemma DefectsIgnoreU(x: Exponents, e: Evals, c: Challenges, u: Fr, pi: Fr, l1: Fr, w: Fr, tau: int)
    requires |x.points| == 15 && |c.v| == 5
    ensures DefectXi(x, e, c.(u := u), pi, l1, tau) == DefectXi(x, e, c, pi, l1, tau)
    ensures DefectXiW(x, e, c.(u := u), w, tau) == DefectXiW(x, e, c, w, tau)
  {
    assert Scalars(e, c.(u := u), l1) == Scalars(e, c, l1);
  }

  /** Two accepted values of u force both openings; both openings make every u accepted. */
  lemma OneU(x: Exponents, e: Evals, c: Challenges, u: Fr, u': Fr, pi: Fr, l1: Fr, w: Fr, tau: int)
    requires Prime(R) && |x.points| == 15 && |c.v| == 5 && u != u'
    ensures Accepts(x, e, c.(u := u), pi, l1, w, tau) && Accepts(x, e, c.(u := u'), pi, l1, w, tau)
       <==> Eq(DefectXi(x, e, c, pi, l1, tau), 0) && Eq(DefectXiW(x, e, c, w, tau), 0)
  {
    var d, d' := DefectXi(x, e, c, pi, l1, tau), DefectXiW(x, e, c, w, tau);
    DefectsIgnoreU(x, e, c, u, pi, l1, w, tau);
    DefectsIgnoreU(x, e, c, u', pi, l1, w, tau);
    BatchingIsExact(x, e, c.(u := u), pi, l1, w, tau);
    BatchingIsExact(x, e, c.(u := u'), pi, l1, w, tau);
    LineThroughZero(d, d', u, u');
  }

  lemma LineThroughZero(d: int, d': int, u: Fr, u': Fr)
    requires Prime(R) && u != u'
    ensures Eq(d + u * d', 0) && Eq(d + u' * d', 0) <==> Eq(d, 0) && Eq(d', 0)
  {
    if Eq(d + u * d', 0) && Eq(d + u' * d', 0) {
      EqAdd(d + u * d', 0, d + u' * d', 0);
      assert (u - u') * d' == (d + u * d') - (d + u' * d');
      EqProductZero(u - u', d');
      EqDifference(u, u');
      EqScale(u, d', 0);
      EqAdd(d + u * d', 0, u * d', 0);
    }
    if Eq(d, 0) && Eq(d', 0) {
      BothVanish(d, d', u);
      BothVanish(d, d', u');
    }
  }

  // ---------------------------------------------------------------------------
  // Batching by v
  // ---------------------------------------------------------------------------

  /** The polynomial opened at xi: F, with r0 and the claims taken off its constant. */
  function BatchPoly(polys: seq<Poly>, e: Evals, c: Challenges, pi: Fr, l1: Fr): Poly
    requires |polys| == 15 && |c.v| == 5
  {
    Add(Combine(Scalars(e, c, l1), polys, F_TERMS), [EvalR0(e, c, pi, l1) - Claims(e, c)])
  }

  /** Some quotient W satisfies the opening at xi as an identity of polynomials. */
  ghost predicate OpensAtXi(polys: seq<Poly>, e: Evals, c: Challenges, pi: Fr, l1: Fr)
    requires |polys| == 15 && |c.v| == 5
  {
    exists q: Poly :: Same(TimesRoot(q, c.xi), BatchPoly(polys, e, c, pi, l1), R)
  }

  /** The linearisation's value at xi, which is the PLONK identity there. */
  function LinearisationValue(e: Evals, c: Challenges, pi: Fr, l1: Fr, p: seq<int>): int
    requires |p| == 15 && |c.v| == 5
  {
    Dot(Scalars(e, c, l1), p, D_TERMS) + EvalR0(e, c, pi, l1)
  }

  /** Linearisation value and the five claims' errors, as coefficients in v. */
  function Errors(e: Evals, c: Challenges, pi: Fr, l1: Fr, p: seq<int>): (f: Poly)
    requires |p| == 15 && |c.v| == 5
    ensures |f| == 6
  {
    [LinearisationValue(e, c, pi, l1, p), p[10] - e.a, p[11] - e.b, p[12] - e.c, p[13] - e.s1, p[14] - e.s2]
  }

  lemma EvalBatch(polys: seq<Poly>, e: Evals, c: Challenges, pi: Fr, l1: Fr, x: int)
    requires |polys| == 15 && |c.v| == 5
    ensures Eval(BatchPoly(polys, e, c, pi, l1), x)
         == Dot(Scalars(e, c, l1), EvalAll(polys, x), F_TERMS) + EvalR0(e, c, pi, l1) - Claims(e, c)
  {
    EvalCombine(Scalars(e, c, l1), polys, F_TERMS, x);
    var k := EvalR0(e, c, pi, l1) - Claims(e, c);
    EvalAdd(Combine(Scalars(e, c, l1), polys, F_TERMS), [k], x);
    EvalConstant(k, x);
  }

  lemma EvalConstant(k: int, x: int)
    ensures Eval([k], x) == k
  {
    assert Eval([], x) == 0;
  }

  /** The six errors combined by the five powers. */
  function Weighed(v: seq<Fr>, f: Poly): int
    requires |v| == 5 && |f| == 6
  {
    f[0] + v[0] * f[1] + v[1] * f[2] + v[2] * f[3] + v[3] * f[4] + v[4] * f[5]
  }

  /** The batch at xi is that combination. */
  lemma BatchSplits(e: Evals, c: Challenges, pi: Fr, l1: Fr, p: seq<int>)
    requires |p| == 15 && |c.v| == 5
    ensures Dot(Scalars(e, c, l1), p, F_TERMS) + EvalR0(e, c, pi, l1) - Claims(e, c)
         == Weighed(c.v, Errors(e, c, pi, l1, p))
  {
    BatchParts(e, c, pi, l1, p);
    FiveTerms(e, c, Scalars(e, c, l1), p, EvalR0(e, c, pi, l1), Errors(e, c, pi, l1, p));
  }

  lemma BatchParts(e: Evals, c: Challenges, pi: Fr, l1: Fr, p: seq<int>)
    requires |p| == 15 && |c.v| == 5
    ensures Scalars(e, c, l1)[10..] == c.v
    ensures Errors(e, c, pi, l1, p)
         == [Dot(Scalars(e, c, l1), p, D_TERMS) + EvalR0(e, c, pi, l1), p[10] - e.a, p[11] - e.b, p[12] - e.c,
             p[13] - e.s1, p[14] - e.s2]
  {
  }

  lemma FiveTerms(e: Evals, c: Challenges, s: seq<int>, p: seq<int>, r0: int, f: Poly)
    requires |s| == 15 && |p| == 15 && |c.v| == 5 && |f| == 6
    requires s[10..] == c.v
    requires f == [Dot(s, p, D_TERMS) + r0, p[10] - e.a, p[11] - e.b, p[12] - e.c, p[13] - e.s1, p[14] - e.s2]
    ensures Dot(s, p, F_TERMS) + r0 - Claims(e, c) == Weighed(c.v, f)
  {
    DotTail(s, p, c.v[0], c.v[1], c.v[2], c.v[3], c.v[4]);
    Spread(c.v[0], p[10], e.a, f[1]);
    Spread(c.v[1], p[11], e.b, f[2]);
    Spread(c.v[2], p[12], e.c, f[3]);
    Spread(c.v[3], p[13], e.s1, f[4]);
    Spread(c.v[4], p[14], e.s2, f[5]);
  }

  lemma DotTail(s: seq<int>, p: seq<int>, v0: int, v1: int, v2: int, v3: int, v4: int)
    requires |s| == 15 && |p| == 15 && s[10] == v0 && s[11] == v1 && s[12] == v2 && s[13] == v3 && s[14] == v4
    ensures Dot(s, p, F_TERMS) == Dot(s, p, D_TERMS) + v0 * p[10] + v1 * p[11] + v2 * p[12] + v3 * p[13] + v4 * p[14]
  {
    DotF(s, p);
  }

  lemma Spread(v: int, p: int, e: int, f: int)
    requires f == p - e
    ensures v * f == v * p - e * v
  {
  }

  lemma EqNextPower(v: Fr, r: int, p: int)
    requires Eq(r, p)
    ensures Eq(Red(r * v), p * v)
  {
    RedEq(r * v);
    EqMul(r, p, v, v);
  }

  lemma EqVPowers(v: Fr)
    ensures var vs := VPowers(v);
      Eq(vs[1], v * v) && Eq(vs[2], v * v * v) && Eq(vs[3], v * v * v * v) && Eq(vs[4], v * v * v * v * v)
  {
    var vs := VPowers(v);
    EqNextPower(v, v, v);
    EqNextPower(v, vs[1], v * v);
    EqNextPower(v, vs[2], v * v * v);
    EqNextPower(v, vs[3], v * v * v * v);
  }

  lemma HornerStep(v: int, power: int, y: int, a: int, rest: int)
    requires y == a + v * rest
    ensures power * y == power * a + (power * v) * rest
  {
  }

  lemma Horner6(f: Poly, v: int)
    requires |f| == 6
    ensures Eval(f, v) == f[0] + v * f[1] + (v * v) * f[2] + (v * v * v) * f[3]
                          + (v * v * v * v) * f[4] + (v * v * v * v * v) * f[5]
  {
    assert f[5..] == [f[5]];
    EvalConstant(f[5], v);
    assert f[4..][1..] == f[5..] && f[3..][1..] == f[4..] && f[2..][1..] == f[3..] && f[1..][1..] == f[2..];
    var e4, e3, e2, e1 := Eval(f[4..], v), Eval(f[3..], v), Eval(f[2..], v), Eval(f[1..], v);
    HornerStep(v, v, e1, f[1], e2);
    HornerStep(v, v * v, e2, f[2], e3);
    HornerStep(v, v * v * v, e3, f[3], e4);
    HornerStep(v, v * v * v * v, e4, f[4], f[5]);
  }

  lemma EqAddTerm(h: int, h': int, v: int, power: int, f: int)
    requires Eq(h, h') && Eq(v, power)
    ensures Eq(h + v * f, h' + power * f)
  {
    EqScale(f, v, power);
    EqAdd(h, h', f * v, f * power);
  }

  lemma EqPowersEval(f: Poly, v: Fr, vs: seq<Fr>)
    requires |f| == 6 && vs == VPowers(v)
    ensures Eq(Weighed(vs, f), Eval(f, v))
  {
    EqVPowers(v);
    Horner6(f, v);
    var h1 := f[0] + v * f[1];
    EqAddTerm(h1, h1, vs[1], v * v, f[2]);
    var h2, h2' := h1 + vs[1] * f[2], h1 + (v * v) * f[2];
    EqAddTerm(h2, h2', vs[2], v * v * v, f[3]);
    var h3, h3' := h2 + vs[2] * f[3], h2' + (v * v * v) * f[3];
    EqAddTerm(h3, h3', vs[3], v * v * v * v, f[4]);
    EqAddTerm(h3 + vs[3] * f[4], h3' + (v * v * v * v) * f[4], vs[4], v * v * v * v * v, f[5]);
  }

  /** An opening polynomial exists exactly when v is a root of the error polynomial. */
  lemma OpensIffRoot(polys: seq<Poly>, e: Evals, c: Challenges, v: Fr, pi: Fr, l1: Fr)
    requires |polys| == 15
    ensures OpensAtXi(polys, e, c.(v := VPowers(v)), pi, l1)
       <==> Eq(Eval(Errors(e, c.(v := VPowers(v)), pi, l1, EvalAll(polys, c.xi)), v), 0)
  {
    var d := c.(v := VPowers(v));
    var p := EvalAll(polys, c.xi);
    var f := Errors(e, d, pi, l1, p);
    DividesIffRoot(BatchPoly(polys, e, d, pi, l1), c.xi, R);
    BatchIsErrors(polys, e, d, v, pi, l1, p);
  }

  lemma BatchIsErrors(polys: seq<Poly>, e: Evals, d: Challenges, v: Fr, pi: Fr, l1: Fr, p: seq<int>)
    requires |polys| == 15 && d.v == VPowers(v) && p == EvalAll(polys, d.xi)
    ensures Eq(Eval(BatchPoly(polys, e, d, pi, l1), d.xi), Eval(Errors(e, d, pi, l1, p), v))
  {
    EvalBatch(polys, e, d, pi, l1, d.xi);
    BatchSplits(e, d, pi, l1, p);
    EqPowersEval(Errors(e, d, pi, l1, p), v, d.v);
  }

  /** The errors do not depend on v. */
  lemma ErrorsIgnoreV(e: Evals, c: Challenges, v: Fr, pi: Fr, l1: Fr, p: seq<int>)
    requires |p| == 15 && |c.v| == 5
    ensures Errors(e, c.(v := VPowers(v)), pi, l1, p) == Errors(e, c, pi, l1, p)
  {
    ScalarsIgnoreV(e, c, v, pi, l1);
    SameDot(Scalars(e, c.(v := VPowers(v)), l1), Scalars(e, c, l1), p, D_TERMS);
  }

  lemma ScalarsIgnoreV(e: Evals, c: Challenges, v: Fr, pi: Fr, l1: Fr)
    requires |c.v| == 5
    ensures Scalars(e, c.(v := VPowers(v)), l1)[..D_TERMS] == Scalars(e, c, l1)[..D_TERMS]
    ensures EvalR0(e, c.(v := VPowers(v)), pi, l1) == EvalR0(e, c, pi, l1)
  {
  }

  lemma {:induction false} SameDot(s: seq<int>, t: seq<int>, p: seq<int>, n: nat)
    requires n <= |s| && n <= |t| && n <= |p| && s[..n] == t[..n]
    ensures Dot(s, p, n) == Dot(t, p, n)
    decreases n
  {
    if n == 0 {
    } else {
      assert s[..n][..n - 1] == t[..n][..n - 1];
      assert s[n - 1] == s[..n][n - 1];
      SameDot(s, t, p, n - 1);
    }
  }

  /** The PLONK identity holds at xi and the five claims are true. */
  ghost predicate TrueClaims(e: Evals, c: Challenges, pi: Fr, l1: Fr, p: seq<int>)
    requires |p| == 15
  {
    && Eq(PlonkIdentity(e, c, pi, l1, p), 0)
    && Eq(p[10], e.a) && Eq(p[11], e.b) && Eq(p[12], e.c) && Eq(p[13], e.s1) && Eq(p[14], e.s2)
  }

  /** The errors all vanish exactly when the claims are true. */
  lemma ErrorsVanish(e: Evals, c: Challenges, pi: Fr, l1: Fr, p: seq<int>)
    requires |p| == 15 && Derived(c)
    ensures Zero(Errors(e, c, pi, l1, p), R) <==> TrueClaims(e, c, pi, l1, p)
  {
    var f, identity := Errors(e, c, pi, l1, p), PlonkIdentity(e, c, pi, l1, p);
    LinearisationMeaning(e, c, pi, l1, p);
    EqDifference(p[10], e.a);
    EqDifference(p[11], e.b);
    EqDifference(p[12], e.c);
    EqDifference(p[13], e.s1);
    EqDifference(p[14], e.s2);
    assert Eq(identity, 0) <==> Vanishes(f[0], R);
    assert Zero(f, R) <==> Vanishes(f[0], R) && Vanishes(f[1], R) && Vanishes(f[2], R) && Vanishes(f[3], R)
                           && Vanishes(f[4], R) && Vanishes(f[5], R);
  }

  /**
   If any of the five claims is false, or the PLONK identity fails at xi, then
   at most five values of v admit an opening at xi.
   */
  lemma AtMostFiveV(polys: seq<Poly>, e: Evals, c: Challenges, pi: Fr, l1: Fr, accepted: seq<Fr>)
    requires Prime(R) && |polys| == 15 && Derived(c) && Distinct(accepted)
    requires forall i | 0 <= i < |accepted| :: OpensAtXi(polys, e, c.(v := VPowers(accepted[i])), pi, l1)
    requires |accepted| > 5
    ensures TrueClaims(e, c, pi, l1, EvalAll(polys, c.xi))
  {
    var p := EvalAll(polys, c.xi);
    var f := Errors(e, c, pi, l1, p);
    forall i | 0 <= i < |accepted| ensures Vanishes(Eval(f, accepted[i]), R) {
      OpensIffRoot(polys, e, c, accepted[i], pi, l1);
      ErrorsIgnoreV(e, c, accepted[i], pi, l1, p);
    }
    ErrorsVanish(e, c, pi, l1, p);
    if !Zero(f, R) {
      RootBound(f, accepted, R);
      assert false;
    }
  }

  /** Conversely, true claims admit an opening for every v. */
  lemma EveryV(polys: seq<Poly>, e: Evals, c: Challenges, pi: Fr, l1: Fr, v: Fr)
    requires |polys| == 15 && Derived(c) && TrueClaims(e, c, pi, l1, EvalAll(polys, c.xi))
    ensures OpensAtXi(polys, e, c.(v := VPowers(v)), pi, l1)
  {
    var p := EvalAll(polys, c.xi);
    ErrorsVanish(e, c, pi, l1, p);
    ZeroEval(Errors(e, c, pi, l1, p), v, R);
    ErrorsIgnoreV(e, c, v, pi, l1, p);
    OpensIffRoot(polys, e, c, v, pi, l1);
  }

  // ---------------------------------------------------------------------------
  // Completeness
  // ---------------------------------------------------------------------------

  /** Every commitment is its polynomial's value at tau. */
  ghost predicate Commits(points: seq<int>, polys: seq<Poly>, tau: int) {
    && |points| == |polys|
    && forall i | 0 <= i < |points| :: Eq(points[i], Eval(polys[i], tau))
  }

  /** The evaluation of z at xi * w is the one z takes. */
  ghost predicate HonestZw(e: Evals, polys: seq<Poly>, xi: Fr, w: Fr)
    requires |polys| == 15
  {
    Eq(Eval(polys[Z_SLOT], xi * w), e.zw)
  }

  /** The two openings are the synthetic-division quotients, committed to. */
  ghost predicate HonestOpenings(x: Exponents, polys: seq<Poly>, e: Evals, c: Challenges, pi: Fr, l1: Fr, w: Fr,
                                 tau: int)
    requires |polys| == 15 && |c.v| == 5
  {
    && Eq(x.wxi, Eval(Quotient(BatchPoly(polys, e, c, pi, l1), c.xi), tau))
    && Eq(x.wxiw, Eval(Quotient(polys[Z_SLOT], c.xi * w), tau))
  }

  lemma OpeningHolds(t: int, wxi: int, q: int, dot: int, dot': int, k: int, fTau: int, fXi: int)
    requires Eq(wxi, q) && Eq(dot, dot') && fTau == dot' + k && fTau - fXi == t * q && Eq(fXi, 0)
    ensures Eq(t * wxi - (dot + k), 0)
  {
    EqScale(t, wxi, q);
    EqAdd(dot, dot', k, k);
    EqAdd(t * wxi, t * q, dot + k, fTau);
    EqNegZero(fXi);
  }

  lemma HonestXi(x: Exponents, polys: seq<Poly>, e: Evals, c: Challenges, pi: Fr, l1: Fr, w: Fr, tau: int)
    requires |polys| == 15 && Derived(c) && Commits(x.points, polys, tau)
    requires TrueClaims(e, c, pi, l1, EvalAll(polys, c.xi)) && HonestOpenings(x, polys, e, c, pi, l1, w, tau)
    ensures Eq(DefectXi(x, e, c, pi, l1, tau), 0)
  {
    BatchVanishesAtXi(polys, e, c, pi, l1);
    EqDot(Scalars(e, c, l1), x.points, EvalAll(polys, tau), F_TERMS);
    OpeningAtXi(x, polys, e, c, pi, l1, Scalars(e, c, l1), BatchPoly(polys, e, c, pi, l1), tau);
  }

  lemma OpeningAtXi(x: Exponents, polys: seq<Poly>, e: Evals, c: Challenges, pi: Fr, l1: Fr, s: seq<int>, f: Poly,
                    tau: int)
    requires |polys| == 15 && |c.v| == 5 && |x.points| == 15
    requires s == Scalars(e, c, l1) && f == BatchPoly(polys, e, c, pi, l1)
    requires Eq(x.wxi, Eval(Quotient(f, c.xi), tau)) && Eq(Eval(f, c.xi), 0)
    requires Eq(Dot(s, x.points, F_TERMS), Dot(s, EvalAll(polys, tau), F_TERMS))
    ensures Eq(DefectXi(x, e, c, pi, l1, tau), 0)
  {
    QuotientDivides(f, c.xi, tau);
    EvalBatch(polys, e, c, pi, l1, tau);
    OpeningHolds(tau - c.xi, x.wxi, Eval(Quotient(f, c.xi), tau), Dot(s, x.points, F_TERMS),
                 Dot(s, EvalAll(polys, tau), F_TERMS), EvalR0(e, c, pi, l1) - Claims(e, c),
                 Eval(f, tau), Eval(f, c.xi));
  }

  lemma BatchVanishesAtXi(polys: seq<Poly>, e: Evals, c: Challenges, pi: Fr, l1: Fr)
    requires |polys| == 15 && Derived(c) && TrueClaims(e, c, pi, l1, EvalAll(polys, c.xi))
    ensures Eq(Eval(BatchPoly(polys, e, c, pi, l1), c.xi), 0)
  {
    EveryV(polys, e, c, pi, l1, c.v[0]);
    assert c.(v := VPowers(c.v[0])) == c;
    DividesIffRoot(BatchPoly(polys, e, c, pi, l1), c.xi, R);
  }

  lemma HonestXiW(x: Exponents, polys: seq<Poly>, e: Evals, c: Challenges, pi: Fr, l1: Fr, w: Fr, tau: int)
    requires |polys| == 15 && |c.v| == 5 && Commits(x.points, polys, tau)
    requires HonestZw(e, polys, c.xi, w) && HonestOpenings(x, polys, e, c, pi, l1, w, tau)
    ensures Eq(DefectXiW(x, e, c, w, tau), 0)
  {
    OpeningAtXiW(c.xi * w, polys[Z_SLOT], x.points[Z_SLOT], x.wxiw, e.zw, tau);
  }

  lemma OpeningAtXiW(at: int, z: Poly, point: int, wxiw: int, zw: int, tau: int)
    requires Eq(point, Eval(z, tau)) && Eq(wxiw, Eval(Quotient(z, at), tau)) && Eq(Eval(z, at), zw)
    ensures Eq((tau - at) * wxiw - (point - zw), 0)
  {
    var q := Eval(Quotient(z, at), tau);
    QuotientDivides(z, at, tau);
    EqScale(tau - at, wxiw, q);
    EqAdd(point, Eval(z, tau), zw, Eval(z, at));
    EqAdd((tau - at) * wxiw, (tau - at) * q, point - zw, Eval(z, tau) - Eval(z, at));
    assert (tau - at) * q - (Eval(z, tau) - Eval(z, at)) == 0;
  }

  /** Honest commitments, evaluations and openings are accepted, whatever the challenges. */
  lemma Completeness(x: Exponents, polys: seq<Poly>, e: Evals, c: Challenges, pi: Fr, l1: Fr, w: Fr, tau: int)
    requires |polys| == 15 && Derived(c) && Commits(x.points, polys, tau)
    requires TrueClaims(e, c, pi, l1, EvalAll(polys, c.xi)) && HonestZw(e, polys, c.xi, w)
    requires HonestOpenings(x, polys, e, c, pi, l1, w, tau)
    ensures Accepts(x, e, c, pi, l1, w, tau)
  {
    HonestXi(x, polys, e, c, pi, l1, w, tau);
    HonestXiW(x, polys, e, c, pi, l1, w, tau);
    NoDefects(x, e, c, pi, l1, w, tau);
  }

  lemma NoDefects(x: Exponents, e: Evals, c: Challenges, pi: Fr, l1: Fr, w: Fr, tau: int)
    requires |c.v| == 5 && |x.points| == 15
    requires Eq(DefectXi(x, e, c, pi, l1, tau), 0) && Eq(DefectXiW(x, e, c, w, tau), 0)
    ensures Accepts(x, e, c, pi, l1, w, tau)
  {
    BothVanish(DefectXi(x, e, c, pi, l1, tau), DefectXiW(x, e, c, w, tau), c.u);
    BatchingIsExact(x, e, c, pi, l1, w, tau);
  }

  lemma BothVanish(d: int, d': int, u: int)
    requires Eq(d, 0) && Eq(d', 0)
    ensures Eq(d + u * d', 0)
  {
    EqScale(u, d', 0);
    EqAdd(d, 0, u * d', 0);
  }
}
