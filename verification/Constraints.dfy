/**
 From the PLONK identity at many points to the constraints it stands for: the
 gates at every point of the domain, and the grand product of the permutation
 (program/src/plonk.rs).
 */
module Constraints {
  import opened Modular
  import opened Polynomials
  import opened Scalar
  import opened Algebra
  import opened Batching
  import opened Domain
  import opened Acceptance
  import opened Soundness

  /** What a statement fixes beside its polynomials: the permutation challenges, the public input, and the generator. */
  datatype Setting = Setting(beta: Fr, gamma: Fr, pi: Fr, w: Fr, nInverse: Fr)

  ghost predicate ValidSetting(s: Setting) {
    Eq(N * s.nInverse, 1) && Eq(Pow(s.w, N), 1)
  }

  // ---------------------------------------------------------------------------
  // The identity's parts, from the values of the fifteen polynomials
  // ---------------------------------------------------------------------------

  /** `qM a b + qL a + qR b + qO c + qC + PI`. */
  function Gate(p: seq<int>, s: Setting, l1: int): int
    requires |p| == 15
  {
    p[1] * p[10] * p[11] + p[2] * p[10] + p[3] * p[11] + p[4] * p[12] + p[0] - s.pi * l1
  }

  function Numer(p: seq<int>, s: Setting, x: int): int
    requires |p| == 15
  {
    (p[10] + s.beta * x + s.gamma) * (p[11] + s.beta * x * K1 + s.gamma) * (p[12] + s.beta * x * K2 + s.gamma)
  }

  function Denom(p: seq<int>, s: Setting): int
    requires |p| == 15
  {
    (p[10] + s.beta * p[13] + s.gamma) * (p[11] + s.beta * p[14] + s.gamma) * (p[12] + s.beta * p[6] + s.gamma)
  }

  function Permutation(p: seq<int>, s: Setting, x: int, zw: int): int
    requires |p| == 15
  {
    Numer(p, s, x) * p[5] - Denom(p, s) * zw
  }

  function Start(p: seq<int>, l1: int): int
    requires |p| == 15
  {
    l1 * (p[5] - 1)
  }

  function SplitQuotient(p: seq<int>, xn: int): int
    requires |p| == 15
  {
    (xn - 1) * (p[7] + xn * p[8] + xn * xn * p[9])
  }

  function Identity(p: seq<int>, s: Setting, alpha: int, x: int, xn: int, zw: int, l1: int): int
    requires |p| == 15
  {
    Gate(p, s, l1) + alpha * Permutation(p, s, x, zw) + alpha * alpha * Start(p, l1) - SplitQuotient(p, xn)
  }

  // ---------------------------------------------------------------------------
  // The same as one polynomial
  // ---------------------------------------------------------------------------

  /** k (1 + X + ... + X^(n-1)). */
  function Powers(k: int, n: nat): Poly
    decreases n, k
  {
    if n == 0 then [] else [k] + Powers(k, n - 1)
  }

  lemma {:induction false} EvalPowers(k: int, n: nat, x: int)
    ensures Eval(Powers(k, n), x) == k * Geometric(x, n)
    decreases n
  {
    if n == 0 {
    } else {
      EvalPowers(k, n - 1, x);
      EvalFirst(k, Powers(k, n - 1), x);
      PowersStep(k, x, Geometric(x, n - 1));
    }
  }

  lemma EvalFirst(k: int, f: Poly, x: int)
    ensures Eval([k] + f, x) == k + x * Eval(f, x)
  {
    assert ([k] + f)[1..] == f;
  }

  lemma PowersStep(k: int, x: int, g: int)
    ensures k + x * (k * g) == k * (1 + x * g)
  {
    assert x * (k * g) == k * (x * g);
  }

  /** X^n f. */
  function Raise(f: Poly, n: nat): Poly
    decreases n, f
  {
    if n == 0 then f else [0] + Raise(f, n - 1)
  }

  lemma {:induction false} EvalRaise(f: Poly, n: nat, x: int)
    ensures Eval(Raise(f, n), x) == Pow(x, n) * Eval(f, x)
    decreases n
  {
    if n == 0 {
    } else {
      EvalRaise(f, n - 1, x);
      EvalUp(Raise(f, n - 1), x);
      assert x * (Pow(x, n - 1) * Eval(f, x)) == x * Pow(x, n - 1) * Eval(f, x);
    }
  }

  /** L_1. */
  function L1Poly(s: Setting): Poly {
    Powers(s.nInverse, N)
  }

  function GatePoly(f: seq<Poly>, s: Setting): Poly
    requires |f| == 15
  {
    var products := Add(Mul(Mul(f[1], f[10]), f[11]), Add(Mul(f[2], f[10]), Add(Mul(f[3], f[11]), Mul(f[4], f[12]))));
    Difference(Add(products, f[0]), Scale(s.pi, L1Poly(s)))
  }

  function NumerPoly(f: seq<Poly>, s: Setting): Poly
    requires |f| == 15
  {
    Mul(Mul(Add(f[10], [s.gamma, s.beta]), Add(f[11], [s.gamma, s.beta * K1])), Add(f[12], [s.gamma, s.beta * K2]))
  }

  /** f + beta g + gamma. */
  function Shifted(f: Poly, g: Poly, s: Setting): Poly {
    Add(Add(f, Scale(s.beta, g)), [s.gamma])
  }

  function DenomPoly(f: seq<Poly>, s: Setting): Poly
    requires |f| == 15
  {
    Mul(Mul(Shifted(f[10], f[13], s), Shifted(f[11], f[14], s)), Shifted(f[12], f[6], s))
  }

  function PermutationPoly(f: seq<Poly>, s: Setting): Poly
    requires |f| == 15
  {
    Difference(Mul(NumerPoly(f, s), f[5]), Mul(DenomPoly(f, s), Dilate(f[5], s.w)))
  }

  function StartPoly(f: seq<Poly>, s: Setting): Poly
    requires |f| == 15
  {
    Mul(L1Poly(s), Add(f[5], [-1]))
  }

  function QuotientPoly(f: seq<Poly>): Poly
    requires |f| == 15
  {
    var t := Add(f[7], Add(Raise(f[8], N), Raise(Raise(f[9], N), N)));
    Difference(Raise(t, N), t)
  }

  function IdentityPoly(f: seq<Poly>, s: Setting, alpha: int): Poly
    requires |f| == 15
  {
    Difference(Add(GatePoly(f, s), Add(Scale(alpha, PermutationPoly(f, s)), Scale(alpha * alpha, StartPoly(f, s)))),
               QuotientPoly(f))
  }

  lemma EvalGate(f: seq<Poly>, s: Setting, x: int)
    requires |f| == 15
    ensures Eval(GatePoly(f, s), x) == Gate(EvalAll(f, x), s, Eval(L1Poly(s), x))
  {
    var m, l, r, o := Mul(Mul(f[1], f[10]), f[11]), Mul(f[2], f[10]), Mul(f[3], f[11]), Mul(f[4], f[12]);
    EvalMul(Mul(f[1], f[10]), f[11], x);
    EvalMul(f[1], f[10], x);
    EvalMul(f[2], f[10], x);
    EvalMul(f[3], f[11], x);
    EvalMul(f[4], f[12], x);
    EvalSums(m, l, r, o, f[0], x);
    EvalDifference(Add(Add(m, Add(l, Add(r, o))), f[0]), Scale(s.pi, L1Poly(s)), x);
    EvalScale(s.pi, L1Poly(s), x);
  }

  lemma EvalSums(m: Poly, l: Poly, r: Poly, o: Poly, c: Poly, x: int)
    ensures Eval(Add(Add(m, Add(l, Add(r, o))), c), x) == Eval(m, x) + Eval(l, x) + Eval(r, x) + Eval(o, x) + Eval(c, x)
  {
    EvalAdd(Add(m, Add(l, Add(r, o))), c, x);
    EvalAdd(m, Add(l, Add(r, o)), x);
    EvalAdd(l, Add(r, o), x);
    EvalAdd(r, o, x);
  }

  lemma EvalLine(f: Poly, k: int, m: int, x: int)
    ensures Eval(Add(f, [k, m]), x) == Eval(f, x) + m * x + k
  {
    EvalAdd(f, [k, m], x);
    assert [k, m][1..] == [m];
    EvalConstant(m, x);
  }

  lemma EvalNumer(f: seq<Poly>, s: Setting, x: int)
    requires |f| == 15
    ensures Eval(NumerPoly(f, s), x) == Numer(EvalAll(f, x), s, x)
  {
    var a, b, c := Add(f[10], [s.gamma, s.beta]), Add(f[11], [s.gamma, s.beta * K1]),
        Add(f[12], [s.gamma, s.beta * K2]);
    EvalLine(f[10], s.gamma, s.beta, x);
    EvalLine(f[11], s.gamma, s.beta * K1, x);
    EvalLine(f[12], s.gamma, s.beta * K2, x);
    EvalMul(Mul(a, b), c, x);
    EvalMul(a, b, x);
    Commute(s.beta, K1, x);
    Commute(s.beta, K2, x);
  }

  lemma Commute(a: int, b: int, c: int)
    ensures a * b * c == a * c * b
  {
  }

  lemma EvalShifted(f: Poly, g: Poly, s: Setting, x: int)
    ensures Eval(Shifted(f, g, s), x) == Eval(f, x) + s.beta * Eval(g, x) + s.gamma
  {
    EvalAdd(Add(f, Scale(s.beta, g)), [s.gamma], x);
    EvalAdd(f, Scale(s.beta, g), x);
    EvalScale(s.beta, g, x);
    EvalConstant(s.gamma, x);
  }

  lemma EvalDenom(f: seq<Poly>, s: Setting, x: int)
    requires |f| == 15
    ensures Eval(DenomPoly(f, s), x) == Denom(EvalAll(f, x), s)
  {
    var a, b, c := Shifted(f[10], f[13], s), Shifted(f[11], f[14], s), Shifted(f[12], f[6], s);
    EvalShifted(f[10], f[13], s, x);
    EvalShifted(f[11], f[14], s, x);
    EvalShifted(f[12], f[6], s, x);
    EvalMul(Mul(a, b), c, x);
    EvalMul(a, b, x);
  }

  lemma EvalPermutation(f: seq<Poly>, s: Setting, x: int)
    requires |f| == 15
    ensures Eval(PermutationPoly(f, s), x) == Permutation(EvalAll(f, x), s, x, Eval(f[5], x * s.w))
  {
    EvalNumer(f, s, x);
    EvalDenom(f, s, x);
    EvalMul(NumerPoly(f, s), f[5], x);
    EvalMul(DenomPoly(f, s), Dilate(f[5], s.w), x);
    EvalDilate(f[5], s.w, x);
    EvalDifference(Mul(NumerPoly(f, s), f[5]), Mul(DenomPoly(f, s), Dilate(f[5], s.w)), x);
  }

  lemma EvalStart(f: seq<Poly>, s: Setting, x: int)
    requires |f| == 15
    ensures Eval(StartPoly(f, s), x) == Start(EvalAll(f, x), Eval(L1Poly(s), x))
  {
    EvalMul(L1Poly(s), Add(f[5], [-1]), x);
    EvalAdd(f[5], [-1], x);
    EvalConstant(-1, x);
  }

  lemma EvalQuotient(f: seq<Poly>, x: int, xn: int)
    requires |f| == 15 && xn == Pow(x, N)
    ensures Eval(QuotientPoly(f), x) == SplitQuotient(EvalAll(f, x), xn)
  {
    var t2, t3 := Raise(f[8], N), Raise(Raise(f[9], N), N);
    var t := Add(f[7], Add(t2, t3));
    EvalRaise(f[8], N, x);
    EvalRaise(Raise(f[9], N), N, x);
    EvalRaise(f[9], N, x);
    EvalAdd(f[7], Add(t2, t3), x);
    EvalAdd(t2, t3, x);
    EvalRaise(t, N, x);
    EvalDifference(Raise(t, N), t, x);
    QuotientShape(Eval(f[7], x), Eval(f[8], x), Eval(f[9], x), xn);
  }

  lemma QuotientShape(t1: int, t2: int, t3: int, xn: int)
    ensures (xn - 1) * (t1 + xn * t2 + xn * xn * t3)
         == xn * (t1 + (xn * t2 + xn * (xn * t3))) - (t1 + (xn * t2 + xn * (xn * t3)))
  {
  }

  /** The identity polynomial takes the identity's value. */
  lemma EvalIdentity(f: seq<Poly>, s: Setting, alpha: int, x: int)
    requires |f| == 15
    ensures Eval(IdentityPoly(f, s, alpha), x)
         == Identity(EvalAll(f, x), s, alpha, x, Pow(x, N), Eval(f[5], x * s.w), Eval(L1Poly(s), x))
  {
    var g, p, t, q := GatePoly(f, s), PermutationPoly(f, s), StartPoly(f, s), QuotientPoly(f);
    EvalGate(f, s, x);
    EvalPermutation(f, s, x);
    EvalStart(f, s, x);
    EvalQuotient(f, x, Pow(x, N));
    EvalDifference(Add(g, Add(Scale(alpha, p), Scale(alpha * alpha, t))), q, x);
    EvalAdd(g, Add(Scale(alpha, p), Scale(alpha * alpha, t)), x);
    EvalAdd(Scale(alpha, p), Scale(alpha * alpha, t), x);
    EvalScale(alpha, p, x);
    EvalScale(alpha * alpha, t, x);
  }

  // ---------------------------------------------------------------------------
  // True claims at xi are the identity at xi
  // ---------------------------------------------------------------------------

  lemma EqProduct(a: int, a': int, b: int, b': int, x: int, y: int)
    requires Eq(a, a') && Eq(b, b') && x == a * b && y == a' * b'
    ensures Eq(x, y)
  {
    EqMul(a, a', b, b');
  }

  lemma EqSum(a: int, a': int, b: int, b': int, x: int, y: int)
    requires Eq(a, a') && Eq(b, b') && x == a + b && y == a' + b'
    ensures Eq(x, y)
  {
    EqAdd(a, a', b, b');
  }

  lemma EqMinus(a: int, a': int, b: int, b': int, x: int, y: int)
    requires Eq(a, a') && Eq(b, b') && x == a - b && y == a' - b'
    ensures Eq(x, y)
  {
    EqAdd(a, a', b, b');
  }

  /** The gate with the claimed evaluations. */
  lemma GateClaims(p: seq<int>, s: Setting, e: Evals, l1: Fr, l1': int)
    requires |p| == 15 && Eq(e.a, p[10]) && Eq(e.b, p[11]) && Eq(e.c, p[12]) && Eq(l1, l1')
    ensures Eq(p[1] * e.a * e.b + p[2] * e.a + p[3] * e.b + p[4] * e.c + p[0] + PublicAtXi(l1, s.pi), Gate(p, s, l1'))
  {
    var a, b, c := p[10], p[11], p[12];
    EqScale(p[1], e.a, a);
    EqProduct(p[1] * e.a, p[1] * a, e.b, b, p[1] * e.a * e.b, p[1] * a * b);
    EqScale(p[2], e.a, a);
    EqScale(p[3], e.b, b);
    EqScale(p[4], e.c, c);
    var m, m' := p[1] * e.a * e.b + p[2] * e.a, p[1] * a * b + p[2] * a;
    EqSum(p[1] * e.a * e.b, p[1] * a * b, p[2] * e.a, p[2] * a, m, m');
    EqSum(m, m', p[3] * e.b, p[3] * b, m + p[3] * e.b, m' + p[3] * b);
    var k, k' := m + p[3] * e.b + p[4] * e.c, m' + p[3] * b + p[4] * c;
    EqSum(m + p[3] * e.b, m' + p[3] * b, p[4] * e.c, p[4] * c, k, k');
    EqSum(k, k', p[0], p[0], k + p[0], k' + p[0]);
    PublicClaim(s, l1, l1');
    EqSum(k + p[0], k' + p[0], PublicAtXi(l1, s.pi), -(s.pi * l1'), k + p[0] + PublicAtXi(l1, s.pi), Gate(p, s, l1'));
  }

  lemma PublicClaim(s: Setting, l1: Fr, l1': int)
    requires Eq(l1, l1')
    ensures Eq(PublicAtXi(l1, s.pi), -(s.pi * l1'))
  {
    RedEq(-(l1 * s.pi));
    EqScale(s.pi, l1, l1');
    EqMinus(0, 0, s.pi * l1, s.pi * l1', -(l1 * s.pi), -(s.pi * l1'));
  }

  /** A factor of the permutation. */
  lemma FactorClaims(e: int, p: int, k: int, k': int, gamma: int)
    requires Eq(e, p) && Eq(k, k')
    ensures Eq(e + k + gamma, p + k' + gamma)
  {
    EqSum(e, p, k, k', e + k, p + k');
    EqSum(e + k, p + k', gamma, gamma, e + k + gamma, p + k' + gamma);
  }

  lemma TripleClaims(a: int, a': int, b: int, b': int, c: int, c': int, x: int, y: int)
    requires Eq(a, a') && Eq(b, b') && Eq(c, c') && x == a * b * c && y == a' * b' * c'
    ensures Eq(x, y)
  {
    EqProduct(a, a', b, b', a * b, a' * b');
    EqProduct(a * b, a' * b', c, c', x, y);
  }

  lemma NumerClaims(p: seq<int>, s: Setting, e: Evals, xi: Fr)
    requires |p| == 15 && Eq(e.a, p[10]) && Eq(e.b, p[11]) && Eq(e.c, p[12])
    ensures Eq(Numerator(e, s.beta * xi, s.gamma), Numer(p, s, xi))
  {
    var bx := s.beta * xi;
    FactorClaims(e.a, p[10], bx, bx, s.gamma);
    FactorClaims(e.b, p[11], bx * K1, bx * K1, s.gamma);
    FactorClaims(e.c, p[12], bx * K2, bx * K2, s.gamma);
    TripleClaims(e.a + bx + s.gamma, p[10] + bx + s.gamma, e.b + bx * K1 + s.gamma, p[11] + bx * K1 + s.gamma,
                 e.c + bx * K2 + s.gamma, p[12] + bx * K2 + s.gamma, Numerator(e, bx, s.gamma), Numer(p, s, xi));
  }

  lemma DenomClaims(p: seq<int>, s: Setting, e: Evals, x: int)
    requires |p| == 15 && Eq(e.a, p[10]) && Eq(e.b, p[11]) && Eq(e.c, p[12]) && Eq(e.s1, p[13]) && Eq(e.s2, p[14])
    requires x == Denominator12(e, s.beta, s.gamma) * (e.c + s.beta * p[6] + s.gamma)
    ensures Eq(x, Denom(p, s))
  {
    EqScale(s.beta, e.s1, p[13]);
    EqScale(s.beta, e.s2, p[14]);
    FactorClaims(e.a, p[10], s.beta * e.s1, s.beta * p[13], s.gamma);
    FactorClaims(e.b, p[11], s.beta * e.s2, s.beta * p[14], s.gamma);
    FactorClaims(e.c, p[12], s.beta * p[6], s.beta * p[6], s.gamma);
    TripleClaims(e.a + s.beta * e.s1 + s.gamma, p[10] + s.beta * p[13] + s.gamma,
                 e.b + s.beta * e.s2 + s.gamma, p[11] + s.beta * p[14] + s.gamma,
                 e.c + s.beta * p[6] + s.gamma, p[12] + s.beta * p[6] + s.gamma, x, Denom(p, s));
  }

  lemma PermutationClaims(p: seq<int>, s: Setting, e: Evals, xi: Fr, zw: int, x: int)
    requires |p| == 15 && Eq(e.a, p[10]) && Eq(e.b, p[11]) && Eq(e.c, p[12]) && Eq(e.s1, p[13]) && Eq(e.s2, p[14])
    requires Eq(e.zw, zw)
    requires x == Numerator(e, s.beta * xi, s.gamma) * p[5]
                  - Denominator12(e, s.beta, s.gamma) * (e.c + s.beta * p[6] + s.gamma) * e.zw
    ensures Eq(x, Permutation(p, s, xi, zw))
  {
    var n, d := Numerator(e, s.beta * xi, s.gamma), Denominator12(e, s.beta, s.gamma) * (e.c + s.beta * p[6] + s.gamma);
    NumerClaims(p, s, e, xi);
    DenomClaims(p, s, e, d);
    EqProduct(n, Numer(p, s, xi), p[5], p[5], n * p[5], Numer(p, s, xi) * p[5]);
    EqProduct(d, Denom(p, s), e.zw, zw, d * e.zw, Denom(p, s) * zw);
    EqMinus(n * p[5], Numer(p, s, xi) * p[5], d * e.zw, Denom(p, s) * zw, x, Permutation(p, s, xi, zw));
  }

  lemma QuotientClaims(p: seq<int>, zh: int, xin: int, xn: int)
    requires |p| == 15 && Eq(zh, xn - 1) && Eq(xin, xn)
    ensures Eq(zh * (p[7] + xin * p[8] + xin * xin * p[9]), SplitQuotient(p, xn))
  {
    EqMul(xin, xn, xin, xn);
    EqProduct(xin, xn, p[8], p[8], xin * p[8], xn * p[8]);
    EqProduct(xin * xin, xn * xn, p[9], p[9], xin * xin * p[9], xn * xn * p[9]);
    EqSum(p[7], p[7], xin * p[8], xn * p[8], p[7] + xin * p[8], p[7] + xn * p[8]);
    var t, t' := p[7] + xin * p[8] + xin * xin * p[9], p[7] + xn * p[8] + xn * xn * p[9];
    EqSum(p[7] + xin * p[8], p[7] + xn * p[8], xin * xin * p[9], xn * xn * p[9], t, t');
    EqProduct(zh, xn - 1, t, t', zh * t, SplitQuotient(p, xn));
  }

  lemma StartClaims(p: seq<int>, alpha: int, l1: int, l1': int)
    requires |p| == 15 && Eq(l1, l1')
    ensures Eq(alpha * alpha * l1 * (p[5] - 1), alpha * alpha * Start(p, l1'))
  {
    EqProduct(l1, l1', p[5] - 1, p[5] - 1, l1 * (p[5] - 1), Start(p, l1'));
    EqScale(alpha * alpha, l1 * (p[5] - 1), Start(p, l1'));
    Associate(alpha * alpha, l1, p[5] - 1);
  }

  /** With true claims, the PLONK identity is the identity in the polynomials' own values. */
  lemma ClaimsAreIdentity(p: seq<int>, s: Setting, e: Evals, c: Challenges, l1: Fr, l1': int, zw: int, xn: int)
    requires |p| == 15 && c.beta == s.beta && c.gamma == s.gamma && Eq(c.zh, xn - 1) && Eq(c.xin, xn)
    requires Eq(e.a, p[10]) && Eq(e.b, p[11]) && Eq(e.c, p[12]) && Eq(e.s1, p[13]) && Eq(e.s2, p[14])
    requires Eq(e.zw, zw) && Eq(l1, l1')
    ensures Eq(PlonkIdentity(e, c, PublicAtXi(l1, s.pi), l1, p), Identity(p, s, c.alpha, c.xi, xn, zw, l1'))
  {
    var gate := p[1] * e.a * e.b + p[2] * e.a + p[3] * e.b + p[4] * e.c + p[0] + PublicAtXi(l1, s.pi);
    var perm := Numerator(e, s.beta * c.xi, s.gamma) * p[5]
                - Denominator12(e, s.beta, s.gamma) * (e.c + s.beta * p[6] + s.gamma) * e.zw;
    var start := c.alpha * c.alpha * l1 * (p[5] - 1);
    var quotient := c.zh * (p[7] + c.xin * p[8] + c.xin * c.xin * p[9]);
    GateClaims(p, s, e, l1, l1');
    PermutationClaims(p, s, e, c.xi, zw, perm);
    StartClaims(p, c.alpha, l1, l1');
    QuotientClaims(p, c.zh, c.xin, xn);
    FourParts(c.alpha, gate, Gate(p, s, l1'), perm, Permutation(p, s, c.xi, zw), start,
              c.alpha * c.alpha * Start(p, l1'),
              quotient, SplitQuotient(p, xn));
    PlonkParts(e, c, PublicAtXi(l1, s.pi), l1, p, gate, perm, start, quotient);
  }

  lemma FourParts(alpha: int, g: int, g': int, p: int, p': int, t: int, t': int, q: int, q': int)
    requires Eq(g, g') && Eq(p, p') && Eq(t, t') && Eq(q, q')
    ensures Eq(g + alpha * p + t - q, g' + alpha * p' + t' - q')
  {
    EqScale(alpha, p, p');
    EqSum(g, g', alpha * p, alpha * p', g + alpha * p, g' + alpha * p');
    EqSum(g + alpha * p, g' + alpha * p', t, t', g + alpha * p + t, g' + alpha * p' + t');
    EqMinus(g + alpha * p + t, g' + alpha * p' + t', q, q', g + alpha * p + t - q, g' + alpha * p' + t' - q');
  }

  lemma PlonkParts(e: Evals, c: Challenges, pi: int, l1: int, p: seq<int>, gate: int, perm: int, start: int,
                   quotient: int)
    requires |p| == 15 && gate == p[1] * e.a * e.b + p[2] * e.a + p[3] * e.b + p[4] * e.c + p[0] + pi
    requires perm == Numerator(e, c.beta * c.xi, c.gamma) * p[5]
                     - Denominator12(e, c.beta, c.gamma) * (e.c + c.beta * p[6] + c.gamma) * e.zw
    requires start == c.alpha * c.alpha * l1 * (p[5] - 1)
    requires quotient == c.zh * (p[7] + c.xin * p[8] + c.xin * c.xin * p[9])
    ensures PlonkIdentity(e, c, pi, l1, p) == gate + c.alpha * perm + start - quotient
  {
  }

  // ---------------------------------------------------------------------------
  // Rounds that meet the identity
  // ---------------------------------------------------------------------------

  /** One xi: the evaluations claimed there, the challenges, and the value of L_1. */
  datatype Round = Round(e: Evals, c: Challenges, l1: Fr)

  /** The round's claims are true of these polynomials, all six of them, and the PLONK identity holds. */
  ghost predicate Meets(f: seq<Poly>, s: Setting, alpha: Fr, r: Round)
    requires |f| == 15
  {
    && Derived(r.c) && r.c.alpha == alpha && r.c.beta == s.beta && r.c.gamma == s.gamma
    && Eq(r.c.xin, Pow(r.c.xi, N)) && IsL1(r.l1, r.c.xi)
    && TrueClaims(r.e, r.c, PublicAtXi(r.l1, s.pi), r.l1, EvalAll(f, r.c.xi))
    && HonestZw(r.e, f, r.c.xi, s.w)
  }

  /** Acceptances alone make a round one that meets the identity. */
  lemma AcceptedRoundMeets(f: seq<Poly>, s: Setting, r: Round, answers: seq<Answer>, u: Fr, u': Fr, taus: seq<Fr>)
    requires Prime(R) && |f| == 15 && u != u' && Distinct(taus) && |answers| > 5
    requires Derived(r.c) && r.c.beta == s.beta && r.c.gamma == s.gamma
    requires Eq(r.c.xin, Pow(r.c.xi, N)) && IsL1(r.l1, r.c.xi)
    requires forall i, j | 0 <= i < j < |answers| :: answers[i].v != answers[j].v
    requires forall i | 0 <= i < |answers| ::
               Convinces(f, answers[i], r.e, r.c, u, u', PublicAtXi(r.l1, s.pi), r.l1, s.w, taus)
    ensures Meets(f, s, r.c.alpha, r)
  {
    AcceptancesForceTruth(f, answers, r.e, r.c, u, u', PublicAtXi(r.l1, s.pi), r.l1, s.w, taus);
  }

  /** The polynomial L_1 takes the value of L_1. */
  lemma L1Value(s: Setting, l1: Fr, xi: Fr)
    requires Prime(R) && ValidSetting(s) && IsL1(l1, xi)
    ensures Eq(l1, Eval(L1Poly(s), xi))
  {
    var g := Geometric(xi, N);
    EvalPowers(s.nInverse, N, xi);
    EqProduct(N * s.nInverse, 1, g, g, N * s.nInverse * g, g);
    Associate(N, s.nInverse, g);
    SizeIsUnit();
    EqCancel(N, l1, s.nInverse * g);
  }

  lemma MeetsVanishes(f: seq<Poly>, s: Setting, alpha: Fr, r: Round)
    requires Prime(R) && |f| == 15 && ValidSetting(s) && Meets(f, s, alpha, r)
    ensures Vanishes(Eval(IdentityPoly(f, s, alpha), r.c.xi), R)
  {
    var xi, p, xn, l1 := r.c.xi, EvalAll(f, r.c.xi), Pow(r.c.xi, N), Eval(L1Poly(s), r.c.xi);
    L1Value(s, r.l1, xi);
    EqAdd(r.c.xin, xn, 1, 1);
    ClaimsAreIdentity(p, s, r.e, r.c, r.l1, l1, Eval(f[5], xi * s.w), xn);
    EvalIdentity(f, s, alpha, xi);
  }

  /** No two rounds are at one xi. */
  ghost predicate DistinctPoints(rounds: seq<Round>) {
    forall i, j | 0 <= i < j < |rounds| :: rounds[i].c.xi != rounds[j].c.xi
  }

  /** Met at more points than its degree, the identity is an identity of polynomials. */
  lemma TruthIsIdentity(f: seq<Poly>, s: Setting, alpha: Fr, rounds: seq<Round>)
    requires Prime(R) && |f| == 15 && ValidSetting(s) && DistinctPoints(rounds)
    requires |rounds| >= |IdentityPoly(f, s, alpha)|
    requires forall i | 0 <= i < |rounds| :: Meets(f, s, alpha, rounds[i])
    ensures Zero(IdentityPoly(f, s, alpha), R)
  {
    var xis := seq(|rounds|, i requires 0 <= i < |rounds| => rounds[i].c.xi);
    forall i | 0 <= i < |xis| ensures Vanishes(Eval(IdentityPoly(f, s, alpha), xis[i]), R) {
      MeetsVanishes(f, s, alpha, rounds[i]);
    }
    ManyRoots(IdentityPoly(f, s, alpha), xis);
  }

  // ---------------------------------------------------------------------------
  // The constraints
  // ---------------------------------------------------------------------------

  /** The three constraints at a point of the domain: the gate, the permutation step, and that z starts at one. */
  ghost predicate Satisfied(f: seq<Poly>, s: Setting, x: int)
    requires |f| == 15
  {
    var p, l1 := EvalAll(f, x), Eval(L1Poly(s), x);
    && Eq(Gate(p, s, l1), 0)
    && Eq(Permutation(p, s, x, Eval(f[5], x * s.w)), 0)
    && Eq(Start(p, l1), 0)
  }

  /** One alpha weighs the three constraints to zero. */
  ghost predicate Balances(alpha: Fr, g: int, p: int, t: int) {
    Eq(g + alpha * p + alpha * alpha * t, 0)
  }

  /** At a point of the domain the quotient drops out. */
  lemma IdentityOnDomain(f: seq<Poly>, s: Setting, alpha: Fr, x: int)
    requires Prime(R) && |f| == 15 && Zero(IdentityPoly(f, s, alpha), R) && Eq(Pow(x, N), 1)
    ensures var p, l1 := EvalAll(f, x), Eval(L1Poly(s), x);
      Balances(alpha, Gate(p, s, l1), Permutation(p, s, x, Eval(f[5], x * s.w)), Start(p, l1))
  {
    ZeroEval(IdentityPoly(f, s, alpha), x, R);
    EvalIdentity(f, s, alpha, x);
    IdentityRest(EvalAll(f, x), s, alpha, x, Pow(x, N), Eval(f[5], x * s.w), Eval(L1Poly(s), x));
  }

  lemma IdentityRest(p: seq<int>, s: Setting, alpha: Fr, x: int, xn: int, zw: int, l1: int)
    requires |p| == 15 && Eq(Identity(p, s, alpha, x, xn, zw, l1), 0) && Eq(xn, 1)
    ensures Balances(alpha, Gate(p, s, l1), Permutation(p, s, x, zw), Start(p, l1))
  {
    QuotientVanishes(p, xn);
    EqSum(Identity(p, s, alpha, x, xn, zw, l1), 0, SplitQuotient(p, xn), 0,
          Gate(p, s, l1) + alpha * Permutation(p, s, x, zw) + alpha * alpha * Start(p, l1), 0);
  }

  lemma QuotientVanishes(p: seq<int>, xn: int)
    requires |p| == 15 && Eq(xn, 1)
    ensures Eq(SplitQuotient(p, xn), 0)
  {
    var t := p[7] + xn * p[8] + xn * xn * p[9];
    EqMinus(xn, 1, 1, 1, xn - 1, 0);
    EqProduct(xn - 1, 0, t, t, SplitQuotient(p, xn), 0);
  }

  /** A quadratic with three roots vanishes. */
  lemma ThreeRoots(g: int, p: int, t: int, alphas: seq<Fr>)
    requires Prime(R) && Distinct(alphas) && |alphas| >= 3
    requires forall j | 0 <= j < |alphas| :: Balances(alphas[j], g, p, t)
    ensures Eq(g, 0) && Eq(p, 0) && Eq(t, 0)
  {
    var f := [g, p, t];
    forall j | 0 <= j < |alphas| ensures Vanishes(Eval(f, alphas[j]), R) {
      EvalQuadratic(g, p, t, alphas[j]);
    }
    ManyRoots(f, alphas);
    assert Vanishes(f[0], R) && Vanishes(f[1], R) && Vanishes(f[2], R);
  }

  lemma EvalQuadratic(g: int, p: int, t: int, x: int)
    ensures Eval([g, p, t], x) == g + x * p + x * x * t
  {
    assert [g, p, t][1..] == [p, t] && [p, t][1..] == [t];
    EvalConstant(t, x);
    assert x * (p + x * t) == x * p + x * x * t;
  }

  /** What a prover answers one alpha with: the three parts of the quotient, and rounds. */
  datatype Family = Family(alpha: Fr, t1: Poly, t2: Poly, t3: Poly, rounds: seq<Round>)

  /** The fifteen polynomials with these quotient parts. */
  function Quoted(f: seq<Poly>, a: Family): (g: seq<Poly>)
    requires |f| == 15
    ensures |g| == 15
  {
    f[7 := a.t1][8 := a.t2][9 := a.t3]
  }

  /** The family's claims are true at more points than the identity's degree. */
  ghost predicate Answers(f: seq<Poly>, s: Setting, a: Family)
    requires |f| == 15
  {
    && DistinctPoints(a.rounds) && |a.rounds| >= |IdentityPoly(Quoted(f, a), s, a.alpha)|
    && forall i | 0 <= i < |a.rounds| :: Meets(Quoted(f, a), s, a.alpha, a.rounds[i])
  }

  ghost predicate DistinctAlphas(families: seq<Family>) {
    forall i, j | 0 <= i < j < |families| :: families[i].alpha != families[j].alpha
  }

  lemma FamilyOnDomain(f: seq<Poly>, s: Setting, a: Family, x: int)
    requires Prime(R) && |f| == 15 && ValidSetting(s) && Answers(f, s, a) && Eq(Pow(x, N), 1)
    ensures var p, l1 := EvalAll(f, x), Eval(L1Poly(s), x);
      Balances(a.alpha, Gate(p, s, l1), Permutation(p, s, x, Eval(f[5], x * s.w)), Start(p, l1))
  {
    var g := Quoted(f, a);
    TruthIsIdentity(g, s, a.alpha, a.rounds);
    IdentityOnDomain(g, s, a.alpha, x);
    SameOffQuotient(EvalAll(f, x), EvalAll(g, x), s, x, Eval(f[5], x * s.w), Eval(L1Poly(s), x));
  }

  lemma SameOffQuotient(p: seq<int>, q: seq<int>, s: Setting, x: int, zw: int, l1: int)
    requires |p| == |q| == 15 && forall i | 0 <= i < 15 && !(7 <= i < 10) :: p[i] == q[i]
    ensures Gate(p, s, l1) == Gate(q, s, l1) && Permutation(p, s, x, zw) == Permutation(q, s, x, zw)
    ensures Start(p, l1) == Start(q, l1)
  {
  }

  lemma ThreeFamilies(families: seq<Family>, g: int, p: int, t: int)
    requires Prime(R) && |families| >= 3 && DistinctAlphas(families)
    requires forall j | 0 <= j < |families| :: Balances(families[j].alpha, g, p, t)
    ensures Eq(g, 0) && Eq(p, 0) && Eq(t, 0)
  {
    ThreeRoots(g, p, t, seq(|families|, j requires 0 <= j < |families| => families[j].alpha));
  }

  /** Answered for three alphas, every constraint holds at every point of the domain. */
  lemma ConstraintsHold(f: seq<Poly>, s: Setting, families: seq<Family>, x: int)
    requires Prime(R) && |f| == 15 && ValidSetting(s) && |families| >= 3 && DistinctAlphas(families)
    requires forall j | 0 <= j < |families| :: Answers(f, s, families[j])
    requires Eq(Pow(x, N), 1)
    ensures Satisfied(f, s, x)
  {
    var p, l1 := EvalAll(f, x), Eval(L1Poly(s), x);
    var g, m, t := Gate(p, s, l1), Permutation(p, s, x, Eval(f[5], x * s.w)), Start(p, l1);
    forall j | 0 <= j < |families| ensures Balances(families[j].alpha, g, m, t) {
      FamilyOnDomain(f, s, families[j], x);
    }
    ThreeFamilies(families, g, m, t);
  }

  // ---------------------------------------------------------------------------
  // The grand product
  // ---------------------------------------------------------------------------

  /** The products of the two sides over the first k points of the domain. */
  function NumerProduct(f: seq<Poly>, s: Setting, k: nat): int
    requires |f| == 15
    decreases k, f
  {
    if k == 0 then 1 else NumerProduct(f, s, k - 1) * Numer(EvalAll(f, Pow(s.w, k - 1)), s, Pow(s.w, k - 1))
  }

  function DenomProduct(f: seq<Poly>, s: Setting, k: nat): int
    requires |f| == 15
    decreases k, f
  {
    if k == 0 then 1 else DenomProduct(f, s, k - 1) * Denom(EvalAll(f, Pow(s.w, k - 1)), s)
  }

  lemma {:induction false} EqPow(a: int, b: int, n: nat)
    requires Eq(a, b)
    ensures Eq(Pow(a, n), Pow(b, n))
    decreases n
  {
    if n == 0 {
    } else {
      EqPow(a, b, n - 1);
      EqMul(a, b, Pow(a, n - 1), Pow(b, n - 1));
    }
  }

  lemma {:induction false} PowPow(x: int, m: nat, n: nat)
    ensures Pow(Pow(x, m), n) == Pow(x, m * n)
    decreases n
  {
    if n == 0 {
    } else {
      PowPow(x, m, n - 1);
      PowAdd(x, m, m * (n - 1));
      assert m + m * (n - 1) == m * n;
    }
  }

  /** Powers of the generator are points of the domain. */
  lemma PowersOnDomain(s: Setting, k: nat)
    requires ValidSetting(s)
    ensures Eq(Pow(Pow(s.w, k), N), 1)
  {
    PowPow(s.w, k, N);
    PowPow(s.w, N, k);
    EqPow(Pow(s.w, N), 1, k);
    PowOfOne(1, k);
  }

  lemma {:induction false} EqEval(f: Poly, x: int, y: int)
    requires Eq(x, y)
    ensures Eq(Eval(f, x), Eval(f, y))
    decreases f
  {
    if f == [] {
    } else {
      EqEval(f[1..], x, y);
      EqMul(x, y, Eval(f[1..], x), Eval(f[1..], y));
      EqAdd(f[0], f[0], x * Eval(f[1..], x), y * Eval(f[1..], y));
    }
  }

  /** All of the powers of w satisfy the constraints. */
  ghost predicate AllSatisfied(f: seq<Poly>, s: Setting)
    requires |f| == 15
  {
    forall k: nat {:trigger Pow(s.w, k)} :: Satisfied(f, s, Pow(s.w, k))
  }

  /** z moves from one point to the next by one factor of each product. */
  lemma ProductStep(z: int, zw: int, n: int, d: int, z1: int, np: int, dp: int)
    requires Eq(n * z - d * zw, 0) && Eq(z * dp, z1 * np)
    ensures Eq(zw * (dp * d), z1 * (np * n))
  {
    EqDifference(n * z, d * zw);
    Turn(zw, d, dp);
    Turn(z1, n, np);
    EqProduct(d * zw, n * z, dp, dp, zw * (dp * d), (n * z) * dp);
    Associate(n, z, dp);
    Associate(n, z1, np);
    EqProduct(n, n, z * dp, z1 * np, (n * z) * dp, z1 * (np * n));
  }

  lemma Turn(a: int, b: int, c: int)
    ensures a * (c * b) == (b * a) * c
  {
  }

  lemma {:induction false} ProductSoFar(f: seq<Poly>, s: Setting, k: nat)
    requires |f| == 15 && AllSatisfied(f, s)
    ensures Eq(Eval(f[5], Pow(s.w, k)) * DenomProduct(f, s, k), Eval(f[5], 1) * NumerProduct(f, s, k))
    decreases k
  {
    if k == 0 {
      assert Pow(s.w, 0) == 1;
    } else {
      var x := Pow(s.w, k - 1);
      ProductSoFar(f, s, k - 1);
      assert Satisfied(f, s, x);
      assert Pow(s.w, k) == x * s.w;
      var p := EvalAll(f, x);
      ProductStep(Eval(f[5], x), Eval(f[5], x * s.w), Numer(p, s, x), Denom(p, s), Eval(f[5], 1),
                  NumerProduct(f, s, k - 1), DenomProduct(f, s, k - 1));
    }
  }

  /** z is one at the first point. */
  lemma StartsAtOne(f: seq<Poly>, s: Setting)
    requires |f| == 15 && ValidSetting(s) && Satisfied(f, s, 1)
    ensures Eq(Eval(f[5], 1), 1)
  {
    var z, l1 := Eval(f[5], 1), Eval(L1Poly(s), 1);
    EvalPowers(s.nInverse, N, 1);
    GeometricAtOne(N);
    EqProduct(l1, 1, z - 1, z - 1, l1 * (z - 1), z - 1);
    EqDifference(z, 1);
  }

  lemma {:induction false} GeometricAtOne(n: nat)
    ensures Geometric(1, n) == n
  {
    if n == 0 {
    } else {
      GeometricAtOne(n - 1);
    }
  }

  /**
   What a prover bound to its polynomials has proved once its claims are true at
   enough xi for each of three alphas: every gate holds at every point of the
   domain, and the two grand products of the permutation are equal.
   */
  lemma StatementHolds(f: seq<Poly>, s: Setting, families: seq<Family>)
    requires Prime(R) && |f| == 15 && ValidSetting(s) && |families| >= 3 && DistinctAlphas(families)
    requires forall j | 0 <= j < |families| :: Answers(f, s, families[j])
    ensures AllSatisfied(f, s)
    ensures Eq(DenomProduct(f, s, N), NumerProduct(f, s, N))
  {
    forall k: nat ensures Satisfied(f, s, Pow(s.w, k)) {
      PowersOnDomain(s, k);
      ConstraintsHold(f, s, families, Pow(s.w, k));
    }
    GrandProduct(f, s);
  }

  lemma GrandProduct(f: seq<Poly>, s: Setting)
    requires |f| == 15 && ValidSetting(s) && AllSatisfied(f, s)
    ensures Eq(DenomProduct(f, s, N), NumerProduct(f, s, N))
  {
    var d, n, z, zn := DenomProduct(f, s, N), NumerProduct(f, s, N), Eval(f[5], 1), Eval(f[5], Pow(s.w, N));
    assert Pow(s.w, 0) == 1;
    assert Satisfied(f, s, 1);
    StartsAtOne(f, s);
    EqEval(f[5], Pow(s.w, N), 1);
    ProductSoFar(f, s, N);
    EqProduct(zn, 1, d, d, zn * d, d);
    EqProduct(z, 1, n, n, z * n, n);
  }
}
