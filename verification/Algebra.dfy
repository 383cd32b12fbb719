/**
 The verifier's equations over exponents: every G1 point stands for its
 discrete logarithm, so a linear combination of points is a linear combination
 of integers modulo R and the pairing check is one linear equation in the
 setup secret tau.
 */
module Algebra {
  import opened Polynomials
  import opened Scalar

  /** The coset shifts separating the three wire permutations. */
  const K1: int := 2
  const K2: int := 3

  /** The six opening evaluations. */
  datatype Evals = Evals(a: Fr, b: Fr, c: Fr, s1: Fr, s2: Fr, zw: Fr)

  datatype Challenges = Challenges(
    alpha: Fr, alpha2: Fr, beta: Fr, gamma: Fr,
    xi: Fr, xin: Fr, betaXi: Fr, zh: Fr,
    v: seq<Fr>, u: Fr)

  /** v, v^2, ..., v^5, each reduced. */
  function VPowers(v: Fr): (vs: seq<Fr>)
    ensures |vs| == 5
  {
    var v2 := Red(v * v);
    var v3 := Red(v2 * v);
    var v4 := Red(v3 * v);
    var v5 := Red(v4 * v);
    [v, v2, v3, v4, v5]
  }

  /** How the derived challenges depend on the hashed ones. */
  ghost predicate Derived(c: Challenges) {
    && |c.v| == 5
    && c.alpha2 == Red(c.alpha * c.alpha)
    && c.betaXi == Red(c.beta * c.xi)
    && c.zh == Red(c.xin - 1)
    && c.v == VPowers(c.v[0])
  }

  // ---------------------------------------------------------------------------
  // Linear combinations
  // ---------------------------------------------------------------------------

  /** The sum of the first n products. */
  function Dot(scalars: seq<int>, points: seq<int>, n: nat): int
    requires n <= |scalars| && n <= |points|
    decreases n
  {
    if n == 0 then 0 else Dot(scalars, points, n - 1) + scalars[n - 1] * points[n - 1]
  }

  /** The same combination of polynomials. */
  function Combine(scalars: seq<int>, polys: seq<Poly>, n: nat): Poly
    requires n <= |scalars| && n <= |polys|
    decreases n
  {
    if n == 0 then [] else Add(Combine(scalars, polys, n - 1), Scale(scalars[n - 1], polys[n - 1]))
  }

  function EvalAll(polys: seq<Poly>, x: int): (vs: seq<int>)
    ensures |vs| == |polys|
  {
    seq(|polys|, i requires 0 <= i < |polys| => Eval(polys[i], x))
  }

  lemma {:induction false} EvalCombine(scalars: seq<int>, polys: seq<Poly>, n: nat, x: int)
    requires n <= |scalars| && n <= |polys|
    ensures Eval(Combine(scalars, polys, n), x) == Dot(scalars, EvalAll(polys, x), n)
  {
    if n == 0 {
    } else {
      EvalCombine(scalars, polys, n - 1, x);
      EvalAdd(Combine(scalars, polys, n - 1), Scale(scalars[n - 1], polys[n - 1]), x);
      EvalScale(scalars[n - 1], polys[n - 1], x);
    }
  }

  lemma {:induction false} EqDot(scalars: seq<int>, points: seq<int>, points': seq<int>, n: nat)
    requires n <= |scalars| && n <= |points| && n <= |points'|
    requires forall i | 0 <= i < n :: Eq(points[i], points'[i])
    ensures Eq(Dot(scalars, points, n), Dot(scalars, points', n))
  {
    if n == 0 {
    } else {
      EqDot(scalars, points, points', n - 1);
      EqTerm(Dot(scalars, points, n - 1), Dot(scalars, points', n - 1), scalars[n - 1], points[n - 1], points'[n - 1],
             Dot(scalars, points, n), Dot(scalars, points', n));
    }
  }

  lemma EqTerm(sum: int, sum': int, k: int, a: int, b: int, total: int, total': int)
    requires Eq(sum, sum') && Eq(a, b) && total == sum + k * a && total' == sum' + k * b
    ensures Eq(total, total')
  {
    EqScale(k, a, b);
    EqAdd(sum, sum', k * a, k * b);
  }

  // ---------------------------------------------------------------------------
  // The linearisation
  // ---------------------------------------------------------------------------

  /** The permutation numerator at xi, as `calculate_d` spells it. */
  function Numerator(e: Evals, bx: int, gamma: int): int {
    (e.a + bx + gamma) * (e.b + bx * K1 + gamma) * (e.c + bx * K2 + gamma)
  }

  /** The two denominator factors `calculate_d` and `eval_r0` share. */
  function Denominator12(e: Evals, beta: int, gamma: int): int {
    (e.a + beta * e.s1 + gamma) * (e.b + beta * e.s2 + gamma)
  }

  /** `eval_r0`. */
  function EvalR0(e: Evals, c: Challenges, pi: Fr, l1: Fr): Fr {
    var e2 := l1 * c.alpha2;
    var e3a := e.a + c.beta * e.s1 + c.gamma;
    var e3b := e.b + c.beta * e.s2 + c.gamma;
    var e3c := e.c + c.gamma;
    var e3 := e3a * e3b * e3c * e.zw * c.alpha;
    Red(pi - e2 - e3)
  }

  /**
   The scalars of F, on the points in the order
   qC qM qL qR qO Z S3 T1 T2 T3 A B C S1 S2, without the `u * Z` of `calculate_d`.
   */
  function Scalars(e: Evals, c: Challenges, l1: Fr): (s: seq<int>)
    requires |c.v| == 5
    ensures |s| == 15
  {
    [1, e.a * e.b, e.a, e.b, e.c,
     Numerator(e, c.betaXi, c.gamma) * c.alpha + l1 * c.alpha2,
     -(Denominator12(e, c.beta, c.gamma) * (c.alpha * c.beta * e.zw)),
     -(c.zh as int), -(c.zh * c.xin), -(c.zh * c.xin * c.xin),
     c.v[0], c.v[1], c.v[2], c.v[3], c.v[4]]
  }

  /** Positions of the points in that order. */
  const Z_SLOT := 5
  const D_TERMS := 10
  const F_TERMS := 15

  /**
   The PLONK identity at xi with the quotient moved over: gate, public input,
   permutation with S3 restored, L1 term, and the split quotient. `p` holds the
   values of the fifteen polynomials.
   */
  function PlonkIdentity(e: Evals, c: Challenges, pi: int, l1: int, p: seq<int>): int
    requires |p| == 15
  {
    var z, s3 := p[5], p[6];
    var gate := p[1] * e.a * e.b + p[2] * e.a + p[3] * e.b + p[4] * e.c + p[0];
    var permutation := Numerator(e, c.beta * c.xi, c.gamma) * z
                     - Denominator12(e, c.beta, c.gamma) * (e.c + c.beta * s3 + c.gamma) * e.zw;
    gate + pi + c.alpha * permutation + c.alpha * c.alpha * l1 * (z - 1)
    - c.zh * (p[7] + c.xin * p[8] + c.xin * c.xin * p[9])
  }

  lemma DotD(s: seq<int>, p: seq<int>)
    requires |s| == 15 && |p| == 15
    ensures Dot(s, p, 10) == s[0] * p[0] + s[1] * p[1] + s[2] * p[2] + s[3] * p[3] + s[4] * p[4]
                           + s[5] * p[5] + s[6] * p[6] + s[7] * p[7] + s[8] * p[8] + s[9] * p[9]
  {
  }

  lemma DotF(s: seq<int>, p: seq<int>)
    requires |s| == 15 && |p| == 15
    ensures Dot(s, p, 15)
         == Dot(s, p, 10) + s[10] * p[10] + s[11] * p[11] + s[12] * p[12] + s[13] * p[13] + s[14] * p[14]
  {
  }

  /** The rearrangement behind the linearisation, with the products left whole. */
  lemma Rearranged(numer: int, den: int, alpha: int, a2: int, l1: int, z: int, beta: int, gamma: int, zw: int, s3: int,
                   c: int)
    ensures (numer * alpha + l1 * a2) * z
         + (-(den * (alpha * beta * zw))) * s3 - l1 * a2 - den * (c + gamma) * zw * alpha
         == alpha * (numer * z - den * (c + beta * s3 + gamma) * zw) + a2 * l1 * (z - 1)
  {
  }

  lemma EqShift(a: int, b: int, k: int, x: int, y: int)
    requires Eq(a, b) && x == k + a && y == k + b
    ensures Eq(x, y)
  {
    EqAdd(k, k, a, b);
  }

  lemma EqNumerator(e: Evals, bx: int, bx': int, gamma: int)
    requires Eq(bx, bx')
    ensures Eq(Numerator(e, bx, gamma), Numerator(e, bx', gamma))
  {
    var f1, f2, f3 := e.a + bx + gamma, e.b + bx * K1 + gamma, e.c + bx * K2 + gamma;
    var g1, g2, g3 := e.a + bx' + gamma, e.b + bx' * K1 + gamma, e.c + bx' * K2 + gamma;
    EqShift(bx, bx', e.a + gamma, f1, g1);
    EqScale(K1, bx, bx');
    EqShift(K1 * bx, K1 * bx', e.b + gamma, f2, g2);
    EqScale(K2, bx, bx');
    EqShift(K2 * bx, K2 * bx', e.c + gamma, f3, g3);
    EqMul(f1, g1, f2, g2);
    EqMul(f1 * f2, g1 * g2, f3, g3);
  }

  /** PlonkIdentity with the reduced products `betaXi` and `alpha2` in place of the products. */
  function CodeIdentity(e: Evals, c: Challenges, pi: int, l1: int, p: seq<int>): int
    requires |p| == 15
  {
    var z, s3 := p[5], p[6];
    var gate := p[1] * e.a * e.b + p[2] * e.a + p[3] * e.b + p[4] * e.c + p[0];
    var permutation := Numerator(e, c.betaXi, c.gamma) * z
                     - Denominator12(e, c.beta, c.gamma) * (e.c + c.beta * s3 + c.gamma) * e.zw;
    gate + pi + c.alpha * permutation + c.alpha2 * l1 * (z - 1)
    - c.zh * (p[7] + c.xin * p[8] + c.xin * c.xin * p[9])
  }

  lemma CodeIdentityIsPlonk(e: Evals, c: Challenges, pi: int, l1: int, p: seq<int>)
    requires |p| == 15 && Derived(c)
    ensures Eq(CodeIdentity(e, c, pi, l1, p), PlonkIdentity(e, c, pi, l1, p))
  {
    var z := p[5];
    var n, n' := Numerator(e, c.betaXi, c.gamma), Numerator(e, c.beta * c.xi, c.gamma);
    RedEq(c.beta * c.xi);
    RedEq(c.alpha * c.alpha);
    EqNumerator(e, c.betaXi, c.beta * c.xi, c.gamma);
    EqScale(c.alpha * z, n, n');
    EqScale(l1 * (z - 1), c.alpha2, c.alpha * c.alpha);
    EqAdd(c.alpha * z * n, c.alpha * z * n', l1 * (z - 1) * c.alpha2, l1 * (z - 1) * (c.alpha * c.alpha));
    var rest := CodeIdentity(e, c, pi, l1, p) - (c.alpha * z * n + l1 * (z - 1) * c.alpha2);
    CommonRest(e, c, pi, l1, p, n, n', rest);
    EqAdd(rest, rest, c.alpha * z * n + l1 * (z - 1) * c.alpha2, c.alpha * z * n' + l1 * (z - 1) * (c.alpha * c.alpha));
  }

  lemma CommonRest(e: Evals, c: Challenges, pi: int, l1: int, p: seq<int>, n: int, n': int, rest: int)
    requires |p| == 15
    requires n == Numerator(e, c.betaXi, c.gamma) && n' == Numerator(e, c.beta * c.xi, c.gamma)
    requires rest == CodeIdentity(e, c, pi, l1, p) - (c.alpha * p[5] * n + l1 * (p[5] - 1) * c.alpha2)
    ensures PlonkIdentity(e, c, pi, l1, p) == rest + (c.alpha * p[5] * n' + l1 * (p[5] - 1) * (c.alpha * c.alpha))
  {
    var d := Denominator12(e, c.beta, c.gamma) * (e.c + c.beta * p[6] + c.gamma) * e.zw;
    Distribute(c.alpha, n, n', p[5], d);
    Reorder(c.alpha2, l1, p[5] - 1);
    Reorder(c.alpha * c.alpha, l1, p[5] - 1);
  }

  lemma Distribute(alpha: int, n: int, n': int, z: int, d: int)
    ensures alpha * (n * z - d) - alpha * z * n == alpha * (n' * z - d) - alpha * z * n'
  {
  }

  lemma Reorder(x: int, y: int, z: int)
    ensures x * y * z == y * z * x
  {
  }

  /**
   Linearisation preserves meaning: D without `u * Z`, each commitment replaced
   by its polynomial's value, plus r0, is the whole PLONK identity.
   */
  lemma LinearisationMeaning(e: Evals, c: Challenges, pi: Fr, l1: Fr, p: seq<int>)
    requires |p| == 15 && Derived(c)
    ensures Eq(Dot(Scalars(e, c, l1), p, D_TERMS) + EvalR0(e, c, pi, l1), PlonkIdentity(e, c, pi, l1, p))
  {
    var r0 := pi - l1 * c.alpha2 - Denominator12(e, c.beta, c.gamma) * (e.c + c.gamma) * e.zw * c.alpha;
    var d := Dot(Scalars(e, c, l1), p, D_TERMS);
    R0Shape(e, c, pi, l1);
    RedEq(r0);
    EqAdd(d, d, EvalR0(e, c, pi, l1), r0);
    ExactLinearisation(e, c, pi, l1, p);
    CodeIdentityIsPlonk(e, c, pi, l1, p);
  }

  lemma R0Shape(e: Evals, c: Challenges, pi: Fr, l1: Fr)
    ensures EvalR0(e, c, pi, l1)
         == Red(pi - l1 * c.alpha2 - Denominator12(e, c.beta, c.gamma) * (e.c + c.gamma) * e.zw * c.alpha)
  {
  }

  lemma ExactLinearisation(e: Evals, c: Challenges, pi: int, l1: Fr, p: seq<int>)
    requires |p| == 15 && |c.v| == 5
    ensures Dot(Scalars(e, c, l1), p, D_TERMS)
            + (pi - l1 * c.alpha2 - Denominator12(e, c.beta, c.gamma) * (e.c + c.gamma) * e.zw * c.alpha)
         == CodeIdentity(e, c, pi, l1, p)
  {
    DotD(Scalars(e, c, l1), p);
    Rearranged(Numerator(e, c.betaXi, c.gamma), Denominator12(e, c.beta, c.gamma), c.alpha, c.alpha2, l1,
               p[5], c.beta, c.gamma, e.zw, p[6], e.c);
    QuotientTerms(c.zh, c.xin, p[7], p[8], p[9]);
    Reorder3(e.a, e.b, p[1]);
  }

  lemma QuotientTerms(zh: int, xin: int, t1: int, t2: int, t3: int)
    ensures (-zh) * t1 + (-(zh * xin)) * t2 + (-(zh * xin * xin)) * t3 == -(zh * (t1 + xin * t2 + xin * xin * t3))
  {
  }

  lemma Reorder3(a: int, b: int, q: int)
    ensures (a * b) * q == q * a * b
  {
  }
}
