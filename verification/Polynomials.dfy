/** Polynomials as coefficient lists, lowest degree first, with synthetic division. */
module Polynomials {
  import opened Modular

  type Poly = seq<int>

  function Eval(f: Poly, x: int): int {
    if f == [] then 0 else f[0] + x * Eval(f[1..], x)
  }

  function Add(f: Poly, g: Poly): (h: Poly) {
    if f == [] then g
    else if g == [] then f
    else [f[0] + g[0]] + Add(f[1..], g[1..])
  }

  function Scale(k: int, f: Poly): (h: Poly)
    ensures |h| == |f|
  {
    if f == [] then [] else [k * f[0]] + Scale(k, f[1..])
  }

  /** The quotient of f - f(z) by X - z, by Horner's synthetic division. */
  function Quotient(f: Poly, z: int): (q: Poly)
    ensures |q| == if f == [] then 0 else |f| - 1
  {
    if |f| <= 1 then [] else [Eval(f[1..], z)] + Quotient(f[1..], z)
  }

  lemma {:induction false} EvalAdd(f: Poly, g: Poly, x: int)
    ensures Eval(Add(f, g), x) == Eval(f, x) + Eval(g, x)
  {
    if f == [] || g == [] {
    } else {
      EvalAdd(f[1..], g[1..], x);
      assert Add(f, g)[1..] == Add(f[1..], g[1..]);
    }
  }

  lemma {:induction false} EvalScale(k: int, f: Poly, x: int)
    ensures Eval(Scale(k, f), x) == k * Eval(f, x)
  {
    if f == [] {
    } else {
      EvalScale(k, f[1..], x);
      assert Scale(k, f)[1..] == Scale(k, f[1..]);
    }
  }

  /** f - g. */
  function Difference(f: Poly, g: Poly): Poly {
    Add(f, Scale(-1, g))
  }

  lemma EvalDifference(f: Poly, g: Poly, x: int)
    ensures Eval(Difference(f, g), x) == Eval(f, x) - Eval(g, x)
  {
    EvalAdd(f, Scale(-1, g), x);
    EvalScale(-1, g, x);
  }

  /** The product of two polynomials. */
  function Mul(f: Poly, g: Poly): Poly {
    if f == [] then [] else Add(Scale(f[0], g), [0] + Mul(f[1..], g))
  }

  lemma {:induction false} EvalMul(f: Poly, g: Poly, x: int)
    ensures Eval(Mul(f, g), x) == Eval(f, x) * Eval(g, x)
    decreases f
  {
    if f == [] {
    } else {
      var rest := Mul(f[1..], g);
      EvalMul(f[1..], g, x);
      EvalAdd(Scale(f[0], g), [0] + rest, x);
      EvalScale(f[0], g, x);
      EvalUp(rest, x);
      FirstTimes(f[0], x, Eval(f[1..], x), Eval(g, x));
    }
  }

  lemma FirstTimes(a: int, x: int, f: int, g: int)
    ensures (a + x * f) * g == a * g + x * (f * g)
  {
  }

  lemma EvalUp(f: Poly, x: int)
    ensures Eval([0] + f, x) == x * Eval(f, x)
  {
    assert ([0] + f)[1..] == f;
  }

  /** f(w X). */
  function Dilate(f: Poly, w: int): Poly {
    if f == [] then [] else [f[0]] + Scale(w, Dilate(f[1..], w))
  }

  lemma {:induction false} EvalDilate(f: Poly, w: int, x: int)
    ensures Eval(Dilate(f, w), x) == Eval(f, x * w)
    decreases f
  {
    if f == [] {
    } else {
      var rest := Dilate(f[1..], w);
      EvalDilate(f[1..], w, x);
      EvalScale(w, rest, x);
      assert ([f[0]] + Scale(w, rest))[1..] == Scale(w, rest);
      assert x * (w * Eval(rest, x)) == x * w * Eval(rest, x);
    }
  }

  /** Synthetic division divides: f(x) - f(z) == (x - z) q(x), over the integers. */
  lemma {:induction false} QuotientDivides(f: Poly, z: int, x: int)
    ensures Eval(f, x) - Eval(f, z) == (x - z) * Eval(Quotient(f, z), x)
  {
    if |f| <= 1 {
    } else {
      var g, q := f[1..], Quotient(f[1..], z);
      QuotientDivides(g, z, x);
      assert Quotient(f, z)[1..] == q;
      DivisionStep(x, z, Eval(g, x), Eval(g, z), Eval(q, x));
    }
  }

  lemma DivisionStep(x: int, z: int, gx: int, gz: int, qx: int)
    requires gx - gz == (x - z) * qx
    ensures x * gx - z * gz == (x - z) * (gz + x * qx)
  {
    assert x * gx - z * gz == x * (gx - gz) + (x - z) * gz;
    assert x * ((x - z) * qx) == (x - z) * (x * qx);
  }

  // ---------------------------------------------------------------------------
  // Polynomials modulo p
  // ---------------------------------------------------------------------------

  /** Every coefficient vanishes modulo p. */
  ghost predicate Zero(f: Poly, p: int)
    requires p > 0
  {
    forall i | 0 <= i < |f| :: Vanishes(f[i], p)
  }

  /** f and g are one polynomial over the integers modulo p. */
  ghost predicate Same(f: Poly, g: Poly, p: int)
    requires p > 0
  {
    Zero(Difference(f, g), p)
  }

  lemma LinearZero(a: int, b: int, z: int, p: int)
    requires p > 0 && Vanishes(a, p) && Vanishes(b, p)
    ensures Vanishes(a - z * b, p)
  {
    var k := Factor(a, p);
    var l := Factor(b, p);
    assert a - z * b == (k - z * l) * p;
    MultipleVanishes(k - z * l, p);
  }

  lemma {:induction false} ZeroEval(f: Poly, x: int, p: int)
    requires p > 0 && Zero(f, p)
    ensures Vanishes(Eval(f, x), p)
  {
    if f == [] {
      MultipleVanishes(0, p);
    } else {
      ZeroEval(f[1..], x, p);
      LinearZero(f[0], Eval(f[1..], x), -x, p);
      NegatedTwice(x, Eval(f[1..], x));
    }
  }

  lemma NegatedTwice(x: int, y: int)
    ensures -(-x * y) == x * y
  {
  }

  lemma SameEval(f: Poly, g: Poly, x: int, p: int)
    requires p > 0 && Same(f, g, p)
    ensures Congruent(Eval(f, x), Eval(g, x), p)
  {
    ZeroEval(Difference(f, g), x, p);
    EvalDifference(f, g, x);
    CongruentByDifference(Eval(Difference(f, g), x), Eval(f, x), Eval(g, x), p);
  }

  lemma CongruentByDifference(d: int, a: int, b: int, p: int)
    requires p > 0 && Vanishes(d, p) && d == a - b
    ensures Congruent(a, b, p)
  {
    DifferenceVanishes(a, b, p);
  }

  lemma {:induction false} ZeroQuotient(f: Poly, z: int, p: int)
    requires p > 0 && Zero(Quotient(f, z), p) && Vanishes(Eval(f, z), p)
    ensures Zero(f, p)
  {
    if |f| == 1 {
      assert f[0] == Eval(f, z);
    } else if |f| > 1 {
      var g, q := f[1..], Quotient(f, z);
      assert q[0] == Eval(g, z) && Vanishes(q[0], p);
      assert Zero(Quotient(g, z), p) by {
        forall i | 0 <= i < |Quotient(g, z)| ensures Vanishes(Quotient(g, z)[i], p) {
          assert Vanishes(q[i + 1], p);
        }
      }
      ZeroQuotient(g, z, p);
      LinearZero(Eval(f, z), Eval(g, z), z, p);
      forall i | 0 <= i < |f| ensures Vanishes(f[i], p) {
        if i > 0 {
          assert Vanishes(g[i - 1], p);
        }
      }
    }
  }

  ghost predicate Distinct(s: seq<int>) {
    forall i, j | 0 <= i < j < |s| :: s[i] != s[j]
  }

  /** A nonzero polynomial has at most as many roots as its degree. */
  lemma {:induction false} RootBound(f: Poly, roots: seq<int>, p: int)
    requires Prime(p) && !Zero(f, p) && Distinct(roots)
    requires forall i | 0 <= i < |roots| :: 0 <= roots[i] < p && Vanishes(Eval(f, roots[i]), p)
    ensures |roots| < |f|
    decreases |f|
  {
    if roots == [] {
    } else {
      var z, rest := roots[0], roots[1..];
      var q := Quotient(f, z);
      if Zero(q, p) {
        ZeroQuotient(f, z, p);
        assert false;
      }
      forall i | 0 <= i < |rest| ensures 0 <= rest[i] < p && Vanishes(Eval(q, rest[i]), p) {
        OtherRoot(f, z, roots[i + 1], p);
      }
      RootBound(q, rest, p);
    }
  }

  lemma OtherRoot(f: Poly, z: int, x: int, p: int)
    requires Prime(p) && 0 <= x < p && 0 <= z < p && x != z
    requires Vanishes(Eval(f, z), p) && Vanishes(Eval(f, x), p)
    ensures Vanishes(Eval(Quotient(f, z), x), p)
  {
    QuotientDivides(f, z, x);
    var k := Factor(Eval(f, x), p);
    var l := Factor(Eval(f, z), p);
    assert (x - z) * Eval(Quotient(f, z), x) == (k - l) * p;
    MultipleVanishes(k - l, p);
    NoZeroDivisors(x - z, Eval(Quotient(f, z), x), p);
    if Vanishes(x - z, p) {
      SmallResidue(x - z, p);
    }
  }

  // ---------------------------------------------------------------------------
  // Division by X - z
  // ---------------------------------------------------------------------------

  /** (X - z) times q. */
  function TimesRoot(q: Poly, z: int): Poly {
    Add([0] + q, Scale(-z, q))
  }

  lemma EvalTimesRoot(q: Poly, z: int, x: int)
    ensures Eval(TimesRoot(q, z), x) == (x - z) * Eval(q, x)
  {
    EvalAdd([0] + q, Scale(-z, q), x);
    EvalScale(-z, q, x);
    assert ([0] + q)[1..] == q;
  }

  /** Multiplying the quotient back gives f with its constant term lowered by f(z). */
  lemma {:induction false} QuotientTimesRoot(f: Poly, z: int)
    requires f != []
    ensures TimesRoot(Quotient(f, z), z) == [f[0] - Eval(f, z)] + f[1..]
  {
    if |f| == 1 {
      assert Quotient(f, z) == [];
      assert Eval(f, z) == f[0];
    } else {
      var g := f[1..];
      var q, q' := Quotient(f, z), Quotient(g, z);
      QuotientTimesRoot(g, z);
      assert q == [Eval(g, z)] + q';
      assert Scale(-z, q) == [-z * Eval(g, z)] + Scale(-z, q');
      assert ([0] + q)[1..] == [Eval(g, z)] + q' && Scale(-z, q)[1..] == Scale(-z, q');
      assert TimesRoot(q, z) == [-z * Eval(g, z)] + Add([Eval(g, z)] + q', Scale(-z, q'));
      RaisedConstant(Eval(g, z), q', Scale(-z, q'));
      assert Add([Eval(g, z)] + q', Scale(-z, q')) == g;
    }
  }

  lemma RaisedConstant(k: int, q: Poly, h: Poly)
    requires |h| == |q|
    ensures Add([k] + q, h)[0] == Add([0] + q, h)[0] + k && Add([k] + q, h)[1..] == Add([0] + q, h)[1..]
  {
    assert ([k] + q)[1..] == q && ([0] + q)[1..] == q;
  }

  /** X - z divides f modulo p exactly when z is a root of f modulo p. */
  lemma DividesIffRoot(f: Poly, z: int, p: int)
    requires p > 0
    ensures (exists q: Poly :: Same(TimesRoot(q, z), f, p)) <==> Vanishes(Eval(f, z), p)
  {
    if q: Poly :| Same(TimesRoot(q, z), f, p) {
      SameEval(TimesRoot(q, z), f, z, p);
      EvalTimesRoot(q, z, z);
    }
    if Vanishes(Eval(f, z), p) {
      RootDivides(f, z, p);
    }
  }

  lemma RootDivides(f: Poly, z: int, p: int)
    requires p > 0 && Vanishes(Eval(f, z), p)
    ensures Same(TimesRoot(Quotient(f, z), z), f, p)
  {
    if f == [] {
      assert Quotient(f, z) == [];
      assert TimesRoot([], z) == [0];
      MultipleVanishes(0, p);
      assert Add([0], Scale(-1, f)) == [0];
    } else {
      QuotientTimesRoot(f, z);
      var k := Factor(Eval(f, z), p);
      assert f[0] - Eval(f, z) - f[0] == (-k) * p;
      MultipleVanishes(-k, p);
      LoweredConstant(f, f[0] - Eval(f, z));
      SelfDifference(f[1..], p);
    }
  }

  lemma LoweredConstant(f: Poly, a: int)
    requires f != []
    ensures Add([a] + f[1..], Scale(-1, f)) == [a - f[0]] + Add(f[1..], Scale(-1, f[1..]))
  {
    assert Scale(-1, f) == [-1 * f[0]] + Scale(-1, f[1..]);
    assert ([a] + f[1..])[1..] == f[1..];
    assert Scale(-1, f)[1..] == Scale(-1, f[1..]);
  }

  lemma {:induction false} SelfDifference(f: Poly, p: int)
    requires p > 0
    ensures Zero(Add(f, Scale(-1, f)), p)
  {
    if f == [] {
    } else {
      SelfDifference(f[1..], p);
      MultipleVanishes(0, p);
      assert f == [f[0]] + f[1..];
      LoweredConstant(f, f[0]);
    }
  }
}
