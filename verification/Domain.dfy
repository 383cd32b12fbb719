/** Powers of xi, the vanishing polynomial and L_1 (program/src/plonk.rs, `challenges` and `lagrange_1`). */
module Domain {
  import opened Bytes
  import opened Modular
  import opened Scalar

  /** log2 of the evaluation domain's size; `xi^n` is that many squarings. */
  const POWER: nat := 24
  const N: int := 16777216

  function Pow(x: int, n: nat): int {
    if n == 0 then 1 else x * Pow(x, n - 1)
  }

  function Exp2(k: nat): (r: nat)
    ensures r > 0
    decreases k
  {
    if k == 0 then 1 else 2 * Exp2(k - 1)
  }

  /** 1 + x + ... + x^(n-1). */
  function Geometric(x: int, n: nat): int {
    if n == 0 then 0 else 1 + x * Geometric(x, n - 1)
  }

  lemma {:induction false} Exp2Add(m: nat, n: nat)
    ensures Exp2(m + n) == Exp2(m) * Exp2(n)
  {
    if m == 0 {
    } else {
      Exp2Add(m - 1, n);
    }
  }

  lemma DomainSize()
    ensures Exp2(POWER) == N
  {
    Exp2Add(8, 16);
    Exp2Add(8, 8);
    assert Exp2(8) == 256;
  }

  lemma {:induction false} PowAdd(x: int, m: nat, n: nat)
    ensures Pow(x, m + n) == Pow(x, m) * Pow(x, n)
  {
    if m == 0 {
    } else {
      PowAdd(x, m - 1, n);
      assert Pow(x, m + n) == x * Pow(x, (m - 1) + n);
      Associate(x, Pow(x, m - 1), Pow(x, n));
    }
  }

  lemma Associate(a: int, b: int, c: int)
    ensures a * (b * c) == (a * b) * c
  {
  }

  lemma {:induction false} PowOfOne(x: int, n: nat)
    requires x == 1
    ensures Pow(x, n) == 1
  {
    if n == 0 {
    } else {
      PowOfOne(x, n - 1);
    }
  }

  lemma {:induction false} GeometricSum(x: int, n: nat)
    ensures (x - 1) * Geometric(x, n) == Pow(x, n) - 1
  {
    if n == 0 {
    } else {
      GeometricSum(x, n - 1);
      var g := Geometric(x, n - 1);
      assert (x - 1) * (1 + x * g) == (x - 1) + x * ((x - 1) * g);
    }
  }

  /** `xi^n` by repeated squaring. */
  method Squarings(xi: Fr) returns (xin: Fr)
    ensures xin == Red(Pow(xi, N))
  {
    xin := xi;
    assert Pow(xi, 1) == xi;
    assert Eq(xi, Pow(xi, 1));
    for i := 0 to POWER
      invariant Eq(xin, Pow(xi, Exp2(i)))
    {
      SquareStep(xi, xin, Exp2(i));
      xin := Red(xin * xin);
      assert Exp2(i + 1) == Exp2(i) + Exp2(i);
    }
    DomainSize();
  }

  lemma SquareStep(xi: Fr, y: Fr, n: nat)
    requires Eq(y, Pow(xi, n))
    ensures Eq(Red(y * y), Pow(xi, n + n))
  {
    EqMul(y, Pow(xi, n), y, Pow(xi, n));
    RedEq(y * y);
    PowAdd(xi, n, n);
  }

  // ---------------------------------------------------------------------------
  // L_1
  // ---------------------------------------------------------------------------

  /** `zh / (n (xi - 1))`, refused when either is zero. */
  function L1At(xi: Fr, zh: Fr): Option<Fr>
    requires Prime(R)
  {
    var inverse :- FrInverse(Red(N * (xi - 1)));
    if zh == 0 then None else Some(Red(inverse * zh))
  }

  lemma SizeIsUnit()
    ensures !Eq(N, 0)
  {
    ScalarModulusValue();
  }

  lemma DenominatorZero(xi: Fr)
    requires Prime(R)
    ensures Red(N * (xi - 1)) == 0 <==> xi == 1
  {
    EqProductZero(N, xi - 1);
    SizeIsUnit();
    EqDifference(xi, 1);
  }

  /** Inverses are unique, so an inverse found through a product is the inverse. */
  lemma InverseUnique(d: Fr, a: Fr, b: Fr)
    requires Prime(R) && d != 0 && Eq(d * a, 1) && Eq(d * b, 1)
    ensures a == b
  {
    EqCancel(d, a, b);
  }

  /** The two inverses a batch of two yields. */
  lemma BatchInverse(x: Fr, y: Fr, acc: Fr)
    requires Prime(R) && Red(Red(x * y) * acc) == 1
    ensures Eq(y * Red(acc * x), 1) && Eq(x * Red(acc * y), 1)
  {
    RedEq(x * y);
    EqMul(Red(x * y), x * y, acc, acc);
    RedEq(acc * x);
    RedEq(acc * y);
    EqScale(y, Red(acc * x), acc * x);
    EqScale(x, Red(acc * y), acc * y);
    Shuffle(x, y, acc);
  }

  lemma Shuffle(x: int, y: int, acc: int)
    ensures y * (acc * x) == x * y * acc && x * (acc * y) == x * y * acc
  {
  }

  lemma BatchExists(x: Fr, y: Fr)
    requires Prime(R)
    ensures FrInverse(Red(x * y)).None? <==> x == 0 || y == 0
  {
    EqProductZero(x, y);
  }

  lemma OwnInverse(y: Fr, i: Fr)
    requires Prime(R) && y != 0 && Eq(y * i, 1)
    ensures FrInverse(y) == Some(i)
  {
    InverseUnique(y, i, FrInverse(y).value);
  }

  /** The batch exists exactly when neither factor is zero, and gives each its own inverse. */
  lemma BatchIsDirect(x: Fr, y: Fr)
    requires Prime(R)
    ensures FrInverse(Red(x * y)).None? <==> x == 0 || y == 0
    ensures x != 0 && y != 0 ==>
              var acc := FrInverse(Red(x * y)).value;
              FrInverse(y) == Some(Red(acc * x)) && FrInverse(x) == Some(Red(acc * y))
  {
    BatchExists(x, y);
    if x != 0 && y != 0 {
      var acc := FrInverse(Red(x * y)).value;
      BatchInverse(x, y, acc);
      OwnInverse(y, Red(acc * x));
      OwnInverse(x, Red(acc * y));
    }
  }

  /** `lagrange_1`: one inversion for both zh and the denominator. */
  method Lagrange1(xi: Fr, zh: Fr) returns (r: Option<Fr>)
    requires Prime(R)
    ensures r == L1At(xi, zh)
  {
    var denominator := Red(N * (xi - 1));
    var acc := Red(zh * denominator);
    BatchIsDirect(zh, denominator);
    var inverse := FrInverse(acc);
    if inverse.None? {
      return None;
    }
    acc := inverse.value;
    var evalL1Inv := Red(acc * zh);
    var zhInv := Red(acc * denominator);
    assert FrInverse(zh) == Some(zhInv);
    return Some(Red(evalL1Inv * zh));
  }

  /** L_1(xi) is refused exactly on the domain. */
  lemma L1RefusedOnDomain(xi: Fr, zh: Fr)
    requires Prime(R) && Eq(zh, Pow(xi, N) - 1)
    ensures L1At(xi, zh).None? <==> Eq(Pow(xi, N), 1)
  {
    var power := Pow(xi, N);
    DenominatorZero(xi);
    if xi == 1 {
      PowOfOne(xi, N);
    }
    ZeroIffOne(zh, power);
  }

  lemma ZeroIffOne(zh: Fr, power: int)
    requires Eq(zh, power - 1)
    ensures zh == 0 <==> Eq(power, 1)
  {
    if zh == 0 {
      EqAdd(power - 1, 0, 1, 1);
    }
    if Eq(power, 1) {
      EqAdd(power, 1, 1, 1);
    }
  }

  /** Otherwise it is the mean of the powers of xi: `n L_1(xi) = 1 + xi + ... + xi^(n-1)`. */
  lemma L1IsMeanOfPowers(xi: Fr, zh: Fr)
    requires Prime(R) && Eq(zh, Pow(xi, N) - 1) && L1At(xi, zh).Some?
    ensures Eq(N * L1At(xi, zh).value, Geometric(xi, N))
  {
    var l, d := Red(N * (xi - 1)), FrInverse(Red(N * (xi - 1))).value;
    var g := Geometric(xi, N);
    GeometricSum(xi, N);
    MeanOfPowers(N, xi - 1, l, d, g, zh);
  }

  lemma MeanOfPowers(n: int, x1: int, l: Fr, d: Fr, g: int, zh: Fr)
    requires l == Red(n * x1) && Red(l * d) == 1 && Eq(zh, x1 * g)
    ensures Eq(n * Red(d * zh), g)
  {
    RedEq(d * zh);
    EqScale(n, Red(d * zh), d * zh);
    EqScale(n * d, zh, x1 * g);
    RedEq(n * x1);
    EqMul(l, n * x1, d, d);
    EqScale(g, n * x1 * d, 1);
    Regroup(n, x1, d, g, zh);
  }

  lemma Regroup(n: int, x1: int, d: int, g: int, zh: int)
    ensures n * (d * zh) == n * d * zh && n * d * (x1 * g) == g * (n * x1 * d)
  {
  }
}
