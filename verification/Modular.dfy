/** Arithmetic modulo a prime: congruence, Euclid's lemma, inverses. */
module Modular {

  ghost predicate Prime(p: int) {
    p > 1 && forall d | 1 < d < p :: p % d != 0
  }

  /** The representative of x modulo p: p added or taken away until one is reached. */
  function Residue(x: int, p: int): (r: int)
    requires p > 0
    ensures 0 <= r < p
    decreases if x < 0 then p - x else x
  {
    if x < 0 then Residue(x + p, p) else if x >= p then Residue(x - p, p) else x
  }

  lemma ResidueIsMod(x: int, p: int)
    requires p > 0
    ensures Residue(x, p) == x % p
  {
    var q := Split(x, p);
    Unique(x, p, q, Residue(x, p));
  }

  /** a and b name the same residue modulo p. */
  predicate Congruent(a: int, b: int, p: int)
    requires p > 0
  {
    Residue(a, p) == Residue(b, p)
  }

  /** a is a multiple of p. */
  predicate Vanishes(a: int, p: int)
    requires p > 0
  {
    Residue(a, p) == 0
  }

  lemma MultipleVanishes(k: int, p: int)
    requires p > 0
    ensures Vanishes(k * p, p)
  {
    MultipleMod(k, p);
    ResidueIsMod(k * p, p);
  }

  lemma Factor(x: int, p: int) returns (k: int)
    requires p > 0 && Vanishes(x, p)
    ensures x == k * p
  {
    ResidueIsMod(x, p);
    k := x / p;
  }

  lemma MultipleMod(k: int, p: int)
    requires p > 0
    ensures (k * p) % p == 0
  {
    Unique(k * p, p, k, 0);
  }

  lemma SmallMultiple(k: int, p: int)
    requires p > 0 && -p < k * p < p
    ensures k == 0
  {
    if k >= 1 {
      MulMonotone(p, 1, k);
    } else if k <= -1 {
      MulMonotone(p, k, -1);
    }
  }

  lemma MulMonotone(p: int, a: int, b: int)
    requires p >= 0 && a <= b
    ensures a * p <= b * p
  {
  }

  lemma Unique(x: int, p: int, q: int, r: int)
    requires 0 <= r < p && x == q * p + r
    ensures x / p == q && x % p == r
  {
    var k := x / p - q;
    assert k * p == r - x % p by {
      assert x == (x / p) * p + x % p;
    }
    SmallMultiple(k, p);
  }

  lemma Distribute(i: int, j: int, p: int)
    ensures (i + j) * p == i * p + j * p && (i - j) * p == i * p - j * p
  {
  }

  lemma {:induction false} Split(x: int, p: int) returns (q: int)
    requires p > 0
    ensures x == q * p + Residue(x, p)
    decreases if x < 0 then p - x else x
  {
    if x < 0 {
      q := Split(x + p, p);
      Distribute(q, 1, p);
      q := q - 1;
    } else if x >= p {
      q := Split(x - p, p);
      Distribute(q, 1, p);
      q := q + 1;
    } else {
      q := 0;
    }
  }

  lemma UniqueResidue(x: int, p: int, q: int, r: int)
    requires 0 <= r < p && x == q * p + r
    ensures Residue(x, p) == r
  {
    var q' := Split(x, p);
    Distribute(q', q, p);
    SmallMultiple(q' - q, p);
  }

  lemma CongruentBy(a: int, b: int, k: int, p: int)
    requires p > 0 && a == b + k * p
    ensures Congruent(a, b, p)
  {
    var q := Split(b, p);
    Distribute(q, k, p);
    UniqueResidue(a, p, q + k, Residue(b, p));
  }

  lemma Witness(a: int, b: int, p: int) returns (k: int)
    requires p > 0 && Congruent(a, b, p)
    ensures a == b + k * p
  {
    var i := Split(a, p);
    var j := Split(b, p);
    Distribute(i, j, p);
    k := i - j;
  }

  lemma CongruentMod(a: int, p: int)
    requires p > 0
    ensures Congruent(a % p, a, p) && Congruent(a, a % p, p)
  {
    CongruentBy(a, a % p, a / p, p);
    CongruentBy(a % p, a, -(a / p), p);
  }

  /** A difference vanishes exactly when its terms are congruent. */
  lemma DifferenceVanishes(a: int, b: int, p: int)
    requires p > 0
    ensures Vanishes(a - b, p) <==> Congruent(a, b, p)
  {
    if Vanishes(a - b, p) {
      var k := Factor(a - b, p);
      CongruentBy(a, b, k, p);
    }
    if Congruent(a, b, p) {
      var k := Witness(a, b, p);
      MultipleVanishes(k, p);
    }
  }

  lemma CongruentAdd(a: int, a': int, b: int, b': int, p: int)
    requires p > 0 && Congruent(a, a', p) && Congruent(b, b', p)
    ensures Congruent(a + b, a' + b', p) && Congruent(a - b, a' - b', p)
  {
    var k := Witness(a, a', p);
    var l := Witness(b, b', p);
    Distribute(k, l, p);
    CongruentBy(a + b, a' + b', k + l, p);
    CongruentBy(a - b, a' - b', k - l, p);
  }

  lemma ProductShifted(a: int, b: int, k: int, l: int, p: int)
    ensures (a + k * p) * (b + l * p) == a * b + (k * b + l * a + k * l * p) * p
  {
  }

  lemma CongruentMul(a: int, a': int, b: int, b': int, p: int)
    requires p > 0 && Congruent(a, a', p) && Congruent(b, b', p)
    ensures Congruent(a * b, a' * b', p)
  {
    var k := Witness(a, a', p);
    var l := Witness(b, b', p);
    ProductShifted(a', b', k, l, p);
    CongruentBy(a * b, a' * b', k * b' + l * a' + k * l * p, p);
  }

  /** Euclid's lemma, the descending half: a unit below p cannot annihilate b. */
  lemma {:induction false} Cancel(d: int, b: int, p: int)
    requires Prime(p) && 0 < d < p && (d * b) % p == 0
    ensures b % p == 0
    decreases d
  {
    if d == 1 {
    } else {
      var q, r := p / d, p % d;
      var k := (d * b) / p;
      calc {
        r * b;
        (p - d * q) * b;
        p * b - q * (d * b);
        p * b - q * (k * p);
        (b - q * k) * p;
      }
      MultipleMod(b - q * k, p);
      Cancel(r, b, p);
    }
  }

  /** No zero divisors. */
  lemma NoZeroDivisors(a: int, b: int, p: int)
    requires Prime(p)
    ensures Vanishes(a * b, p) <==> Vanishes(a, p) || Vanishes(b, p)
  {
    var r := Residue(a, p);
    assert Congruent(a, r, p) && Congruent(b, b, p) && Congruent(0, 0, p);
    CongruentMul(a, r, b, b, p);
    if Vanishes(a * b, p) && r != 0 {
      ResidueIsMod(r * b, p);
      Cancel(r, b, p);
      ResidueIsMod(b, p);
    }
    if Vanishes(b, p) {
      CongruentMul(a, a, b, 0, p);
    }
  }

  /** The inverse of a residue, by extended Euclid. */
  function Inverse(d: int, p: int): (i: int)
    requires Prime(p) && 0 < d < p
    ensures 0 <= i < p
    ensures (d * i) % p == 1
    decreases d
  {
    if d == 1 then
      1
    else
      var i := Inverse(p % d, p);
      InverseStep(d, i, p);
      (-(p / d) * i) % p
  }

  lemma InverseStep(d: int, i: int, p: int)
    requires Prime(p) && 1 < d < p && ((p % d) * i) % p == 1
    ensures (d * ((-(p / d) * i) % p)) % p == 1
  {
    var q, r := p / d, p % d;
    var j := -q * i;
    var k := (r * i) / p;
    calc {
      d * j;
      -(d * q) * i;
      { assert d * q == p - r; }
      -(p - r) * i;
      r * i - p * i;
      (k - i) * p + 1;
    }
    Unique(d * j, p, k - i, 1);
    CongruentMod(j, p);
    CongruentMul(d, d, j % p, j, p);
    ResidueIsMod(d * (j % p), p);
    ResidueIsMod(d * j, p);
  }

  lemma SmallResidue(z: int, p: int)
    requires -p < z < p && Vanishes(z, p)
    ensures z == 0
  {
    var k := Factor(z, p);
    SmallMultiple(k, p);
  }

  /** The representative opposite to x. */
  function Opposite(x: int, p: int): int {
    if x == 0 then 0 else p - x
  }

  lemma OppositeVanishes(x: int, y: int, p: int)
    requires 0 <= x < p && 0 <= y < p
    ensures Vanishes(x + y, p) <==> y == Opposite(x, p)
  {
    if x + y >= p {
      assert Residue(x + y, p) == x + y - p;
    }
  }

  /** Square roots modulo a prime are exactly a sign pair. */
  lemma SquareRoots(x: int, y: int, p: int)
    requires Prime(p) && 0 <= x < p && 0 <= y < p
    ensures Congruent(x * x, y * y, p) <==> y == x || y == Opposite(x, p)
  {
    DifferenceVanishes(x * x, y * y, p);
    assert x * x - y * y == (x - y) * (x + y);
    NoZeroDivisors(x - y, x + y, p);
    OppositeVanishes(x, y, p);
    if Vanishes(x - y, p) {
      SmallResidue(x - y, p);
    }
  }
}
