/** Exact non-negative rationals in lowest terms, as `fractions.Fraction` keeps them. */
module Fractions {

  datatype Fraction = Fraction(num: nat, den: nat)

  function Gcd(a: nat, b: nat): (g: nat)
    ensures a > 0 || b > 0 ==> g > 0
    decreases b
  {
    if b == 0 then a else Gcd(b, a % b)
  }

  predicate Lowest(f: Fraction) { f.den > 0 && Gcd(f.num, f.den) == 1 }

  /** The fraction n/d reduced by the greatest common divisor. */
  function Norm(n: nat, d: nat): Fraction
    requires d > 0
  {
    Fraction(n / Gcd(n, d), d / Gcd(n, d))
  }

  function Value(f: Fraction): real
    requires f.den > 0
  {
    f.num as real / f.den as real
  }

  function Add(f: Fraction, g: Fraction): Fraction
    requires f.den > 0 && g.den > 0
  {
    Positive(f.den, g.den);
    Norm(f.num * g.den + g.num * f.den, f.den * g.den)
  }

  function DivideBy(f: Fraction, k: nat): Fraction
    requires f.den > 0 && k > 0
  {
    Positive(f.den, k);
    Norm(f.num, f.den * k)
  }

  lemma Positive(a: nat, b: nat)
    requires a > 0 && b > 0
    ensures a * b > 0
  {
  }

  lemma {:induction false} Bezout(a: nat, b: nat) returns (x: int, y: int)
    ensures a * x + b * y == Gcd(a, b)
    decreases b
  {
    if b == 0 {
      x, y := 1, 0;
    } else {
      var q, r := a / b, a % b;
      var u, v := Bezout(b, r);
      x, y := v, u - q * v;
      assert a == b * q + r;
      assert a * x + b * y == (b * q + r) * v + b * (u - q * v) == b * u + r * v by {
        assert (b * q + r) * v == b * q * v + r * v;
        assert b * (u - q * v) == b * u - b * (q * v);
        assert b * q * v == b * (q * v);
      }
    }
  }

  /** The greatest common divisor divides both arguments; the quotients are returned. */
  lemma {:induction false} GcdDivides(a: nat, b: nat) returns (i: nat, j: nat)
    ensures a == Gcd(a, b) * i && b == Gcd(a, b) * j
    decreases b
  {
    if b == 0 {
      i, j := 1, 0;
    } else {
      var g := Gcd(a, b);
      var k, l := GcdDivides(b, a % b);
      i, j := k * (a / b) + l, k;
      Distribute(g, k, a / b, l);
      assert a == b * (a / b) + a % b;
    }
  }

  lemma Distribute(g: int, k: int, q: int, l: int)
    ensures g * (k * q + l) == (g * k) * q + g * l
  {
  }

  lemma MulSign(g: int, k: int)
    requires g > 0
    ensures k >= 1 ==> g * k >= g
    ensures k <= -1 ==> g * k <= -g
    ensures k == 0 <==> g * k == 0
  {
    if k >= 1 { assert g * k == g * (k - 1) + g; }
    if k <= -1 { assert g * k == g * (k + 1) - g; }
  }

  lemma MulDiv(g: int, i: int)
    requires g > 0
    ensures (g * i) / g == i
  {
    var n := g * i;
    var q, r := n / g, n % g;
    assert n == g * q + r && 0 <= r < g;
    assert g * (i - q) == r;
    MulSign(g, i - q);
  }

  /** `Norm` keeps the ratio and ends in lowest terms. */
  lemma NormIsLowest(n: nat, d: nat)
    requires d > 0
    ensures Lowest(Norm(n, d)) && Norm(n, d).num * d == n * Norm(n, d).den
    ensures n <= d ==> Norm(n, d).num <= Norm(n, d).den
  {
    var g := Gcd(n, d);
    var i, j := GcdDivides(n, d);
    hide Gcd;
    MulDiv(g, i);
    MulDiv(g, j);
    MulSign(g, j);
    assert Norm(n, d) == Fraction(i, j) && j > 0;
    var x, y := Bezout(n, d);
    CombinationOne(g, i, j, x, y);
    BezoutOne(i, j, x, y);
    Rearrange(g, i, j);
    if n <= d {
      var gap: int := i as int - j as int;
      MulSign(g, gap);
    }
  }

  lemma Rearrange(g: int, i: int, j: int)
    ensures i * (g * j) == (g * i) * j
  {
  }

  lemma CombinationOne(g: int, i: int, j: int, x: int, y: int)
    requires g > 0 && (g * i) * x + (g * j) * y == g
    ensures i * x + j * y == 1
  {
    var k := i * x + j * y;
    Factor(g, i, j, x, y);
    assert g * (k - 1) == 0;
    MulSign(g, k - 1);
  }

  lemma Factor(g: int, i: int, j: int, x: int, y: int)
    ensures (g * i) * x + (g * j) * y == g * (i * x + j * y)
  {
  }

  /** Numbers with a combination equal to one have no common divisor but one. */
  lemma BezoutOne(i: nat, j: nat, x: int, y: int)
    requires i * x + j * y == 1
    ensures Gcd(i, j) == 1
  {
    var g := Gcd(i, j);
    var k, l := GcdDivides(i, j);
    hide Gcd;
    Factor(g, k, l, x, y);
    if g > 0 { MulSign(g, k * x + l * y); }
  }

  /** Two fractions in lowest terms with the same ratio are the same fraction. */
  lemma LowestUnique(f: Fraction, g: Fraction)
    requires Lowest(f) && Lowest(g) && f.num * g.den == g.num * f.den
    ensures f == g
  {
    var p := DenominatorDivides(f, g);
    var q := DenominatorDivides(g, f);
    hide Gcd;
    MulSign(f.den, p);
    MulSign(g.den, q);
    assert f.den == g.den;
    assert f.den * (f.num - g.num) == 0;
    MulSign(f.den, f.num - g.num);
  }

  /** The smaller step: the one denominator divides the other. */
  lemma DenominatorDivides(f: Fraction, g: Fraction) returns (p: int)
    requires Lowest(f) && Lowest(g) && f.num * g.den == g.num * f.den
    ensures g.den == f.den * p
  {
    var x, y := Bezout(f.num, f.den);
    p := g.num * x + g.den * y;
    hide Gcd;
    Cross(f.num, f.den, g.num, g.den, x, y);
  }

  lemma Cross(a: int, b: int, c: int, d: int, x: int, y: int)
    requires a * d == c * b && a * x + b * y == 1
    ensures d == b * (c * x + d * y)
  {
    assert d == d * (a * x + b * y);
    Spread(d, a, x, b, y);
    Spread(b, c, x, d, y);
    assert (d * a) * x == (b * c) * x;
  }

  lemma Spread(d: int, a: int, x: int, b: int, y: int)
    ensures d * (a * x + b * y) == (d * a) * x + (d * b) * y
  {
  }

  // ---------- the same facts about values ----------

  lemma SameRatioSameValue(a: nat, b: nat, c: nat, d: nat)
    requires b > 0 && d > 0 && a * d == c * b
    ensures a as real / b as real == c as real / d as real
  {
    var x, y := a as real / b as real, c as real / d as real;
    QuotientTimes(a as real, b as real);
    QuotientTimes(c as real, d as real);
    RealProduct(a, d);
    RealProduct(c, b);
    Difference(x, y, b as real, d as real);
    Cancel(x - y, b as real * d as real);
  }

  lemma Difference(x: real, y: real, b: real, d: real)
    requires b > 0.0 && d > 0.0 && (x * b) * d == (y * d) * b
    ensures b * d > 0.0 && (x - y) * (b * d) == 0.0
  {
  }

  lemma Cancel(x: real, k: real)
    requires k > 0.0 && x * k == 0.0
    ensures x == 0.0
  {
  }

  lemma NormValue(n: nat, d: nat)
    requires d > 0
    ensures Lowest(Norm(n, d)) && Value(Norm(n, d)) == n as real / d as real
  {
    NormIsLowest(n, d);
    hide Gcd, Norm;
    SameRatioSameValue(Norm(n, d).num, Norm(n, d).den, n, d);
  }

  lemma AddValue(f: Fraction, g: Fraction)
    requires f.den > 0 && g.den > 0
    ensures Lowest(Add(f, g)) && Value(Add(f, g)) == Value(f) + Value(g)
  {
    hide Gcd, Norm, Lowest;
    Positive(f.den, g.den);
    NormValue(f.num * g.den + g.num * f.den, f.den * g.den);
    ValueOfSum(f.num, f.den, g.num, g.den);
  }

  lemma ValueOfSum(a: nat, b: nat, c: nat, d: nat)
    requires b > 0 && d > 0 && b * d > 0
    ensures (a * d + c * b) as real / (b * d) as real == a as real / b as real + c as real / d as real
  {
    RealProduct(a, d);
    RealProduct(c, b);
    RealProduct(b, d);
    SumOfQuotients(a as real, b as real, c as real, d as real);
  }

  lemma RealProduct(a: nat, b: nat)
    ensures (a * b) as real == a as real * b as real
  {
  }

  lemma SumOfQuotients(a: real, b: real, c: real, d: real)
    requires b > 0.0 && d > 0.0
    ensures b * d > 0.0 && (a * d + c * b) / (b * d) == a / b + c / d
  {
    var x, y := a / b, c / d;
    assert x * b == a && y * d == c;
    Common(x, y, b, d);
    QuotientIs(x + y, b * d);
  }

  lemma Common(x: real, y: real, b: real, d: real)
    ensures (x * b) * d + (y * d) * b == (x + y) * (b * d)
  {
  }

  lemma QuotientIs(z: real, k: real)
    requires k > 0.0
    ensures (z * k) / k == z
  {
  }

  lemma DivideValue(f: Fraction, k: nat)
    requires f.den > 0 && k > 0
    ensures Lowest(DivideBy(f, k)) && Value(DivideBy(f, k)) == Value(f) / k as real
  {
    hide Gcd, Norm, Lowest;
    Positive(f.den, k);
    NormValue(f.num, f.den * k);
    ValueOfShare(f.num, f.den, k);
  }

  lemma ValueOfShare(a: nat, b: nat, k: nat)
    requires b > 0 && k > 0 && b * k > 0
    ensures a as real / (b * k) as real == (a as real / b as real) / k as real
  {
    RealProduct(b, k);
    QuotientOfQuotient(a as real, b as real, k as real);
  }

  lemma QuotientOfQuotient(a: real, b: real, c: real)
    requires b > 0.0 && c > 0.0
    ensures b * c > 0.0 && a / (b * c) == (a / b) / c
  {
    var z := (a / b) / c;
    assert z * c == a / b && (a / b) * b == a;
    assert (z * c) * b == z * (b * c);
    QuotientIs(z, b * c);
  }

  /** Fractions in lowest terms are equal exactly when their values are. */
  lemma ValueDetermines(f: Fraction, g: Fraction)
    requires Lowest(f) && Lowest(g)
    ensures f == g <==> Value(f) == Value(g)
  {
    if Value(f) == Value(g) {
      SameValueCrosses(f.num, f.den, g.num, g.den);
      LowestUnique(f, g);
    }
  }

  lemma SameValueCrosses(a: nat, b: nat, c: nat, d: nat)
    requires b > 0 && d > 0 && a as real / b as real == c as real / d as real
    ensures a * d == c * b
  {
    QuotientTimes(a as real, b as real);
    QuotientTimes(c as real, d as real);
    var x := a as real / b as real;
    Commute(x, b as real, d as real);
    RealProduct(a, d);
    RealProduct(c, b);
  }

  lemma QuotientTimes(a: real, b: real)
    requires b > 0.0
    ensures (a / b) * b == a
  {
  }

  lemma Commute(x: real, b: real, d: real)
    ensures (x * b) * d == (x * d) * b
  {
  }
}
