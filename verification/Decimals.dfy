/** Decimal numbers as coefficient and exponent, and the context in which the tolerance test subtracts. */
module Decimals {
  import opened Options

  /** The number `coef * 10^exp`. */
  datatype Dec = Dec(coef: int, exp: int)

  function Pow10(n: nat): (p: nat)
    ensures p >= 1
  {
    if n == 0 then 1 else 10 * Pow10(n - 1)
  }

  function Abs(n: int): nat { if n < 0 then -n else n }

  /** The number of decimal digits of a coefficient; zero has one digit. */
  function Digits(n: nat): (d: nat)
    ensures d >= 1
  {
    if n < 10 then 1 else 1 + Digits(n / 10)
  }

  /** The coefficient of a number at a smaller exponent. */
  function At(a: Dec, exp: int): int
    requires exp <= a.exp
  {
    a.coef * Pow10(a.exp - exp)
  }

  /** Numeric order and equality, which ignore how a number is written. */
  predicate LessEq(a: Dec, b: Dec)
  {
    var m := Min(a.exp, b.exp);
    At(a, m) <= At(b, m)
  }

  predicate NumEq(a: Dec, b: Dec)
  {
    var m := Min(a.exp, b.exp);
    At(a, m) == At(b, m)
  }

  /** The exact absolute difference. */
  function Distance(a: Dec, b: Dec): Dec
  {
    var m := Min(a.exp, b.exp);
    Dec(Abs(At(a, m) - At(b, m)), m)
  }

  // ----- limits and contexts -----

  datatype NumberLimits = NumberLimits(digits: nat, exponent: nat)

  /** `_check_number`: the number of digits and the magnitude of the exponent are bounded. */
  predicate WithinLimits(a: Dec, l: NumberLimits)
  {
    Digits(Abs(a.coef)) <= l.digits && Abs(a.exp) <= l.exponent
  }

  datatype Context = Context(prec: nat, emax: int, emin: int)

  /** The context set up around the subtraction. */
  function ToleranceContext(l: NumberLimits): Context
  {
    Context(2 * l.exponent + l.digits + 2, l.exponent + l.digits + 1, -(l.exponent + l.digits + 1))
  }

  /** The exponent of the leading digit. */
  function Adjusted(a: Dec): int
  {
    a.exp + Digits(Abs(a.coef)) - 1
  }

  /** A result that the context neither rounds, nor overflows, nor underflows. */
  predicate Exact(a: Dec, c: Context)
  {
    Digits(Abs(a.coef)) <= c.prec && (a.coef != 0 ==> c.emin <= Adjusted(a) <= c.emax)
  }

  // ----- digits and powers -----

  lemma {:induction false} DigitsBound(n: nat, k: nat)
    requires k >= 1
    ensures Digits(n) <= k <==> n < Pow10(k)
  {
    if n < 10 {
      Pow10Mono(1, k);
      assert Pow10(1) == 10;
    } else if k == 1 {
      assert Pow10(1) == 10;
    } else {
      DigitsBound(n / 10, k - 1);
      assert Pow10(k) == 10 * Pow10(k - 1);
    }
  }

  lemma {:induction false} Pow10Mono(a: nat, b: nat)
    requires a <= b
    ensures Pow10(a) <= Pow10(b)
  {
    if a < b {
      Pow10Mono(a, b - 1);
    }
  }

  lemma {:induction false} Pow10Add(a: nat, b: nat)
    ensures Pow10(a + b) == Pow10(a) * Pow10(b)
  {
    if a > 0 {
      Pow10Add(a - 1, b);
      assert Pow10(a + b) == 10 * (Pow10(a - 1) * Pow10(b));
    }
  }

  lemma ScaleBound(c: int, d: nat, k: nat)
    requires Abs(c) < Pow10(d)
    ensures Abs(c * Pow10(k)) < Pow10(d + k)
  {
    Pow10Add(d, k);
    var p := Pow10(k);
    assert Abs(c * p) == Abs(c) * p by { AbsMul(c, p); }
    MulLess(Abs(c), Pow10(d), p);
  }

  lemma AbsMul(c: int, p: nat)
    ensures Abs(c * p) == Abs(c) * p
  {
    if c >= 0 {
      MulNonNeg(c, p);
    } else {
      MulNonNeg(-c, p);
      assert c * p == -((-c) * p);
    }
  }

  lemma MulNonNeg(a: nat, b: nat)
    ensures a * b >= 0
  {
  }

  lemma MulLess(a: nat, b: nat, p: nat)
    requires a < b && p >= 1
    ensures a * p < b * p
  {
    assert b * p - a * p == (b - a) * p;
    assert (b - a) * p >= p by { MulNonNeg(b - a - 1, p); assert (b - a) * p == (b - a - 1) * p + p; }
  }

  /** A coefficient below the digit limit stays below a known power when it is scaled to the common exponent. */
  lemma AtBound(a: Dec, l: NumberLimits, exp: int)
    requires WithinLimits(a, l) && l.digits >= 1 && exp <= a.exp
    ensures Abs(At(a, exp)) < Pow10(l.digits + (a.exp - exp))
  {
    DigitsBound(Abs(a.coef), l.digits);
    ScaleBound(a.coef, l.digits, a.exp - exp);
  }

  /**
   For numbers within the limits, the context of the tolerance test is always wide enough: the
   difference is never rounded, and its exponent never leaves the context's range.
   */
  lemma ToleranceIsExact(a: Dec, b: Dec, l: NumberLimits)
    requires l.digits >= 1 && WithinLimits(a, l) && WithinLimits(b, l)
    ensures Exact(Distance(a, b), ToleranceContext(l))
    ensures Digits(Abs(Distance(a, b).coef)) <= 2 * l.exponent + l.digits + 1
  {
    hide Digits, At;
    var m := Min(a.exp, b.exp);
    var top := if a.exp <= b.exp then b.exp else a.exp;
    AtBound(a, l, m);
    AtBound(b, l, m);
    Pow10Mono(l.digits + (a.exp - m), l.digits + (top - m));
    Pow10Mono(l.digits + (b.exp - m), l.digits + (top - m));
    var d := Distance(a, b);
    var k := l.digits + (top - m) + 1;
    assert Pow10(k) == 10 * Pow10(k - 1);
    DifferenceBound(At(a, m), At(b, m), Pow10(k - 1));
    DigitsBound(d.coef, k);
  }

  lemma DifferenceBound(x: int, y: int, p: nat)
    requires Abs(x) < p && Abs(y) < p
    ensures Abs(x - y) < 10 * p
  {
  }

  // ----- agreement with exact rational arithmetic -----

  /** The rational number. */
  ghost function Value(a: Dec): real
  {
    if a.exp >= 0 then (a.coef * Pow10(a.exp)) as real else a.coef as real / Pow10(-a.exp) as real
  }

  ghost function RealAbs(x: real): real { if x < 0.0 then -x else x }

  lemma ValueAtWhole(a: Dec, exp: nat)
    requires exp <= a.exp
    ensures Value(a) == Value(Dec(At(a, exp), exp))
  {
    hide Pow10;
    var k := a.exp - exp;
    Pow10Add(k, exp);
    MulAssoc(a.coef, Pow10(k), Pow10(exp));
  }

  lemma ValueAtPoint(a: Dec, exp: int)
    requires exp < 0 <= a.exp
    ensures Value(a) == Value(Dec(At(a, exp), exp))
  {
    hide Pow10;
    Pow10Add(a.exp, -exp);
    MulAssoc(a.coef, Pow10(a.exp), Pow10(-exp));
    DivCancel((a.coef * Pow10(a.exp)) as real, Pow10(-exp) as real);
    MulReal(a.coef * Pow10(a.exp), Pow10(-exp));
  }

  lemma ValueAtFraction(a: Dec, exp: int)
    requires exp <= a.exp < 0
    ensures Value(a) == Value(Dec(At(a, exp), exp))
  {
    hide Pow10;
    var k := a.exp - exp;
    Pow10Add(k, -a.exp);
    MulReal(a.coef, Pow10(k));
    MulReal(Pow10(k), Pow10(-a.exp));
    DivScale(a.coef as real, Pow10(-a.exp) as real, Pow10(k) as real);
  }

  /** Every number is its coefficient at a smaller exponent, times that power of ten. */
  lemma ValueAt(a: Dec, exp: int)
    requires exp <= a.exp
    ensures Value(a) == Value(Dec(At(a, exp), exp))
  {
    hide Value, At;
    if exp >= 0 {
      ValueAtWhole(a, exp);
    } else if a.exp >= 0 {
      ValueAtPoint(a, exp);
    } else {
      ValueAtFraction(a, exp);
    }
  }

  lemma MulAssoc(a: int, b: int, c: int)
    ensures a * (b * c) == (a * b) * c
  {
  }

  lemma MulReal(a: int, b: int)
    ensures (a * b) as real == a as real * b as real
  {
  }

  lemma DivCancel(a: real, b: real)
    requires b > 0.0
    ensures a * b / b == a
  {
  }

  lemma DivScale(a: real, b: real, c: real)
    requires b > 0.0 && c > 0.0
    ensures a / b == (a * c) / (c * b)
  {
    var q := a / b;
    assert q * b == a;
    assert (q * b) * c == q * (c * b);
    assert (a * c) / (c * b) == q;
  }

  /** The power of ten that an exponent stands for. */
  ghost function Unit(exp: int): (u: real)
    ensures u > 0.0
  {
    if exp >= 0 then Pow10(exp) as real else 1.0 / Pow10(-exp) as real
  }

  lemma ValueIsScaled(c: int, exp: int)
    ensures Value(Dec(c, exp)) == c as real * Unit(exp)
  {
    if exp >= 0 {
      MulReal(c, Pow10(exp));
    }
  }

  lemma ScaleOrder(x: real, y: real, u: real)
    requires u > 0.0
    ensures x <= y <==> x * u <= y * u
  {
  }

  /** The decimal order is the order of the rational numbers. */
  lemma LessEqIsRational(a: Dec, b: Dec)
    ensures LessEq(a, b) <==> Value(a) <= Value(b)
  {
    hide Value, At, Unit, Pow10;
    var m := Min(a.exp, b.exp);
    ValueAt(a, m);
    ValueAt(b, m);
    ValueIsScaled(At(a, m), m);
    ValueIsScaled(At(b, m), m);
    ScaleOrder(At(a, m) as real, At(b, m) as real, Unit(m));
  }

  /** Numeric equality is equality of the rational numbers. */
  lemma NumEqIsRational(a: Dec, b: Dec)
    ensures NumEq(a, b) <==> Value(a) == Value(b)
  {
    LessEqIsRational(a, b);
    LessEqIsRational(b, a);
  }

  lemma DistanceIsRational(a: Dec, b: Dec)
    ensures Value(Distance(a, b)) == RealAbs(Value(a) - Value(b))
  {
    hide Value, At, Unit, Pow10, RealAbs;
    var m := Min(a.exp, b.exp);
    var x, y := At(a, m), At(b, m);
    ValueAt(a, m);
    ValueAt(b, m);
    ValueIsScaled(x, m);
    ValueIsScaled(y, m);
    ValueIsScaled(Abs(x - y), m);
    var u := Unit(m);
    ScaleDifference(x, y, u);
    assert Value(a) - Value(b) == x as real * u - y as real * u;
    assert Distance(a, b) == Dec(Abs(x - y), m);
  }

  lemma ScaleDifference(x: int, y: int, u: real)
    requires u > 0.0
    ensures Abs(x - y) as real * u == RealAbs(x as real * u - y as real * u)
  {
    assert x as real * u - y as real * u == (x - y) as real * u;
    if x >= y {
      ScaleOrder(0.0, (x - y) as real, u);
    } else {
      ScaleOrder((x - y) as real, 0.0, u);
    }
  }

  /** `abs(a - b)` computed in a context; None where the context would have to round or signal. */
  function ContextDistance(a: Dec, b: Dec, c: Context): Option<Dec>
  {
    if Exact(Distance(a, b), c) then Some(Distance(a, b)) else None
  }

  /** The distance does not exceed the allowance. */
  predicate Tolerates(a: Dec, b: Dec, absolute: Dec)
  {
    LessEq(Distance(a, b), absolute)
  }

  /** The tolerance test decides |a - b| <= t over the rationals, exactly. */
  lemma TolerateIsRational(a: Dec, b: Dec, absolute: Dec)
    ensures Tolerates(a, b, absolute) <==> RealAbs(Value(a) - Value(b)) <= Value(absolute)
  {
    LessEqIsRational(Distance(a, b), absolute);
    DistanceIsRational(a, b);
  }
}
