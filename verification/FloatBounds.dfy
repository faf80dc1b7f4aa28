/** The exclusive bounds between which a floating point value converts to an integer, utils/SwiftFloatingPointTypes.py. */
module FloatBounds {
  import opened Options
  import opened Powers

  /** The number of significant bits of a floating point type, the leading one included. No other widths are known. */
  function ExplicitSignificandBits(floatBits: int): Option<nat> {
    if floatBits == 32 then Some(23 + 1)
    else if floatBits == 64 then Some(52 + 1)
    else if floatBits == 80 then Some(63 + 1)
    else None
  }

  /** `1 << n`. */
  function Shift(n: nat): (r: int)
    ensures r > 0
  {
    Pow2(n)
  }

  function Bounds(sigBits: nat, intBits: nat, signed: bool): (int, int)
    requires signed ==> intBits >= 1
  {
    if !signed then (-1, Shift(intBits))
    else
      var upper := Shift(intBits - 1);
      if intBits <= sigBits then (-upper - 1, upper)
      else
        var ulp := Shift(intBits - sigBits);
        (-upper - ulp, upper)
  }

  /** An unknown type and a negative shift are errors. */
  function GetFtoIBounds(floatBits: int, intBits: int, signed: bool): Option<(int, int)> {
    match ExplicitSignificandBits(floatBits)
    case None => None
    case Some(sigBits) =>
      if intBits < 0 || (signed && intBits == 0) then None else Some(Bounds(sigBits, intBits, signed))
  }

  // ---- floating point values

  function Power(e: int): (r: real)
    ensures r > 0.0
    decreases if e >= 0 then e else -e
  {
    if e == 0 then 1.0 else if e > 0 then 2.0 * Power(e - 1) else Power(e + 1) / 2.0
  }

  ghost predicate HasForm(p: nat, m: int, e: int, x: real) {
    -Shift(p) < m < Shift(p) && x == m as real * Power(e)
  }

  /** A value with `p` significant bits, of any exponent. */
  ghost predicate Representable(p: nat, x: real) {
    exists m, e :: HasForm(p, m, e, x)
  }

  /** Conversion to an integer drops the fraction, towards zero. */
  function Truncated(x: real): int {
    if x >= 0.0 then x.Floor else -(-x).Floor
  }

  predicate Fits(k: int, n: nat, signed: bool)
    requires signed ==> n >= 1
  {
    if signed then -Shift(n - 1) <= k < Shift(n - 1) else 0 <= k < Shift(n)
  }

  function Units(k: int, u: real): real {
    k as real * u
  }

  // ---- powers

  lemma {:induction false} PowerSum(a: int, b: int)
    ensures Power(a + b) == Power(a) * Power(b)
    decreases if b >= 0 then b else -b
  {
    hide Power;
    if b == 0 {
      PowerZero();
    } else if b > 0 {
      PowerSum(a, b - 1);
      PowerSumNext(a, b - 1);
    } else {
      PowerSum(a, b + 1);
      PowerSumNext(a, b);
    }
  }

  lemma PowerZero()
    ensures Power(0) == 1.0
  {
  }

  lemma PowerSumNext(a: int, b: int)
    ensures Power(a + b) == Power(a) * Power(b) <==> Power(a + (b + 1)) == Power(a) * Power(b + 1)
  {
    PowerNext(a + b);
    PowerNext(b);
    hide Power;
    Doubled(Power(a), Power(b));
    assert a + b + 1 == a + (b + 1);
  }

  lemma Doubled(x: real, y: real)
    ensures x * (2.0 * y) == 2.0 * (x * y)
  {
  }

  lemma PowerNext(e: int)
    ensures Power(e + 1) == 2.0 * Power(e)
  {
  }

  lemma {:induction false} PowerIsShift(n: nat)
    ensures Power(n) == Shift(n) as real
  {
    if n > 0 {
      PowerIsShift(n - 1);
    }
  }

  lemma {:induction false} PowerGrows(a: int, b: int)
    requires a <= b
    ensures Power(a) <= Power(b)
    decreases b - a
  {
    if a < b {
      PowerGrows(a, b - 1);
      PowerNext(b - 1);
    }
  }

  // ---- the values near the lower bound

  /** A value of magnitude 2^(n - 1) or more is a whole number of units of 2^(n - p). */
  lemma LargeIsMultiple(p: nat, n: nat, x: real) returns (k: int)
    requires 1 <= p < n && Representable(p, x) && x <= -(Shift(n - 1) as real)
    ensures x == Units(k, Shift(n - p) as real)
  {
    hide Power, Shift;
    var m, e :| HasForm(p, m, e, x);
    PowerIsShift(n - p);
    if e < n - p {
      TooSmall(p, n, m, e);
      assert false;
    }
    var d := e - (n - p);
    PowerSum(d, n - p);
    PowerIsShift(d);
    k := m * Shift(d);
    Regrouped(m, Shift(d), Power(n - p));
  }

  lemma TooSmall(p: nat, n: nat, m: int, e: int)
    requires n >= 1 && -Shift(p) < m && e < n - p
    ensures m as real * Power(e) > -(Shift(n - 1) as real)
  {
    hide Power, Shift;
    PowerIsShift(p);
    PowerIsShift(n - 1);
    PowerSum(p, e);
    PowerGrows(p + e, n - 1);
    Bounded(m, Power(p), Power(e));
  }

  lemma Bounded(m: int, s: real, y: real)
    requires -s < m as real && y > 0.0
    ensures m as real * y > -(s * y)
  {
    assert (m as real + s) * y > 0.0;
  }

  lemma Regrouped(m: int, d: int, u: real)
    ensures m as real * (d as real * u) == (m * d) as real * u
  {
  }

  lemma UnitsNegative(k: int, u: real)
    requires u > 0.0 && Units(k, u) < 0.0
    ensures k <= -1
  {
  }

  lemma UnitsNotPositive(k: int, u: real)
    requires u > 0.0 && k <= 0
    ensures Units(k, u) <= 0.0
  {
  }

  lemma UnitsSum(a: int, b: int, u: real)
    ensures Units(a + b, u) == Units(a, u) + Units(b, u)
  {
  }

  lemma OneUnit(u: real)
    ensures Units(1, u) == u
  {
  }

  /** Between consecutive whole numbers of units there is none. */
  lemma WholeUnits(k: int, h: int, u: real)
    requires u > 0.0 && Units(k, u) < -Units(h, u)
    ensures Units(k, u) <= -Units(h, u) - u
  {
    hide Units;
    UnitsSum(k, h, u);
    UnitsNegative(k + h, u);
    UnitsSum(k + h, 1, u);
    OneUnit(u);
    UnitsNotPositive(k + h + 1, u);
  }

  /** 2^(n - 1) is a whole number of units too. */
  lemma EdgeInUnits(p: nat, n: nat)
    requires 1 <= p < n
    ensures Shift(n - 1) == Shift(p - 1) * Shift(n - p)
    ensures Shift(n - 1) as real == Units(Shift(p - 1), Shift(n - p) as real)
  {
    Pow2Sum(p - 1, n - p);
  }

  /** Wider integers than the significand: no value lies between the lower bound and -2^(n - 1). */
  lemma NothingBetween(p: nat, n: nat, x: real)
    requires 1 <= p < n && Representable(p, x) && x < -(Shift(n - 1) as real)
    ensures x <= Bounds(p, n, true).0 as real
  {
    hide Shift, Representable, Units;
    var k := LargeIsMultiple(p, n, x);
    EdgeInUnits(p, n);
    WholeUnits(k, Shift(p - 1), Shift(n - p) as real);
    assert Bounds(p, n, true).0 == -Shift(n - 1) - Shift(n - p);
  }

  lemma LowerBoundIsRepresentable(p: nat, n: nat)
    requires 1 <= p < n
    ensures Representable(p, Bounds(p, n, true).0 as real)
  {
    var lower := Bounds(p, n, true).0;
    EdgeInUnits(p, n);
    if p == 1 {
      PowerIsShift(n);
      assert HasForm(p, -1, n, lower as real);
    } else {
      PowerIsShift(n - p);
      var m := -Shift(p - 1) - 1;
      LowerInUnits(Shift(p - 1), Shift(n - p));
      assert Shift(p - 1) >= 2;
      hide Power;
      assert HasForm(p, m, n - p, lower as real);
    }
  }

  lemma LowerInUnits(h: int, u: int)
    ensures (-(h * u) - u) as real == (-h - 1) as real * u as real
  {
    assert (-h - 1) * u == -(h * u) - u;
  }

  /** In that case the lower bound is itself a value of the type, so it is the largest one below -2^(n - 1). */
  lemma LowerBoundIsNextBelow(p: nat, n: nat)
    requires 1 <= p < n
    ensures var lower := Bounds(p, n, true).0 as real;
            && Representable(p, lower) && lower < -(Shift(n - 1) as real)
            && forall x :: Representable(p, x) && x < -(Shift(n - 1) as real) ==> x <= lower
  {
    LowerBoundIsRepresentable(p, n);
    var lower := Bounds(p, n, true).0;
    hide Representable;
    forall x | Representable(p, x) && x < -(Shift(n - 1) as real) ensures x <= lower as real {
      NothingBetween(p, n, x);
    }
  }

  /** A value lies strictly between the bounds exactly if its truncation fits the integer type. */
  lemma BetweenBoundsExactlyIfFits(p: nat, n: nat, signed: bool, x: real)
    requires p >= 1 && (signed ==> n >= 1) && Representable(p, x)
    ensures var (lower, upper) := Bounds(p, n, signed);
            lower as real < x < upper as real <==> Fits(Truncated(x), n, signed)
  {
    if signed && p < n && x < -(Shift(n - 1) as real) {
      NothingBetween(p, n, x);
      assert p < n ==> Shift(n - p) >= 2;
    }
  }

  /** For the three types of the source, and any integer width. */
  lemma ConvertsExactlyIfBetween(floatBits: int, intBits: int, signed: bool, x: real)
    requires floatBits in {32, 64, 80} && intBits >= 1
    requires Representable(ExplicitSignificandBits(floatBits).value, x)
    ensures var bounds := GetFtoIBounds(floatBits, intBits, signed);
            bounds.Some? && (bounds.value.0 as real < x < bounds.value.1 as real <==> Fits(Truncated(x), intBits, signed))
  {
    BetweenBoundsExactlyIfFits(ExplicitSignificandBits(floatBits).value, intBits, signed, x);
  }

  // ---- the bounds in numbers

  /** Bounds are known for three types, and for the widths that leave room for the sign. */
  lemma KnownExactly(floatBits: int, intBits: int, signed: bool)
    ensures GetFtoIBounds(floatBits, intBits, signed).Some?
            <==> floatBits in {32, 64, 80} && intBits >= (if signed then 1 else 0)
  {
  }

  lemma PowersInNumbers()
    ensures Pow2(1) == 2 && Pow2(11) == 0x800 && Pow2(40) == 0x100_0000_0000 && Pow2(63) == 0x8000_0000_0000_0000
    ensures Pow2(64) == 0x1_0000_0000_0000_0000
  {
    assert Pow2(4) == 16 && Pow2(3) == 8;
    Pow2Sum(4, 4);
    Pow2Sum(8, 3);
    Pow2Sum(8, 8);
    Pow2Sum(16, 8);
    Pow2Sum(16, 16);
    Pow2Sum(32, 8);
    Pow2Sum(32, 32);
    Pow2Sum(32, 16);
    Pow2Sum(48, 8);
    Pow2Sum(56, 4);
    Pow2Sum(60, 3);
  }

  /** For 64-bit integers, where the three types have 24, 53 and 64 significant bits, and for 65 bits. */
  lemma BoundsInNumbers()
    ensures GetFtoIBounds(32, 64, true) == Some((-9223373136366403584, 9223372036854775808))
    ensures GetFtoIBounds(64, 64, true) == Some((-9223372036854777856, 9223372036854775808))
    ensures GetFtoIBounds(80, 64, true) == Some((-9223372036854775809, 9223372036854775808))
    ensures GetFtoIBounds(80, 65, true) == Some((-18446744073709551618, 18446744073709551616))
    ensures forall floatBits :: floatBits in {32, 64, 80} ==>
              GetFtoIBounds(floatBits, 64, false) == Some((-1, 18446744073709551616))
  {
    PowersInNumbers();
    hide Pow2;
  }
}
