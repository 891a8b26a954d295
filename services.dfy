/**
 * The fixed-rate currency conversion of the payment services
 * (`convert_usd_to_rub`, users/services.py).
 *
 * A US-dollar amount is multiplied by the fixed rate of 95 roubles per dollar
 * and by 100 kopecks per rouble, and the product is cut to an integer with
 * Python's `int()`, which truncates toward zero. The amount is modelled as an
 * exact rational `num / den`: a whole-dollar `int` is `n / 1`, a two-digit
 * `Decimal` price is `cents / 100`.
 */
module Services {

  /** Roubles per US dollar, fixed in the code. */
  const FixedRate: int := 95

  /** Kopecks per rouble. */
  const KopecksPerRouble: int := 100

  /** Kopecks per US dollar. */
  const KopecksPerDollar: int := FixedRate * KopecksPerRouble

  /**
   * Python's `int(x)` for the rational `x = num / den`: the integer next to
   * `x` on the side of zero.
   */
  function TruncateTowardZero(num: int, den: int): (q: int)
    requires den > 0
    ensures num >= 0 ==> 0 <= q && q * den <= num < q * den + den
    ensures num < 0 ==> q <= 0 && q * den - den < num <= q * den
  {
    if num >= 0 then
      assert num == (num / den) * den + num % den && 0 <= num % den < den;
      num / den
    else
      var m := -num;
      assert m == (m / den) * den + m % den && 0 <= m % den < den;
      -(m / den)
  }

  /**
   * `convert_usd_to_rub(num / den)`: the amount in kopecks. It is the exact
   * product `num / den * 9500` with its fraction dropped toward zero, so it
   * keeps the sign of the amount and is less than one kopeck from the product.
   */
  function ConvertUsdToRub(num: int, den: int): (kopecks: int)
    requires den > 0
    ensures num >= 0 ==> 0 <= kopecks * den <= num * 9500 < kopecks * den + den
    ensures num < 0 ==> kopecks * den - den < num * 9500 <= kopecks * den <= 0
  {
    TruncateTowardZero(num * FixedRate * KopecksPerRouble, den)
  }

  /** A whole-dollar amount converts to exactly 9500 kopecks per dollar. */
  lemma ConvertWholeDollars(dollars: int)
    ensures ConvertUsdToRub(dollars, 1) == dollars * 9500
  {
  }

  /** The worked values: 10 dollars are 95000 kopecks and one dollar is 9500. */
  lemma ConvertExamples()
    ensures ConvertUsdToRub(10, 1) == 95000
    ensures ConvertUsdToRub(1, 1) == 9500
  {
  }

  /** An amount with two fraction digits loses nothing: `c` cents are `95 * c` kopecks. */
  lemma ConvertCents(cents: int)
    ensures ConvertUsdToRub(cents, 100) == 95 * cents
  {
  }

  /** Zero maps to zero, and the result never has the opposite sign of the amount. */
  lemma ConvertKeepsSign(num: int, den: int)
    requires den > 0
    ensures num == 0 ==> ConvertUsdToRub(num, den) == 0
    ensures num >= 0 ==> ConvertUsdToRub(num, den) >= 0
    ensures num <= 0 ==> ConvertUsdToRub(num, den) <= 0
  {
  }

  lemma MulMono(x: int, y: int, d: int)
    requires d > 0
    ensures x <= y ==> x * d <= y * d
  {
  }

  lemma MulStrict(x: int, y: int, d: int)
    requires d > 0
    ensures x < y ==> x * d < y * d
  {
  }

  lemma MulCancel(x: int, y: int, d: int)
    requires d > 0
    ensures x * d < y * d ==> x < y
  {
  }

  /**
   * Two quotients of non-negative numerators, each given by its truncation
   * bounds, are ordered as the rationals are.
   */
  lemma QuotientOrderAbove(x1: int, d1: int, q1: int, x2: int, d2: int, q2: int)
    requires d1 > 0 && d2 > 0 && x1 * d2 <= x2 * d1
    requires q1 * d1 <= x1 && x2 < q2 * d2 + d2
    ensures q1 <= q2
  {
    var d := d1 * d2;
    MulMono(q1 * d1, x1, d2);
    MulStrict(x2, q2 * d2 + d2, d1);
    assert (q1 * d1) * d2 == q1 * d;
    assert (q2 * d2 + d2) * d1 == (q2 + 1) * d;
    MulCancel(q1, q2 + 1, d);
  }

  /** The same for negative numerators, whose bounds lie the other way. */
  lemma QuotientOrderBelow(x1: int, d1: int, q1: int, x2: int, d2: int, q2: int)
    requires d1 > 0 && d2 > 0 && x1 * d2 <= x2 * d1
    requires q1 * d1 - d1 < x1 && x2 <= q2 * d2
    ensures q1 <= q2
  {
    var d := d1 * d2;
    MulStrict(q1 * d1 - d1, x1, d2);
    MulMono(x2, q2 * d2, d1);
    assert (q1 * d1 - d1) * d2 == (q1 - 1) * d;
    assert (q2 * d2) * d1 == q2 * d;
    MulCancel(q1 - 1, q2, d);
  }

  /** `int()` on rationals is monotone. */
  lemma TruncateMonotone(x1: int, d1: int, x2: int, d2: int)
    requires d1 > 0 && d2 > 0 && x1 * d2 <= x2 * d1
    ensures TruncateTowardZero(x1, d1) <= TruncateTowardZero(x2, d2)
  {
    var q1, q2 := TruncateTowardZero(x1, d1), TruncateTowardZero(x2, d2);
    MulMono(0, x1, d2);
    MulStrict(x2, 0, d1);
    if x1 >= 0 {
      QuotientOrderAbove(x1, d1, q1, x2, d2, q2);
    } else if x2 < 0 {
      QuotientOrderBelow(x1, d1, q1, x2, d2, q2);
    }
  }

  /** A larger amount never converts to fewer kopecks, whatever the denominators. */
  lemma ConvertMonotone(a: int, da: int, b: int, db: int)
    requires da > 0 && db > 0 && a * db <= b * da
    ensures ConvertUsdToRub(a, da) <= ConvertUsdToRub(b, db)
  {
    assert (a * 9500) * db == (a * db) * 9500;
    assert (b * 9500) * da == (b * da) * 9500;
    MulMono(a * db, b * da, 9500);
    assert a * FixedRate * KopecksPerRouble == a * 9500;
    assert b * FixedRate * KopecksPerRouble == b * 9500;
    TruncateMonotone(a * 9500, da, b * 9500, db);
  }

  /** On whole dollars the conversion is additive. */
  lemma ConvertAdditiveDollars(a: int, b: int)
    ensures ConvertUsdToRub(a + b, 1) == ConvertUsdToRub(a, 1) + ConvertUsdToRub(b, 1)
  {
  }

  /** On two-digit amounts the conversion is additive. */
  lemma ConvertAdditiveCents(a: int, b: int)
    ensures ConvertUsdToRub(a + b, 100) == ConvertUsdToRub(a, 100) + ConvertUsdToRub(b, 100)
  {
  }

  /**
   * Below a cent the truncation shows: half a cent converts to 47 kopecks, yet
   * two half cents make one cent, which converts to 95.
   */
  lemma ConvertNotAdditiveBelowCents()
    ensures ConvertUsdToRub(1, 200) == 47
    ensures ConvertUsdToRub(2, 200) == 95
    ensures ConvertUsdToRub(1 + 1, 200) != ConvertUsdToRub(1, 200) + ConvertUsdToRub(1, 200)
  {
  }

  /** Negative amounts are truncated toward zero, not floored: minus half a cent is -47 kopecks. */
  lemma ConvertNegativeTowardZero()
    ensures ConvertUsdToRub(-1, 200) == -47
  {
  }
}
