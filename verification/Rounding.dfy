/** Cent rounding of exact rationals `num / den`. */
module Rounding {

  /** Decimal.quantize(..., ROUND_HALF_UP): ties go away from zero. */
  function HalfUp(num: int, den: int): int
    requires den > 0
  {
    if num >= 0 then (2 * num + den) / (2 * den) else -((2 * -num + den) / (2 * den))
  }

  /** Decimal.quantize(...) and round(Decimal, n): ties go to the even neighbour. */
  function HalfEven(num: int, den: int): int
    requires den > 0
  {
    var q, r := num / den, num % den;
    if 2 * r < den then q else if 2 * r > den then q + 1 else if q % 2 == 0 then q else q + 1
  }

  lemma DivisionBounds(x: int, d: int)
    requires d > 0
    ensures d * (x / d) <= x < d * (x / d) + d
  {
  }

  /** Rounding moves a value by at most half a unit. */
  lemma HalfUpIsNearest(num: int, den: int)
    requires den > 0
    ensures -den <= 2 * (den * HalfUp(num, den) - num) <= den
  {
    var x := 2 * (if num >= 0 then num else -num) + den;
    var q := x / (2 * den);
    DivisionBounds(x, 2 * den);
    assert (2 * den) * q == 2 * (den * q);
    assert den * -q == -(den * q);
  }

  lemma HalfEvenIsNearest(num: int, den: int)
    requires den > 0
    ensures -den <= 2 * (den * HalfEven(num, den) - num) <= den
  {
    var q, r := num / den, num % den;
    assert num == den * q + r;
    assert den * (q + 1) == den * q + den;
  }

  lemma MultipleAtLeast(den: int, k: int)
    requires den > 0 && k >= 1
    ensures den * k >= den
  {
    assert den * (k - 1) >= 0;
    assert den * k == den * (k - 1) + den;
  }

  lemma SameQuotient(den: int, q: int, r: int, q': int, r': int)
    requires den > 0 && den * q + r == den * q' + r' && 0 <= r < den && 0 <= r' < den
    ensures q == q' && r == r'
  {
    assert den * (q - q') == den * q - den * q';
    assert den * (q' - q) == den * q' - den * q;
    if q > q' { MultipleAtLeast(den, q - q'); } else if q < q' { MultipleAtLeast(den, q' - q); }
  }

  /** Division by a positive number has one quotient and remainder. */
  lemma DivisionIsUnique(num: int, den: int, q: int, r: int)
    requires den > 0 && num == den * q + r && 0 <= r < den
    ensures num / den == q && num % den == r
  {
    SameQuotient(den, q, r, num / den, num % den);
  }

  lemma HalfEvenAt(num: int, den: int, q: int, r: int)
    requires den > 0 && num == den * q + r && 0 <= r < den
    ensures HalfEven(num, den)
         == if 2 * r < den then q else if 2 * r > den then q + 1 else if q % 2 == 0 then q else q + 1
  {
    DivisionIsUnique(num, den, q, r);
  }

  /** Half-even rounding is odd, so an amount and its reversal cancel to the cent. */
  lemma HalfEvenIsOdd(num: int, den: int)
    requires den > 0
    ensures HalfEven(-num, den) == -HalfEven(num, den)
  {
    var q, r := num / den, num % den;
    HalfEvenAt(num, den, q, r);
    if r == 0 {
      assert -num == den * -q;
      HalfEvenAt(-num, den, -q, 0);
    } else {
      assert den * (-q - 1) == -(den * q) - den;
      HalfEvenAt(-num, den, -q - 1, den - r);
    }
  }

  /** A value rounds below zero exactly when it is under minus a half. */
  lemma NegativeIff(num: int, den: int)
    requires den > 0
    ensures HalfEven(num, den) < 0 <==> 2 * num < -den
  {
    var q, r := num / den, num % den;
    assert num == den * q + r;
    if q >= 0 {
      assert den * q >= 0;
    } else if q == -1 {
      assert num == r - den;
    } else {
      assert den * (q + 2) <= 0 && den * (q + 2) == den * q + 2 * den;
    }
  }

  /** Whole units are left alone. */
  lemma HalfEvenExact(units: int, den: int)
    requires den > 0
    ensures HalfEven(units * den, den) == units
  {
    DivisionIsUnique(units * den, den, units, 0);
  }

  // ------------------------------------------- the two modes, independently

  /** `r` is the whole number nearest to num / den; of two equally near, the one away from
      zero. */
  predicate NearestAwayFromZero(r: int, num: int, den: int) {
    && -den <= 2 * (den * r - num) <= den
    && (num >= 0 ==> 2 * (den * r - num) != -den)
    && (num < 0 ==> 2 * (den * r - num) != den)
  }

  /** `r` is the whole number nearest to num / den; of two equally near, the even one. */
  predicate NearestEven(r: int, num: int, den: int) {
    && -den <= 2 * (den * r - num) <= den
    && (2 * (den * r - num) == -den || 2 * (den * r - num) == den ==> r % 2 == 0)
  }

  lemma HalfUpRounds(num: int, den: int)
    requires den > 0
    ensures NearestAwayFromZero(HalfUp(num, den), num, den)
  {
    var x := 2 * (if num >= 0 then num else -num) + den;
    var q := x / (2 * den);
    HalfUpIsNearest(num, den);
    DivisionBounds(x, 2 * den);
    assert (2 * den) * q == 2 * (den * q);
    assert den * -q == -(den * q);
  }

  lemma HalfEvenRounds(num: int, den: int)
    requires den > 0
    ensures NearestEven(HalfEven(num, den), num, den)
  {
    var q, r := num / den, num % den;
    HalfEvenIsNearest(num, den);
    assert num == den * q + r;
    assert den * (q + 1) == den * q + den;
  }

  /** Either mode fixes its result. */
  lemma RoundingIsUnique(num: int, den: int, r: int)
    requires den > 0
    ensures NearestAwayFromZero(r, num, den) <==> r == HalfUp(num, den)
    ensures NearestEven(r, num, den) <==> r == HalfEven(num, den)
  {
    HalfUpRounds(num, den);
    HalfEvenRounds(num, den);
    if NearestAwayFromZero(r, num, den) { NearApart(num, den, r, HalfUp(num, den)); }
    if NearestEven(r, num, den) { NearApart(num, den, r, HalfEven(num, den)); }
  }

  /** Two nearest whole numbers are equal or neighbours, each half a unit away. */
  lemma NearApart(num: int, den: int, r: int, q: int)
    requires den > 0 && -den <= 2 * (den * r - num) <= den && -den <= 2 * (den * q - num) <= den
    ensures r == q || (r == q + 1 && 2 * (den * r - num) == den && 2 * (den * q - num) == -den)
                   || (q == r + 1 && 2 * (den * q - num) == den && 2 * (den * r - num) == -den)
  {
    assert den * (r - q) == den * r - den * q;
    assert den * (q - r) == den * q - den * r;
    if r > q + 1 { MultipleAtLeastTwo(den, r - q); } else if q > r + 1 { MultipleAtLeastTwo(den, q - r); }
  }

  lemma MultipleAtLeastTwo(den: int, k: int)
    requires den > 0 && k >= 2
    ensures den * k >= 2 * den
  {
    MultipleAtLeast(den, k - 1);
    assert den * k == den * (k - 1) + den;
  }
}
