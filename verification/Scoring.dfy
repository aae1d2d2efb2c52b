/** Totals and the blended risk score of a quotation, in exact arithmetic.

    Unit prices are in ten-thousandths, percentages and points in hundredths, stored
    money in cents.  A line's exact net is in units of 1e-8 and its tax in 1e-12. */
module Scoring {
  import opened Numbers
  import opened Rounding
  import opened Outcomes

  datatype Terms = Terms(price: nat, quantity: nat, discount: nat, allowed: nat, tax: nat, cost: nat)

  ghost predicate InRange(terms: seq<Terms>) {
    forall i :: 0 <= i < |terms| ==> terms[i].discount <= FULL
  }

  function Gross(t: Terms): int { t.price * t.quantity * FULL }

  function Net(t: Terms): int { t.price * t.quantity * (FULL - t.discount) }

  function Tax(t: Terms): int { Net(t) * t.tax }

  function Over(t: Terms): nat { if t.discount > t.allowed then t.discount - t.allowed else 0 }

  /** What the recalculation loop accumulates. */
  datatype Sums = Sums(gross: int, net: int, tax: int, margin: int, maxOver: nat, weightedOver: int)

  function Add(s: Sums, t: Terms): Sums {
    Sums(s.gross + Gross(t), s.net + Net(t), s.tax + Tax(t),
         s.margin + (Net(t) - t.cost * t.quantity * CENT8),
         if Over(t) > s.maxOver then Over(t) else s.maxOver,
         s.weightedOver + Over(t) * Net(t))
  }

  function SumsOf(terms: seq<Terms>): Sums {
    if terms == [] then Sums(0, 0, 0, 0, 0, 0)
    else Add(SumsOf(terms[..|terms| - 1]), terms[|terms| - 1])
  }

  /** An exact score in hundredths of a point: num / den. */
  datatype Score = Score(num: int, den: int)

  /** min(100, 8 * worst + 5 * weighted mean); no discounted revenue, no mean. */
  function Blended(s: Sums): Score {
    var raw := if s.net != 0 then Score(8 * (s.maxOver * s.net) + 5 * s.weightedOver, s.net)
        else Score(8 * s.maxOver, 1);
    if raw.num > FULL * raw.den then Score(FULL, 1) else raw
  }

  datatype Band = NoRisk | Low | Medium | High

  function RiskBand(score: Score): Band {
    if score.num <= 0 then NoRisk
    else if score.num < 1500 * score.den then Low
    else if score.num < 4500 * score.den then Medium
    else High
  }

  /** The POINTS column keeps two decimals. */
  function Stored(score: Score): int
    requires score.den > 0
  {
    HalfUp(score.num, score.den)
  }

  datatype Totals = Totals(subtotal: int, discount: int, tax: int, total: int, margin: int, score: int, band: Band)

  function TotalsFrom(s: Sums): Totals
    requires s.net >= 0
  {
    Totals(HalfUp(s.gross, CENT8), HalfUp(s.gross - s.net, CENT8), HalfUp(s.tax, CENT12),
           HalfUp(s.net * FULL + s.tax, CENT12), HalfUp(s.margin, CENT8),
           Stored(Blended(s)), RiskBand(Blended(s)))
  }

  // ----------------------------------------------------------- the weighted mean

  lemma NetNonNegative(t: Terms)
    requires t.discount <= FULL
    ensures Net(t) >= 0 && Tax(t) >= 0
  {
    assert t.price * t.quantity >= 0;
  }

  lemma WorstBoundsProduct(over: nat, worst: nat, net: int)
    requires over <= worst && net >= 0
    ensures 0 <= over * net <= worst * net
  {
  }

  /** Between no overrun and the worst one, so compliant lines cannot push the mean past
      the worst line nor below zero. */
  lemma {:induction false} MeanBetween(terms: seq<Terms>)
    requires InRange(terms)
    ensures var s := SumsOf(terms); s.net >= 0 && 0 <= s.weightedOver <= s.maxOver * s.net
  {
    if terms != [] {
      var front, t := terms[..|terms| - 1], terms[|terms| - 1];
      MeanBetween(front);
      NetNonNegative(t);
      var f, s := SumsOf(front), SumsOf(terms);
      WorstBoundsProduct(Over(t), s.maxOver, Net(t));
      WorstBoundsProduct(f.maxOver, s.maxOver, f.net);
      assert s.maxOver * (f.net + Net(t)) == s.maxOver * f.net + s.maxOver * Net(t);
    }
  }

  lemma {:induction false} WorstIsWorst(terms: seq<Terms>)
    ensures forall i :: 0 <= i < |terms| ==> Over(terms[i]) <= SumsOf(terms).maxOver
    ensures SumsOf(terms).maxOver == 0 || exists i :: 0 <= i < |terms| && Over(terms[i]) == SumsOf(terms).maxOver
  {
    if terms != [] {
      var front, t := terms[..|terms| - 1], terms[|terms| - 1];
      WorstIsWorst(front);
      if Over(t) <= SumsOf(front).maxOver && SumsOf(front).maxOver != 0 {
        var i :| 0 <= i < |front| && Over(front[i]) == SumsOf(front).maxOver;
        assert terms[i] == front[i];
      }
      forall i | 0 <= i < |terms| ensures Over(terms[i]) <= SumsOf(terms).maxOver {
        if i < |front| { assert terms[i] == front[i]; }
      }
    }
  }

  function Capped(points: int): int { if points > FULL then FULL else points }

  lemma {:induction false} BlendBounds(s: Sums)
    requires s.net >= 0 && 0 <= s.weightedOver <= s.maxOver * s.net
    ensures var score := Blended(s);
            && score.den > 0
            && Capped(8 * s.maxOver) * score.den <= score.num <= Capped(13 * s.maxOver) * score.den
  {
    var p := s.maxOver * s.net;
    assert (8 * s.maxOver) * s.net == 8 * p;
    assert (13 * s.maxOver) * s.net == 13 * p;
    if s.net != 0 {
      FactorMonotone(Capped(8 * s.maxOver), 8 * s.maxOver, s.net);
      if 13 * s.maxOver <= FULL { FactorMonotone(13 * s.maxOver, FULL, s.net); }
      if 8 * s.maxOver > FULL { FactorMonotone(FULL + 1, 8 * s.maxOver, s.net); }
    }
  }

  /** The score lies between min(100, 8 * worst) and min(100, 13 * worst). */
  lemma {:induction false} ScoreBounds(terms: seq<Terms>)
    requires InRange(terms)
    ensures var s := SumsOf(terms);
            var score := Blended(s);
            && score.den > 0
            && Capped(8 * s.maxOver) * score.den <= score.num <= Capped(13 * s.maxOver) * score.den
  {
    MeanBetween(terms);
    BlendBounds(SumsOf(terms));
  }

  lemma FactorMonotone(a: int, b: int, den: int)
    requires a <= b && den >= 0
    ensures a * den <= b * den
  {
  }

  /** No line over its ceiling, no risk; any line over by the smallest step, at least 0.08
      points, which rounding to two decimals keeps. */
  lemma {:induction false} StoredZeroIffCompliant(terms: seq<Terms>)
    requires InRange(terms)
    ensures Blended(SumsOf(terms)).den > 0
    ensures var stored := Stored(Blended(SumsOf(terms)));
            && 0 <= stored <= FULL
            && (stored == 0 <==> forall i :: 0 <= i < |terms| ==> Over(terms[i]) == 0)
            && (stored > 0 ==> stored >= 8)
  {
    ScoreBounds(terms);
    WorstIsWorst(terms);
    StoredBounds(SumsOf(terms).maxOver, Blended(SumsOf(terms)));
  }

  lemma StoredBounds(worst: nat, score: Score)
    requires score.den > 0 && Capped(8 * worst) * score.den <= score.num <= Capped(13 * worst) * score.den
    ensures 0 <= Stored(score) <= FULL
    ensures Stored(score) == 0 <==> worst == 0
    ensures worst > 0 ==> Stored(score) >= 8
  {
    HalfUpIsNearest(score.num, score.den);
    var r := Stored(score);
    FactorMonotone(Capped(13 * worst), FULL, score.den);
    AtMost(FULL, r, score.num, score.den);
    FactorMonotone(0, Capped(8 * worst), score.den);
    AtLeast(0, r, score.num, score.den);
    if worst == 0 {
      AtMost(0, r, score.num, score.den);
    } else {
      FactorMonotone(8, Capped(8 * worst), score.den);
      AtLeast(8, r, score.num, score.den);
    }
  }

  /** A value at least k rounds to at least k. */
  lemma AtLeast(k: int, rounded: int, num: int, den: int)
    requires den > 0 && -den <= 2 * (den * rounded - num) <= den && num >= k * den
    ensures rounded >= k
  {
    assert den * (k - rounded) == k * den - den * rounded;
    if rounded < k { MultipleAtLeast(den, k - rounded); }
  }

  lemma AtMost(k: int, rounded: int, num: int, den: int)
    requires den > 0 && -den <= 2 * (den * rounded - num) <= den && num <= k * den
    ensures rounded <= k
  {
    assert den * (rounded - k) == den * rounded - k * den;
    if rounded > k { MultipleAtLeast(den, rounded - k); }
  }

  // ------------------------------------------------------------- cent bounds

  /** The stored total is within two cents of subtotal - discount + tax. */
  lemma {:induction false} TotalWithinTwoCents(s: Sums)
    requires s.net >= 0
    ensures var t := TotalsFrom(s); -2 <= t.total - (t.subtotal - t.discount + t.tax) <= 2
  {
    HalfUpIsNearest(s.gross, CENT8);
    HalfUpIsNearest(s.gross - s.net, CENT8);
    HalfUpIsNearest(s.tax, CENT12);
    HalfUpIsNearest(s.net * FULL + s.tax, CENT12);
  }

  // ------------------------------------------------------------------ routing

  datatype Role = SalesRep | SalesManager | Finance | Admin | Customer

  datatype Rule = Rule(active: bool, minScore: int, maxScore: Option<int>, roles: seq<Role>)

  predicate Contains(rule: Rule, score: int) {
    rule.minScore <= score && (rule.maxScore.None? || score < rule.maxScore.value)
  }

  /** The first active rule, in sort order, whose half-open band holds the score. */
  function ResolveRule(rules: seq<Rule>, score: int): Option<Rule> {
    if rules == [] then None
    else if rules[0].active && Contains(rules[0], score) then Some(rules[0])
    else ResolveRule(rules[1..], score)
  }

  function FallbackRoles(band: Band): seq<Role> {
    match band
    case NoRisk => []
    case High => [SalesManager, Finance]
    case _ => [SalesManager]
  }

  function Chain(rules: seq<Rule>, score: int, band: Band): seq<Role> {
    match ResolveRule(rules, score)
    case Some(rule) => rule.roles
    case None => FallbackRoles(band)
  }

  /** First match: the rule found holds the score and every earlier active one does not;
      none is found exactly when no active rule holds it. */
  lemma {:induction false} ResolveRuleIsFirst(rules: seq<Rule>, score: int)
    ensures match ResolveRule(rules, score)
            case Some(rule) =>
              exists k :: 0 <= k < |rules| && rules[k] == rule && rule.active && Contains(rule, score)
                && forall j :: 0 <= j < k ==> !(rules[j].active && Contains(rules[j], score))
            case None => forall j :: 0 <= j < |rules| ==> !(rules[j].active && Contains(rules[j], score))
  {
    if rules != [] && !(rules[0].active && Contains(rules[0], score)) {
      ResolveRuleIsFirst(rules[1..], score);
      if ResolveRule(rules, score).Some? {
        var rule := ResolveRule(rules, score).value;
        var k :| 0 <= k < |rules[1..]| && rules[1..][k] == rule && rule.active && Contains(rule, score)
                 && forall j :: 0 <= j < k ==> !(rules[1..][j].active && Contains(rules[1..][j], score));
        assert rules[k + 1] == rule;
        forall j | 0 <= j < k + 1 ensures !(rules[j].active && Contains(rules[j], score)) {
          if j > 0 { assert rules[j] == rules[1..][j - 1]; }
        }
      } else {
        forall j | 0 <= j < |rules| ensures !(rules[j].active && Contains(rules[j], score)) {
          if j > 0 { assert rules[j] == rules[1..][j - 1]; }
        }
      }
    }
  }

  /** The seeded table: nobody below 0.01, a manager below 45, manager then finance above. */
  function SeededRules(): seq<Rule> {
    [Rule(true, 0, Some(1), []), Rule(true, 1, Some(4500), [SalesManager]),
        Rule(true, 4500, None, [SalesManager, Finance])]
  }

  lemma SeededChain(score: int, band: Band)
    requires score >= 0
    ensures ResolveRule(SeededRules(), score).Some?
    ensures Chain(SeededRules(), score, band)
         == if score < 1 then [] else if score < 4500 then [SalesManager] else [SalesManager, Finance]
  {
    var r := SeededRules();
    assert r[1..][0] == r[1] && r[1..][1..][0] == r[2];
    assert ResolveRule(r[1..][1..], score)
        == if Contains(r[2], score) then Some(r[2]) else ResolveRule(r[1..][1..][1..], score);
    assert ResolveRule(r[1..], score) == if Contains(r[1], score) then Some(r[1]) else ResolveRule(r[1..][1..], score);
  }

  lemma {:induction false} RoutedByWorst(worst: nat, score: Score)
    requires score.den > 0 && Capped(8 * worst) * score.den <= score.num <= Capped(13 * worst) * score.den
    ensures ResolveRule(SeededRules(), Stored(score)).Some?
    ensures Chain(SeededRules(), Stored(score), RiskBand(score)) == [] <==> worst == 0
    ensures RiskBand(score) == NoRisk <==> worst == 0
  {
    StoredBounds(worst, score);
    SeededChain(Stored(score), RiskBand(score));
    if worst > 0 { FactorMonotone(8, Capped(8 * worst), score.den); }
  }

  /** Auto-approval is exact: with the seeded rules some rule always matches, and a
      submission needs nobody if and only if no line exceeds its ceiling. */
  lemma {:induction false} AutoApprovalIsExact(terms: seq<Terms>)
    requires InRange(terms)
    ensures SumsOf(terms).net >= 0
    ensures var t := TotalsFrom(SumsOf(terms));
            && ResolveRule(SeededRules(), t.score).Some?
            && (Chain(SeededRules(), t.score, t.band) == [] <==> forall i :: 0 <= i < |terms| ==> Over(terms[i]) == 0)
            && (Chain(SeededRules(), t.score, t.band) == [] <==> t.band == NoRisk)
  {
    MeanBetween(terms);
    ScoreBounds(terms);
    WorstIsWorst(terms);
    RoutedByWorst(SumsOf(terms).maxOver, Blended(SumsOf(terms)));
  }

  /** The chain is read from the stored score and the band from the exact one: finance is
      asked exactly when the band is HIGH, unless the score lies in [44.995, 45), where the
      band is MEDIUM and finance is asked all the same. */
  lemma {:induction false} FinanceIffHigh(terms: seq<Terms>)
    requires InRange(terms)
    ensures SumsOf(terms).net >= 0
    ensures var score := Blended(SumsOf(terms));
            var t := TotalsFrom(SumsOf(terms));
            (Finance in Chain(SeededRules(), t.score, t.band) <==> t.band == High)
              <==> !(2 * score.num >= 8999 * score.den && score.num < 4500 * score.den)
  {
    MeanBetween(terms);
    StoredZeroIffCompliant(terms);
    var score := Blended(SumsOf(terms));
    SeededChain(Stored(score), RiskBand(score));
    StoredAtLeast(4500, score);
    StoredZeroMeansLow(terms);
  }

  lemma StoredZeroMeansLow(terms: seq<Terms>)
    requires InRange(terms)
    ensures Blended(SumsOf(terms)).den > 0 && Blended(SumsOf(terms)).num >= 0
  {
    ScoreBounds(terms);
  }

  /** Half-up rounding reaches k exactly from k - 1/2 on. */
  lemma StoredAtLeast(k: int, score: Score)
    requires score.den > 0 && score.num >= 0
    ensures Stored(score) >= k <==> 2 * score.num >= (2 * k - 1) * score.den
  {
    var x, d := 2 * score.num + score.den, 2 * score.den;
    DivisionBounds(x, d);
    var q := x / d;
    assert (2 * k - 1) * score.den == k * d - score.den;
    if q >= k { FactorMonotone(k, q, d); assert d * q == q * d; } else {
      FactorMonotone(q + 1, k, d);
      assert (q + 1) * d == d * q + d;
    }
  }

  lemma PairSums(x: Terms, y: Terms)
    ensures SumsOf([x, y]) == Add(Add(Sums(0, 0, 0, 0, 0, 0), x), y)
  {
    assert [x, y][..1] == [x] && [x][..0] == [];
    assert SumsOf([x]) == Add(SumsOf([]), x);
  }

  lemma MediumWithFinance(s: Sums)
    requires s.net == 132320000 && s.maxOver == 400 && s.weightedOver == 34400000000
    ensures var t := TotalsFrom(s); t.band == Medium && Finance in Chain(SeededRules(), t.score, t.band)
  {
    assert Blended(s) == Score(8 * 52928000000 + 172000000000, 132320000);
    StoredAtLeast(4500, Blended(s));
    SeededChain(Stored(Blended(s)), Medium);
  }

  lemma LineNumbers(t: Terms, price: nat, discount: nat)
    requires t == Terms(price, 1, discount, 1000, 0, 0) && discount <= FULL
    ensures Net(t) == price * (FULL - discount)
    ensures Over(t) == if discount > 1000 then discount - 1000 else 0
  {
    assert t.price * t.quantity == price;
  }

  lemma SumNumbers(x: Terms, y: Terms)
    ensures var s := Add(Add(Sums(0, 0, 0, 0, 0, 0), x), y);
            && s.net == Net(x) + Net(y)
            && s.maxOver == (if Over(y) > Over(x) then Over(y) else Over(x))
            && s.weightedOver == Over(x) * Net(x) + Over(y) * Net(y)
  {
  }

  lemma PairAtMedium(x: Terms, y: Terms)
    requires Net(x) == 86000000 && Over(x) == 400 && Net(y) == 46320000 && Over(y) == 0
    ensures var s := SumsOf([x, y]); s.net == 132320000 && s.maxOver == 400 && s.weightedOver == 34400000000
  {
    PairSums(x, y);
    SumNumbers(x, y);
  }

  /** Such scores exist: 8 * 4.00 + 5 * 2.59976 = 44.9988. */
  lemma FinanceAskedAtMedium() returns (terms: seq<Terms>)
    ensures InRange(terms) && SumsOf(terms).net >= 0
    ensures var t := TotalsFrom(SumsOf(terms));
            t.band == Medium && Finance in Chain(SeededRules(), t.score, t.band)
  {
    var x :| x == Terms(10000, 1, 1400, 1000, 0, 0);
    var y :| y == Terms(4632, 1, 0, 1000, 0, 0);
    terms := [x, y];
    LineNumbers(x, 10000, 1400);
    LineNumbers(y, 4632, 0);
    PairAtMedium(x, y);
    MediumWithFinance(SumsOf(terms));
  }
}
