/** What each call on a quotation writes, said in its prices, percentages and rules. */
module GovernanceEffects {
  import opened Outcomes
  import opened Numbers
  import opened Rounding
  import opened Scoring
  import opened Governance
  import opened GovernanceInvariant
  import opened GovernanceTheorems

  // ------------------------------------------------------- a repriced line

  /** A line's figures as the catalog and the two discounts give them: price in
      ten-thousandths, percentages in hundredths, cost in cents. */
  datatype Figures = Figures(price: int, quantity: int, discount: int, allowed: int, tax: int, cost: int)

  function FiguresOf(line: Line, item: Item, orderDiscount: nat): Figures {
    Figures(if item.price.Some? then item.price.value else 0, line.quantity, line.lineDiscount + orderDiscount,
            match item.categoryLimit
            case Some(limit) => if limit <= item.tierLimit then limit else item.tierLimit
            case None => if item.tierLimit <= 10000 then item.tierLimit else 10000,
            item.tax, item.cost)
  }

  /** Exact money: before the discount and after it in 1e-8, the tax in 1e-12. */
  function ListValue(f: Figures): int { f.price * f.quantity * 10000 }

  function NetValue(f: Figures): int { f.price * f.quantity * (10000 - f.discount) }

  function TaxValue(f: Figures): int { f.price * f.quantity * (10000 - f.discount) * f.tax }

  function MarginValue(f: Figures): int { NetValue(f) - f.cost * f.quantity * 1000000 }

  function Excess(f: Figures): int { if f.discount > f.allowed then f.discount - f.allowed else 0 }

  /** The stored line: snapshots of its figures, and money to the cent. */
  predicate LineWritten(before: Line, after: Line, f: Figures) {
    && after.variant == before.variant && after.quantity == before.quantity && after.lineDiscount == before.lineDiscount
    && after.discount == f.discount && after.allowed == f.allowed
    && after.price == f.price && after.cost == f.cost && after.taxPercent == f.tax
    && NearestAwayFromZero(after.net, NetValue(f), 1000000)
    && NearestAwayFromZero(after.tax, TaxValue(f), 10000000000)
    && NearestAwayFromZero(after.total, NetValue(f) * 10000 + TaxValue(f), 10000000000)
  }

  function FiguresIn(d: Deal, catalog: Catalog): seq<Figures> {
    seq(|d.lines|, i requires 0 <= i < |d.lines| => FiguresOf(d.lines[i], catalog(d.lines[i].variant), d.orderDiscount))
  }

  lemma TermsAreFigures(t: Terms, f: Figures)
    requires f == Figures(t.price, t.quantity, t.discount, t.allowed, t.tax, t.cost)
    ensures Gross(t) == ListValue(f) && Net(t) == NetValue(f) && Tax(t) == TaxValue(f) && Over(t) == Excess(f)
  {
  }

  lemma LineIsWritten(t: Terms, before: Line, f: Figures)
    requires f == Figures(t.price, t.quantity, t.discount, t.allowed, t.tax, t.cost)
    requires f.quantity == before.quantity
    ensures LineWritten(before, RepricedLine(t, before), f)
  {
    TermsAreFigures(t, f);
    HalfUpRounds(Net(t), CENT8);
    HalfUpRounds(Tax(t), CENT12);
    HalfUpRounds(Net(t) * FULL + Tax(t), CENT12);
  }

  lemma FiguresAreTerms(d: Deal, catalog: Catalog, i: nat)
    requires i < |d.lines|
    ensures var t := TermsOf(catalog, d.orderDiscount, d.lines[i]);
            FiguresIn(d, catalog)[i] == Figures(t.price, t.quantity, t.discount, t.allowed, t.tax, t.cost)
  {
  }

  // ---------------------------------------------------------- the header

  function ListTotal(fs: seq<Figures>): int { if fs == [] then 0 else ListValue(fs[0]) + ListTotal(fs[1..]) }

  function NetTotal(fs: seq<Figures>): int { if fs == [] then 0 else NetValue(fs[0]) + NetTotal(fs[1..]) }

  function TaxTotal(fs: seq<Figures>): int { if fs == [] then 0 else TaxValue(fs[0]) + TaxTotal(fs[1..]) }

  function MarginTotal(fs: seq<Figures>): int { if fs == [] then 0 else MarginValue(fs[0]) + MarginTotal(fs[1..]) }

  /** Each excess weighted with the line's discounted revenue. */
  function WeightedTotal(fs: seq<Figures>): int {
    if fs == [] then 0 else Excess(fs[0]) * NetValue(fs[0]) + WeightedTotal(fs[1..])
  }

  predicate IsWorst(worst: int, fs: seq<Figures>) {
    && (forall i :: 0 <= i < |fs| ==> Excess(fs[i]) <= worst)
    && (worst == 0 || exists i :: 0 <= i < |fs| && Excess(fs[i]) == worst)
  }

  /** The exact score, in hundredths of a point, as a fraction: eight times the worst excess
      plus five times the weighted mean, at most 100 points; without discounted revenue the
      mean counts for nothing. */
  predicate IsScore(score: Score, worst: int, fs: seq<Figures>) {
    var revenue := NetTotal(fs);
    if revenue == 0 then score == (if 8 * worst > 10000 then Score(10000, 1) else Score(8 * worst, 1))
    else
      var raw := 8 * (worst * revenue) + 5 * WeightedTotal(fs);
      score == if raw > 10000 * revenue then Score(10000, 1) else Score(raw, revenue)
  }

  predicate IsBand(band: Band, score: Score) {
    && (band == NoRisk <==> score.num <= 0)
    && (band == Low <==> 0 < score.num < 1500 * score.den)
    && (band == Medium <==> score.num > 0 && 1500 * score.den <= score.num < 4500 * score.den)
    && (band == High <==> score.num > 0 && 4500 * score.den <= score.num)
  }

  /** The stored header: sums of the lines' exact values, to the cent, and the score to two
      decimals. */
  predicate HeaderWritten(t: Totals, fs: seq<Figures>, worst: int, score: Score) {
    && NearestAwayFromZero(t.subtotal, ListTotal(fs), 1000000)
    && NearestAwayFromZero(t.discount, ListTotal(fs) - NetTotal(fs), 1000000)
    && NearestAwayFromZero(t.tax, TaxTotal(fs), 10000000000)
    && NearestAwayFromZero(t.total, NetTotal(fs) * 10000 + TaxTotal(fs), 10000000000)
    && NearestAwayFromZero(t.margin, MarginTotal(fs), 1000000)
    && IsWorst(worst, fs) && IsScore(score, worst, fs) && score.den > 0
    && NearestAwayFromZero(t.score, score.num, score.den) && IsBand(t.band, score)
  }

  lemma {:induction false} TotalsSnoc(fs: seq<Figures>, f: Figures)
    ensures ListTotal(fs + [f]) == ListTotal(fs) + ListValue(f) && NetTotal(fs + [f]) == NetTotal(fs) + NetValue(f)
    ensures TaxTotal(fs + [f]) == TaxTotal(fs) + TaxValue(f)
            && MarginTotal(fs + [f]) == MarginTotal(fs) + MarginValue(f)
    ensures WeightedTotal(fs + [f]) == WeightedTotal(fs) + Excess(f) * NetValue(f)
  {
    if fs == [] {
      assert fs + [f] == [f];
    } else {
      assert (fs + [f])[1..] == fs[1..] + [f];
      TotalsSnoc(fs[1..], f);
    }
  }

  predicate SameFigures(terms: seq<Terms>, fs: seq<Figures>) {
    |terms| == |fs| && forall i :: 0 <= i < |fs| ==>
      var t := terms[i];
      fs[i] == Figures(t.price, t.quantity, t.discount, t.allowed, t.tax, t.cost)
  }

  lemma {:induction false} SumsAreTotals(terms: seq<Terms>, fs: seq<Figures>)
    requires SameFigures(terms, fs)
    ensures var s := SumsOf(terms);
            && s.gross == ListTotal(fs) && s.net == NetTotal(fs) && s.tax == TaxTotal(fs)
            && s.margin == MarginTotal(fs) && s.weightedOver == WeightedTotal(fs)
  {
    if terms != [] {
      var n := |terms| - 1;
      SumsAreTotals(terms[..n], fs[..n]);
      TermsAreFigures(terms[n], fs[n]);
      TotalsSnoc(fs[..n], fs[n]);
      assert fs == fs[..n] + [fs[n]];
    }
  }

  lemma WorstIsWritten(terms: seq<Terms>, fs: seq<Figures>)
    requires SameFigures(terms, fs)
    ensures IsWorst(SumsOf(terms).maxOver, fs)
  {
    WorstIsWorst(terms);
    forall i | 0 <= i < |fs| ensures Excess(fs[i]) == Over(terms[i]) { TermsAreFigures(terms[i], fs[i]); }
    var worst := SumsOf(terms).maxOver;
    if worst != 0 {
      var i :| 0 <= i < |terms| && Over(terms[i]) == worst;
      assert Excess(fs[i]) == worst;
    }
  }

  lemma HeaderIsWritten(terms: seq<Terms>, fs: seq<Figures>)
    requires InRange(terms) && SameFigures(terms, fs)
    ensures SumsOf(terms).net >= 0
    ensures HeaderWritten(TotalsFrom(SumsOf(terms)), fs, SumsOf(terms).maxOver, Blended(SumsOf(terms)))
  {
    var s := SumsOf(terms);
    MeanBetween(terms);
    SumsAreTotals(terms, fs);
    WorstIsWritten(terms, fs);
    ScoreBounds(terms);
    HalfUpRounds(s.gross, CENT8);
    HalfUpRounds(s.gross - s.net, CENT8);
    HalfUpRounds(s.tax, CENT12);
    HalfUpRounds(s.net * FULL + s.tax, CENT12);
    HalfUpRounds(s.margin, CENT8);
    HalfUpRounds(Blended(s).num, Blended(s).den);
  }

  // ------------------------------------------------------- recalculation

  /** Recalculating is refused exactly when a total discount exceeds 100%, and then nothing
      moves; otherwise every line and the header carry their catalog's figures. */
  lemma RecalculateWrites(d: Deal, catalog: Catalog) returns (worst: int, score: Score)
    ensures var e := Recalculate(d, catalog);
            && (e.refusal.None?
               <==> forall i :: 0 <= i < |d.lines| ==> d.lines[i].lineDiscount + d.orderDiscount <= 10000)
            && (e.refusal.Some? ==> e == Effect(d, Some(ConstraintViolated)))
            && (e.refusal.None? ==>
                  && |e.deal.lines| == |d.lines|
                  && (forall i :: 0 <= i < |d.lines| ==>
                        LineWritten(d.lines[i], e.deal.lines[i], FiguresIn(d, catalog)[i]))
                  && HeaderWritten(e.deal.totals, FiguresIn(d, catalog), worst, score)
                  && e.deal == d.(lines := e.deal.lines, totals := e.deal.totals))
  {
    worst, score := 0, Score(0, 1);
    if DiscountsInRange(d.orderDiscount, d.lines) {
      var terms, fs := AllTerms(catalog, d.orderDiscount, d.lines), FiguresIn(d, catalog);
      TermsInRange(catalog, d.orderDiscount, d.lines);
      forall i | 0 <= i < |fs|
        ensures fs[i] == Figures(terms[i].price, terms[i].quantity, terms[i].discount, terms[i].allowed,
                                 terms[i].tax, terms[i].cost)
        ensures LineWritten(d.lines[i], Recalculate(d, catalog).deal.lines[i], fs[i])
      {
        FiguresAreTerms(d, catalog, i);
        LineIsWritten(terms[i], d.lines[i], fs[i]);
      }
      HeaderIsWritten(terms, fs);
      worst, score := SumsOf(terms).maxOver, Blended(SumsOf(terms));
    }
  }

  // --------------------------------------------------------------- edits

  /** What a person types of a line; everything else on it is computed. */
  datatype Typed = Typed(variant: VariantId, quantity: nat, lineDiscount: nat)

  function TypedIn(lines: seq<Line>): seq<Typed> {
    seq(|lines|, i requires 0 <= i < |lines| => Typed(lines[i].variant, lines[i].quantity, lines[i].lineDiscount))
  }

  /** Lines and header are what this catalog gives: recalculating changes nothing. */
  predicate PricedFrom(d: Deal, catalog: Catalog) { Recalculate(d, catalog) == Effect(d, None) }

  /** An edit that got past its checks: the typed values are stored, and the quotation is
      priced from the catalog unless a total discount exceeds 100%. */
  predicate Edited(d: Deal, e: Effect, catalog: Catalog, typed: seq<Typed>, orderDiscount: nat) {
    && SameFlow(d, e.deal) && TypedIn(e.deal.lines) == typed && e.deal.orderDiscount == orderDiscount
    && (e.refusal.None? <==> forall i :: 0 <= i < |typed| ==> typed[i].lineDiscount + orderDiscount <= 10000)
    && (e.refusal.None? ==> PricedFrom(e.deal, catalog))
    && (e.refusal.Some? ==> e.refusal == Some(ConstraintViolated) && e.deal.totals == d.totals)
  }

  lemma RecalculateIsEdit(d: Deal, catalog: Catalog)
    ensures Edited(d, Recalculate(d, catalog), catalog, TypedIn(d.lines), d.orderDiscount)
  {
    var e := Recalculate(d, catalog);
    forall i | 0 <= i < |d.lines| ensures TypedIn(d.lines)[i].lineDiscount == d.lines[i].lineDiscount { }
    if e.refusal.None? {
      forall i | 0 <= i < |d.lines|
        ensures TermsOf(catalog, d.orderDiscount, e.deal.lines[i]) == TermsOf(catalog, d.orderDiscount, d.lines[i])
      {
      }
      assert AllTerms(catalog, d.orderDiscount, e.deal.lines) == AllTerms(catalog, d.orderDiscount, d.lines);
      assert Repriced(catalog, d.orderDiscount, e.deal.lines) == e.deal.lines;
    }
    assert TypedIn(e.deal.lines) == TypedIn(d.lines);
  }

  lemma AddWrites(d: Deal, catalog: Catalog, variant: VariantId, quantity: int, lineDiscount: nat)
    ensures var e := AddLine(d, catalog, variant, quantity, lineDiscount);
            if d.status != Draft then e == Effect(d, Some(NotDraft))
            else if !catalog(variant).sellable then e == Effect(d, Some(NotSellable))
            else if catalog(variant).price.None? then e == Effect(d, Some(NoPrice))
            else if quantity < 1 || lineDiscount + d.orderDiscount > 10000 then e == Effect(d, Some(ConstraintViolated))
            else Edited(d, e, catalog, TypedIn(d.lines) + [Typed(variant, quantity, lineDiscount)], d.orderDiscount)
  {
    if quantity >= 1 && catalog(variant).price.Some? {
      var item := catalog(variant);
      var line := Line(variant, quantity, lineDiscount, lineDiscount + d.orderDiscount, Ceiling(item), item.price.value,
                       item.cost, item.tax, 0, 0, 0);
      AppendIsEdit(d, catalog, line);
    }
  }

  lemma AppendIsEdit(d: Deal, catalog: Catalog, line: Line)
    ensures Edited(d, Recalculate(d.(lines := d.lines + [line]), catalog), catalog,
                   TypedIn(d.lines) + [Typed(line.variant, line.quantity, line.lineDiscount)], d.orderDiscount)
  {
    RecalculateIsEdit(d.(lines := d.lines + [line]), catalog);
    assert TypedIn(d.lines + [line]) == TypedIn(d.lines) + [Typed(line.variant, line.quantity, line.lineDiscount)];
  }

  /** The edited line keeps what was not typed anew, and no other line is touched. */
  lemma UpdateWrites(d: Deal, catalog: Catalog, i: nat, quantity: Option<int>, lineDiscount: Option<nat>)
    ensures var e := UpdateLine(d, catalog, i, quantity, lineDiscount);
            if d.status != Draft then e == Effect(d, Some(NotDraft))
            else if i >= |d.lines| then e == Effect(d, Some(UnknownLine))
            else if quantity.Some? && quantity.value < 1 then e == Effect(d, Some(ConstraintViolated))
            else
              var before := TypedIn(d.lines)[i];
              var after := Typed(before.variant, if quantity.Some? then quantity.value else before.quantity,
                                 if lineDiscount.Some? then lineDiscount.value else before.lineDiscount);
              Edited(d, e, catalog, TypedIn(d.lines)[i := after], d.orderDiscount)
  {
    if d.status == Draft && i < |d.lines| && (quantity.Some? ==> quantity.value >= 1) {
      var line := d.lines[i];
      var edited := line.(quantity := if quantity.Some? then quantity.value else line.quantity,
                          lineDiscount := if lineDiscount.Some? then lineDiscount.value else line.lineDiscount);
      ReplaceIsEdit(d, catalog, i, edited);
    }
  }

  lemma ReplaceIsEdit(d: Deal, catalog: Catalog, i: nat, line: Line)
    requires i < |d.lines|
    ensures Edited(d, Recalculate(d.(lines := d.lines[i := line]), catalog), catalog,
                   TypedIn(d.lines)[i := Typed(line.variant, line.quantity, line.lineDiscount)], d.orderDiscount)
  {
    RecalculateIsEdit(d.(lines := d.lines[i := line]), catalog);
    assert TypedIn(d.lines[i := line]) == TypedIn(d.lines)[i := Typed(line.variant, line.quantity, line.lineDiscount)];
  }

  lemma RemoveWrites(d: Deal, catalog: Catalog, i: nat)
    ensures var e := RemoveLine(d, catalog, i);
            if d.status != Draft then e == Effect(d, Some(NotDraft))
            else if i >= |d.lines| then e == Effect(d, Some(UnknownLine))
            else Edited(d, e, catalog, TypedIn(d.lines)[..i] + TypedIn(d.lines)[i + 1..], d.orderDiscount)
  {
    if d.status == Draft && i < |d.lines| {
      var rest := d.lines[..i] + d.lines[i + 1..];
      RecalculateIsEdit(d.(lines := rest), catalog);
      assert TypedIn(rest) == TypedIn(d.lines)[..i] + TypedIn(d.lines)[i + 1..];
    }
  }

  lemma OrderDiscountWrites(d: Deal, catalog: Catalog, orderDiscount: nat)
    ensures var e := SetOrderDiscount(d, catalog, orderDiscount);
            if d.status != Draft then e == Effect(d, Some(NotDraft))
            else if orderDiscount > 10000 then e == Effect(d, Some(ConstraintViolated))
            else Edited(d, e, catalog, TypedIn(d.lines), orderDiscount)
    ensures var e := Reload(d, catalog);
            if d.status != Draft then e == Effect(d, Some(NotDraft))
            else Edited(d, e, catalog, TypedIn(d.lines), d.orderDiscount)
  {
    RecalculateIsEdit(d.(orderDiscount := orderDiscount), catalog);
    RecalculateIsEdit(d, catalog);
  }

  // --------------------------------------------------------------- rounds

  predicate Matches(rule: Rule, score: int) {
    rule.active && rule.minScore <= score && (rule.maxScore.Some? ==> score < rule.maxScore.value)
  }

  /** The chain of roles: the first active rule whose band holds the score says it; without
      one the risk band does, and never fails open. */
  ghost predicate RoutedTo(roles: seq<Role>, rules: seq<Rule>, score: int, band: Band) {
    if exists k :: 0 <= k < |rules| && Matches(rules[k], score) then
      exists k :: 0 <= k < |rules| && Matches(rules[k], score) && roles == rules[k].roles
                  && forall j :: 0 <= j < k ==> !Matches(rules[j], score)
    else
      roles == match band case NoRisk => [] case Low => [SalesManager] case Medium => [SalesManager]
                          case High => [SalesManager, Finance]
  }

  lemma ChainIsRouted(rules: seq<Rule>, score: int, band: Band)
    ensures RoutedTo(Chain(rules, score, band), rules, score, band)
  {
    ResolveRuleIsFirst(rules, score);
    forall rule: Rule ensures Matches(rule, score) == (rule.active && Contains(rule, score)) { }
    if ResolveRule(rules, score).Some? {
      var rule := ResolveRule(rules, score).value;
      var k :| 0 <= k < |rules| && rules[k] == rule && rule.active && Contains(rule, score)
               && forall j :: 0 <= j < k ==> !(rules[j].active && Contains(rules[j], score));
      assert Matches(rules[k], score);
    }
  }

  predicate FrozenFrom(frozen: Frozen, line: Line) {
    && frozen.discount == line.discount && frozen.allowed == line.allowed && frozen.net == line.net
    && frozen.over == (if line.discount <= line.allowed then 0 else line.discount - line.allowed)
  }

  function RolesOf(round: Round): seq<Role> {
    seq(|round.steps|, i requires 0 <= i < |round.steps| => round.steps[i].role)
  }

  /** The next round of this quotation: every step waiting on its role, the lines and the
      header frozen; nobody to ask means approved. */
  ghost predicate NewRound(d: Deal, round: Round, rules: seq<Rule>) {
    && round.number == d.currentRound + 1
    && RoutedTo(RolesOf(round), rules, d.totals.score, d.totals.band)
    && (forall i :: 0 <= i < |round.steps| ==> Waiting(round.steps[i]))
    && |round.frozen| == |d.lines| && (forall i :: 0 <= i < |d.lines| ==> FrozenFrom(round.frozen[i], d.lines[i]))
    && round.totals == d.totals
    && round.status == (if RolesOf(round) == [] then AutoApproved else RoundPending)
  }

  /** It was opened, and decides the quotation's status. */
  ghost predicate RoundOpened(d: Deal, e: Deal, rules: seq<Rule>) {
    && |e.rounds| == |d.rounds| + 1 && e.rounds[..|d.rounds|] == d.rounds
    && NewRound(d, e.rounds[|d.rounds|], rules)
    && e.currentRound == d.currentRound + 1
    && e.status == (if RolesOf(e.rounds[|d.rounds|]) == [] then Approved else PendingApproval)
    && e == d.(rounds := e.rounds, currentRound := e.currentRound, status := e.status)
  }

  lemma OpenRoundWrites(d: Deal, rules: seq<Rule>)
    ensures RoundOpened(d, OpenRound(d, rules), rules)
  {
    ChainIsRouted(rules, d.totals.score, d.totals.band);
    assert RolesOf(OpenRound(d, rules).rounds[|d.rounds|]) == Chain(rules, d.totals.score, d.totals.band);
  }

  /** Submitting prices the quotation first; a draft then gets its round, and anything else
      is refused as it now stands. */
  lemma SubmitWrites(d: Deal, catalog: Catalog, rules: seq<Rule>)
    ensures var e, priced := Submit(d, catalog, rules), Recalculate(d, catalog);
            if exists i :: 0 <= i < |d.lines| && d.lines[i].lineDiscount + d.orderDiscount > 10000
            then e == Effect(d, Some(ConstraintViolated))
            else
              && Edited(d, priced, catalog, TypedIn(d.lines), d.orderDiscount)
              && if d.status != Draft then e == Effect(priced.deal, Some(NotDraft))
                 else e.refusal.None? && RoundOpened(priced.deal, e.deal, rules)
  {
    RecalculateIsEdit(d, catalog);
    if Recalculate(d, catalog).refusal.None? { OpenRoundWrites(Recalculate(d, catalog).deal, rules); }
  }

  /** Every line's total discount is inside its tier's ceiling and its category's. */
  predicate AllWithin(d: Deal, catalog: Catalog) {
    forall i :: 0 <= i < |d.lines| ==>
      WithinBoth(catalog(d.lines[i].variant), d.lines[i].lineDiscount + d.orderDiscount)
  }

  /** The exact score of the submitted terms reaches 45 points. */
  predicate AtLeast45(d: Deal, catalog: Catalog) {
    var score := Blended(SumsOf(AllTerms(catalog, d.orderDiscount, d.lines)));
    score.num >= 4500 * score.den
  }

  lemma WorstZeroIff(d: Deal, catalog: Catalog)
    requires DiscountsInRange(d.orderDiscount, d.lines)
    ensures SumsOf(AllTerms(catalog, d.orderDiscount, d.lines)).maxOver == 0 <==> AllWithin(d, catalog)
  {
    var terms := AllTerms(catalog, d.orderDiscount, d.lines);
    WorstIsWorst(terms);
    forall i | 0 <= i < |d.lines|
      ensures Over(terms[i]) == 0
              <==> WithinBoth(catalog(d.lines[i].variant), d.lines[i].lineDiscount + d.orderDiscount)
    {
      assert d.lines[i].lineDiscount + d.orderDiscount <= FULL;
    }
  }

  lemma BandByScore(d: Deal, catalog: Catalog)
    requires DiscountsInRange(d.orderDiscount, d.lines)
    ensures var band := RecalculatedTotals(catalog, d.orderDiscount, d.lines).band;
            && (band == NoRisk <==> AllWithin(d, catalog))
            && (band == High <==> !AllWithin(d, catalog) && AtLeast45(d, catalog))
  {
    var terms := AllTerms(catalog, d.orderDiscount, d.lines);
    var worst, score := SumsOf(terms).maxOver, Blended(SumsOf(terms));
    TermsInRange(catalog, d.orderDiscount, d.lines);
    ScoreBounds(terms);
    WorstZeroIff(d, catalog);
    if worst > 0 { FactorMonotone(8, Capped(8 * worst), score.den); } else { assert Capped(13 * worst) == 0; }
  }

  /** With no active rule for the score, whatever the table: a submission approves itself if
      and only if every line is inside both ceilings; from 45 points on the manager and
      finance are asked, and the manager alone for any other excess. */
  lemma FallbackNeverFailsOpen(d: Deal, catalog: Catalog, rules: seq<Rule>)
    requires Submit(d, catalog, rules).refusal.None?
    requires forall k :: 0 <= k < |rules| ==> !Matches(rules[k], Submit(d, catalog, rules).deal.totals.score)
    ensures var e := Submit(d, catalog, rules).deal;
            && (e.status == Approved <==> AllWithin(d, catalog))
            && e.rounds != []
            && RolesOf(Newest(e)) == if AllWithin(d, catalog) then []
                                     else if AtLeast45(d, catalog) then [SalesManager, Finance] else [SalesManager]
  {
    BandByScore(d, catalog);
    FallbackOpens(Recalculate(d, catalog).deal, rules);
  }

  lemma FallbackOpens(d: Deal, rules: seq<Rule>)
    requires forall k :: 0 <= k < |rules| ==> !Matches(rules[k], d.totals.score)
    ensures var e := OpenRound(d, rules);
            && e.rounds != [] && (e.status == Approved <==> RolesOf(Newest(e)) == [])
            && RolesOf(Newest(e)) == match d.totals.band
                 case NoRisk => []
                 case High => [SalesManager, Finance]
                 case _ => [SalesManager]
  {
    OpenRoundWrites(d, rules);
  }

  // ------------------------------------------------------------ decisions

  function VerdictOf(decision: Decision): (StepStatus, RoundStatus) {
    match decision
    case Approve => (StepApproved, RoundApproved)
    case Return => (StepReturned, RoundReturned)
    case Reject => (StepRejected, RoundRejected)
  }

  /** The k-th step was decided: earlier ones stand, later ones still wait after an approval
      and are skipped after anything else. */
  predicate StepDecided(before: seq<Step>, after: seq<Step>, k: nat, decider: set<Role>, decision: Decision) {
    && |after| == |before| && k < |before|
    && after[k] == Step(before[k].role, VerdictOf(decision).0, Some(decider))
    && (forall i :: 0 <= i < k ==> after[i] == before[i])
    && (forall i :: k < i < |before| ==>
          if decision == Approve then after[i] == before[i]
          else after[i].role == before[i].role && Skipped(after[i]))
  }

  /** The verdict is the round's when it is the last word: an approval of the last step, or
      any return or rejection. */
  predicate Final(before: Round, k: nat, decision: Decision) { decision != Approve || k == |before.steps| - 1 }

  predicate RoundDecided(before: Round, after: Round, k: nat, decider: set<Role>, decision: Decision) {
    && StepDecided(before.steps, after.steps, k, decider, decision)
    && after.status == (if Final(before, k, decision) then VerdictOf(decision).1 else RoundPending)
    && after == before.(steps := after.steps, status := after.status)
  }

  lemma DecidedRoundWrites(before: Round, decider: set<Role>, decision: Decision)
    requires before.status == RoundPending && ChainShape(before)
    ensures var k := CurrentStep(before.steps);
            WaitingFrom(before.steps, k)
                && RoundDecided(before, DecidedRound(before, k, decider, decision), k, decider, decision)
  {
    var k := CurrentStep(before.steps);
    if decision == Approve { CurrentStepIs(DecidedSteps(before.steps, k, decider, Approve), k + 1); }
  }

  /** A return puts the quotation back to draft. */
  function StatusGiven(decision: Decision): DealStatus {
    match decision case Approve => Approved case Return => Draft case Reject => Rejected
  }

  /** A verdict is taken on a pending round, from a holder of the waiting role or an admin,
      and with a reason unless it approves.  The quotation follows when it is final. */
  lemma DecideWrites(d: Deal, r: nat, decider: set<Role>, decision: Decision, reason: bool)
    requires RoundsInShape(d)
    ensures var e := Decide(d, r, decider, decision, reason);
            if r >= |d.rounds| then e == Effect(d, Some(UnknownRound))
            else if d.rounds[r].status != RoundPending then e == Effect(d, Some(AlreadyDecided))
            else
              var before, k := d.rounds[r], CurrentStep(d.rounds[r].steps);
              && WaitingFrom(before.steps, k)
              && if !(before.steps[k].role in decider || Admin in decider) then e == Effect(d, Some(WrongRole))
                 else if (decision == Return || decision == Reject) && !reason then e == Effect(d, Some(ReasonMissing))
                 else e.refusal.None? && |e.deal.rounds| == |d.rounds|
                      && RoundDecided(before, e.deal.rounds[r], k, decider, decision)
                      && e.deal.status == (if Final(before, k, decision) then StatusGiven(decision) else d.status)
                      && e.deal == d.(rounds := d.rounds[r := e.deal.rounds[r]], status := e.deal.status)
  {
    if r < |d.rounds| && d.rounds[r].status == RoundPending {
      assert ChainShape(d.rounds[r]);
      DecidedRoundWrites(d.rounds[r], decider, decision);
    }
  }

  // --------------------------------------------------------- counter-offers

  lemma CounterWrites(d: Deal, counter: Option<nat>, otherTerms: bool)
    ensures var e := OpenCounter(d, counter, otherTerms);
            if d.status != Approved && d.status != Negotiation then e == Effect(d, Some(NotNegotiable))
            else if counter.None? && !otherTerms then e == Effect(d, Some(NothingAsked))
            else if counter.Some? && counter.value > 10000 then e == Effect(d, Some(ConstraintViolated))
            else e.refusal.None? && e.deal.status == Negotiation
                 && |e.deal.requests| == |d.requests| + 1 && e.deal.requests[..|d.requests|] == d.requests
                 && e.deal.requests[|d.requests|].status == Open && e.deal.requests[|d.requests|].counter == counter
                 && e.deal == d.(requests := e.deal.requests, status := Negotiation)
  {
  }

  /** The open request is resolved this way and no other is touched. */
  predicate Resolved(before: seq<Request>, after: seq<Request>, q: nat, status: RequestStatus) {
    && |after| == |before| && q < |before| && after[q].counter == before[q].counter && after[q].status == status
    && forall i :: 0 <= i < |before| && i != q ==> after[i] == before[i]
  }

  /** Accepting a counter makes it the order discount, prices the quotation under it and
      opens a round on the result; when that breaks a line's CHECK nothing stays. */
  lemma AcceptWrites(d: Deal, q: nat, catalog: Catalog, rules: seq<Rule>) returns (priced: Deal)
    ensures var e := AcceptCounter(d, q, catalog, rules);
            if q >= |d.requests| then e == Effect(d, Some(UnknownRequest))
            else if d.requests[q].status != Open then e == Effect(d, Some(AlreadyResolved))
            else
              var discount := if d.requests[q].counter.Some? then d.requests[q].counter.value else d.orderDiscount;
              if exists i :: 0 <= i < |d.lines| && d.lines[i].lineDiscount + discount > 10000
              then e == Effect(d, Some(ConstraintViolated))
              else e.refusal.None? && RoundOpened(priced, e.deal, rules)
                   && PricedFrom(priced, catalog) && TypedIn(priced.lines) == TypedIn(d.lines)
                   && priced.orderDiscount == discount && Resolved(d.requests, priced.requests, q, Accepted)
                   && priced.rounds == d.rounds && priced.currentRound == d.currentRound && priced.ordered == d.ordered
  {
    priced := d;
    if q < |d.requests| && d.requests[q].status == Open {
      RecalculateIsEdit(Applied(d, q), catalog);
      priced := Recalculate(Applied(d, q), catalog).deal;
      OpenRoundWrites(priced, rules);
    }
  }

  lemma DeclineAndConfirmWrite(d: Deal, q: nat)
    ensures var e := DeclineCounter(d, q);
            if q >= |d.requests| then e == Effect(d, Some(UnknownRequest))
            else if d.requests[q].status != Open then e == Effect(d, Some(AlreadyResolved))
            else e.refusal.None? && Resolved(d.requests, e.deal.requests, q, Declined)
                 && e.deal == d.(requests := e.deal.requests, status := Approved)
    ensures var e := Confirm(d);
            if d.status != Approved && d.status != Confirmed then e == Effect(d, Some(NotApproved))
            else e == Effect(if d.ordered then d else d.(status := Confirmed, ordered := true), None)
  {
  }
}
