/** Prices outside a draft: what keeps them and when a refused submission moves them. */
module GovernanceSnapshots {
  import opened Numbers
  import opened Outcomes
  import opened Scoring
  import opened Governance
  import opened GovernanceInvariant
  import opened GovernanceTheorems

  /** The terms a line was last priced on, read back from its own columns. */
  function StoredTerms(line: Line): Terms {
    Terms(line.price, line.quantity, line.discount, line.allowed, line.taxPercent, line.cost)
  }

  function AllStored(lines: seq<Line>): seq<Terms> {
    seq(|lines|, i requires 0 <= i < |lines| => StoredTerms(lines[i]))
  }

  /** Amounts and totals are what the stored terms give. */
  ghost predicate SelfPriced(d: Deal) {
    && (forall i :: 0 <= i < |d.lines| ==>
          d.lines[i].discount <= FULL && d.lines[i] == RepricedLine(StoredTerms(d.lines[i]), d.lines[i]))
    && SumsOf(AllStored(d.lines)).net >= 0
    && d.totals == TotalsFrom(SumsOf(AllStored(d.lines)))
  }

  ghost predicate Priced(d: Deal) { d.status != Draft ==> SelfPriced(d) }

  lemma RecalculatedIsSelfPriced(d: Deal, catalog: Catalog)
    requires Recalculate(d, catalog).refusal.None?
    ensures SelfPriced(Recalculate(d, catalog).deal)
  {
    var e := Recalculate(d, catalog).deal;
    TermsInRange(catalog, d.orderDiscount, d.lines);
    forall i | 0 <= i < |d.lines| ensures StoredTerms(e.lines[i]) == TermsOf(catalog, d.orderDiscount, d.lines[i]) {
    }
    assert AllStored(e.lines) == AllTerms(catalog, d.orderDiscount, d.lines);
  }

  lemma OpenRoundIsSelfPriced(d: Deal, rules: seq<Rule>)
    requires SelfPriced(d)
    ensures SelfPriced(OpenRound(d, rules))
  {
  }

  lemma SubmitKeepsPriced(d: Deal, catalog: Catalog, rules: seq<Rule>)
    requires Priced(d)
    ensures Priced(Submit(d, catalog, rules).deal)
  {
    if Recalculate(d, catalog).refusal.None? {
      RecalculatedIsSelfPriced(d, catalog);
      OpenRoundIsSelfPriced(Recalculate(d, catalog).deal, rules);
    }
  }

  lemma AcceptKeepsPriced(d: Deal, q: nat, catalog: Catalog, rules: seq<Rule>)
    requires Priced(d)
    ensures Priced(AcceptCounter(d, q, catalog, rules).deal)
  {
    if AcceptCounter(d, q, catalog, rules).refusal.None? {
      AcceptOpensRound(d, q, catalog, rules);
      RecalculatedIsSelfPriced(Applied(d, q), catalog);
      OpenRoundIsSelfPriced(Recalculate(Applied(d, q), catalog).deal, rules);
    }
  }

  lemma {:induction false} CallKeepsPriced(d: Deal, call: Call)
    requires Agrees(d) && Priced(d) && !Careless(d, call)
    ensures Priced(Attempt(d, call).deal)
  {
    if IsEdit(call) { EditsKeepFlow(d, call); }
    match call
    case DoSubmit(catalog, rules) => SubmitKeepsPriced(d, catalog, rules);
    case DoDecide(r, decider, decision, reason) => DecideKeepsAgreement(d, r, decider, decision, reason);
    case DoAcceptCounter(q, catalog, rules) => AcceptKeepsPriced(d, q, catalog, rules);
    case _ =>
  }

  lemma GovernedIsCareful(d: Deal, call: Call)
    requires Governed(d)
    ensures !Careless(d, call)
  {
    if Attempt(d, call).refusal.None? && (call.DoAcceptCounter? || call.DoDeclineCounter?) {
      OpenCountResolve(d.requests, call.request, d.requests[call.request].(status := Declined));
    }
  }

  lemma {:induction false} PoliteRunPriced(d: Deal, calls: seq<Call>)
    requires Governed(d) && Priced(d) && PoliteRun(d, calls)
    ensures Priced(Run(d, calls))
    decreases |calls|
  {
    if calls != [] {
      GovernedIsCareful(d, calls[0]);
      CallKeepsPriced(d, calls[0]);
      CallKeepsGoverned(d, calls[0]);
      PoliteRunPriced(Attempt(d, calls[0]).deal, calls[1..]);
    }
  }

  /** The line's snapshot of the catalog is today's catalog. */
  predicate SnapshotCurrent(line: Line, item: Item) {
    && line.price == (if item.price.Some? then item.price.value else 0)
    && line.cost == item.cost && line.taxPercent == item.tax && line.allowed == Ceiling(item)
  }

  ghost predicate AllCurrent(d: Deal, catalog: Catalog) {
    forall i :: 0 <= i < |d.lines| ==> SnapshotCurrent(d.lines[i], catalog(d.lines[i].variant))
  }

  lemma FrozenInRange(d: Deal)
    requires TermsFrozen(d)
    ensures DiscountsInRange(d.orderDiscount, d.lines)
  {
    forall i | 0 <= i < |d.lines| ensures d.lines[i].lineDiscount + d.orderDiscount <= FULL {
      assert TermKept(d.lines[i], Newest(d).frozen[i], d.orderDiscount);
    }
  }

  lemma CurrentIsUnmoved(d: Deal, catalog: Catalog)
    requires TermsFrozen(d) && SelfPriced(d) && AllCurrent(d, catalog)
    ensures Recalculate(d, catalog) == Effect(d, None)
  {
    FrozenInRange(d);
    TermsInRange(catalog, d.orderDiscount, d.lines);
    forall i | 0 <= i < |d.lines| ensures TermsOf(catalog, d.orderDiscount, d.lines[i]) == StoredTerms(d.lines[i]) {
      assert TermKept(d.lines[i], Newest(d).frozen[i], d.orderDiscount);
      assert SnapshotCurrent(d.lines[i], catalog(d.lines[i].variant));
    }
    assert AllTerms(catalog, d.orderDiscount, d.lines) == AllStored(d.lines);
    assert Repriced(catalog, d.orderDiscount, d.lines) == d.lines;
  }

  lemma UnmovedIsCurrent(d: Deal, catalog: Catalog)
    requires Recalculate(d, catalog) == Effect(d, None)
    ensures AllCurrent(d, catalog)
  {
    forall i | 0 <= i < |d.lines| ensures SnapshotCurrent(d.lines[i], catalog(d.lines[i].variant)) {
      assert Repriced(catalog, d.orderDiscount, d.lines)[i] == d.lines[i];
    }
  }

  /** Submitting what is no draft is refused and keeps status, rounds and discounts; it
      leaves the deal as it was if and only if every line's price, cost, tax and ceiling are
      still the catalog's. */
  lemma LateSubmitMovesIff(d: Deal, catalog: Catalog, rules: seq<Rule>)
    requires Agrees(d) && Priced(d) && d.status != Draft
    ensures var e := Submit(d, catalog, rules);
            && e.refusal == Some(NotDraft) && SameFlow(d, e.deal) && TermsFrozen(e.deal)
            && (e.deal == d <==> AllCurrent(d, catalog))
  {
    FrozenInRange(d);
    SubmitKeepsAgreement(d, catalog, rules);
    RecalculatedDiscounts(d, catalog);
    if AllCurrent(d, catalog) { CurrentIsUnmoved(d, catalog); }
    if Submit(d, catalog, rules).deal == d { UnmovedIsCurrent(d, catalog); }
  }

  /** So after every run with one counter at a time. */
  lemma LateSubmitAfterRuns(orderDiscount: nat, calls: seq<Call>, catalog: Catalog, rules: seq<Rule>)
    requires PoliteRun(NewDraft(orderDiscount), calls) && Run(NewDraft(orderDiscount), calls).status != Draft
    ensures var d := Run(NewDraft(orderDiscount), calls);
            && Submit(d, catalog, rules).refusal == Some(NotDraft)
            && (Submit(d, catalog, rules).deal == d <==> AllCurrent(d, catalog))
  {
    GovernanceHolds(orderDiscount, calls);
    PoliteRunPriced(NewDraft(orderDiscount), calls);
    LateSubmitMovesIff(Run(NewDraft(orderDiscount), calls), catalog, rules);
  }

  /** It happens: a line approved at 1.00 is sold at 2.00 after a refused submission, beside
      a round that froze 1.00. */
  lemma ApprovedPriceMoves(catalog: Catalog, dearer: Catalog) returns (d: Deal)
    requires catalog(0) == Item(true, Some(10000), 0, 0, 1000, None)
    requires dearer(0) == Item(true, Some(20000), 0, 0, 1000, None)
    ensures d == Run(NewDraft(0), [DoAdd(catalog, 0, 1, 0), DoSubmit(catalog, SeededRules())])
    ensures var e := Submit(d, dearer, SeededRules());
            && d.status == Approved && e.refusal == Some(NotDraft)
            && d.totals.subtotal == 100 && e.deal.totals.subtotal == 200
            && e.deal.status == Approved && e.deal.rounds == d.rounds
  {
    d := OneLineApproved(catalog);
    DearerAfterApproval(d, dearer, SeededRules());
  }

  lemma DearerAfterApproval(d: Deal, dearer: Catalog, rules: seq<Rule>)
    requires dearer(0) == Item(true, Some(20000), 0, 0, 1000, None)
    requires d.status == Approved && d.orderDiscount == 0 && |d.lines| == 1
    requires d.lines[0].variant == 0 && d.lines[0].lineDiscount == 0 && d.lines[0].quantity == 1
    ensures var e := Submit(d, dearer, rules);
            && e.refusal == Some(NotDraft) && e.deal.totals.subtotal == 200
            && e.deal.status == Approved && e.deal.rounds == d.rounds
  {
    LateSubmitRecalculates(d, dearer, rules);
    SubtotalOfOne(dearer, d.lines, 20000, 200);
  }

  lemma LateSubmitRecalculates(d: Deal, catalog: Catalog, rules: seq<Rule>)
    requires d.status != Draft && DiscountsInRange(d.orderDiscount, d.lines)
    ensures var e := Submit(d, catalog, rules);
            && e.refusal == Some(NotDraft) && SameFlow(d, e.deal)
            && e.deal.totals == RecalculatedTotals(catalog, d.orderDiscount, d.lines)
  {
  }
}
