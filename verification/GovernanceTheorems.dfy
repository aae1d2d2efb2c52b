/** What holds of a quotation over whole runs of edits, submissions, decisions and
    counter-offers. */
module GovernanceTheorems {
  import opened Outcomes
  import opened Numbers
  import opened Rounding
  import opened Scoring
  import opened Governance
  import opened GovernanceInvariant

  // ------------------------------------------------------- every run at all

  lemma {:induction false} RunKeepsShape(d: Deal, calls: seq<Call>)
    requires RoundsInShape(d)
    ensures RoundsInShape(Run(d, calls))
    decreases |calls|
  {
    if calls != [] {
      CallKeepsShape(d, calls[0]);
      RunKeepsShape(Attempt(d, calls[0]).deal, calls[1..]);
    }
  }

  /** Rounds are numbered 1..current_round and every chain has one of the five shapes,
      decided in order by holders of each step's role or an admin. */
  lemma {:induction false} ChainShapesHold(orderDiscount: nat, calls: seq<Call>)
    ensures RoundsInShape(Run(NewDraft(orderDiscount), calls))
  {
    RunKeepsShape(NewDraft(orderDiscount), calls);
  }

  /** What a later state may have done to a round: decide it further while it is pending. */
  predicate SameRecord(a: Round, b: Round) {
    && a.number == b.number && a.frozen == b.frozen && a.totals == b.totals && |a.steps| == |b.steps|
    && (forall i :: 0 <= i < |a.steps| ==> a.steps[i].role == b.steps[i].role)
    && (a.status != RoundPending ==> a == b)
  }

  predicate Grows(d: Deal, e: Deal) {
    |d.rounds| <= |e.rounds| && forall i :: 0 <= i < |d.rounds| ==> SameRecord(d.rounds[i], e.rounds[i])
  }

  lemma CallGrows(d: Deal, call: Call)
    ensures Grows(d, Attempt(d, call).deal)
  {
    if IsEdit(call) { EditsKeepFlow(d, call); }
  }

  lemma GrowsTransitive(d: Deal, e: Deal, f: Deal)
    requires Grows(d, e) && Grows(e, f)
    ensures Grows(d, f)
  {
    forall i | 0 <= i < |d.rounds| ensures SameRecord(d.rounds[i], f.rounds[i]) {
      assert SameRecord(d.rounds[i], e.rounds[i]) && SameRecord(e.rounds[i], f.rounds[i]);
    }
  }

  /** A round keeps its number, chain, score and frozen lines for ever, and once it is
      decided nothing about it changes again: rules and terms edited later rewrite none. */
  lemma {:induction false} HistoryIsFrozen(d: Deal, calls: seq<Call>)
    ensures Grows(d, Run(d, calls))
    decreases |calls|
  {
    if calls != [] {
      var e := Attempt(d, calls[0]).deal;
      CallGrows(d, calls[0]);
      HistoryIsFrozen(e, calls[1..]);
      GrowsTransitive(d, e, Run(d, calls));
    }
  }

  // -------------------------------------------------------- decisions counted

  function DecidedCount(steps: seq<Step>): nat {
    if steps == [] then 0 else (if steps[0].decider.Some? then 1 else 0) + DecidedCount(steps[1..])
  }

  function DecidedOn(d: Deal, r: nat): nat {
    if r < |d.rounds| then DecidedCount(d.rounds[r].steps) else 0
  }

  predicate Decides(d: Deal, call: Call, r: nat) {
    call.DoDecide? && call.round == r && Attempt(d, call).refusal.None?
  }

  function DecisionsMade(d: Deal, calls: seq<Call>, r: nat): nat
    decreases |calls|
  {
    if calls == [] then 0
    else (if Decides(d, calls[0], r) then 1 else 0) + DecisionsMade(Attempt(d, calls[0]).deal, calls[1..], r)
  }

  lemma {:induction false} DecidedCountIsPrefix(steps: seq<Step>, k: nat)
    requires k <= |steps|
    requires forall i :: 0 <= i < |steps| ==> (steps[i].decider.Some? <==> i < k)
    ensures DecidedCount(steps) == k
  {
    if steps != [] { DecidedCountIsPrefix(steps[1..], if k > 0 then k - 1 else 0); }
  }

  lemma {:induction false} DecidedCountBounded(steps: seq<Step>)
    ensures DecidedCount(steps) <= |steps|
  {
    if steps != [] { DecidedCountBounded(steps[1..]); }
  }

  lemma DecisionConsumesOne(round: Round, decider: set<Role>, decision: Decision)
    requires round.status == RoundPending && ChainShape(round)
    ensures var k := CurrentStep(round.steps);
            && DecidedCount(round.steps) == k
            && DecidedCount(DecidedRound(round, k, decider, decision).steps) == k + 1
  {
    var k := CurrentStep(round.steps);
    DecidedCountIsPrefix(round.steps, k);
    DecidedCountIsPrefix(DecidedRound(round, k, decider, decision).steps, k + 1);
  }

  lemma CallCountsDecisions(d: Deal, call: Call, r: nat)
    requires RoundsInShape(d)
    ensures DecidedOn(Attempt(d, call).deal, r) == DecidedOn(d, r) + if Decides(d, call, r) then 1 else 0
  {
    if IsEdit(call) { EditsKeepFlow(d, call); }
    match call
    case DoSubmit(catalog, rules) =>
      if Submit(d, catalog, rules).refusal.None? { NewRoundUndecided(Recalculate(d, catalog).deal, rules, r); }
    case DoAcceptCounter(q, catalog, rules) =>
      if AcceptCounter(d, q, catalog, rules).refusal.None? {
        AcceptOpensRound(d, q, catalog, rules);
        NewRoundUndecided(Recalculate(Applied(d, q), catalog).deal, rules, r);
      }
    case DoDecide(n, decider, decision, reason) =>
      if Decide(d, n, decider, decision, reason).refusal.None? { DecisionConsumesOne(d.rounds[n], decider, decision); }
    case _ =>
  }

  lemma NewRoundUndecided(d: Deal, rules: seq<Rule>, r: nat)
    ensures DecidedOn(OpenRound(d, rules), r) == DecidedOn(d, r)
  {
    var after := OpenRound(d, rules);
    DecidedCountIsPrefix(after.rounds[|d.rounds|].steps, 0);
    if r < |d.rounds| { assert after.rounds[r] == d.rounds[r]; }
  }

  lemma {:induction false} RunCountsDecisions(d: Deal, calls: seq<Call>, r: nat)
    requires RoundsInShape(d)
    ensures DecidedOn(Run(d, calls), r) == DecidedOn(d, r) + DecisionsMade(d, calls, r)
    decreases |calls|
  {
    if calls != [] {
      CallCountsDecisions(d, calls[0], r);
      CallKeepsShape(d, calls[0]);
      RunCountsDecisions(Attempt(d, calls[0]).deal, calls[1..], r);
    }
  }

  /** Each decision consumes exactly one step, so a round of n steps takes at most n. */
  lemma {:induction false} AtMostOneDecisionPerStep(orderDiscount: nat, calls: seq<Call>, r: nat)
    ensures var d := Run(NewDraft(orderDiscount), calls);
            && DecisionsMade(NewDraft(orderDiscount), calls, r) == DecidedOn(d, r)
            && (r < |d.rounds| ==> DecidedOn(d, r) <= |d.rounds[r].steps|)
  {
    RunCountsDecisions(NewDraft(orderDiscount), calls, r);
    var d := Run(NewDraft(orderDiscount), calls);
    if r < |d.rounds| { DecidedCountBounded(d.rounds[r].steps); }
  }

  /** An approval goes through exactly for a holder of the waiting step's role or an admin;
      it approves the deal if and only if that step was the last of its chain, and otherwise
      hands over to the next one. */
  lemma ApprovalMovesTheChain(d: Deal, r: nat, decider: set<Role>)
    requires RoundsInShape(d) && r < |d.rounds| && d.rounds[r].status == RoundPending && d.status == PendingApproval
    ensures var steps, k := d.rounds[r].steps, CurrentStep(d.rounds[r].steps);
            var e := Decide(d, r, decider, Approve, false);
            && k < |steps|
            && (e.refusal.None? <==> steps[k].role in decider || Admin in decider)
            && (e.refusal.None? ==>
                  && (e.deal.status == Approved <==> k == |steps| - 1)
                  && (e.deal.rounds[r].status == RoundApproved <==> k == |steps| - 1)
                  && CurrentStep(e.deal.rounds[r].steps) == k + 1)
  {
    var round := d.rounds[r];
    var k := CurrentStep(round.steps);
    assert ChainShape(round);
    if round.steps[k].role in decider || Admin in decider {
      CurrentStepIs(DecidedRound(round, k, decider, Approve).steps, k + 1);
    }
  }

  // ----------------------------------------- one open counter at a time

  function OpenCount(requests: seq<Request>): nat {
    if requests == [] then 0 else (if requests[0].status == Open then 1 else 0) + OpenCount(requests[1..])
  }

  lemma {:induction false} OpenCountAppend(requests: seq<Request>, request: Request)
    ensures OpenCount(requests + [request]) == OpenCount(requests) + if request.status == Open then 1 else 0
  {
    if requests != [] {
      OpenCountAppend(requests[1..], request);
      assert (requests + [request])[1..] == requests[1..] + [request];
    }
  }

  lemma {:induction false} OpenCountResolve(requests: seq<Request>, q: nat, request: Request)
    requires q < |requests| && requests[q].status == Open && request.status != Open
    ensures OpenCount(requests) == OpenCount(requests[q := request]) + 1
  {
    if q > 0 {
      OpenCountResolve(requests[1..], q - 1, request);
      assert requests[q := request][1..] == requests[1..][q - 1 := request];
    } else {
      assert requests[q := request][1..] == requests[1..];
    }
  }

  /** Rounds and status agree, and the deal is in negotiation exactly while the one counter
      it may have is open. */
  ghost predicate Governed(d: Deal) {
    && Agrees(d) && OpenCount(d.requests) <= 1
    && (d.status == Negotiation <==> OpenCount(d.requests) == 1)
  }

  /** What the portal's page offers, and its endpoint does not enforce. */
  predicate Polite(d: Deal, call: Call) { call.DoCounter? ==> OpenCount(d.requests) == 0 }

  predicate PoliteRun(d: Deal, calls: seq<Call>)
    decreases |calls|
  {
    calls == [] || (Polite(d, calls[0]) && PoliteRun(Attempt(d, calls[0]).deal, calls[1..]))
  }

  lemma ResolutionKeepsGoverned(d: Deal, call: Call)
    requires Governed(d) && (call.DoAcceptCounter? || call.DoDeclineCounter?)
    ensures Governed(Attempt(d, call).deal)
  {
    if Attempt(d, call).refusal.None? {
      match call
      case DoAcceptCounter(q, catalog, rules) =>
        AcceptOpensRound(d, q, catalog, rules);
        OpenCountResolve(d.requests, q, d.requests[q].(status := Accepted));
        AcceptAgreesIff(d, q, catalog, rules);
      case DoDeclineCounter(q) =>
        OpenCountResolve(d.requests, q, d.requests[q].(status := Declined));
        DeclineAgreesIff(d, q);
    }
  }

  lemma OtherCallsGoverned(d: Deal, call: Call)
    requires Governed(d) && Polite(d, call) && !call.DoAcceptCounter? && !call.DoDeclineCounter?
    ensures Governed(Attempt(d, call).deal)
  {
    OtherCallsAgree(d, call);
    if IsEdit(call) { EditsKeepFlow(d, call); }
    match call
    case DoCounter(counter, otherTerms) => OpenCountAppend(d.requests, Request(counter, Open));
    case DoDecide(r, decider, decision, reason) => DecideKeepsAgreement(d, r, decider, decision, reason);
    case _ =>
  }

  lemma CallKeepsGoverned(d: Deal, call: Call)
    requires Governed(d) && Polite(d, call)
    ensures Governed(Attempt(d, call).deal)
  {
    if call.DoAcceptCounter? || call.DoDeclineCounter? {
      ResolutionKeepsGoverned(d, call);
    } else {
      OtherCallsGoverned(d, call);
    }
  }

  lemma {:induction false} PoliteRunGoverned(d: Deal, calls: seq<Call>)
    requires Governed(d) && PoliteRun(d, calls)
    ensures Governed(Run(d, calls))
    decreases |calls|
  {
    if calls != [] {
      CallKeepsGoverned(d, calls[0]);
      PoliteRunGoverned(Attempt(d, calls[0]).deal, calls[1..]);
    }
  }

  /** The governance invariant, over every run that opens a counter only with none open. */
  lemma {:induction false} GovernanceHolds(orderDiscount: nat, calls: seq<Call>)
    requires PoliteRun(NewDraft(orderDiscount), calls)
    ensures Governed(Run(NewDraft(orderDiscount), calls)) && RoundsInShape(Run(NewDraft(orderDiscount), calls))
  {
    PoliteRunGoverned(NewDraft(orderDiscount), calls);
    ChainShapesHold(orderDiscount, calls);
  }

  // ------------------------------------- runs with several counters open

  /** A committed resolution at a status its branch does not check for. */
  predicate Careless(d: Deal, call: Call) {
    && Attempt(d, call).refusal.None?
    && ((call.DoAcceptCounter? && (d.status == PendingApproval || d.status == Confirmed))
        || (call.DoDeclineCounter? && d.status != Approved && d.status != Negotiation))
  }

  /** From an agreeing state, a call loses the agreement if and only if it is careless. */
  lemma {:induction false} CallAgreesIff(d: Deal, call: Call)
    requires Agrees(d)
    ensures Agrees(Attempt(d, call).deal) <==> !Careless(d, call)
  {
    if Attempt(d, call).refusal.None? && call.DoAcceptCounter? {
      AcceptAgreesIff(d, call.request, call.catalog, call.rules);
    } else if Attempt(d, call).refusal.None? && call.DoDeclineCounter? {
      DeclineAgreesIff(d, call.request);
    } else if !call.DoAcceptCounter? && !call.DoDeclineCounter? {
      OtherCallsAgree(d, call);
    }
  }

  // ------------------------------------------------------- routing

  /** With the seeded rules a submission that commits opens a round nobody has to decide if
      and only if no line exceeds its ceiling. */
  lemma SubmitAutoApprovesIffCompliant(d: Deal, catalog: Catalog)
    requires Submit(d, catalog, SeededRules()).refusal.None?
    ensures var e := Submit(d, catalog, SeededRules()).deal;
            && |e.rounds| == |d.rounds| + 1
            && ((Newest(e).status == AutoApproved && e.status == Approved)
                <==> forall i :: 0 <= i < |e.lines| ==> Newest(e).frozen[i].over == 0)
            && (Newest(e).status != AutoApproved ==> Newest(e).status == RoundPending && e.status == PendingApproval)
  {
    var e := Submit(d, catalog, SeededRules()).deal;
    var terms := AllTerms(catalog, d.orderDiscount, d.lines);
    TermsInRange(catalog, d.orderDiscount, d.lines);
    AutoApprovalIsExact(terms);
    assert |e.lines| == |terms| == |Newest(e).frozen|;
    assert forall i :: 0 <= i < |terms| ==> Newest(e).frozen[i].over == Over(terms[i]);
  }

  /** The discount stays inside the tier's ceiling and inside the category's, if it has one. */
  predicate WithinBoth(item: Item, discount: nat) {
    discount <= item.tierLimit && (item.categoryLimit.Some? ==> discount <= item.categoryLimit.value)
  }

  /** In the catalog's own terms: the deal is approved on the spot if and only if every line's
      total discount is inside both of its ceilings. */
  lemma ApprovedIffWithinBothCeilings(d: Deal, catalog: Catalog)
    requires Submit(d, catalog, SeededRules()).refusal.None?
    ensures Submit(d, catalog, SeededRules()).deal.status == Approved
            <==> forall i :: 0 <= i < |d.lines| ==>
                   WithinBoth(catalog(d.lines[i].variant), d.lines[i].lineDiscount + d.orderDiscount)
  {
    SeededRoute(d, catalog);
    forall i | 0 <= i < |d.lines|
      ensures Over(TermsOf(catalog, d.orderDiscount, d.lines[i])) == 0
              <==> WithinBoth(catalog(d.lines[i].variant), d.lines[i].lineDiscount + d.orderDiscount)
    {
      assert d.lines[i].lineDiscount + d.orderDiscount <= FULL;
    }
  }

  // ------------------------------------------- what a second counter can do

  /** Two counters, the first accepted, the second declined, then a confirmation. */
  function TwoCounters(d: Deal, asked: nat, catalog: Catalog, rules: seq<Rule>): seq<Call> {
    var q := |d.requests|;
    [DoCounter(Some(asked), false), DoCounter(None, true), DoAcceptCounter(q, catalog, rules),
     DoDeclineCounter(q + 1), DoConfirm]
  }

  /** The approved deal with both counters open, and the first one applied. */
  function BothOpen(d: Deal, asked: nat): Deal {
    d.(requests := d.requests + [Request(Some(asked), Open)] + [Request(None, Open)], status := Negotiation)
  }

  lemma RunStep(d: Deal, call: Call, rest: seq<Call>)
    ensures Run(d, [call] + rest) == Run(Attempt(d, call).deal, rest)
  {
    assert ([call] + rest)[1..] == rest;
  }

  lemma RunFive(d: Deal, a: Call, b: Call, c: Call, e: Call, f: Call)
    ensures Run(d, [a, b, c, e, f])
         == Attempt(Attempt(Attempt(Attempt(Attempt(d, a).deal, b).deal, c).deal, e).deal, f).deal
  {
    var d1 := Attempt(d, a).deal;
    var d2 := Attempt(d1, b).deal;
    var d3 := Attempt(d2, c).deal;
    var d4 := Attempt(d3, e).deal;
    assert [a, b, c, e, f] == [a] + [b, c, e, f] && [b, c, e, f] == [b] + [c, e, f];
    assert [c, e, f] == [c] + [e, f] && [e, f] == [e] + [f] && [f] == [f] + [];
    RunStep(d, a, [b, c, e, f]);
    RunStep(d1, b, [c, e, f]);
    RunStep(d2, c, [e, f]);
    RunStep(d3, e, [f]);
    RunStep(d4, f, []);
  }

  /** Declining an open request approves a pending deal, and confirming then orders it. */
  lemma DeclineThenConfirm(d: Deal, q: nat)
    requires q < |d.requests| && d.requests[q].status == Open && !d.ordered
    ensures var e := Attempt(Attempt(d, DoDeclineCounter(q)).deal, DoConfirm).deal;
            e.status == Confirmed && e.ordered && e.rounds == d.rounds && e.orderDiscount == d.orderDiscount
  {
  }

  /** Whenever accepting the first of two open counters sends an approved deal back for
      approval, declining the second makes it approved again: it can be confirmed, and
      ordered, with the round still waiting on its first approver. */
  lemma SecondCounterSkipsApproval(d: Deal, asked: nat, catalog: Catalog, rules: seq<Rule>)
    requires d.status == Approved && !d.ordered && asked <= FULL
    requires AcceptCounter(BothOpen(d, asked), |d.requests|, catalog, rules).deal.status == PendingApproval
    ensures var e := Run(d, TwoCounters(d, asked, catalog, rules));
            && e.status == Confirmed && e.ordered && e.orderDiscount == asked
            && e.rounds != [] && Newest(e).status == RoundPending
            && Newest(e).steps != [] && forall i :: 0 <= i < |Newest(e).steps| ==> Waiting(Newest(e).steps[i])
  {
    var q, calls := |d.requests|, TwoCounters(d, asked, catalog, rules);
    var two := BothOpen(d, asked);
    RunFive(d, calls[0], calls[1], calls[2], calls[3], calls[4]);
    assert Attempt(Attempt(d, calls[0]).deal, calls[1]).deal == two;
    assert AcceptCounter(two, q, catalog, rules).refusal.None?;
    AcceptOpensRound(two, q, catalog, rules);
    DeclineThenConfirm(AcceptCounter(two, q, catalog, rules).deal, q + 1);
  }

  /** Which way the seeded rules route the recalculated terms. */
  lemma SeededRoute(d: Deal, catalog: Catalog)
    requires DiscountsInRange(d.orderDiscount, d.lines)
    ensures OpenRound(Recalculate(d, catalog).deal, SeededRules()).status == Approved
            <==> forall i :: 0 <= i < |d.lines| ==> Over(TermsOf(catalog, d.orderDiscount, d.lines[i])) == 0
  {
    var terms := AllTerms(catalog, d.orderDiscount, d.lines);
    TermsInRange(catalog, d.orderDiscount, d.lines);
    AutoApprovalIsExact(terms);
    assert forall i :: 0 <= i < |terms| ==> terms[i] == TermsOf(catalog, d.orderDiscount, d.lines[i]);
  }

  lemma OneLineDraft(catalog: Catalog) returns (d: Deal)
    requires catalog(0) == Item(true, Some(10000), 0, 0, 1000, None)
    ensures d == Attempt(NewDraft(0), DoAdd(catalog, 0, 1, 0)).deal
    ensures d.status == Draft && !d.ordered && d.requests == [] && d.orderDiscount == 0
    ensures |d.lines| == 1 && d.lines[0].variant == 0 && d.lines[0].lineDiscount == 0 && d.lines[0].quantity == 1
  {
    d := Attempt(NewDraft(0), DoAdd(catalog, 0, 1, 0)).deal;
  }

  lemma SubmittedInside(d: Deal, catalog: Catalog) returns (e: Deal)
    requires catalog(0) == Item(true, Some(10000), 0, 0, 1000, None)
    requires d.status == Draft && !d.ordered && d.requests == [] && d.orderDiscount == 0
    requires |d.lines| == 1 && d.lines[0].variant == 0 && d.lines[0].lineDiscount == 0 && d.lines[0].quantity == 1
    ensures e == Attempt(d, DoSubmit(catalog, SeededRules())).deal
    ensures e.status == Approved && !e.ordered && e.requests == [] && e.orderDiscount == 0
    ensures |e.lines| == 1 && e.lines[0].variant == 0 && e.lines[0].lineDiscount == 0 && e.lines[0].quantity == 1
    ensures e.totals == RecalculatedTotals(catalog, 0, d.lines)
  {
    SeededRoute(d, catalog);
    e := Submit(d, catalog, SeededRules()).deal;
  }

  /** One unit at a list price of whole cents. */
  lemma SubtotalOfOne(catalog: Catalog, lines: seq<Line>, price: nat, cents: nat)
    requires |lines| == 1 && lines[0].quantity == 1 && lines[0].lineDiscount == 0
    requires catalog(lines[0].variant).price == Some(price) && price == 100 * cents
    ensures RecalculatedTotals(catalog, 0, lines).subtotal == cents
  {
    var terms := AllTerms(catalog, 0, lines);
    assert terms[..0] == [] && terms == [terms[0]];
    assert SumsOf(terms) == Add(SumsOf([]), terms[0]);
    assert Gross(terms[0]) == cents * CENT8;
    assert HalfUp(cents * CENT8, CENT8) == cents;
  }

  /** A draft with one line inside its ceiling, submitted: approved on the spot. */
  lemma OneLineApproved(catalog: Catalog) returns (d: Deal)
    requires catalog(0) == Item(true, Some(10000), 0, 0, 1000, None)
    ensures d == Run(NewDraft(0), [DoAdd(catalog, 0, 1, 0), DoSubmit(catalog, SeededRules())])
    ensures d.status == Approved && !d.ordered && d.requests == [] && d.orderDiscount == 0
    ensures |d.lines| == 1 && d.lines[0].variant == 0 && d.lines[0].lineDiscount == 0 && d.lines[0].quantity == 1
    ensures d.totals.subtotal == 100
  {
    var add, submit := DoAdd(catalog, 0, 1, 0), DoSubmit(catalog, SeededRules());
    assert [add, submit] == [add] + [submit] && [submit] == [submit] + [];
    var drafted := OneLineDraft(catalog);
    d := SubmittedInside(drafted, catalog);
    SubtotalOfOne(catalog, drafted.lines, 10000, 100);
    RunStep(NewDraft(0), add, [submit]);
    RunStep(drafted, submit, []);
  }

  /** Twice its ceiling, the line goes back for approval. */
  lemma CounterNeedsApproval(d: Deal, catalog: Catalog)
    requires catalog(0) == Item(true, Some(10000), 0, 0, 1000, None)
    requires |d.lines| == 1 && d.lines[0].variant == 0 && d.lines[0].lineDiscount == 0 && d.requests == []
    ensures AcceptCounter(BothOpen(d, 2000), 0, catalog, SeededRules()).deal.status == PendingApproval
  {
    var applied := Applied(BothOpen(d, 2000), 0);
    SeededRoute(applied, catalog);
    assert TermsOf(catalog, applied.orderDiscount, d.lines[0]).discount == 2000;
  }

  /** It happens: one line with a ceiling of 10%, countered at 20%, is ordered unapproved. */
  lemma UnapprovedDealOrdered(catalog: Catalog) returns (calls: seq<Call>)
    requires catalog(0) == Item(true, Some(10000), 0, 0, 1000, None)
    ensures var e := Run(NewDraft(0), calls);
            && e.status == Confirmed && e.ordered && e.rounds != [] && Newest(e).status == RoundPending && !Agrees(e)
  {
    var d := OneLineApproved(catalog);
    var first := [DoAdd(catalog, 0, 1, 0), DoSubmit(catalog, SeededRules())];
    calls := first + TwoCounters(d, 2000, catalog, SeededRules());
    CounterNeedsApproval(d, catalog);
    SecondCounterSkipsApproval(d, 2000, catalog, SeededRules());
    RunAppend(NewDraft(0), first, TwoCounters(d, 2000, catalog, SeededRules()));
  }

  lemma {:induction false} RunAppend(d: Deal, first: seq<Call>, rest: seq<Call>)
    ensures Run(d, first + rest) == Run(Run(d, first), rest)
    decreases |first|
  {
    if first == [] {
      assert first + rest == rest;
    } else {
      assert (first + rest)[1..] == first[1..] + rest;
      RunAppend(Attempt(d, first[0]).deal, first[1..], rest);
    }
  }
}
