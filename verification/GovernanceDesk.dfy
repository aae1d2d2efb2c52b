/** The quotation, approval and negotiation services: loops over lines and steps, and a
    quotation whose columns the calls update in place, each proved to have the effect
    `Governance` gives it. */
module GovernanceDesk {
  import opened Outcomes
  import opened Numbers
  import opened Scoring
  import opened Governance
  import opened GovernanceInvariant
  import opened GovernanceTheorems

  /** The recalculation loop: reprices line by line and accumulates the header's sums. */
  method RepriceLines(catalog: Catalog, orderDiscount: nat, lines: seq<Line>)
    returns (repriced: seq<Line>, sums: Sums, inRange: bool)
    ensures repriced == Repriced(catalog, orderDiscount, lines)
    ensures sums == SumsOf(AllTerms(catalog, orderDiscount, lines))
    ensures inRange == DiscountsInRange(orderDiscount, lines)
  {
    ghost var all := AllTerms(catalog, orderDiscount, lines);
    repriced, sums, inRange := [], Sums(0, 0, 0, 0, 0, 0), true;
    for i := 0 to |lines|
      invariant repriced == Repriced(catalog, orderDiscount, lines)[..i]
      invariant sums == SumsOf(all[..i])
      invariant inRange == DiscountsInRange(orderDiscount, lines[..i])
    {
      var t := TermsOf(catalog, orderDiscount, lines[i]);
      assert all[..i + 1][..i] == all[..i] && all[..i + 1][i] == t;
      assert lines[..i + 1] == lines[..i] + [lines[i]];
      repriced := repriced + [RepricedLine(t, lines[i])];
      sums := Add(sums, t);
      inRange := inRange && lines[i].lineDiscount + orderDiscount <= FULL;
    }
    assert all[..|lines|] == all && lines[..|lines|] == lines;
  }

  method FreezeEach(lines: seq<Line>) returns (frozen: seq<Frozen>)
    ensures frozen == FreezeLines(lines)
  {
    frozen := [];
    for i := 0 to |lines|
      invariant frozen == FreezeLines(lines)[..i]
    {
      frozen := frozen + [FreezeLine(lines[i])];
    }
  }

  /** The first active rule whose band holds the score. */
  method FirstMatch(rules: seq<Rule>, score: int) returns (rule: Option<Rule>)
    ensures rule == ResolveRule(rules, score)
  {
    for i := 0 to |rules|
      invariant ResolveRule(rules, score) == ResolveRule(rules[i..], score)
    {
      assert rules[i..][1..] == rules[i + 1..];
      if rules[i].active && rules[i].minScore <= score {
        if rules[i].maxScore.None? || score < rules[i].maxScore.value { return Some(rules[i]); }
      }
    }
    rule := None;
  }

  method FirstPending(steps: seq<Step>) returns (k: nat)
    ensures k == CurrentStep(steps)
  {
    k := 0;
    while k < |steps| && steps[k].status != StepPending
      invariant k <= |steps| && CurrentStep(steps) == k + CurrentStep(steps[k..])
    {
      assert steps[k..][1..] == steps[k + 1..];
      k := k + 1;
    }
  }

  method SkipPending(steps: seq<Step>) returns (skipped: seq<Step>)
    ensures skipped == SkipRemaining(steps)
  {
    skipped := steps;
    for i := 0 to |steps|
      invariant |skipped| == |steps|
      invariant forall j :: 0 <= j < |steps| ==> skipped[j] == if j < i then SkipRemaining(steps)[j] else steps[j]
    {
      if skipped[i].status == StepPending { skipped := skipped[i := skipped[i].(status := StepSkipped)]; }
    }
  }

  class QuotationService {
    var status: DealStatus
    var orderDiscount: nat
    var lines: seq<Line>
    var totals: Totals
    var currentRound: nat
    var rounds: seq<Round>
    var requests: seq<Request>
    var ordered: bool

    function Snapshot(): Deal
      reads this
    {
      Deal(status, orderDiscount, lines, totals, currentRound, rounds, requests, ordered)
    }

    constructor (discount: nat)
      ensures Snapshot() == NewDraft(discount) && Governed(Snapshot()) && RoundsInShape(Snapshot())
    {
      status, orderDiscount, lines, totals := Draft, discount, [], NoTotals();
      currentRound, rounds, requests, ordered := 0, [], [], false;
    }

    /** False when a line's discount breaks its CHECK; nothing is then written. */
    method Reprice(catalog: Catalog) returns (done: bool)
      modifies `lines, `totals
      ensures var e := Recalculate(old(Snapshot()), catalog); Snapshot() == e.deal && done == e.refusal.None?
    {
      var repriced, sums, inRange := RepriceLines(catalog, orderDiscount, lines);
      if !inRange { return false; }
      TermsInRange(catalog, orderDiscount, lines);
      lines, totals := repriced, TotalsFrom(sums);
      done := true;
    }

    method Start(rules: seq<Rule>)
      modifies this
      ensures Snapshot() == OpenRound(old(Snapshot()), rules)
    {
      var rule := FirstMatch(rules, totals.score);
      var roles := if rule.Some? then rule.value.roles else FallbackRoles(totals.band);
      var frozen := FreezeEach(lines);
      currentRound := currentRound + 1;
      rounds := rounds + [Round(currentRound, if roles != [] then RoundPending else AutoApproved,
                                OpenSteps(roles), frozen, totals)];
      status := if roles != [] then PendingApproval else Approved;
    }

    // ------------------------------------------------------------- edits

    method Add(catalog: Catalog, variant: VariantId, quantity: int, lineDiscount: nat)
      returns (refusal: Option<Refusal>)
      modifies `lines, `totals
      ensures var e := AddLine(old(Snapshot()), catalog, variant, quantity, lineDiscount);
              Snapshot() == e.deal && refusal == e.refusal
    {
      if status != Draft { return Some(NotDraft); }
      var item := catalog(variant);
      if !item.sellable { return Some(NotSellable); }
      if item.price.None? { return Some(NoPrice); }
      if quantity <= 0 || lineDiscount + orderDiscount > FULL { return Some(ConstraintViolated); }
      lines := lines + [Line(variant, quantity, lineDiscount, lineDiscount + orderDiscount, Ceiling(item),
                             item.price.value, item.cost, item.tax, 0, 0, 0)];
      var done := Reprice(catalog);
      refusal := if done then None else Some(ConstraintViolated);
    }

    method Update(catalog: Catalog, i: nat, quantity: Option<int>, lineDiscount: Option<nat>)
      returns (refusal: Option<Refusal>)
      modifies `lines, `totals
      ensures var e := UpdateLine(old(Snapshot()), catalog, i, quantity, lineDiscount);
              Snapshot() == e.deal && refusal == e.refusal
    {
      if status != Draft { return Some(NotDraft); }
      if i >= |lines| { return Some(UnknownLine); }
      if quantity.Some? && quantity.value <= 0 { return Some(ConstraintViolated); }
      var line := lines[i];
      if quantity.Some? { line := line.(quantity := quantity.value); }
      if lineDiscount.Some? { line := line.(lineDiscount := lineDiscount.value); }
      lines := lines[i := line];
      var done := Reprice(catalog);
      refusal := if done then None else Some(ConstraintViolated);
    }

    method Remove(catalog: Catalog, i: nat) returns (refusal: Option<Refusal>)
      modifies `lines, `totals
      ensures var e := RemoveLine(old(Snapshot()), catalog, i); Snapshot() == e.deal && refusal == e.refusal
    {
      if status != Draft { return Some(NotDraft); }
      if i >= |lines| { return Some(UnknownLine); }
      lines := lines[..i] + lines[i + 1..];
      var done := Reprice(catalog);
      refusal := if done then None else Some(ConstraintViolated);
    }

    method SetDiscount(catalog: Catalog, discount: nat) returns (refusal: Option<Refusal>)
      modifies `orderDiscount, `lines, `totals
      ensures var e := SetOrderDiscount(old(Snapshot()), catalog, discount);
              Snapshot() == e.deal && refusal == e.refusal
    {
      if status != Draft { return Some(NotDraft); }
      if discount > FULL { return Some(ConstraintViolated); }
      orderDiscount := discount;
      var done := Reprice(catalog);
      refusal := if done then None else Some(ConstraintViolated);
    }

    method ReloadLines(catalog: Catalog) returns (refusal: Option<Refusal>)
      modifies `lines, `totals
      ensures var e := Reload(old(Snapshot()), catalog); Snapshot() == e.deal && refusal == e.refusal
    {
      if status != Draft { return Some(NotDraft); }
      var done := Reprice(catalog);
      refusal := if done then None else Some(ConstraintViolated);
    }

    // ---------------------------------------------------- approval rounds

    method SubmitForApproval(catalog: Catalog, rules: seq<Rule>) returns (refusal: Option<Refusal>)
      modifies this
      ensures var e := Submit(old(Snapshot()), catalog, rules); Snapshot() == e.deal && refusal == e.refusal
    {
      var done := Reprice(catalog);
      if !done { return Some(ConstraintViolated); }
      if status != Draft { return Some(NotDraft); }
      Start(rules);
      refusal := None;
    }

    /** Records one verdict and moves the chain on. */
    method Rule(r: nat, decider: set<Role>, decision: Decision, reason: bool) returns (refusal: Option<Refusal>)
      modifies `rounds, `status
      ensures var e := Decide(old(Snapshot()), r, decider, decision, reason);
              Snapshot() == e.deal && refusal == e.refusal
    {
      if r >= |rounds| { return Some(UnknownRound); }
      var round := rounds[r];
      if round.status != RoundPending { return Some(AlreadyDecided); }
      var k := FirstPending(round.steps);
      if k == |round.steps| { return Some(NoStepWaiting); }
      if round.steps[k].role !in decider && Admin !in decider { return Some(WrongRole); }
      if decision != Approve && !reason { return Some(ReasonMissing); }
      var steps := round.steps[k := round.steps[k].(status := Ruled(decision), decider := Some(decider))];
      match decision {
        case Approve =>
          var next := FirstPending(steps);
          round := round.(steps := steps);
          if next == |steps| {
            round := round.(status := RoundApproved);
            status := Approved;
          }
        case Return =>
          steps := SkipPending(steps);
          round := round.(steps := steps, status := RoundReturned);
          status := Draft;
        case Reject =>
          steps := SkipPending(steps);
          round := round.(steps := steps, status := RoundRejected);
          status := Rejected;
      }
      rounds := rounds[r := round];
      refusal := None;
    }

    // -------------------------------------------------------- negotiation

    method Counter(counter: Option<nat>, otherTerms: bool) returns (refusal: Option<Refusal>)
      modifies `requests, `status
      ensures var e := OpenCounter(old(Snapshot()), counter, otherTerms); Snapshot() == e.deal && refusal == e.refusal
    {
      if status != Approved && status != Negotiation { return Some(NotNegotiable); }
      if counter.None? && !otherTerms { return Some(NothingAsked); }
      if counter.Some? && counter.value > FULL { return Some(ConstraintViolated); }
      requests := requests + [Request(counter, Open)];
      status := Negotiation;
      refusal := None;
    }

    /** A CHECK violated by the new discount rolls the whole acceptance back. */
    method Accept(q: nat, catalog: Catalog, rules: seq<Rule>) returns (refusal: Option<Refusal>)
      modifies this
      ensures var e := AcceptCounter(old(Snapshot()), q, catalog, rules); Snapshot() == e.deal && refusal == e.refusal
    {
      if q >= |requests| { return Some(UnknownRequest); }
      if requests[q].status != Open { return Some(AlreadyResolved); }
      var discountBefore, requestsBefore := orderDiscount, requests;
      if requests[q].counter.Some? { orderDiscount := requests[q].counter.value; }
      requests := requests[q := requests[q].(status := Accepted)];
      var done := Reprice(catalog);
      if !done {
        orderDiscount, requests := discountBefore, requestsBefore;
        return Some(ConstraintViolated);
      }
      Start(rules);
      refusal := None;
    }

    method Decline(q: nat) returns (refusal: Option<Refusal>)
      modifies `requests, `status
      ensures var e := DeclineCounter(old(Snapshot()), q); Snapshot() == e.deal && refusal == e.refusal
    {
      if q >= |requests| { return Some(UnknownRequest); }
      if requests[q].status != Open { return Some(AlreadyResolved); }
      requests := requests[q := requests[q].(status := Declined)];
      status := Approved;
      refusal := None;
    }

    method ConfirmOrder() returns (refusal: Option<Refusal>)
      modifies `status, `ordered
      ensures var e := Confirm(old(Snapshot())); Snapshot() == e.deal && refusal == e.refusal
    {
      if status != Approved && status != Confirmed { return Some(NotApproved); }
      if !ordered { status, ordered := Confirmed, true; }
      refusal := None;
    }

    /** One call, keeping the governance invariant when counters come one at a time. */
    method Perform(call: Call) returns (refusal: Option<Refusal>)
      requires RoundsInShape(Snapshot()) && Governed(Snapshot()) && Polite(Snapshot(), call)
      modifies this
      ensures Snapshot() == Attempt(old(Snapshot()), call).deal && refusal == Attempt(old(Snapshot()), call).refusal
      ensures RoundsInShape(Snapshot()) && Governed(Snapshot())
    {
      KeepsGovernance(Snapshot(), call);
      match call
      case DoAdd(catalog, variant, quantity, lineDiscount) => refusal := Add(catalog, variant, quantity, lineDiscount);
      case DoUpdate(catalog, line, quantity, lineDiscount) => refusal := Update(catalog, line, quantity, lineDiscount);
      case DoRemove(catalog, line) => refusal := Remove(catalog, line);
      case DoOrderDiscount(catalog, discount) => refusal := SetDiscount(catalog, discount);
      case DoReload(catalog) => refusal := ReloadLines(catalog);
      case DoSubmit(catalog, rules) => refusal := SubmitForApproval(catalog, rules);
      case DoDecide(round, decider, decision, reason) => refusal := Rule(round, decider, decision, reason);
      case DoCounter(counter, otherTerms) => refusal := Counter(counter, otherTerms);
      case DoAcceptCounter(request, catalog, rules) => refusal := Accept(request, catalog, rules);
      case DoDeclineCounter(request) => refusal := Decline(request);
      case DoConfirm => refusal := ConfirmOrder();
    }
  }

  lemma KeepsGovernance(d: Deal, call: Call)
    requires RoundsInShape(d) && Governed(d) && Polite(d, call)
    ensures RoundsInShape(Attempt(d, call).deal) && Governed(Attempt(d, call).deal)
  {
    CallKeepsShape(d, call);
    CallKeepsGoverned(d, call);
  }
}
