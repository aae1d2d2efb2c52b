/** What every call keeps of a quotation's rounds, and when the rounds and the status
    agree. */
module GovernanceInvariant {
  import opened Numbers
  import opened Scoring
  import opened Governance

  // ------------------------------------------------------- chain shapes

  predicate Waiting(step: Step) { step.status == StepPending && step.decider.None? }

  predicate Skipped(step: Step) { step.status == StepSkipped && step.decider.None? }

  /** Decided, and by a holder of the step's role or an admin. */
  predicate DecidedAs(step: Step, status: StepStatus) {
    step.status == status && step.decider.Some? && (step.role in step.decider.value || Admin in step.decider.value)
  }

  predicate ApprovedUpTo(steps: seq<Step>, k: nat) {
    k <= |steps| && forall i :: 0 <= i < k ==> DecidedAs(steps[i], StepApproved)
  }

  predicate ClosedAt(steps: seq<Step>, k: nat, verdict: StepStatus) {
    && k < |steps| && ApprovedUpTo(steps, k) && DecidedAs(steps[k], verdict)
    && forall i :: k < i < |steps| ==> Skipped(steps[i])
  }

  predicate WaitingFrom(steps: seq<Step>, k: nat) {
    k < |steps| && ApprovedUpTo(steps, k) && forall i :: k <= i < |steps| ==> Waiting(steps[i])
  }

  ghost predicate ChainShape(round: Round) {
    match round.status
    case RoundPending => WaitingFrom(round.steps, CurrentStep(round.steps))
    case RoundApproved => round.steps != [] && ApprovedUpTo(round.steps, |round.steps|)
    case AutoApproved => round.steps == []
    case RoundReturned => exists k :: ClosedAt(round.steps, k, StepReturned)
    case RoundRejected => exists k :: ClosedAt(round.steps, k, StepRejected)
  }

  ghost predicate RoundsInShape(d: Deal) {
    && |d.rounds| == d.currentRound
    && (forall i :: 0 <= i < |d.rounds| ==> d.rounds[i].number == i + 1)
    && (forall i :: 0 <= i < |d.rounds| ==> ChainShape(d.rounds[i]))
  }

  lemma CurrentStepIs(steps: seq<Step>, k: nat)
    requires k <= |steps| && (forall i :: 0 <= i < k ==> steps[i].status != StepPending)
    requires k < |steps| ==> steps[k].status == StepPending
    ensures CurrentStep(steps) == k
  {
  }

  /** One decision on a waiting round consumes its first pending step: approving moves the
      chain on or completes it, anything else closes it and skips the rest. */
  lemma DecidedRoundInShape(round: Round, decider: set<Role>, decision: Decision)
    requires round.status == RoundPending && ChainShape(round)
    requires var k := CurrentStep(round.steps); round.steps[k].role in decider || Admin in decider
    ensures ChainShape(DecidedRound(round, CurrentStep(round.steps), decider, decision))
  {
    var k := CurrentStep(round.steps);
    var after := DecidedRound(round, k, decider, decision);
    match decision
    case Approve =>
      assert ApprovedUpTo(after.steps, k + 1);
      CurrentStepIs(after.steps, k + 1);
    case Return => assert ClosedAt(after.steps, k, StepReturned);
    case Reject => assert ClosedAt(after.steps, k, StepRejected);
  }

  lemma OpenRoundInShape(d: Deal, rules: seq<Rule>)
    requires RoundsInShape(d)
    ensures RoundsInShape(OpenRound(d, rules))
  {
    var after := OpenRound(d, rules);
    var round := after.rounds[|d.rounds|];
    if round.steps != [] {
      CurrentStepIs(round.steps, 0);
      assert WaitingFrom(round.steps, 0);
    }
    assert ChainShape(round);
    assert forall i :: 0 <= i < |d.rounds| ==> after.rounds[i] == d.rounds[i];
  }

  /** Edits and recalculations leave the rounds, the requests and the status alone. */
  predicate SameFlow(d: Deal, e: Deal) {
    && e.rounds == d.rounds && e.currentRound == d.currentRound && e.requests == d.requests
    && e.status == d.status && e.ordered == d.ordered
  }

  predicate IsEdit(call: Call) {
    call.DoAdd? || call.DoUpdate? || call.DoRemove? || call.DoOrderDiscount? || call.DoReload?
  }

  lemma EditsKeepFlow(d: Deal, call: Call)
    requires IsEdit(call)
    ensures SameFlow(d, Attempt(d, call).deal)
    ensures d.status != Draft ==> Attempt(d, call).deal == d
  {
  }

  lemma {:induction false} CallKeepsShape(d: Deal, call: Call)
    requires RoundsInShape(d)
    ensures RoundsInShape(Attempt(d, call).deal)
  {
    if IsEdit(call) { EditsKeepFlow(d, call); }
    match call
    case DoSubmit(catalog, rules) =>
      if Submit(d, catalog, rules).refusal.None? { OpenRoundInShape(Recalculate(d, catalog).deal, rules); }
    case DoDecide(r, decider, decision, reason) =>
      if Decide(d, r, decider, decision, reason).refusal.None? { DecidedRoundInShape(d.rounds[r], decider, decision); }
    case DoAcceptCounter(q, catalog, rules) =>
      if AcceptCounter(d, q, catalog, rules).refusal.None? { AcceptOpensRound(d, q, catalog, rules); }
    case _ =>
  }

  /** The state an accepted counter opens its round in. */
  function Applied(d: Deal, q: nat): Deal
    requires q < |d.requests|
  {
    var request := d.requests[q];
    d.(orderDiscount := if request.counter.Some? then request.counter.value else d.orderDiscount,
       requests := d.requests[q := request.(status := Accepted)])
  }

  lemma AcceptOpensRound(d: Deal, q: nat, catalog: Catalog, rules: seq<Rule>)
    requires AcceptCounter(d, q, catalog, rules).refusal.None?
    ensures q < |d.requests| && d.requests[q].status == Open
    ensures DiscountsInRange(Applied(d, q).orderDiscount, d.lines)
    ensures AcceptCounter(d, q, catalog, rules).deal == OpenRound(Recalculate(Applied(d, q), catalog).deal, rules)
    ensures RoundsInShape(d) ==> RoundsInShape(AcceptCounter(d, q, catalog, rules).deal)
  {
    if RoundsInShape(d) { OpenRoundInShape(Recalculate(Applied(d, q), catalog).deal, rules); }
  }

  // ----------------------------------------------- rounds against the status

  function Newest(d: Deal): Round
    requires d.rounds != []
  {
    d.rounds[|d.rounds| - 1]
  }

  predicate NewestFits(d: Deal) {
    if d.rounds == [] then d.status == Draft
    else
      match d.status
      case Draft => Newest(d).status == RoundReturned
      case PendingApproval => Newest(d).status == RoundPending
      case Rejected => Newest(d).status == RoundRejected
      case _ => Newest(d).status == RoundApproved || Newest(d).status == AutoApproved
  }

  predicate TermKept(line: Line, frozen: Frozen, orderDiscount: nat) {
    line.discount == frozen.discount == line.lineDiscount + orderDiscount && line.discount <= FULL
  }

  /** Every line still carries the discount its round was opened with. */
  predicate TermsFrozen(d: Deal) {
    && d.rounds != [] && |Newest(d).frozen| == |d.lines|
    && forall i :: 0 <= i < |d.lines| ==> TermKept(d.lines[i], Newest(d).frozen[i], d.orderDiscount)
  }

  /** Only the newest round can be pending, the status is the one its outcome gives, and
      outside a draft nothing governed has moved since it was opened. */
  ghost predicate Agrees(d: Deal) {
    && (forall i :: 0 <= i < |d.rounds| - 1 ==> d.rounds[i].status != RoundPending)
    && NewestFits(d)
    && (d.ordered <==> d.status == Confirmed)
    && (d.status != Draft ==> TermsFrozen(d))
  }

  lemma OpenRoundAgrees(d: Deal, rules: seq<Rule>)
    requires forall i :: 0 <= i < |d.rounds| ==> d.rounds[i].status != RoundPending
    requires !d.ordered
    requires forall i :: 0 <= i < |d.lines| ==>
               d.lines[i].discount == d.lines[i].lineDiscount + d.orderDiscount <= FULL
    ensures Agrees(OpenRound(d, rules))
  {
    var after := OpenRound(d, rules);
    assert forall i :: 0 <= i < |d.rounds| ==> after.rounds[i] == d.rounds[i];
    forall i | 0 <= i < |after.lines| ensures TermKept(after.lines[i], Newest(after).frozen[i], after.orderDiscount) {
    }
  }

  lemma RecalculatedDiscounts(d: Deal, catalog: Catalog)
    requires Recalculate(d, catalog).refusal.None?
    ensures var e := Recalculate(d, catalog).deal;
            && SameFlow(d, e) && |e.lines| == |d.lines| && e.orderDiscount == d.orderDiscount
            && forall i :: 0 <= i < |e.lines| ==>
                 && e.lines[i].lineDiscount == d.lines[i].lineDiscount
                 && e.lines[i].discount == e.lines[i].lineDiscount + e.orderDiscount <= FULL
  {
  }

  lemma {:induction false} SubmitKeepsAgreement(d: Deal, catalog: Catalog, rules: seq<Rule>)
    requires Agrees(d)
    ensures Agrees(Submit(d, catalog, rules).deal)
  {
    if Recalculate(d, catalog).refusal.None? {
      RecalculatedDiscounts(d, catalog);
      var e := Recalculate(d, catalog).deal;
      if d.status == Draft {
        OpenRoundAgrees(e, rules);
      } else {
        forall i | 0 <= i < |e.lines| ensures TermKept(e.lines[i], Newest(e).frozen[i], e.orderDiscount) {
          assert TermKept(d.lines[i], Newest(d).frozen[i], d.orderDiscount);
        }
      }
    }
  }

  lemma DecideKeepsAgreement(d: Deal, r: nat, decider: set<Role>, decision: Decision, reason: bool)
    requires Agrees(d)
    ensures Agrees(Decide(d, r, decider, decision, reason).deal)
    ensures Decide(d, r, decider, decision, reason).refusal.None? ==> r == |d.rounds| - 1 && d.status == PendingApproval
  {
    var e := Decide(d, r, decider, decision, reason);
    if e.refusal.None? {
      assert r == |d.rounds| - 1;
      assert Newest(e.deal).frozen == Newest(d).frozen;
    }
  }

  /** Everything but resolving a counter-offer keeps the agreement, in any state. */
  lemma {:induction false} OtherCallsAgree(d: Deal, call: Call)
    requires Agrees(d) && !call.DoAcceptCounter? && !call.DoDeclineCounter?
    ensures Agrees(Attempt(d, call).deal)
  {
    if IsEdit(call) { EditsKeepFlow(d, call); }
    match call
    case DoSubmit(catalog, rules) => SubmitKeepsAgreement(d, catalog, rules);
    case DoDecide(r, decider, decision, reason) => DecideKeepsAgreement(d, r, decider, decision, reason);
    case _ =>
  }

  /** Accepting a counter keeps the agreement exactly when no round is pending and no order
      exists: the status is not checked, so with a round pending a second one is opened
      beside it. */
  lemma {:induction false} AcceptAgreesIff(d: Deal, q: nat, catalog: Catalog, rules: seq<Rule>)
    requires Agrees(d) && AcceptCounter(d, q, catalog, rules).refusal.None?
    ensures Agrees(AcceptCounter(d, q, catalog, rules).deal) <==> d.status != PendingApproval && d.status != Confirmed
  {
    AcceptOpensRound(d, q, catalog, rules);
    var e := Applied(d, q);
    RecalculatedDiscounts(e, catalog);
    var opened' := Recalculate(e, catalog).deal;
    if d.status == PendingApproval {
      var after := OpenRound(opened', rules);
      assert after.rounds[|d.rounds| - 1] == Newest(d);
    } else if d.status != Confirmed {
      forall i | 0 <= i < |d.rounds| ensures d.rounds[i].status != RoundPending {
        if i == |d.rounds| - 1 { assert d.rounds[i] == Newest(d); }
      }
      OpenRoundAgrees(opened', rules);
    }
  }

  /** Declining one keeps it exactly when the quotation still is up for negotiation: it puts
      the status back to approved whatever it was. */
  lemma {:induction false} DeclineAgreesIff(d: Deal, q: nat)
    requires Agrees(d) && DeclineCounter(d, q).refusal.None?
    ensures Agrees(DeclineCounter(d, q).deal) <==> d.status == Approved || d.status == Negotiation
  {
    var after := DeclineCounter(d, q).deal;
    assert after.rounds == d.rounds;
    if d.rounds != [] { assert Newest(after) == Newest(d); }
  }
}
