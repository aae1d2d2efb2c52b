/** Quotations, their approval rounds and the customer's counter-offers.

    `Deal` is one committed state of a quotation.  Every call maps a state to an `Effect`:
    the state it leaves committed and the error it raises, if any.  Most errors leave the
    state alone; the exceptions are calls that commit before the statement that fails.
    Percentages are in hundredths and prices in ten-thousandths, as their columns store
    them. */
module Governance {
  import opened Outcomes
  import opened Numbers
  import opened Rounding
  import opened Scoring

  // ----------------------------------------------------------------- state

  type VariantId = nat

  /** What the catalog says of a variant when it is looked up, for the customer's tier and
      the quotation's currency.  `sellable`: the variant and its product are active. */
  datatype Item = Item(sellable: bool, price: Option<nat>, cost: nat, tax: nat, tierLimit: nat,
      categoryLimit: Option<nat>)

  type Catalog = VariantId -> Item

  /** `discount` is the governed percentage: the line's own plus the order's.  The catalog's
      price, cost and tax percentage are snapshots. */
  datatype Line = Line(variant: VariantId, quantity: nat, lineDiscount: nat, discount: nat, allowed: nat,
                       price: nat, cost: nat, taxPercent: nat, net: int, tax: int, total: int)

  datatype StepStatus = StepPending | StepApproved | StepReturned | StepRejected | StepSkipped

  /** `decider` holds the roles of whoever decided the step. */
  datatype Step = Step(role: Role, status: StepStatus, decider: Option<set<Role>>)

  datatype RoundStatus = RoundPending | RoundApproved | AutoApproved | RoundReturned | RoundRejected

  datatype Frozen = Frozen(discount: nat, allowed: nat, over: nat, net: int)

  datatype Round = Round(number: nat, status: RoundStatus, steps: seq<Step>, frozen: seq<Frozen>, totals: Totals)

  datatype RequestStatus = Open | Accepted | Declined

  datatype Request = Request(counter: Option<nat>, status: RequestStatus)

  datatype DealStatus = Draft | PendingApproval | Approved | Rejected | Negotiation | Confirmed

  /** `rounds` is oldest first; `ordered` tells that a fulfillment exists. */
  datatype Deal = Deal(status: DealStatus, orderDiscount: nat, lines: seq<Line>, totals: Totals,
                       currentRound: nat, rounds: seq<Round>, requests: seq<Request>, ordered: bool)

  datatype Refusal =
    | NotDraft | NotSellable | NoPrice | UnknownLine | ConstraintViolated
    | UnknownRound | AlreadyDecided | NoStepWaiting | WrongRole | ReasonMissing
    | NotNegotiable | NothingAsked | UnknownRequest | AlreadyResolved | NotApproved

  datatype Effect = Effect(deal: Deal, refusal: Option<Refusal>)

  function Refuse(d: Deal, reason: Refusal): Effect { Effect(d, Some(reason)) }

  function NoTotals(): Totals { Totals(0, 0, 0, 0, 0, 0, NoRisk) }

  function NewDraft(orderDiscount: nat): Deal {
    Deal(Draft, orderDiscount, [], NoTotals(), 0, [], [], false)
  }

  // --------------------------------------------------------- recalculation

  /** The stricter of the tier's and the category's ceilings; a category without a row has
      none. */
  function Ceiling(item: Item): nat {
    var category := if item.categoryLimit.Some? then item.categoryLimit.value else FULL;
    if item.tierLimit < category then item.tierLimit else category
  }

  /** The terms a line is priced on: live price, cost, tax and ceiling, and both discounts. */
  function TermsOf(catalog: Catalog, orderDiscount: nat, line: Line): Terms {
    var item := catalog(line.variant);
    Terms(if item.price.Some? then item.price.value else 0, line.quantity, line.lineDiscount + orderDiscount,
          Ceiling(item), item.tax, item.cost)
  }

  function AllTerms(catalog: Catalog, orderDiscount: nat, lines: seq<Line>): seq<Terms> {
    seq(|lines|, i requires 0 <= i < |lines| => TermsOf(catalog, orderDiscount, lines[i]))
  }

  function RepricedLine(t: Terms, line: Line): Line {
    Line(line.variant, line.quantity, line.lineDiscount, t.discount, t.allowed, t.price, t.cost, t.tax,
         HalfUp(Net(t), CENT8), HalfUp(Tax(t), CENT12), HalfUp(Net(t) * FULL + Tax(t), CENT12))
  }

  function Repriced(catalog: Catalog, orderDiscount: nat, lines: seq<Line>): seq<Line> {
    seq(|lines|, i requires 0 <= i < |lines| => RepricedLine(TermsOf(catalog, orderDiscount, lines[i]), lines[i]))
  }

  /** The CHECK on quotation_lines.discount_percent. */
  predicate DiscountsInRange(orderDiscount: nat, lines: seq<Line>) {
    forall i :: 0 <= i < |lines| ==> lines[i].lineDiscount + orderDiscount <= FULL
  }

  lemma TermsInRange(catalog: Catalog, orderDiscount: nat, lines: seq<Line>)
    requires DiscountsInRange(orderDiscount, lines)
    ensures InRange(AllTerms(catalog, orderDiscount, lines))
    ensures SumsOf(AllTerms(catalog, orderDiscount, lines)).net >= 0
  {
    MeanBetween(AllTerms(catalog, orderDiscount, lines));
  }

  function RecalculatedTotals(catalog: Catalog, orderDiscount: nat, lines: seq<Line>): Totals
    requires DiscountsInRange(orderDiscount, lines)
  {
    TermsInRange(catalog, orderDiscount, lines);
    TotalsFrom(SumsOf(AllTerms(catalog, orderDiscount, lines)))
  }

  /** Reprices every line and the header from the live catalog, and commits. */
  function Recalculate(d: Deal, catalog: Catalog): Effect {
    if !DiscountsInRange(d.orderDiscount, d.lines) then Refuse(d, ConstraintViolated)
    else Effect(d.(lines := Repriced(catalog, d.orderDiscount, d.lines),
                   totals := RecalculatedTotals(catalog, d.orderDiscount, d.lines)), None)
  }

  // ----------------------------------------------------------- draft edits

  function AddLine(d: Deal, catalog: Catalog, variant: VariantId, quantity: int, lineDiscount: nat): Effect {
    if d.status != Draft then Refuse(d, NotDraft)
    else if !catalog(variant).sellable then Refuse(d, NotSellable)
    else if catalog(variant).price.None? then Refuse(d, NoPrice)
    else if quantity <= 0 || lineDiscount + d.orderDiscount > FULL then Refuse(d, ConstraintViolated)
    else
      var line := Line(variant, quantity, lineDiscount, lineDiscount + d.orderDiscount, Ceiling(catalog(variant)),
                       catalog(variant).price.value, catalog(variant).cost, catalog(variant).tax, 0, 0, 0);
      Recalculate(d.(lines := d.lines + [line]), catalog)
  }

  /** The edit is committed before the recalculation, so it stays when that one fails. */
  function UpdateLine(d: Deal, catalog: Catalog, i: nat, quantity: Option<int>, lineDiscount: Option<nat>): Effect {
    if d.status != Draft then Refuse(d, NotDraft)
    else if i >= |d.lines| then Refuse(d, UnknownLine)
    else if quantity.Some? && quantity.value <= 0 then Refuse(d, ConstraintViolated)
    else
      var line := d.lines[i];
      var edited := line.(quantity := if quantity.Some? then quantity.value else line.quantity,
                          lineDiscount := if lineDiscount.Some? then lineDiscount.value else line.lineDiscount);
      Recalculate(d.(lines := d.lines[i := edited]), catalog)
  }

  function RemoveLine(d: Deal, catalog: Catalog, i: nat): Effect {
    if d.status != Draft then Refuse(d, NotDraft)
    else if i >= |d.lines| then Refuse(d, UnknownLine)
    else Recalculate(d.(lines := d.lines[..i] + d.lines[i + 1..]), catalog)
  }

  function SetOrderDiscount(d: Deal, catalog: Catalog, orderDiscount: nat): Effect {
    if d.status != Draft then Refuse(d, NotDraft)
    else if orderDiscount > FULL then Refuse(d, ConstraintViolated)
    else Recalculate(d.(orderDiscount := orderDiscount), catalog)
  }

  function Reload(d: Deal, catalog: Catalog): Effect {
    if d.status != Draft then Refuse(d, NotDraft) else Recalculate(d, catalog)
  }

  // ---------------------------------------------------------------- rounds

  function OpenSteps(roles: seq<Role>): seq<Step> {
    seq(|roles|, i requires 0 <= i < |roles| => Step(roles[i], StepPending, None))
  }

  function FreezeLine(line: Line): Frozen {
    Frozen(line.discount, line.allowed,
           if line.discount > line.allowed then line.discount - line.allowed else 0, line.net)
  }

  function FreezeLines(lines: seq<Line>): seq<Frozen> {
    seq(|lines|, i requires 0 <= i < |lines| => FreezeLine(lines[i]))
  }

  /** A round is opened even when nobody has to approve: an empty chain approves itself. */
  function OpenRound(d: Deal, rules: seq<Rule>): Deal {
    var roles := Chain(rules, d.totals.score, d.totals.band);
    var number := d.currentRound + 1;
    d.(rounds := d.rounds + [Round(number, if roles != [] then RoundPending else AutoApproved,
                                   OpenSteps(roles), FreezeLines(d.lines), d.totals)],
       currentRound := number,
       status := if roles != [] then PendingApproval else Approved)
  }

  /** Recalculates and commits before looking at the status. */
  function Submit(d: Deal, catalog: Catalog, rules: seq<Rule>): Effect {
    var repriced := Recalculate(d, catalog);
    if repriced.refusal.Some? then repriced
    else if repriced.deal.status != Draft then Refuse(repriced.deal, NotDraft)
    else Effect(OpenRound(repriced.deal, rules), None)
  }

  // ------------------------------------------------------------- decisions

  datatype Decision = Approve | Return | Reject

  /** The first step still pending; |steps| when there is none. */
  function CurrentStep(steps: seq<Step>): (k: nat)
    ensures k <= |steps|
    ensures k < |steps| ==> steps[k].status == StepPending
    ensures forall i :: 0 <= i < k ==> steps[i].status != StepPending
  {
    if steps == [] || steps[0].status == StepPending then 0 else 1 + CurrentStep(steps[1..])
  }

  function SkipRemaining(steps: seq<Step>): seq<Step> {
    seq(|steps|, i requires 0 <= i < |steps| =>
      if steps[i].status == StepPending then steps[i].(status := StepSkipped) else steps[i])
  }

  function Ruled(decision: Decision): StepStatus {
    match decision case Approve => StepApproved case Return => StepReturned case Reject => StepRejected
  }

  function DecidedSteps(steps: seq<Step>, k: nat, decider: set<Role>, decision: Decision): seq<Step>
    requires k < |steps|
  {
    var decided := steps[k := steps[k].(status := Ruled(decision), decider := Some(decider))];
    if decision == Approve then decided else SkipRemaining(decided)
  }

  function DecidedRound(round: Round, k: nat, decider: set<Role>, decision: Decision): Round
    requires k < |round.steps|
  {
    var steps := DecidedSteps(round.steps, k, decider, decision);
    round.(steps := steps,
           status := match decision
             case Approve => if CurrentStep(steps) == |steps| then RoundApproved else round.status
             case Return => RoundReturned
             case Reject => RoundRejected)
  }

  function StatusAfter(d: Deal, round: Round, decision: Decision): DealStatus {
    match decision
    case Approve => if round.status == RoundApproved then Approved else d.status
    case Return => Draft
    case Reject => Rejected
  }

  /** `reason`: the note is not blank. */
  function Decide(d: Deal, r: nat, decider: set<Role>, decision: Decision, reason: bool): Effect {
    if r >= |d.rounds| then Refuse(d, UnknownRound)
    else if d.rounds[r].status != RoundPending then Refuse(d, AlreadyDecided)
    else
      var steps := d.rounds[r].steps;
      var k := CurrentStep(steps);
      if k == |steps| then Refuse(d, NoStepWaiting)
      else if steps[k].role !in decider && Admin !in decider then Refuse(d, WrongRole)
      else if decision != Approve && !reason then Refuse(d, ReasonMissing)
      else
        var round := DecidedRound(d.rounds[r], k, decider, decision);
        Effect(d.(rounds := d.rounds[r := round], status := StatusAfter(d, round, decision)), None)
  }

  // --------------------------------------------------------- counter-offers

  /** `otherTerms`: a delivery date or a note was given. */
  function OpenCounter(d: Deal, counter: Option<nat>, otherTerms: bool): Effect {
    if d.status != Approved && d.status != Negotiation then Refuse(d, NotNegotiable)
    else if counter.None? && !otherTerms then Refuse(d, NothingAsked)
    else if counter.Some? && counter.value > FULL then Refuse(d, ConstraintViolated)
    else Effect(d.(requests := d.requests + [Request(counter, Open)], status := Negotiation), None)
  }

  /** Applies the counter to the order discount, recalculates and opens a round: the
      quotation's status is not looked at. */
  function AcceptCounter(d: Deal, q: nat, catalog: Catalog, rules: seq<Rule>): Effect {
    if q >= |d.requests| then Refuse(d, UnknownRequest)
    else if d.requests[q].status != Open then Refuse(d, AlreadyResolved)
    else
      var request := d.requests[q];
      var applied := d.(orderDiscount := if request.counter.Some? then request.counter.value else d.orderDiscount,
                        requests := d.requests[q := request.(status := Accepted)]);
      var repriced := Recalculate(applied, catalog);
      if repriced.refusal.Some? then Refuse(d, ConstraintViolated)
      else Effect(OpenRound(repriced.deal, rules), None)
  }

  /** Back to approved, whatever the status was: the earlier terms are taken to stand. */
  function DeclineCounter(d: Deal, q: nat): Effect {
    if q >= |d.requests| then Refuse(d, UnknownRequest)
    else if d.requests[q].status != Open then Refuse(d, AlreadyResolved)
    else Effect(d.(requests := d.requests[q := d.requests[q].(status := Declined)], status := Approved), None)
  }

  /** A fulfillment that exists already is returned instead of a second one. */
  function Confirm(d: Deal): Effect {
    if d.status != Approved && d.status != Confirmed then Refuse(d, NotApproved)
    else if d.ordered then Effect(d, None)
    else Effect(d.(status := Confirmed, ordered := true), None)
  }

  // ------------------------------------------------------------------ runs

  datatype Call =
    | DoAdd(catalog: Catalog, variant: VariantId, quantity: int, lineDiscount: nat)
    | DoUpdate(catalog: Catalog, line: nat, newQuantity: Option<int>, newDiscount: Option<nat>)
    | DoRemove(catalog: Catalog, line: nat)
    | DoOrderDiscount(catalog: Catalog, orderDiscount: nat)
    | DoReload(catalog: Catalog)
    | DoSubmit(catalog: Catalog, rules: seq<Rule>)
    | DoDecide(round: nat, decider: set<Role>, decision: Decision, reason: bool)
    | DoCounter(counter: Option<nat>, otherTerms: bool)
    | DoAcceptCounter(request: nat, catalog: Catalog, rules: seq<Rule>)
    | DoDeclineCounter(request: nat)
    | DoConfirm

  function Attempt(d: Deal, call: Call): Effect {
    match call
    case DoAdd(catalog, variant, quantity, lineDiscount) => AddLine(d, catalog, variant, quantity, lineDiscount)
    case DoUpdate(catalog, line, quantity, lineDiscount) => UpdateLine(d, catalog, line, quantity, lineDiscount)
    case DoRemove(catalog, line) => RemoveLine(d, catalog, line)
    case DoOrderDiscount(catalog, orderDiscount) => SetOrderDiscount(d, catalog, orderDiscount)
    case DoReload(catalog) => Reload(d, catalog)
    case DoSubmit(catalog, rules) => Submit(d, catalog, rules)
    case DoDecide(round, decider, decision, reason) => Decide(d, round, decider, decision, reason)
    case DoCounter(counter, otherTerms) => OpenCounter(d, counter, otherTerms)
    case DoAcceptCounter(request, catalog, rules) => AcceptCounter(d, request, catalog, rules)
    case DoDeclineCounter(request) => DeclineCounter(d, request)
    case DoConfirm => Confirm(d)
  }

  function Run(d: Deal, calls: seq<Call>): Deal
    decreases |calls|
  {
    if calls == [] then d else Run(Attempt(d, calls[0]).deal, calls[1..])
  }
}
