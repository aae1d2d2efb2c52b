/** One subscription's contract, its event history and its recurring invoices.

    Money is in cents and unit prices in ten-thousandths, the scales of the MONEY and
    UNIT_PRICE columns; a proration factor is the exact rational of two day counts. */
module Subscriptions {
  import opened Outcomes
  import opened Numbers
  import opened Rounding
  import opened Calendar

  datatype Status = Active | Paused | Ended

  datatype EventKind = QuantityChanged | PausedEvent | ResumedEvent | CancelledEvent

  /** `amount` is the signed proration in cents; `invoice` the invoice it landed on. */
  datatype Event = Event(kind: EventKind, effective: Day, amount: Option<int>, invoice: Option<nat>)

  /** A recurring invoice: one line for the period, then one per swept event, named by
      its place in the history. */
  datatype Invoice = Invoice(issued: Day, periodStart: Day, periodEnd: Day, base: int,
                             prorations: seq<nat>, total: int)

  datatype Sub = Sub(
    status: Status, interval: Interval, intervalCount: nat,
    quantity: int, unitPrice: int,
    startDate: Day, periodStart: Day, periodEnd: Day,
    nextBilling: Option<Day>, cancelAtPeriodEnd: bool,
    events: seq<Event>, invoices: seq<Invoice>, creditNotes: seq<int>)

  datatype Refusal = NotActive | BadQuantity | SameQuantity | NotPaused | AlreadyCancelled
                   | NotDue | NegativeTotal | PeriodAlreadyBilled | CalendarExhausted

  type Outcome = Result<Sub, Refusal>

  function After(outcome: Outcome, before: Sub): Sub {
    if outcome.Committed? then outcome.value else before
  }

  /** Python dates end with the year 9999. */
  predicate Representable(d: Date) { d.year <= 9999 }

  function Later(a: Day, b: Day): Day
  {
    if DayNumber(a) < DayNumber(b) then b else a
  }

  // -------------------------------------------------------------- proration

  function DaysInPeriod(s: Sub): int
  {
    Max(DayNumber(s.periodEnd) - DayNumber(s.periodStart), 1)
  }

  function DaysRemaining(s: Sub, effective: Day): int
  {
    Max(Min(DayNumber(s.periodEnd) - DayNumber(effective), DaysInPeriod(s)), 0)
  }

  /** `units` more or fewer for the unused remainder of the period, in cents. */
  function Prorated(s: Sub, units: int, effective: Day): int
  {
    HalfEven(units * s.unitPrice * DaysRemaining(s, effective), 100 * DaysInPeriod(s))
  }

  // -------------------------------------------------------------- lifecycle

  /** What the columns themselves guarantee. */
  ghost predicate Dated(s: Sub) {
    && DayNumber(s.periodStart) < DayNumber(s.periodEnd)
    && s.intervalCount >= 1 && s.quantity > 0
  }

  /** _open_subscription: billed in advance, from the first day. */
  function Opened(start: Day, interval: Interval, quantity: int, unitPrice: int): Sub
  {
    Sub(Active, interval, 1, quantity, unitPrice, start, start, Advance(start, interval, 1),
        Some(start), false, [], [], [])
  }

  function ChangeQuantity(s: Sub, quantity: int, effective: Day): Outcome
  {
    if s.status != Active then Refused(NotActive)
    else if quantity < 1 then Refused(BadQuantity)
    else if quantity == s.quantity then Refused(SameQuantity)
    else
      var delta := Prorated(s, quantity - s.quantity, effective);
      Committed(s.(quantity := quantity,
                   events := s.events + [Event(QuantityChanged, effective, Some(delta), None)],
                   creditNotes := if delta < 0 then s.creditNotes + [-delta] else s.creditNotes))
  }

  function Pause(s: Sub, today: Day): Outcome {
    if s.status != Active then Refused(NotActive)
    else Committed(s.(status := Paused, nextBilling := None,
                      events := s.events + [Event(PausedEvent, today, None, None)]))
  }

  function Resume(s: Sub, today: Day): Outcome
  {
    if s.status != Paused then Refused(NotPaused)
    else Committed(s.(status := Active, nextBilling := Some(Later(s.periodStart, today)),
                      events := s.events + [Event(ResumedEvent, today, None, None)]))
  }

  function Cancel(s: Sub, atPeriodEnd: bool, today: Day): Outcome
  {
    if s.status == Ended then Refused(AlreadyCancelled)
    else if atPeriodEnd then
      Committed(s.(cancelAtPeriodEnd := true,
                   events := s.events + [Event(CancelledEvent, s.periodEnd, None, None)]))
    else
      var refund := Prorated(s, s.quantity, today);
      Committed(s.(status := Ended, nextBilling := None,
                   events := s.events + [Event(CancelledEvent, today, Some(-refund), None)],
                   creditNotes := if refund > 0 then s.creditNotes + [refund] else s.creditNotes))
  }

  // ---------------------------------------------------------------- billing

  /** The nullable invoice link is the queue of prorations still to bill. */
  predicate IsPending(e: Event) { e.invoice.None? && e.amount.Some? && e.amount.value != 0 }

  function PendingFrom(events: seq<Event>, index: nat): seq<nat>
    requires index <= |events|
    decreases |events| - index
  {
    if index == |events| then []
    else (if IsPending(events[index]) then [index] else []) + PendingFrom(events, index + 1)
  }

  function PendingAmount(events: seq<Event>): int {
    if events == [] then 0
    else (if IsPending(events[0]) then events[0].amount.value else 0) + PendingAmount(events[1..])
  }

  function Swept(events: seq<Event>, invoice: nat): seq<Event> {
    seq(|events|, i requires 0 <= i < |events| =>
      if IsPending(events[i]) then events[i].(invoice := Some(invoice)) else events[i])
  }

  function BaseCharge(s: Sub): int { HalfEven(s.unitPrice * s.quantity, 100) }

  predicate AlreadyBilled(invoices: seq<Invoice>, start: Day) {
    exists k :: 0 <= k < |invoices| && invoices[k].periodStart == start
  }

  /** bill_subscription: one recurring line for the current period plus every pending
      proration, then the period rolls forward.  The total must satisfy total >= 0 and the
      period the unique index on (subscription, period start). */
  function Bill(s: Sub, today: Day): Outcome
  {
    var total := BaseCharge(s) + PendingAmount(s.events);
    if AlreadyBilled(s.invoices, s.periodStart) then Refused(PeriodAlreadyBilled)
    else
      var next := Advance(s.periodEnd, s.interval, s.intervalCount);
      if !Representable(next) then Refused(CalendarExhausted)
      else if total < 0 then Refused(NegativeTotal)
      else
        Committed(s.(
          events := Swept(s.events, |s.invoices|),
          invoices := s.invoices
              + [Invoice(today, s.periodStart, s.periodEnd, BaseCharge(s), PendingFrom(s.events, 0), total)],
          periodStart := s.periodEnd,
          periodEnd := next,
          nextBilling := if s.cancelAtPeriodEnd then None else Some(s.periodEnd),
          status := if s.cancelAtPeriodEnd then Ended else s.status))
  }

  predicate Due(s: Sub, today: Day)
  {
    s.status == Active && s.nextBilling.Some? && DayNumber(s.nextBilling.value) <= DayNumber(today)
  }

  /** The daily run's treatment of one subscription; a failed one is rolled back alone. */
  function BillIfDue(s: Sub, today: Day): Outcome
  {
    if Due(s, today) then Bill(s, today) else Refused(NotDue)
  }

  // ------------------------------------------------------------------- runs

  datatype Call =
    | DoBill(today: Day)
    | DoPause(today: Day)
    | DoResume(today: Day)
    | DoChange(quantity: int, effective: Day)
    | DoCancel(atPeriodEnd: bool, today: Day)

  function Attempt(s: Sub, call: Call): Outcome
  {
    match call
    case DoBill(today) => BillIfDue(s, today)
    case DoPause(today) => Pause(s, today)
    case DoResume(today) => Resume(s, today)
    case DoChange(quantity, effective) => ChangeQuantity(s, quantity, effective)
    case DoCancel(atPeriodEnd, today) => Cancel(s, atPeriodEnd, today)
  }

  // -------------------------------------------------------------- invariants

  /** Billed periods start at `startDate`, each begins where the last ended, and the
      current period begins where the last billed one ended. */
  ghost predicate Tiles(start: Day, invoices: seq<Invoice>, current: Day) {
    && current == StartOf(start, invoices, |invoices|)
    && (forall k :: 0 <= k < |invoices| ==> InvoiceDated(invoices[k]))
    && (forall k :: 0 <= k < |invoices| ==> invoices[k].periodStart == StartOf(start, invoices, k))
  }

  /** Where the k-th billed period has to begin. */
  function StartOf(start: Day, invoices: seq<Invoice>, k: nat): Day
    requires k <= |invoices|
  {
    if k == 0 then start else invoices[k - 1].periodEnd
  }

  ghost predicate PeriodsTile(s: Sub) { Tiles(s.startDate, s.invoices, s.periodStart) }

  /** The period is ordered and was not billed before it began. */
  predicate InvoiceDated(i: Invoice) {
    && DayNumber(i.periodStart) < DayNumber(i.periodEnd)
    && DayNumber(i.periodStart) <= DayNumber(i.issued)
  }

  /** Only an active subscription has a billing date, and never one before its period. */
  ghost predicate BillingDateKept(s: Sub) {
    if s.status == Active then s.nextBilling.Some? && DayNumber(s.periodStart) <= DayNumber(s.nextBilling.value)
    else s.nextBilling.None?
  }

  function BaseTotal(invoices: seq<Invoice>): int {
    if invoices == [] then 0 else BaseTotal(invoices[..|invoices| - 1]) + invoices[|invoices| - 1].base
  }

  function InvoicedTotal(invoices: seq<Invoice>): int {
    if invoices == [] then 0 else InvoicedTotal(invoices[..|invoices| - 1]) + invoices[|invoices| - 1].total
  }

  function LinkedAmount(events: seq<Event>): int {
    if events == [] then 0
    else
      (if events[0].invoice.Some? && events[0].amount.Some? then events[0].amount.value else 0)
      + LinkedAmount(events[1..])
  }

  function AllAmounts(events: seq<Event>): int {
    if events == [] then 0 else (if events[0].amount.Some? then events[0].amount.value else 0) + AllAmounts(events[1..])
  }

  function CreditsIn(events: seq<Event>): int {
    if events == [] then 0
    else
      (if events[0].amount.Some? && events[0].amount.value < 0 then -events[0].amount.value else 0)
      + CreditsIn(events[1..])
  }

  /** An event is linked to an invoice exactly when that invoice lists it. */
  ghost predicate LinksAgree(s: Sub) {
    && (forall e :: 0 <= e < |s.events| && s.events[e].invoice.Some? ==>
          Lists(s.invoices, s.events[e].invoice.value, e))
    && (forall k, j :: 0 <= k < |s.invoices| && 0 <= j < |s.invoices[k].prorations| ==>
          Carries(s.events, s.invoices[k].prorations[j], k))
    && (forall k, i, j :: 0 <= k < |s.invoices| && 0 <= i < j < |s.invoices[k].prorations| ==>
          s.invoices[k].prorations[i] < s.invoices[k].prorations[j])
  }

  predicate Lists(invoices: seq<Invoice>, k: nat, e: nat) {
    k < |invoices| && e in invoices[k].prorations
  }

  predicate Carries(events: seq<Event>, e: nat, k: nat) {
    e < |events| && events[e].invoice == Some(k) && events[e].amount.Some? && events[e].amount.value != 0
  }

  /** Nothing billed is lost or invented: invoices add up to the base charges plus the
      prorations they carry, and every credit is on exactly one credit note. */
  ghost predicate MoneyConserved(s: Sub) {
    && InvoicedTotal(s.invoices) == BaseTotal(s.invoices) + LinkedAmount(s.events)
    && LinkedAmount(s.events) + PendingAmount(s.events) == AllAmounts(s.events)
    && Sum(s.creditNotes) == CreditsIn(s.events)
  }

  ghost predicate Valid(s: Sub) {
    DatesKept(s) && LinksAgree(s) && MoneyConserved(s)
  }

  function Run(s: Sub, calls: seq<Call>): Sub
    decreases |calls|
  {
    if calls == [] then s
    else
      var earlier := Run(s, calls[..|calls| - 1]);
      After(Attempt(earlier, calls[|calls| - 1]), earlier)
  }

  // --------------------------------------------------------------- preservation

  lemma {:induction false} AmountsSnoc(events: seq<Event>, e: Event)
    ensures PendingAmount(events + [e]) == PendingAmount(events) + if IsPending(e) then e.amount.value else 0
    ensures LinkedAmount(events + [e])
            == LinkedAmount(events) + if e.invoice.Some? && e.amount.Some? then e.amount.value else 0
    ensures AllAmounts(events + [e]) == AllAmounts(events) + if e.amount.Some? then e.amount.value else 0
    ensures CreditsIn(events + [e])
            == CreditsIn(events) + if e.amount.Some? && e.amount.value < 0 then -e.amount.value else 0
  {
    if events == [] {
      assert events + [e] == [e];
    } else {
      assert (events + [e])[1..] == events[1..] + [e];
      AmountsSnoc(events[1..], e);
    }
  }

  lemma {:induction false} SumSnoc(s: seq<int>, x: int)
    ensures Sum(s + [x]) == Sum(s) + x
  {
    if s == [] {
      assert s + [x] == [x];
    } else {
      assert (s + [x])[1..] == s[1..] + [x];
      SumSnoc(s[1..], x);
    }
  }

  lemma {:induction false} SweptAmounts(events: seq<Event>, invoice: nat)
    ensures PendingAmount(Swept(events, invoice)) == 0
    ensures LinkedAmount(Swept(events, invoice)) == LinkedAmount(events) + PendingAmount(events)
    ensures AllAmounts(Swept(events, invoice)) == AllAmounts(events)
    ensures CreditsIn(Swept(events, invoice)) == CreditsIn(events)
  {
    if events != [] {
      assert Swept(events, invoice)[1..] == Swept(events[1..], invoice);
      SweptAmounts(events[1..], invoice);
    }
  }

  lemma {:induction false} PendingFromIs(events: seq<Event>, index: nat)
    requires index <= |events|
    ensures var p := PendingFrom(events, index);
            && (forall i, j :: 0 <= i < j < |p| ==> p[i] < p[j])
            && (forall e :: e in p <==> index <= e < |events| && IsPending(events[e]))
    decreases |events| - index
  {
    if index < |events| {
      PendingFromIs(events, index + 1);
      var p, rest := PendingFrom(events, index), PendingFrom(events, index + 1);
      forall i, j | 0 <= i < j < |p| ensures p[i] < p[j] {
        var d := |p| - |rest|;
        assert p[j] == rest[j - d] && rest[j - d] in rest;
      }
    }
  }

  /** Period starts strictly increase, so the unique index never refuses a bill. */
  lemma {:induction false} StartsBefore(start: Day, invoices: seq<Invoice>, current: Day, k: nat)
    requires Tiles(start, invoices, current) && k < |invoices|
    ensures DayNumber(invoices[k].periodStart) < DayNumber(current)
    decreases |invoices| - k
  {
    assert InvoiceDated(invoices[k]);
    if k + 1 < |invoices| {
      assert invoices[k + 1].periodStart == StartOf(start, invoices, k + 1);
      StartsBefore(start, invoices, current, k + 1);
    }
  }

  lemma IndexNeverHit(s: Sub)
    requires PeriodsTile(s)
    ensures !AlreadyBilled(s.invoices, s.periodStart)
  {
    forall k | 0 <= k < |s.invoices| ensures s.invoices[k].periodStart != s.periodStart {
      StartsBefore(s.startDate, s.invoices, s.periodStart, k);
    }
  }

  lemma AppendEventKeeps(s: Sub, e: Event, notes: seq<int>)
    requires LinksAgree(s) && MoneyConserved(s) && e.invoice.None?
    requires Sum(notes) == Sum(s.creditNotes) + if e.amount.Some? && e.amount.value < 0 then -e.amount.value else 0
    ensures LinksAgree(s.(events := s.events + [e], creditNotes := notes))
    ensures MoneyConserved(s.(events := s.events + [e], creditNotes := notes))
  {
    var s' := s.(events := s.events + [e], creditNotes := notes);
    AmountsSnoc(s.events, e);
    forall k, j | 0 <= k < |s'.invoices| && 0 <= j < |s'.invoices[k].prorations|
      ensures Carries(s'.events, s'.invoices[k].prorations[j], k)
    {
      assert Carries(s.events, s.invoices[k].prorations[j], k);
    }
  }

  lemma BillKeepsLinks(s: Sub, today: Day)
    requires LinksAgree(s) && Bill(s, today).Committed?
    ensures LinksAgree(Bill(s, today).value)
  {
    var s' := Bill(s, today).value;
    var n := |s.invoices|;
    PendingFromIs(s.events, 0);
    forall e | 0 <= e < |s'.events| && s'.events[e].invoice.Some?
      ensures Lists(s'.invoices, s'.events[e].invoice.value, e) {
      if IsPending(s.events[e]) {
        assert e in PendingFrom(s.events, 0);
      } else {
        assert Lists(s.invoices, s.events[e].invoice.value, e);
      }
    }
    forall k, j | 0 <= k < |s'.invoices| && 0 <= j < |s'.invoices[k].prorations|
      ensures Carries(s'.events, s'.invoices[k].prorations[j], k)
    {
      if k < n {
        assert Carries(s.events, s.invoices[k].prorations[j], k);
      } else {
        assert s'.invoices[k].prorations[j] in PendingFrom(s.events, 0);
      }
    }
  }

  lemma BillKeepsMoney(s: Sub, today: Day)
    requires MoneyConserved(s) && Bill(s, today).Committed?
    ensures MoneyConserved(Bill(s, today).value)
  {
    var s' := Bill(s, today).value;
    SweptAmounts(s.events, |s.invoices|);
    assert s'.invoices[..|s'.invoices| - 1] == s.invoices;
  }

  lemma TilesSnoc(start: Day, invoices: seq<Invoice>, current: Day, i: Invoice)
    requires Tiles(start, invoices, current) && InvoiceDated(i) && i.periodStart == current
    ensures Tiles(start, invoices + [i], i.periodEnd)
  {
    var all := invoices + [i];
    forall k | 0 <= k < |all| ensures InvoiceDated(all[k]) && all[k].periodStart == StartOf(start, all, k) {
      if k < |invoices| {
        assert InvoiceDated(invoices[k]) && invoices[k].periodStart == StartOf(start, invoices, k);
      }
    }
  }

  ghost predicate DatesKept(s: Sub) { Dated(s) && PeriodsTile(s) && BillingDateKept(s) }

  /** What billing does to the dates, whatever the amounts. */
  lemma RolledKeepsDates(s: Sub, s': Sub, i: Invoice)
    requires DatesKept(s) && s.status == Active
    requires i.periodStart == s.periodStart && i.periodEnd == s.periodEnd
    requires DayNumber(s.nextBilling.value) <= DayNumber(i.issued)
    requires s'.invoices == s.invoices + [i] && s'.startDate == s.startDate && s'.periodStart == s.periodEnd
    requires DayNumber(s'.periodStart) < DayNumber(s'.periodEnd)
    requires s'.intervalCount == s.intervalCount && s'.quantity == s.quantity
    requires (s'.status == Ended && s'.nextBilling == None)
             || (s'.status == Active && s'.nextBilling == Some(s.periodEnd))
    ensures DatesKept(s')
  {
    TilesSnoc(s.startDate, s.invoices, s.periodStart, i);
  }

  lemma BillKeepsDates(s: Sub, today: Day)
    requires DatesKept(s) && Due(s, today) && Bill(s, today).Committed?
    ensures DatesKept(Bill(s, today).value)
  {
    var s' := Bill(s, today).value;
    AdvanceIsLater(s.periodEnd, s.interval, s.intervalCount);
    RolledKeepsDates(s, s', s'.invoices[|s.invoices|]);
  }

  lemma CallKeepsDates(s: Sub, call: Call)
    requires DatesKept(s) && Attempt(s, call).Committed?
    ensures DatesKept(Attempt(s, call).value)
  {
    match call
    case DoBill(today) => BillKeepsDates(s, today);
    case DoPause(_) =>
    case DoResume(_) =>
    case DoChange(_, _) =>
    case DoCancel(_, _) =>
  }

  lemma DeltaKeepsBooks(s: Sub, quantity: int, delta: int, effective: Day)
    requires LinksAgree(s) && MoneyConserved(s)
    ensures var s' := s.(quantity := quantity,
                         events := s.events + [Event(QuantityChanged, effective, Some(delta), None)],
                         creditNotes := if delta < 0 then s.creditNotes + [-delta] else s.creditNotes);
            LinksAgree(s') && MoneyConserved(s')
  {
    SumSnoc(s.creditNotes, -delta);
    AppendEventKeeps(s, Event(QuantityChanged, effective, Some(delta), None),
                     if delta < 0 then s.creditNotes + [-delta] else s.creditNotes);
  }

  lemma ChangeKeepsBooks(s: Sub, quantity: int, effective: Day)
    requires LinksAgree(s) && MoneyConserved(s) && ChangeQuantity(s, quantity, effective).Committed?
    ensures var s' := ChangeQuantity(s, quantity, effective).value; LinksAgree(s') && MoneyConserved(s')
  {
    DeltaKeepsBooks(s, quantity, Prorated(s, quantity - s.quantity, effective), effective);
  }

  lemma RefundKeepsBooks(s: Sub, refund: int, today: Day)
    requires LinksAgree(s) && MoneyConserved(s)
    ensures var s' := s.(events := s.events + [Event(CancelledEvent, today, Some(-refund), None)],
                         creditNotes := if refund > 0 then s.creditNotes + [refund] else s.creditNotes);
            LinksAgree(s') && MoneyConserved(s')
  {
    SumSnoc(s.creditNotes, refund);
    AppendEventKeeps(s, Event(CancelledEvent, today, Some(-refund), None),
                     if refund > 0 then s.creditNotes + [refund] else s.creditNotes);
  }

  lemma CancelKeepsBooks(s: Sub, atPeriodEnd: bool, today: Day)
    requires LinksAgree(s) && MoneyConserved(s) && Cancel(s, atPeriodEnd, today).Committed?
    ensures var s' := Cancel(s, atPeriodEnd, today).value; LinksAgree(s') && MoneyConserved(s')
  {
    if atPeriodEnd {
      AppendEventKeeps(s, Event(CancelledEvent, s.periodEnd, None, None), s.creditNotes);
    } else {
      RefundKeepsBooks(s, Prorated(s, s.quantity, today), today);
    }
  }

  lemma CallKeepsBooks(s: Sub, call: Call)
    requires LinksAgree(s) && MoneyConserved(s) && Attempt(s, call).Committed?
    ensures LinksAgree(Attempt(s, call).value) && MoneyConserved(Attempt(s, call).value)
  {
    match call
    case DoBill(today) => BillKeepsLinks(s, today); BillKeepsMoney(s, today);
    case DoPause(today) => AppendEventKeeps(s, Event(PausedEvent, today, None, None), s.creditNotes);
    case DoResume(today) => AppendEventKeeps(s, Event(ResumedEvent, today, None, None), s.creditNotes);
    case DoChange(quantity, effective) => ChangeKeepsBooks(s, quantity, effective);
    case DoCancel(atPeriodEnd, today) => CancelKeepsBooks(s, atPeriodEnd, today);
  }

  lemma CallKeepsValid(s: Sub, call: Call)
    requires Valid(s)
    ensures Valid(After(Attempt(s, call), s))
  {
    if Attempt(s, call).Committed? {
      CallKeepsDates(s, call);
      CallKeepsBooks(s, call);
    }
  }

  lemma OpenedIsValid(start: Day, interval: Interval, quantity: int, unitPrice: int)
    requires quantity > 0
    ensures Valid(Opened(start, interval, quantity, unitPrice))
  {
    AdvanceIsLater(start, interval, 1);
    UnbilledIsValid(Opened(start, interval, quantity, unitPrice));
  }

  lemma UnbilledIsValid(s: Sub)
    requires s.events == [] && s.invoices == [] && s.creditNotes == [] && s.quantity > 0 && s.intervalCount >= 1
    requires s.status == Active && s.nextBilling == Some(s.periodStart) && s.startDate == s.periodStart
    requires DayNumber(s.periodStart) < DayNumber(s.periodEnd)
    ensures Valid(s)
  {
  }

  lemma {:induction false} RunKeepsValid(s: Sub, calls: seq<Call>)
    requires Valid(s)
    ensures Valid(Run(s, calls))
    decreases |calls|
  {
    if calls != [] {
      RunKeepsValid(s, calls[..|calls| - 1]);
      CallKeepsValid(Run(s, calls[..|calls| - 1]), calls[|calls| - 1]);
    }
  }
}
