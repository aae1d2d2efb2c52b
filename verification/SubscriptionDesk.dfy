/** The subscription and recurring-billing services: a row whose columns the calls update
    in place, each call proved to have the effect `Subscriptions` gives it. */
module SubscriptionDesk {
  import opened Outcomes
  import opened Calendar
  import opened Subscriptions

  /** Sweeps the pending prorations onto the invoice being written: links each event,
      lists it and adds its signed amount to the total. */
  method SweepPending(events: seq<Event>, base: int, invoice: nat)
    returns (linked: seq<Event>, lines: seq<nat>, total: int)
    ensures linked == Swept(events, invoice)
    ensures lines == PendingFrom(events, 0)
    ensures total == base + PendingAmount(events)
  {
    linked, lines, total := [], [], base;
    for i := 0 to |events|
      invariant linked == Swept(events, invoice)[..i]
      invariant lines + PendingFrom(events, i) == PendingFrom(events, 0)
      invariant total + PendingAmount(events[i..]) == base + PendingAmount(events)
    {
      var event := events[i];
      assert events[i..][0] == event && events[i..][1..] == events[i + 1..];
      if event.invoice.None? && event.amount.Some? && event.amount.value != 0 {
        lines := lines + [i];
        total := total + event.amount.value;
        event := event.(invoice := Some(invoice));
      }
      linked := linked + [event];
    }
  }

  class SubscriptionRow {
    var status: Status
    const interval: Interval
    const intervalCount: nat
    var quantity: int
    const unitPrice: int
    const startDate: Day
    var periodStart: Day
    var periodEnd: Day
    var nextBilling: Option<Day>
    var cancelAtPeriodEnd: bool
    var events: seq<Event>
    var invoices: seq<Invoice>
    var creditNotes: seq<int>

    function Snapshot(): Sub
      reads this
    {
      Sub(status, interval, intervalCount, quantity, unitPrice, startDate, periodStart, periodEnd,
          nextBilling, cancelAtPeriodEnd, events, invoices, creditNotes)
    }

    /** Opened by confirming an order, and billed in advance. */
    constructor (start: Day, interval: Interval, quantity: int, unitPrice: int)
      requires quantity > 0
      ensures Snapshot() == Opened(start, interval, quantity, unitPrice) && Valid(Snapshot())
    {
      this.status, this.interval, this.intervalCount := Active, interval, 1;
      this.quantity, this.unitPrice := quantity, unitPrice;
      startDate, periodStart, periodEnd := start, start, Advance(start, interval, 1);
      nextBilling, cancelAtPeriodEnd := Some(start), false;
      events, invoices, creditNotes := [], [], [];
      new;
      OpenedIsValid(start, interval, quantity, unitPrice);
    }

    method Change(newQuantity: int, effective: Day) returns (refusal: Option<Refusal>)
      modifies this
      ensures var outcome := ChangeQuantity(old(Snapshot()), newQuantity, effective);
              && Snapshot() == After(outcome, old(Snapshot()))
              && refusal == (if outcome.Refused? then Some(outcome.reason) else None)
    {
      if status != Active { return Some(NotActive); }
      if newQuantity < 1 { return Some(BadQuantity); }
      if newQuantity == quantity { return Some(SameQuantity); }
      var delta := Prorated(Snapshot(), newQuantity - quantity, effective);
      events := events + [Event(QuantityChanged, effective, Some(delta), None)];
      quantity := newQuantity;
      if delta < 0 { creditNotes := creditNotes + [-delta]; }
      refusal := None;
    }

    method PauseBilling(today: Day) returns (refusal: Option<Refusal>)
      modifies this
      ensures var outcome := Pause(old(Snapshot()), today);
              && Snapshot() == After(outcome, old(Snapshot()))
              && refusal == (if outcome.Refused? then Some(outcome.reason) else None)
    {
      if status != Active { return Some(NotActive); }
      status, nextBilling := Paused, None;
      events := events + [Event(PausedEvent, today, None, None)];
      refusal := None;
    }

    method ResumeBilling(today: Day) returns (refusal: Option<Refusal>)
      modifies this
      ensures var outcome := Resume(old(Snapshot()), today);
              && Snapshot() == After(outcome, old(Snapshot()))
              && refusal == (if outcome.Refused? then Some(outcome.reason) else None)
    {
      if status != Paused { return Some(NotPaused); }
      status, nextBilling := Active, Some(Later(periodStart, today));
      events := events + [Event(ResumedEvent, today, None, None)];
      refusal := None;
    }

    /** Ends the contract, and credits the unused remainder when it is worth something. */
    method EndNow(refund: int, today: Day)
      modifies `status, `nextBilling, `events, `creditNotes
      ensures Snapshot() == old(Snapshot()).(
        status := Ended, nextBilling := None,
        events := old(events) + [Event(CancelledEvent, today, Some(-refund), None)],
        creditNotes := if refund > 0 then old(creditNotes) + [refund] else old(creditNotes))
    {
      status, nextBilling := Ended, None;
      events := events + [Event(CancelledEvent, today, Some(-refund), None)];
      if refund > 0 { creditNotes := creditNotes + [refund]; }
    }

    method CancelContract(atPeriodEnd: bool, today: Day) returns (refusal: Option<Refusal>)
      modifies this
      ensures var outcome := Cancel(old(Snapshot()), atPeriodEnd, today);
              && Snapshot() == After(outcome, old(Snapshot()))
              && refusal == (if outcome.Refused? then Some(outcome.reason) else None)
    {
      if status == Ended { return Some(AlreadyCancelled); }
      if atPeriodEnd {
        cancelAtPeriodEnd := true;
        events := events + [Event(CancelledEvent, periodEnd, None, None)];
      } else {
        var refund := Prorated(Snapshot(), quantity, today);
        EndNow(refund, today);
      }
      refusal := None;
    }

    /** bill_subscription inside its transaction: a refused bill leaves no trace. */
    method BillPeriod(today: Day) returns (refusal: Option<Refusal>)
      modifies this
      ensures var outcome := Bill(old(Snapshot()), today);
              && Snapshot() == After(outcome, old(Snapshot()))
              && refusal == (if outcome.Refused? then Some(outcome.reason) else None)
    {
      var base := BaseCharge(Snapshot());
      var linked, lines, total := SweepPending(events, base, |invoices|);
      if AlreadyBilled(invoices, periodStart) { return Some(PeriodAlreadyBilled); }
      var next := Advance(periodEnd, interval, intervalCount);
      if !Representable(next) { return Some(CalendarExhausted); }
      if total < 0 { return Some(NegativeTotal); }
      events := linked;
      invoices := invoices + [Invoice(today, periodStart, periodEnd, base, lines, total)];
      nextBilling := Some(periodEnd);
      periodStart, periodEnd := periodEnd, next;
      if cancelAtPeriodEnd { status, nextBilling := Ended, None; }
      refusal := None;
    }

    /** The daily run's filter, then one transaction. */
    method BillWhenDue(today: Day) returns (billed: bool)
      modifies this
      ensures Snapshot() == After(BillIfDue(old(Snapshot()), today), old(Snapshot()))
      ensures billed == BillIfDue(old(Snapshot()), today).Committed?
    {
      if status != Active || nextBilling.None? || DayNumber(nextBilling.value) > DayNumber(today) { return false; }
      var refusal := BillPeriod(today);
      billed := refusal.None?;
    }

    /** Any call: its effect when it commits, nothing when it is refused. */
    method Perform(call: Call)
      modifies this
      ensures Snapshot() == After(Attempt(old(Snapshot()), call), old(Snapshot()))
    {
      match call
      case DoBill(today) => var _ := BillWhenDue(today);
      case DoPause(today) => var _ := PauseBilling(today);
      case DoResume(today) => var _ := ResumeBilling(today);
      case DoChange(newQuantity, effective) => var _ := Change(newQuantity, effective);
      case DoCancel(atPeriodEnd, today) => var _ := CancelContract(atPeriodEnd, today);
    }
  }

  function Trues(flags: seq<bool>): nat {
    if flags == [] then 0 else Trues(flags[..|flags| - 1]) + if flags[|flags| - 1] then 1 else 0
  }

  /** bill_due_subscriptions: one transaction per row, so a row that cannot be billed
      stops none of the others. */
  method BillDueRows(rows: seq<SubscriptionRow>, today: Day) returns (issued: nat, billed: seq<bool>)
    requires forall i, j :: 0 <= i < j < |rows| ==> rows[i] != rows[j]
    modifies rows
    ensures |billed| == |rows| && issued == Trues(billed)
    ensures forall i :: 0 <= i < |rows| ==> BilledRow(old(rows[i].Snapshot()), rows[i].Snapshot(), billed[i], today)
  {
    issued, billed := 0, [];
    ghost var before := seq(|rows|, i requires 0 <= i < |rows| => old(rows[i].Snapshot()));
    for i := 0 to |rows|
      invariant |billed| == i && issued == Trues(billed)
      invariant forall k :: 0 <= k < i ==> BilledRow(before[k], rows[k].Snapshot(), billed[k], today)
      invariant forall k :: i <= k < |rows| ==> rows[k].Snapshot() == before[k]
    {
      var now := rows[i].BillWhenDue(today);
      assert BilledRow(before[i], rows[i].Snapshot(), now, today);
      assert (billed + [now])[..i] == billed;
      billed := billed + [now];
      if now { issued := issued + 1; }
    }
    forall i | 0 <= i < |rows| ensures BilledRow(old(rows[i].Snapshot()), rows[i].Snapshot(), billed[i], today) {
      assert before[i] == old(rows[i].Snapshot());
    }
  }

  predicate BilledRow(before: Sub, after: Sub, billed: bool, today: Day) {
    && after == After(BillIfDue(before, today), before)
    && billed == BillIfDue(before, today).Committed?
  }
}
