/** What each call on a subscription writes, said in its prices, quantities and dates. */
module SubscriptionEffects {
  import opened Outcomes
  import opened Numbers
  import opened Rounding
  import opened Calendar
  import opened Subscriptions
  import opened SubscriptionTheorems
  import opened SubscriptionEnding

  // --------------------------------------------------------- prorated shares

  function PeriodDays(s: Sub): int { DayNumber(s.periodEnd) - DayNumber(s.periodStart) }

  /** Days from `day` on, inside the current period. */
  function DaysLeft(s: Sub, day: Day): int {
    if DayNumber(day) >= DayNumber(s.periodEnd) then 0
    else if DayNumber(day) <= DayNumber(s.periodStart) then PeriodDays(s)
    else DayNumber(s.periodEnd) - DayNumber(day)
  }

  /** These cents are price x units x days left / days in the period, rounded half-even;
      prices are in ten-thousandths. */
  predicate IsShare(cents: int, s: Sub, units: int, day: Day) {
    NearestEven(cents, units * s.unitPrice * DaysLeft(s, day), 100 * PeriodDays(s))
  }

  lemma ProratedIsShare(s: Sub, units: int, day: Day)
    requires Dated(s)
    ensures IsShare(Prorated(s, units, day), s, units, day)
    ensures DaysLeft(s, day) == 0 ==> Prorated(s, units, day) == 0
  {
    HalfEvenRounds(units * s.unitPrice * DaysLeft(s, day), 100 * PeriodDays(s));
    if DaysLeft(s, day) == 0 { HalfEvenExact(0, 100 * PeriodDays(s)); }
  }

  // -------------------------------------------------------------- the calls

  /** A credit note is only written for a positive amount. */
  function Positive(cents: int): seq<int> { if cents > 0 then [cents] else [] }

  /** Cancelling at once: one event with the refund taken off, a credit note for it when it
      is worth something, and nothing left to bill.  The refund is the price of every unit
      for the rest of the period, and nothing from its end on. */
  lemma CancelNowWrites(s: Sub, today: Day)
    requires Dated(s)
    ensures Cancel(s, false, today).Committed? <==> s.status != Ended
    ensures s.status != Ended ==>
              var r, n := Cancel(s, false, today).value, |s.events|;
              && |r.events| == n + 1 && r.events[..n] == s.events
              && r.events[n].kind == CancelledEvent && r.events[n].effective == today && r.events[n].invoice.None?
              && r.events[n].amount.Some?
              && IsShare(-r.events[n].amount.value, s, s.quantity, today)
              && (DayNumber(today) >= DayNumber(s.periodEnd) ==> r.events[n].amount == Some(0))
              && r.creditNotes == s.creditNotes + Positive(-r.events[n].amount.value)
              && r == s.(status := Ended, nextBilling := None, events := r.events, creditNotes := r.creditNotes)
  {
    if s.status != Ended {
      ProratedIsShare(s, s.quantity, today);
    }
  }

  /** Cancelling at period end only leaves a mark and a note in the history. */
  lemma CancelLaterWrites(s: Sub, today: Day)
    ensures Cancel(s, true, today).Committed? <==> s.status != Ended
    ensures s.status != Ended ==>
              var r, n := Cancel(s, true, today).value, |s.events|;
              && |r.events| == n + 1 && r.events[..n] == s.events
              && r.events[n].kind == CancelledEvent && r.events[n].effective == s.periodEnd
              && r.events[n].amount.None? && r.events[n].invoice.None?
              && r == s.(cancelAtPeriodEnd := true, events := r.events)
  {
  }

  /** A change: one pending event worth the difference for the rest of the period, and a
      credit note when that is negative. */
  lemma ChangeWrites(s: Sub, quantity: int, effective: Day)
    requires Dated(s)
    ensures ChangeQuantity(s, quantity, effective).Committed?
            <==> s.status == Active && quantity >= 1 && quantity != s.quantity
    ensures ChangeQuantity(s, quantity, effective).Committed? ==>
              var r, n := ChangeQuantity(s, quantity, effective).value, |s.events|;
              && r.quantity == quantity
              && |r.events| == n + 1 && r.events[..n] == s.events
              && r.events[n].kind == QuantityChanged && r.events[n].effective == effective
              && r.events[n].invoice.None? && r.events[n].amount.Some?
              && IsShare(r.events[n].amount.value, s, quantity - s.quantity, effective)
              && r.creditNotes == s.creditNotes + Positive(-r.events[n].amount.value)
              && r == s.(quantity := quantity, events := r.events, creditNotes := r.creditNotes)
  {
    if ChangeQuantity(s, quantity, effective).Committed? {
      ProratedIsShare(s, quantity - s.quantity, effective);
    }
  }

  /** Pausing clears the billing date; resuming sets it to today, or to the start of a period
      that has not begun. */
  lemma PauseAndResumeWrite(s: Sub, today: Day)
    ensures Pause(s, today).Committed? <==> s.status == Active
    ensures s.status == Active ==>
              var r := Pause(s, today).value;
              && r.status == Paused && r.nextBilling.None? && r.events[..|r.events| - 1] == s.events
              && |r.events| == |s.events| + 1 && r.events[|s.events|] == Event(PausedEvent, today, None, None)
              && r == s.(status := Paused, nextBilling := None, events := r.events)
    ensures Resume(s, today).Committed? <==> s.status == Paused
    ensures s.status == Paused ==>
              var r := Resume(s, today).value;
              && r.status == Active && r.nextBilling.Some? && r.events[..|r.events| - 1] == s.events
              && |r.events| == |s.events| + 1 && r.events[|s.events|] == Event(ResumedEvent, today, None, None)
              && (r.nextBilling.value == today || r.nextBilling.value == s.periodStart)
              && DayNumber(r.nextBilling.value) >= DayNumber(today)
              && DayNumber(r.nextBilling.value) >= DayNumber(s.periodStart)
              && r == s.(status := Active, nextBilling := r.nextBilling, events := r.events)
  {
  }

  /** Why a call is refused: the first of these that applies. */
  lemma SubscriptionRefusals(s: Sub, quantity: int, day: Day, atPeriodEnd: bool)
    ensures ChangeQuantity(s, quantity, day).Refused? ==>
              ChangeQuantity(s, quantity, day).reason == if s.status != Active then NotActive
                                                         else if quantity < 1 then BadQuantity else SameQuantity
    ensures Pause(s, day).Refused? ==> Pause(s, day).reason == NotActive
    ensures Resume(s, day).Refused? ==> Resume(s, day).reason == NotPaused
    ensures Cancel(s, atPeriodEnd, day).Refused? ==> Cancel(s, atPeriodEnd, day).reason == AlreadyCancelled
  {
  }

  /** What the listed events are worth. */
  function Listed(events: seq<Event>, picked: seq<nat>): int {
    if picked == [] then 0 else Worth(events, picked[0]) + Listed(events, picked[1..])
  }

  function Worth(events: seq<Event>, e: nat): int {
    if e < |events| && events[e].amount.Some? then events[e].amount.value else 0
  }

  lemma {:induction false} ListedPending(events: seq<Event>, index: nat)
    requires index <= |events|
    ensures Listed(events, PendingFrom(events, index)) == PendingAmount(events[index..])
    decreases |events| - index
  {
    if index < |events| {
      var rest := PendingFrom(events, index + 1);
      ListedPending(events, index + 1);
      assert events[index..][0] == events[index] && events[index..][1..] == events[index + 1..];
      assert ([index] + rest)[1..] == rest && [] + rest == rest;
    }
  }

  /** An event still waiting for an invoice. */
  predicate Waits(e: Event) { e.invoice.None? && e.amount.Some? && e.amount.value != 0 }

  /** The current period's invoice: its base charge and the amounts it lists, which are those
      waiting, each once and in order. */
  ghost predicate InvoiceWritten(s: Sub, i: Invoice, today: Day) {
    && i.issued == today && i.periodStart == s.periodStart && i.periodEnd == s.periodEnd
    && NearestEven(i.base, s.unitPrice * s.quantity, 100)
    && (forall e :: e in i.prorations <==> 0 <= e < |s.events| && Waits(s.events[e]))
    && (forall j, k :: 0 <= j < k < |i.prorations| ==> i.prorations[j] < i.prorations[k])
    && i.total == i.base + Listed(s.events, i.prorations)
  }

  /** A committed bill: one invoice for the current period at its base charge and the waiting
      amounts, each of which it lists and links, in order; the next period follows on, and a
      contract told to end does so. */
  lemma BillWrites(s: Sub, today: Day)
    requires Valid(s) && BillIfDue(s, today).Committed?
    ensures var r, n := BillIfDue(s, today).value, |s.invoices|;
            && |r.invoices| == n + 1 && r.invoices[..n] == s.invoices && InvoiceWritten(s, r.invoices[n], today)
            && |r.events| == |s.events|
            && (forall e :: 0 <= e < |s.events| ==>
                  r.events[e] == if Waits(s.events[e]) then s.events[e].(invoice := Some(n)) else s.events[e])
            && r.periodStart == s.periodEnd && r.periodEnd == Advance(s.periodEnd, s.interval, s.intervalCount)
            && r.status == (if s.cancelAtPeriodEnd then Ended else Active)
            && r.nextBilling == (if s.cancelAtPeriodEnd then None else Some(s.periodEnd))
            && r == s.(events := r.events, invoices := r.invoices, periodStart := r.periodStart,
                       periodEnd := r.periodEnd, status := r.status, nextBilling := r.nextBilling)
  {
    HalfEvenRounds(s.unitPrice * s.quantity, 100);
    PendingFromIs(s.events, 0);
    ListedPending(s.events, 0);
    assert s.events[0..] == s.events;
  }

  // --------------------------------------------------- the refund's days

  /** The day is in a period that was invoiced. */
  ghost predicate Billed(s: Sub, day: int) {
    exists k :: 0 <= k < |s.invoices|
                && DayNumber(s.invoices[k].periodStart) <= day < DayNumber(s.invoices[k].periodEnd)
  }

  /** The day is refunded by a cancellation today. */
  predicate Refunded(s: Sub, today: Day, day: int) {
    DayNumber(today) <= day && DayNumber(s.periodStart) <= day < DayNumber(s.periodEnd)
  }

  function CountRefunded(s: Sub, today: Day, from: int, end: int): int
    decreases end - from
  {
    if from >= end then 0 else (if Refunded(s, today, from) then 1 else 0) + CountRefunded(s, today, from + 1, end)
  }

  /** There are as many of them as the refund counts. */
  lemma {:induction false} RefundedDays(s: Sub, today: Day, from: int)
    requires DayNumber(s.periodStart) <= from <= DayNumber(s.periodEnd)
    ensures CountRefunded(s, today, from, DayNumber(s.periodEnd))
            == if DayNumber(today) >= DayNumber(s.periodEnd) then 0
               else DayNumber(s.periodEnd) - (if DayNumber(today) <= from then from else DayNumber(today))
    ensures from == DayNumber(s.periodStart) ==>
              CountRefunded(s, today, from, DayNumber(s.periodEnd)) == DaysLeft(s, today)
    decreases DayNumber(s.periodEnd) - from
  {
    if from < DayNumber(s.periodEnd) { RefundedDays(s, today, from + 1); }
  }

  lemma BilledBeforePeriod(s: Sub, k: nat)
    requires PeriodsTile(s) && k < |s.invoices|
    ensures DayNumber(s.invoices[k].periodEnd) <= DayNumber(s.periodStart)
  {
    if k + 1 < |s.invoices| {
      assert s.invoices[k + 1].periodStart == StartOf(s.startDate, s.invoices, k + 1);
      StartsBefore(s.startDate, s.invoices, s.periodStart, k + 1);
    } else {
      assert s.periodStart == StartOf(s.startDate, s.invoices, |s.invoices|);
    }
  }

  /** In every reachable state no day that a cancellation refunds was ever billed: the period
      has rolled on when its bill was written.  So what is refunded are the days paid for and
      not received if and only if the current period is over, and neither exists. */
  lemma RefundIsForPaidDaysIff(s: Sub, today: Day)
    requires Valid(s)
    ensures forall day :: Refunded(s, today, day) ==> !Billed(s, day)
    ensures (forall day :: DayNumber(today) <= day ==> (Refunded(s, today, day) <==> Billed(s, day)))
            <==> DayNumber(today) >= DayNumber(s.periodEnd)
  {
    forall k | 0 <= k < |s.invoices| ensures DayNumber(s.invoices[k].periodEnd) <= DayNumber(s.periodStart) {
      BilledBeforePeriod(s, k);
    }
    var start, end, now := DayNumber(s.periodStart), DayNumber(s.periodEnd), DayNumber(today);
    if now < end {
      var day := if now < start then start else now;
      assert Refunded(s, today, day) && !Billed(s, day);
    }
  }

  /** Ten licences at 31.00 a month from 1 January 2027, cancelled at once on the 11th before
      any bill: 210.00 for 21 of 31 days. */
  lemma CancelledInJanuary(o: Sub, today: Day)
    requires o == Opened(Date(2027, 1, 1), Monthly, 10, 310000) && today == Date(2027, 1, 11)
    ensures Cancel(o, false, today).Committed? && Cancel(o, false, today).value.creditNotes == [21000]
  {
    MonthTable(2027);
    JanuaryHas31Days(o);
    assert 3100000 * 21 == 21000 * 3100;
    RefundOf(o, today, 21, 31, 21000);
    assert o.creditNotes + [21000] == [21000];
  }

  lemma RefundOf(s: Sub, today: Day, left: int, days: int, cents: int)
    requires s.quantity == 10 && s.unitPrice == 310000 && DaysRemaining(s, today) == left && DaysInPeriod(s) == days
    requires days > 0 && 3100000 * left == cents * (100 * days)
    ensures Prorated(s, s.quantity, today) == cents
  {
    assert s.quantity * s.unitPrice == 3100000;
    HalfEvenExact(cents, 100 * days);
  }

  /** The same contract billed on 1 January and cancelled at once on the 11th: the credit is
      310.00, for all of the February nobody paid, and none of January's 21 days. */
  lemma FebruaryRefunded(o: Sub, start: Day, today: Day)
    requires o == Opened(start, Monthly, 10, 310000) && start == Date(2027, 1, 1) && today == Date(2027, 1, 11)
    ensures var s := Run(o, [DoBill(start), DoCancel(false, today)]);
            && s.status == Ended && |s.invoices| == 1 && s.invoices[0].periodEnd == Date(2027, 2, 1)
            && s.creditNotes == [31000]
  {
    var paid := PaidForJanuary(o, start, today);
    RunTwo(o, DoBill(start), DoCancel(false, today));
    assert 3100000 * 28 == 31000 * 2800;
    RefundOf(paid, today, 28, 28, 31000);
    assert paid.creditNotes + [31000] == [31000];
  }

  lemma PaidForJanuary(o: Sub, start: Day, today: Day) returns (paid: Sub)
    requires o == Opened(start, Monthly, 10, 310000) && start == Date(2027, 1, 1) && today == Date(2027, 1, 11)
    ensures BillIfDue(o, start) == Committed(paid) && paid.status == Active && paid.creditNotes == []
    ensures paid.quantity == 10 && paid.unitPrice == 310000
    ensures |paid.invoices| == 1 && paid.invoices[0].periodEnd == Date(2027, 2, 1)
    ensures DaysRemaining(paid, today) == 28 && DaysInPeriod(paid) == 28
  {
    paid := JanuaryPaid(o, Date(2027, 1, 10));
    JanuaryHas31Days(o);
    FirstBill(o, start, Date(2027, 2, 1), Date(2027, 3, 1));
    BeforeFebruary(today);
  }

  lemma BeforeFebruary(today: Day)
    requires today == Date(2027, 1, 11)
    ensures DayNumber(today) <= DayNumber(Date(2027, 2, 1))
  {
    MonthTable(2027);
  }

  // ------------------------------------------- a period's charge and its use

  /** Unit-days in force over the days from `day` up to `end`. */
  function UsedDays(initial: int, changes: seq<Change>, day: int, end: int): int
    decreases end - day
  {
    if day >= end then 0 else QuantityOn(initial, changes, day) + UsedDays(initial, changes, day + 1, end)
  }

  lemma {:induction false} UsedIsInitialAndExtra(initial: int, changes: seq<Change>, day: int, end: int)
    requires day <= end
    ensures UsedDays(initial, changes, day, end) == initial * (end - day) + UnitDays(initial, changes, day, end)
    decreases end - day
  {
    if day < end {
      UsedIsInitialAndExtra(initial, changes, day + 1, end);
      OneMoreDay(initial, end, day);
    }
  }

  /** The unit-days a period is charged for after these changes: its bill takes the last
      quantity for the whole period, and the prorations come on top. */
  function ChargedDays(s: Sub, changes: seq<Change>): int {
    LastQuantity(s.quantity, changes) * PeriodDays(s) + ExactUnitDays(s, changes)
  }

  /** A period is charged as it was used, day by day, if and only if its quantity ends as it
      began; otherwise it is off by the whole difference for the whole period. */
  lemma ChargedAsUsedIff(s: Sub, changes: seq<Change>)
    requires Dated(s) && DatesInOrder(changes)
    ensures var used := UsedDays(s.quantity, changes, DayNumber(s.periodStart), DayNumber(s.periodEnd));
            && ChargedDays(s, changes) - used == (LastQuantity(s.quantity, changes) - s.quantity) * PeriodDays(s)
            && (ChargedDays(s, changes) == used <==> LastQuantity(s.quantity, changes) == s.quantity)
  {
    DeltasAreQuantityDays(s, changes);
    UsedIsInitialAndExtra(s.quantity, changes, DayNumber(s.periodStart), DayNumber(s.periodEnd));
    OffByTheDifference(LastQuantity(s.quantity, changes), s.quantity, PeriodDays(s));
  }

  lemma OffByTheDifference(last: int, initial: int, days: int)
    requires days > 0
    ensures last * days - initial * days == (last - initial) * days
    ensures last * days == initial * days <==> last == initial
  {
    if last > initial { MultipleAtLeast(days, last - initial); }
    if last < initial { MultipleAtLeast(days, initial - last); }
    assert days * (last - initial) == last * days - initial * days;
    assert days * (initial - last) == initial * days - last * days;
  }

  lemma BaseForPeriod(price: int, quantity: int, days: int, base: int)
    requires days > 0 && -100 <= 2 * (100 * base - price * quantity) <= 100
    ensures -(100 * days) <= 2 * (100 * days * base - price * (quantity * days)) <= 100 * days
  {
    var gap := 2 * (100 * base - price * quantity);
    SlackScales(gap, days);
    BaseScales(price, quantity, days, base);
  }

  lemma SlackScales(gap: int, days: int)
    requires days > 0 && -100 <= gap <= 100
    ensures -(100 * days) <= gap * days <= 100 * days
  {
  }

  lemma BaseScales(price: int, quantity: int, days: int, base: int)
    ensures 2 * (100 * days * base - price * (quantity * days)) == 2 * (100 * base - price * quantity) * days
  {
    assert price * (quantity * days) == (price * quantity) * days;
    assert 100 * days * base == (100 * base) * days;
  }

  /** These cents are the price of the unit-days charged, give or take n half-cents. */
  predicate WithinCharge(s: Sub, changes: seq<Change>, cents: int, n: nat) {
    var den := 100 * PeriodDays(s);
    -(n * den) <= 2 * (den * cents - s.unitPrice * ChargedDays(s, changes)) <= n * den
  }

  /** In cents: the bill after n changes adds the price of those unit-days to what waited
      before, give or take n + 1 half-cents. */
  lemma BillAfterChanges(s: Sub, changes: seq<Change>, today: Day) returns (added: int)
    requires Dated(s) && Accepted(s, changes) && BillIfDue(Changed(s, changes), today).Committed?
    ensures var r := BillIfDue(Changed(s, changes), today).value;
            |r.invoices| == |s.invoices| + 1 && r.invoices[|s.invoices|].total == PendingAmount(s.events) + added
    ensures WithinCharge(s, changes, added, |changes| + 1)
  {
    added := TotalAfterChanges(s, changes, today);
    ChargeBound(s, changes, added);
  }

  lemma TotalAfterChanges(s: Sub, changes: seq<Change>, today: Day) returns (added: int)
    requires Accepted(s, changes) && BillIfDue(Changed(s, changes), today).Committed?
    ensures added == RecordedCents(s, changes) + HalfEven(s.unitPrice * LastQuantity(s.quantity, changes), 100)
    ensures var r := BillIfDue(Changed(s, changes), today).value;
            |r.invoices| == |s.invoices| + 1 && r.invoices[|s.invoices|].total == PendingAmount(s.events) + added
  {
    ChangedKeeps(s, changes);
    ChangesWait(s, changes);
    added := RecordedCents(s, changes) + BaseCharge(Changed(s, changes));
    OneInvoice(Changed(s, changes), today);
  }

  lemma OneInvoice(c: Sub, today: Day)
    requires BillIfDue(c, today).Committed?
    ensures var r := BillIfDue(c, today).value;
            && |r.invoices| == |c.invoices| + 1
            && r.invoices[|c.invoices|].total == BaseCharge(c) + PendingAmount(c.events)
  {
  }

  lemma ChargeBound(s: Sub, changes: seq<Change>, cents: int)
    requires Dated(s)
    requires cents == RecordedCents(s, changes) + HalfEven(s.unitPrice * LastQuantity(s.quantity, changes), 100)
    ensures WithinCharge(s, changes, cents, |changes| + 1)
  {
    var last, extra := LastQuantity(s.quantity, changes), ExactUnitDays(s, changes);
    var base := HalfEven(s.unitPrice * last, 100);
    CentsWithinHalfEach(s, changes);
    HalfEvenIsNearest(s.unitPrice * last, 100);
    BaseForPeriod(s.unitPrice, last, PeriodDays(s), base);
    PriceSplits(s.unitPrice, last * PeriodDays(s), extra);
    OneMoreHalf(100 * PeriodDays(s), |changes|, RecordedCents(s, changes), base,
                s.unitPrice * extra, s.unitPrice * (last * PeriodDays(s)));
  }

  lemma PriceSplits(price: int, whole: int, extra: int)
    ensures price * (whole + extra) == price * extra + price * whole
  {
  }

  /** Changes touch neither the invoices nor what waited before. */
  lemma {:induction false} ChangesWait(s: Sub, changes: seq<Change>)
    requires Accepted(s, changes)
    ensures Changed(s, changes).invoices == s.invoices
    ensures PendingAmount(Changed(s, changes).events) == PendingAmount(s.events) + RecordedCents(s, changes)
    decreases |changes|
  {
    if changes != [] {
      var front, c := changes[..|changes| - 1], changes[|changes| - 1];
      ChangesWait(s, front);
      ChangedKeeps(s, front);
      ChangeWaits(s, Changed(s, front), c.quantity, c.effective);
    }
  }

  lemma ChangeWaits(s: Sub, earlier: Sub, quantity: int, effective: Day)
    requires ChangeQuantity(earlier, quantity, effective).Committed?
    requires earlier.periodStart == s.periodStart && earlier.periodEnd == s.periodEnd
             && earlier.unitPrice == s.unitPrice
    ensures var r := ChangeQuantity(earlier, quantity, effective).value;
            && r.invoices == earlier.invoices
            && PendingAmount(r.events)
               == PendingAmount(earlier.events) + Prorated(s, quantity - earlier.quantity, effective)
  {
    var delta := Prorated(s, quantity - earlier.quantity, effective);
    AmountsSnoc(earlier.events, Event(QuantityChanged, effective, Some(delta), None));
  }

  /** Ten licences become eleven on 11 January, before January's bill: 331 licence-days are
      used and 362 are charged. */
  lemma LicenceAdded(o: Sub, eleventh: Change)
    requires o == Opened(Date(2027, 1, 1), Monthly, 10, 310000) && eleventh == Change(11, Date(2027, 1, 11))
    ensures UsedDays(o.quantity, [eleventh], DayNumber(o.periodStart), DayNumber(o.periodEnd)) == 331
    ensures ChargedDays(o, [eleventh]) == 362
  {
    MonthTable(2027);
    JanuaryHas31Days(o);
    assert [eleventh][..0] == [];
    assert ExactUnitDays(o, [eleventh]) == ExactUnitDays(o, []) + DaysRemaining(o, eleventh.effective);
    ChargedAsUsedIff(o, [eleventh]);
  }
}
