/** The promises of recurring billing, over every run of a subscription's calls. */
module SubscriptionTheorems {
  import opened Outcomes
  import opened Numbers
  import opened Rounding
  import opened Calendar
  import opened Subscriptions

  // ---------------------------------------------------------------- periods

  /** After any run, on dates in any order: the first billed period starts at the start
      date, each begins where the previous ended, no start repeats, and none was billed
      before it began. */
  lemma {:induction false} BilledPeriodsTileTime(
      start: Day, interval: Interval, quantity: int, unitPrice: int, calls: seq<Call>, k: nat)
    requires quantity > 0
    requires k < |Run(Opened(start, interval, quantity, unitPrice), calls).invoices|
    ensures var invoices := Run(Opened(start, interval, quantity, unitPrice), calls).invoices;
            && invoices[k].periodStart == (if k == 0 then start else invoices[k - 1].periodEnd)
            && DayNumber(invoices[k].periodStart) <= DayNumber(invoices[k].issued)
            && forall j :: 0 <= j < k ==> DayNumber(invoices[j].periodStart) < DayNumber(invoices[k].periodStart)
  {
    var o := Opened(start, interval, quantity, unitPrice);
    var s := Run(o, calls);
    OpenedIsValid(start, interval, quantity, unitPrice);
    RunKeepsValid(o, calls);
    StartDateKept(o, calls);
    assert InvoiceDated(s.invoices[k]);
    assert s.invoices[k].periodStart == StartOf(start, s.invoices, k);
    TilesPrefix(start, s.invoices, s.periodStart, k);
    forall j | 0 <= j < k ensures DayNumber(s.invoices[j].periodStart) < DayNumber(s.invoices[k].periodStart) {
      StartsBefore(start, s.invoices[..k], s.invoices[k].periodStart, j);
    }
  }

  lemma TilesPrefix(start: Day, invoices: seq<Invoice>, current: Day, k: nat)
    requires Tiles(start, invoices, current) && k < |invoices|
    ensures Tiles(start, invoices[..k], invoices[k].periodStart)
  {
    assert invoices[k].periodStart == StartOf(start, invoices, k);
    forall m | 0 <= m < k
      ensures InvoiceDated(invoices[..k][m]) && invoices[..k][m].periodStart == StartOf(start, invoices[..k], m)
    {
      assert InvoiceDated(invoices[m]) && invoices[m].periodStart == StartOf(start, invoices, m);
    }
  }

  lemma CallKeepsStart(s: Sub, call: Call)
    ensures After(Attempt(s, call), s).startDate == s.startDate
  {
  }

  lemma {:induction false} StartDateKept(s: Sub, calls: seq<Call>)
    ensures Run(s, calls).startDate == s.startDate
    decreases |calls|
  {
    if calls != [] {
      StartDateKept(s, calls[..|calls| - 1]);
      CallKeepsStart(Run(s, calls[..|calls| - 1]), calls[|calls| - 1]);
    }
  }

  /** The daily run bills a subscription exactly when it is active, its date has come,
      its total is not negative and its next period still has a date: the unique index on
      (subscription, period start) never has to step in. */
  lemma BilledExactlyWhen(s: Sub, today: Day)
    requires Valid(s)
    ensures BillIfDue(s, today).Committed? <==>
              && s.status == Active && DayNumber(s.nextBilling.value) <= DayNumber(today)
              && BaseCharge(s) + PendingAmount(s.events) >= 0
              && Representable(Advance(s.periodEnd, s.interval, s.intervalCount))
    ensures BillIfDue(s, today) != Refused(PeriodAlreadyBilled)
  {
    IndexNeverHit(s);
  }

  // ---------------------------------------------------------- repeating the run

  /** The daily run over and over on one date. */
  ghost predicate AllOnDate(calls: seq<Call>, today: Day) {
    forall i :: 0 <= i < |calls| ==> calls[i] == DoBill(today)
  }

  lemma BillMovesForward(s: Sub, today: Day)
    requires DayNumber(s.periodStart) < DayNumber(s.periodEnd)
    ensures Attempt(s, DoBill(today)).Committed? ==>
              DayNumber(After(Attempt(s, DoBill(today)), s).periodStart) >= DayNumber(s.periodStart) + 1
  {
  }

  /** Stuck, or at least `n` days further on than `from`. */
  predicate StuckOrPast(s: Sub, today: Day, from: int, n: nat) {
    Attempt(s, DoBill(today)).Refused? || DayNumber(s.periodStart) >= from + n
  }

  lemma StuckStays(s: Sub, today: Day, from: int, n: nat)
    requires DayNumber(s.periodStart) < DayNumber(s.periodEnd) && StuckOrPast(s, today, from, n)
    ensures StuckOrPast(After(Attempt(s, DoBill(today)), s), today, from, n + 1)
  {
    BillMovesForward(s, today);
  }

  /** Each repetition either bills and moves the period forward, or is already stuck. */
  lemma {:induction false} RepeatsProgress(s: Sub, calls: seq<Call>, today: Day)
    requires Valid(s) && AllOnDate(calls, today)
    ensures StuckOrPast(Run(s, calls), today, DayNumber(s.periodStart), |calls|)
    decreases |calls|
  {
    if calls != [] {
      var front := calls[..|calls| - 1];
      RepeatsProgress(s, front, today);
      RunKeepsValid(s, front);
      StuckStays(Run(s, front), today, DayNumber(s.periodStart), |front|);
    }
  }

  /** Repeating the run on one date reaches a no-op, after at most one repetition per day
      the current period is in arrears. */
  lemma BillingSettles(s: Sub, calls: seq<Call>, today: Day)
    requires Valid(s) && AllOnDate(calls, today)
    requires |calls| > DayNumber(today) - DayNumber(s.periodStart)
    ensures BillIfDue(Run(s, calls), today).Refused?
  {
    RepeatsProgress(s, calls, today);
    RunKeepsValid(s, calls);
  }

  // ------------------------------------------------------------------ money

  /** Invoiced plus pending proration is conserved: a bill adds exactly its base charge,
      and a refused one changes nothing. */
  lemma BillConserves(s: Sub, today: Day)
    requires Valid(s)
    ensures var r := After(BillIfDue(s, today), s);
            InvoicedTotal(r.invoices) + PendingAmount(r.events)
              == InvoicedTotal(s.invoices) + PendingAmount(s.events) + (if r == s then 0 else BaseCharge(s))
  {
    CallKeepsValid(s, DoBill(today));
    var r := After(BillIfDue(s, today), s);
    if BillIfDue(s, today).Committed? {
      SweptAmounts(s.events, |s.invoices|);
      assert r.invoices[..|r.invoices| - 1] == s.invoices;
    }
  }

  /** Over a whole run every amount is either billed or still pending, each nonzero
      proration is carried by at most one line of at most one invoice, and credit notes
      total exactly the credits recorded. */
  lemma {:induction false} ProrationsBilledOnce(s: Sub, calls: seq<Call>, e: nat, k: nat, m: nat)
    requires Valid(s)
    ensures var r := Run(s, calls);
            && InvoicedTotal(r.invoices) + PendingAmount(r.events) == BaseTotal(r.invoices) + AllAmounts(r.events)
            && Sum(r.creditNotes) == CreditsIn(r.events)
            && (Lists(r.invoices, k, e) && Lists(r.invoices, m, e) ==> k == m && Carries(r.events, e, k))
            && (Lists(r.invoices, k, e) ==>
                  forall i, j :: 0 <= i < j < |r.invoices[k].prorations| ==>
                    !(r.invoices[k].prorations[i] == e && r.invoices[k].prorations[j] == e))
  {
    RunKeepsValid(s, calls);
    var r := Run(s, calls);
    if Lists(r.invoices, k, e) && Lists(r.invoices, m, e) {
      var i :| 0 <= i < |r.invoices[k].prorations| && r.invoices[k].prorations[i] == e;
      var j :| 0 <= j < |r.invoices[m].prorations| && r.invoices[m].prorations[j] == e;
      assert Carries(r.events, r.invoices[k].prorations[i], k);
      assert Carries(r.events, r.invoices[m].prorations[j], m);
    }
  }

  /** What one change and the next bill do to the credit notes and to the invoice. */
  lemma ChangeIsCarried(s: Sub, quantity: int, effective: Day, today: Day, delta: int)
    requires ChangeQuantity(s, quantity, effective).Committed?
    requires delta == Prorated(s, quantity - s.quantity, effective)
    requires BillIfDue(ChangeQuantity(s, quantity, effective).value, today).Committed?
    ensures var changed := ChangeQuantity(s, quantity, effective).value;
            var billed := BillIfDue(changed, today).value;
            && Sum(billed.creditNotes) == Sum(s.creditNotes) + Max(-delta, 0)
            && billed.invoices[|s.invoices|].total == BaseCharge(changed) + PendingAmount(s.events) + delta
  {
    CreditCarried(s, ChangeQuantity(s, quantity, effective).value, effective, today, delta);
  }

  lemma CreditCarried(s: Sub, changed: Sub, effective: Day, today: Day, delta: int)
    requires changed.invoices == s.invoices
    requires changed.events == s.events + [Event(QuantityChanged, effective, Some(delta), None)]
    requires changed.creditNotes == if delta < 0 then s.creditNotes + [-delta] else s.creditNotes
    requires BillIfDue(changed, today).Committed?
    ensures var billed := BillIfDue(changed, today).value;
            && Sum(billed.creditNotes) == Sum(s.creditNotes) + Max(-delta, 0)
            && billed.invoices[|s.invoices|].total == BaseCharge(changed) + PendingAmount(s.events) + delta
  {
    AmountsSnoc(s.events, Event(QuantityChanged, effective, Some(delta), None));
    if delta < 0 { SumSnoc(s.creditNotes, -delta); }
  }

  /** More than half a cent's worth of the period's remainder is given up. */
  predicate GivesUpACent(s: Sub, quantity: int, effective: Day) {
    2 * ((quantity - s.quantity) * s.unitPrice * DaysRemaining(s, effective)) < -(100 * DaysInPeriod(s))
  }

  /** A change and the bill after it raise the credit notes and lower the invoice, each by
      the whole amount, if and only if the change gives up more than half a cent. */
  lemma DowngradeCreditedTwiceIff(s: Sub, quantity: int, effective: Day, today: Day)
    requires ChangeQuantity(s, quantity, effective).Committed?
    requires BillIfDue(ChangeQuantity(s, quantity, effective).value, today).Committed?
    ensures var changed := ChangeQuantity(s, quantity, effective).value;
            var billed := BillIfDue(changed, today).value;
            var noted := Sum(billed.creditNotes) - Sum(s.creditNotes);
            var deducted := BaseCharge(changed) + PendingAmount(s.events) - billed.invoices[|s.invoices|].total;
            && (noted > 0 && deducted > 0 <==> GivesUpACent(s, quantity, effective))
            && (noted > 0 ==> noted == deducted)
  {
    ChangeIsCarried(s, quantity, effective, today, Prorated(s, quantity - s.quantity, effective));
    GivesUpIff(s, quantity, effective);
  }

  lemma GivesUpIff(s: Sub, quantity: int, effective: Day)
    ensures Prorated(s, quantity - s.quantity, effective) < 0 <==> GivesUpACent(s, quantity, effective)
  {
    NegativeIff((quantity - s.quantity) * s.unitPrice * DaysRemaining(s, effective), 100 * DaysInPeriod(s));
  }

  /** It happens: ten licences at 31.00 become nine on the first day of January; 31.00 go on
      a credit note and come off January's invoice as well. */
  lemma OneLicenceFewer()
    ensures var s := Run(Opened(Date(2027, 1, 1), Monthly, 10, 310000),
                         [DoChange(9, Date(2027, 1, 1)), DoBill(Date(2027, 1, 1))]);
            s.creditNotes == [3100] && |s.invoices| == 1 && s.invoices[0].total == 9 * 3100 - 3100
  {
    var o := Opened(Date(2027, 1, 1), Monthly, 10, 310000);
    JanuaryHas31Days(o);
    LicenceGivenUp(o, Date(2027, 1, 1), Date(2027, 2, 1), Date(2027, 3, 1));
  }

  lemma JanuaryHas31Days(o: Sub)
    requires o == Opened(Date(2027, 1, 1), Monthly, 10, 310000)
    ensures o.periodEnd == Date(2027, 2, 1) && DayNumber(o.periodEnd) == DayNumber(o.periodStart) + 31
    ensures Advance(o.periodEnd, o.interval, o.intervalCount) == Date(2027, 3, 1)
  {
    MonthTable(2027);
    assert Advance(Date(2027, 1, 1), Monthly, 1) == Date(2027, 2, 1);
    assert Advance(Date(2027, 2, 1), Monthly, 1) == Date(2027, 3, 1);
  }

  lemma LicenceGivenUp(o: Sub, start: Day, end: Day, next: Day)
    requires o == Sub(Active, Monthly, 1, 10, 310000, start, start, end, Some(start), false, [], [], [])
    requires DayNumber(end) == DayNumber(start) + 31 && Advance(end, Monthly, 1) == next && Representable(next)
    ensures var s := Run(o, [DoChange(9, start), DoBill(start)]);
            s.creditNotes == [3100] && |s.invoices| == 1 && s.invoices[0].total == 9 * 3100 - 3100
  {
    var changed := LicenceChanged(o, start, end);
    LicenceBilled(changed, start, end, next);
    RunTwo(o, DoChange(9, start), DoBill(start));
  }

  lemma LicenceChanged(o: Sub, start: Day, end: Day) returns (changed: Sub)
    requires o == Sub(Active, Monthly, 1, 10, 310000, start, start, end, Some(start), false, [], [], [])
    requires DayNumber(end) == DayNumber(start) + 31
    ensures changed == Sub(Active, Monthly, 1, 9, 310000, start, start, end, Some(start), false,
                           [Event(QuantityChanged, start, Some(-3100), None)], [], [3100])
    ensures ChangeQuantity(o, 9, start) == Committed(changed)
  {
    assert DaysInPeriod(o) == 31 && DaysRemaining(o, start) == 31;
    HalfEvenExact(-3100, 3100);
    assert -1 * o.unitPrice * DaysRemaining(o, start) == -3100 * 3100;
    assert Prorated(o, -1, start) == -3100;
    changed := o.(quantity := 9, events := [Event(QuantityChanged, start, Some(-3100), None)], creditNotes := [3100]);
    assert o.events + changed.events == changed.events && o.creditNotes + [3100] == [3100];
  }

  lemma LicenceBilled(changed: Sub, start: Day, end: Day, next: Day)
    requires changed == Sub(Active, Monthly, 1, 9, 310000, start, start, end, Some(start), false,
                            [Event(QuantityChanged, start, Some(-3100), None)], [], [3100])
    requires Advance(end, Monthly, 1) == next && Representable(next)
    ensures BillIfDue(changed, start).Committed?
    ensures var s := BillIfDue(changed, start).value;
            s.creditNotes == [3100] && |s.invoices| == 1 && s.invoices[0].total == 9 * 3100 - 3100
  {
    HalfEvenExact(9 * 3100, 100);
    assert BaseCharge(changed) == 9 * 3100;
    assert changed.events[1..] == [];
    assert PendingAmount(changed.events) == -3100;
  }

  lemma RunTwo(s: Sub, a: Call, b: Call)
    ensures var s1 := After(Attempt(s, a), s); Run(s, [a, b]) == After(Attempt(s1, b), s1)
  {
    assert [a, b][..1] == [a] && [a][..0] == [];
    assert Run(s, []) == s;
    assert Run(s, [a]) == After(Attempt(s, a), s);
  }

  // --------------------------------------------------------- quantity and days

  datatype Change = Change(quantity: int, effective: Day)

  /** A sequence of quantity changes inside one period, none of them refused. */
  predicate Accepted(s: Sub, changes: seq<Change>)
    decreases |changes|
  {
    changes == [] ||
    (Accepted(s, changes[..|changes| - 1]) &&
     var c := changes[|changes| - 1];
     ChangeQuantity(Changed(s, changes[..|changes| - 1]), c.quantity, c.effective).Committed?)
  }

  function Changed(s: Sub, changes: seq<Change>): Sub
    decreases |changes|
  {
    if changes == [] then s
    else
      var c, earlier := changes[|changes| - 1], Changed(s, changes[..|changes| - 1]);
      After(ChangeQuantity(earlier, c.quantity, c.effective), earlier)
  }

  /** The quantity in force on a day: the latest change whose date has arrived. */
  function QuantityOn(initial: int, changes: seq<Change>, day: int): int
    decreases |changes|
  {
    if changes == [] then initial
    else if DayNumber(changes[|changes| - 1].effective) <= day then changes[|changes| - 1].quantity
    else QuantityOn(initial, changes[..|changes| - 1], day)
  }

  /** Extra unit-days over the days from `day` up to `end`. */
  function UnitDays(initial: int, changes: seq<Change>, day: int, end: int): int
    decreases end - day
  {
    if day >= end then 0
    else QuantityOn(initial, changes, day) - initial + UnitDays(initial, changes, day + 1, end)
  }

  function LastQuantity(initial: int, changes: seq<Change>): int {
    if changes == [] then initial else changes[|changes| - 1].quantity
  }

  ghost predicate DatesInOrder(changes: seq<Change>) {
    forall i, j :: 0 <= i < j < |changes| ==> DayNumber(changes[i].effective) <= DayNumber(changes[j].effective)
  }

  lemma {:induction false} NoChangeYet(initial: int, day: int, end: int)
    ensures UnitDays(initial, [], day, end) == 0
    decreases end - day
  {
    if day < end { NoChangeYet(initial, day + 1, end); }
  }

  lemma OneMoreDay(step: int, end: int, day: int)
    ensures step * (end - day) == step * (end - (day + 1)) + step
  {
  }

  /** One more change adds its step for every remaining day. */
  lemma {:induction false} UnitDaysSnoc(initial: int, changes: seq<Change>, c: Change, day: int, end: int)
    requires forall i :: 0 <= i < |changes| ==> DayNumber(changes[i].effective) <= DayNumber(c.effective)
    ensures UnitDays(initial, changes + [c], day, end)
         == UnitDays(initial, changes, day, end)
            + (c.quantity - LastQuantity(initial, changes)) * Max(end - Max(day, DayNumber(c.effective)), 0)
    decreases end - day
  {
    if day < end {
      assert (changes + [c])[..|changes|] == changes;
      UnitDaysSnoc(initial, changes, c, day + 1, end);
      var step, first := c.quantity - LastQuantity(initial, changes), DayNumber(c.effective);
      if first <= day {
        assert QuantityOn(initial, changes, day) == LastQuantity(initial, changes);
        OneMoreDay(step, end, day);
      }
    }
  }

  /** What the events record, before rounding: unit-days times price over days. */
  function ExactUnitDays(s: Sub, changes: seq<Change>): int
    decreases |changes|
  {
    if changes == [] then 0
    else
      var front, c := changes[..|changes| - 1], changes[|changes| - 1];
      ExactUnitDays(s, front) + (c.quantity - LastQuantity(s.quantity, front)) * DaysRemaining(s, c.effective)
  }

  lemma {:induction false} ChangedKeeps(s: Sub, changes: seq<Change>)
    requires Accepted(s, changes)
    ensures var r := Changed(s, changes);
            && r.quantity == LastQuantity(s.quantity, changes)
            && r.periodStart == s.periodStart && r.periodEnd == s.periodEnd && r.unitPrice == s.unitPrice
    decreases |changes|
  {
    if changes != [] { ChangedKeeps(s, changes[..|changes| - 1]); }
  }

  lemma RemainingIs(s: Sub, effective: Day)
    requires DayNumber(s.periodStart) < DayNumber(s.periodEnd)
    ensures DaysRemaining(s, effective)
            == Max(DayNumber(s.periodEnd) - Max(DayNumber(s.periodStart), DayNumber(effective)), 0)
  {
  }

  lemma OneMoreDelta(s: Sub, front: seq<Change>, c: Change, start: int, end: int)
    requires start == DayNumber(s.periodStart) < end == DayNumber(s.periodEnd)
    ensures ExactUnitDays(s, front + [c])
         == ExactUnitDays(s, front)
            + (c.quantity - LastQuantity(s.quantity, front)) * Max(end - Max(start, DayNumber(c.effective)), 0)
  {
    assert (front + [c])[..|front|] == front;
    RemainingIs(s, c.effective);
  }

  /** The unrounded deltas of changes with non-decreasing dates sum to the price per day
      times the sum over the period's days of (that day's quantity - the starting one). */
  lemma {:induction false} DeltasAreQuantityDays(s: Sub, changes: seq<Change>)
    requires DatesInOrder(changes) && DayNumber(s.periodStart) < DayNumber(s.periodEnd)
    ensures ExactUnitDays(s, changes)
         == UnitDays(s.quantity, changes, DayNumber(s.periodStart), DayNumber(s.periodEnd))
    decreases |changes|
  {
    if changes == [] {
      NoChangeYet(s.quantity, DayNumber(s.periodStart), DayNumber(s.periodEnd));
    } else {
      var front, c := changes[..|changes| - 1], changes[|changes| - 1];
      DeltasAreQuantityDays(s, front);
      assert front + [c] == changes;
      UnitDaysSnoc(s.quantity, front, c, DayNumber(s.periodStart), DayNumber(s.periodEnd));
      OneMoreDelta(s, front, c, DayNumber(s.periodStart), DayNumber(s.periodEnd));
    }
  }

  /** Adding one amount within half a unit of its exact value, all scaled by `den`. */
  lemma OneMoreHalf(den: int, n: nat, cents: int, delta: int, exact: int, step: int)
    requires den > 0
    requires -(n * den) <= 2 * (den * cents - exact) <= n * den
    requires -den <= 2 * (den * delta - step) <= den
    ensures -((n + 1) * den) <= 2 * (den * (cents + delta) - (exact + step)) <= (n + 1) * den
  {
    assert den * (cents + delta) == den * cents + den * delta;
    assert (n + 1) * den == n * den + den;
  }

  /** One change records its rounded share and nothing else. */
  lemma ChangeRecords(s: Sub, quantity: int, effective: Day)
    requires ChangeQuantity(s, quantity, effective).Committed?
    ensures var step := (quantity - s.quantity) * s.unitPrice * DaysRemaining(s, effective);
            AllAmounts(ChangeQuantity(s, quantity, effective).value.events)
              == AllAmounts(s.events) + HalfEven(step, 100 * DaysInPeriod(s))
  {
    AmountsSnoc(s.events, Event(QuantityChanged, effective, Some(Prorated(s, quantity - s.quantity, effective)), None));
  }

  /** The bound for n recorded amounts, both sides scaled by 2 * 100 * (days in period). */
  predicate WithinHalfEach(s: Sub, n: nat, cents: int, unitDays: int) {
    var den := 100 * DaysInPeriod(s);
    -(n * den) <= 2 * (den * cents - s.unitPrice * unitDays) <= n * den
  }

  lemma WithinOneMore(s: Sub, n: nat, cents: int, unitDays: int, units: int, effective: Day)
    requires WithinHalfEach(s, n, cents, unitDays)
    ensures WithinHalfEach(s, n + 1, cents + Prorated(s, units, effective),
            unitDays + units * DaysRemaining(s, effective))
  {
    var left, den := DaysRemaining(s, effective), 100 * DaysInPeriod(s);
    var step := units * s.unitPrice * left;
    HalfEvenIsNearest(step, den);
    PriceDistributes(s.unitPrice, unitDays, units, left);
    OneMoreHalf(den, n, cents, HalfEven(step, den), s.unitPrice * unitDays, step);
  }

  /** The rounded deltas of the changes, in cents. */
  function RecordedCents(s: Sub, changes: seq<Change>): int
    decreases |changes|
  {
    if changes == [] then 0
    else
      var front, c := changes[..|changes| - 1], changes[|changes| - 1];
      RecordedCents(s, front) + Prorated(s, c.quantity - LastQuantity(s.quantity, front), c.effective)
  }

  /** They are what the calls write to the event history. */
  lemma {:induction false} EventsRecordCents(s: Sub, changes: seq<Change>)
    requires Accepted(s, changes)
    ensures AllAmounts(Changed(s, changes).events) == AllAmounts(s.events) + RecordedCents(s, changes)
    decreases |changes|
  {
    if changes != [] {
      var front, c := changes[..|changes| - 1], changes[|changes| - 1];
      EventsRecordCents(s, front);
      ChangedKeeps(s, front);
      ChangeRecords(Changed(s, front), c.quantity, c.effective);
    }
  }

  /** n recorded cent amounts differ from the exact total by at most n half-cents. */
  lemma {:induction false} CentsWithinHalfEach(s: Sub, changes: seq<Change>)
    ensures WithinHalfEach(s, |changes|, RecordedCents(s, changes), ExactUnitDays(s, changes))
    decreases |changes|
  {
    if changes != [] {
      var front, c := changes[..|changes| - 1], changes[|changes| - 1];
      CentsWithinHalfEach(s, front);
      WithinOneMore(s, |front|, RecordedCents(s, front), ExactUnitDays(s, front),
                    c.quantity - LastQuantity(s.quantity, front), c.effective);
    }
  }

  lemma PriceDistributes(price: int, days: int, units: int, left: int)
    ensures price * (days + units * left) == price * days + units * price * left
  {
    assert price * (days + units * left) == price * days + price * (units * left);
    assert price * (units * left) == (price * units) * left;
  }

  lemma NegatedStep(a: int, b: int, price: int, left: int)
    ensures (b - a) * price * left == -((a - b) * price * left)
  {
    assert (b - a) * price == -((a - b) * price);
  }

  /** Two pending amounts that cancel leave the queue's total as it was. */
  lemma TwoAmountsCancel(events: seq<Event>, effective: Day, x: int, y: int)
    requires x + y == 0
    ensures PendingAmount(events + [Event(QuantityChanged, effective, Some(x), None)]
                                 + [Event(QuantityChanged, effective, Some(y), None)]) == PendingAmount(events)
  {
    AmountsSnoc(events, Event(QuantityChanged, effective, Some(x), None));
    AmountsSnoc(events + [Event(QuantityChanged, effective, Some(x), None)],
        Event(QuantityChanged, effective, Some(y), None));
  }

  lemma ReversalAmount(s: Sub, changed: Sub, quantity: int, effective: Day)
    requires changed.periodStart == s.periodStart && changed.periodEnd == s.periodEnd
             && changed.unitPrice == s.unitPrice
    ensures Prorated(changed, s.quantity - quantity, effective) == -Prorated(s, quantity - s.quantity, effective)
  {
    NegatedStep(quantity, s.quantity, s.unitPrice, DaysRemaining(s, effective));
    HalfEvenIsOdd((quantity - s.quantity) * s.unitPrice * DaysRemaining(s, effective), 100 * DaysInPeriod(s));
  }

  /** A change and its reversal on one date cancel to the cent. */
  lemma ReversalCancels(s: Sub, quantity: int, effective: Day)
    requires s.quantity > 0 && ChangeQuantity(s, quantity, effective).Committed?
    ensures var changed := ChangeQuantity(s, quantity, effective).value;
            && ChangeQuantity(changed, s.quantity, effective).Committed?
            && var back := ChangeQuantity(changed, s.quantity, effective).value;
               back.quantity == s.quantity && PendingAmount(back.events) == PendingAmount(s.events)
  {
    var changed := ChangeQuantity(s, quantity, effective).value;
    ReversalAmount(s, changed, quantity, effective);
    TwoAmountsCancel(s.events, effective, Prorated(s, quantity - s.quantity, effective),
                     Prorated(changed, s.quantity - quantity, effective));
  }
}
