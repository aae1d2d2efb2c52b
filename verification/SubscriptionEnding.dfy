/** What cancelling at period end leads to. */
module SubscriptionEnding {
  import opened Outcomes
  import opened Rounding
  import opened Calendar
  import opened Subscriptions
  import opened SubscriptionTheorems

  // --------------------------------------------------------- one more bill

  /** Set to end with its period, and billed at most once since. */
  predicate Winding(s: Sub, r: Sub) {
    && r.cancelAtPeriodEnd
    && (if r.status == Ended then |r.invoices| <= |s.invoices| + 1 else |r.invoices| == |s.invoices|)
    && (s.status == Ended ==> r.status == Ended && r.invoices == s.invoices)
  }

  lemma CallKeepsWinding(s: Sub, r: Sub, call: Call)
    requires Winding(s, r)
    ensures Winding(s, After(Attempt(r, call), r))
  {
  }

  /** Once a subscription is set to end with its period, it is billed at most once more,
      whatever else is called; that bill ends it, and an ended one is never billed. */
  lemma {:induction false} OneMoreBillAtMost(s: Sub, calls: seq<Call>)
    requires s.cancelAtPeriodEnd
    ensures Winding(s, Run(s, calls))
    decreases |calls|
  {
    if calls != [] {
      OneMoreBillAtMost(s, calls[..|calls| - 1]);
      CallKeepsWinding(s, Run(s, calls[..|calls| - 1]), calls[|calls| - 1]);
    }
  }

  /** Being told to end changes neither what is billed nor when. */
  lemma CancelLeavesTheBill(s: Sub, today: Day)
    requires s.status != Ended
    ensures Cancel(s, true, today).Committed?
    ensures var c := Cancel(s, true, today).value;
            && c == s.(cancelAtPeriodEnd := true, events := c.events)
            && PendingAmount(c.events) == PendingAmount(s.events) && BaseCharge(c) == BaseCharge(s)
  {
    AmountsSnoc(s.events, Event(CancelledEvent, s.periodEnd, None, None));
  }

  lemma LastBillEnds(c: Sub, billed: Day)
    requires c.cancelAtPeriodEnd && BillIfDue(c, billed).Committed?
    ensures var ended := BillIfDue(c, billed).value;
            && ended.status == Ended && |ended.invoices| == |c.invoices| + 1
            && ended.invoices[|c.invoices|].periodStart == c.periodStart
            && ended.invoices[..|c.invoices|] == c.invoices
  {
  }

  /** That bill really comes.  An active subscription whose latest period is paid for, told
      to end with it, is charged for the following period exactly when it would have been
      without being told: its date has come, its total is not negative and the period after
      has a date. */
  lemma EndingStillBillsIff(s: Sub, today: Day, billed: Day)
    requires Valid(s) && s.status == Active && !s.cancelAtPeriodEnd && s.invoices != []
    ensures Cancel(s, true, today).Committed?
    ensures var cancelled := Cancel(s, true, today).value;
            && (BillIfDue(cancelled, billed).Committed? <==>
                  && DayNumber(s.nextBilling.value) <= DayNumber(billed)
                  && BaseCharge(s) + PendingAmount(s.events) >= 0
                  && Representable(Advance(s.periodEnd, s.interval, s.intervalCount)))
            && (BillIfDue(cancelled, billed).Committed? <==> BillIfDue(s, billed).Committed?)
            && (BillIfDue(cancelled, billed).Committed? ==>
                  var ended := BillIfDue(cancelled, billed).value;
                  && ended.status == Ended && |ended.invoices| == |s.invoices| + 1
                  && ended.invoices[|s.invoices|].periodStart == s.invoices[|s.invoices| - 1].periodEnd)
  {
    CancelLeavesTheBill(s, today);
    CancelIsValid(s, today);
    ToldToEnd(s, Cancel(s, true, today).value, billed);
  }

  lemma CancelIsValid(s: Sub, today: Day)
    requires Valid(s) && s.status != Ended
    ensures Cancel(s, true, today).Committed? && Valid(Cancel(s, true, today).value)
  {
    assert Attempt(s, DoCancel(true, today)) == Cancel(s, true, today);
    CallKeepsDates(s, DoCancel(true, today));
    CancelKeepsBooks(s, true, today);
  }

  lemma ToldToEnd(s: Sub, c: Sub, billed: Day)
    requires Valid(s) && Valid(c) && s.status == Active && s.invoices != []
    requires c == s.(cancelAtPeriodEnd := true, events := c.events)
    requires PendingAmount(c.events) == PendingAmount(s.events) && BaseCharge(c) == BaseCharge(s)
    ensures BillIfDue(c, billed).Committed? <==>
              && DayNumber(s.nextBilling.value) <= DayNumber(billed)
              && BaseCharge(s) + PendingAmount(s.events) >= 0
              && Representable(Advance(s.periodEnd, s.interval, s.intervalCount))
    ensures BillIfDue(c, billed).Committed? <==> BillIfDue(s, billed).Committed?
    ensures BillIfDue(c, billed).Committed? ==>
              var ended := BillIfDue(c, billed).value;
              && ended.status == Ended && |ended.invoices| == |s.invoices| + 1
              && ended.invoices[|s.invoices|].periodStart == s.invoices[|s.invoices| - 1].periodEnd
  {
    ToldBillsIff(s, c, billed);
    LatestPeriodIsPaid(s);
    if BillIfDue(c, billed).Committed? { LastBillEnds(c, billed); }
  }

  lemma LatestPeriodIsPaid(s: Sub)
    requires Valid(s) && s.invoices != []
    ensures s.periodStart == s.invoices[|s.invoices| - 1].periodEnd
  {
    assert s.periodStart == StartOf(s.startDate, s.invoices, |s.invoices|);
  }

  lemma ToldBillsIff(s: Sub, c: Sub, billed: Day)
    requires Valid(s) && Valid(c) && s.status == Active
    requires c == s.(cancelAtPeriodEnd := true, events := c.events)
    requires PendingAmount(c.events) == PendingAmount(s.events) && BaseCharge(c) == BaseCharge(s)
    ensures BillIfDue(c, billed).Committed? <==>
              && DayNumber(s.nextBilling.value) <= DayNumber(billed)
              && BaseCharge(s) + PendingAmount(s.events) >= 0
              && Representable(Advance(s.periodEnd, s.interval, s.intervalCount))
    ensures BillIfDue(c, billed).Committed? <==> BillIfDue(s, billed).Committed?
  {
    BilledExactlyWhen(s, billed);
    BilledExactlyWhen(c, billed);
  }

  lemma FirstBill(o: Sub, start: Day, end: Day, next: Day)
    requires Valid(o) && o.status == Active && !o.cancelAtPeriodEnd && o.events == [] && o.invoices == []
    requires o.periodStart == start && o.periodEnd == end && o.nextBilling == Some(start)
    requires BaseCharge(o) >= 0 && next == Advance(end, o.interval, o.intervalCount) && Representable(next)
    ensures BillIfDue(o, start).Committed?
    ensures var paid := BillIfDue(o, start).value;
            && paid == o.(periodStart := end, periodEnd := next, nextBilling := Some(end), invoices := paid.invoices)
            && |paid.invoices| == 1 && paid.invoices[0].periodEnd == end
  {
    BilledExactlyWhen(o, start);
    assert Swept([], 0) == [];
  }

  /** It happens to every contract: bill the first period, cancel at its end, and the run on
      that day bills a second one before it ends. */
  lemma PaidThenCancelledStillBilled(start: Day, interval: Interval, quantity: int, unitPrice: int, told: Day)
    requires quantity > 0 && BaseCharge(Opened(start, interval, quantity, unitPrice)) >= 0
    requires Representable(Advance(Advance(start, interval, 1), interval, 1))
    requires Representable(Advance(Advance(Advance(start, interval, 1), interval, 1), interval, 1))
    ensures var end := Advance(start, interval, 1);
            var s := Run(Opened(start, interval, quantity, unitPrice),
                [DoBill(start), DoCancel(true, told), DoBill(end)]);
            s.status == Ended && |s.invoices| == 2 && s.invoices[0].periodEnd == end == s.invoices[1].periodStart
  {
    var end := Advance(start, interval, 1);
    OpenedIsValid(start, interval, quantity, unitPrice);
    BilledTwice(Opened(start, interval, quantity, unitPrice), start, end, Advance(end, interval, 1), told);
  }

  lemma BilledTwice(o: Sub, start: Day, end: Day, next: Day, told: Day)
    requires Valid(o) && o.status == Active && !o.cancelAtPeriodEnd && o.events == [] && o.invoices == []
    requires o.periodStart == start && o.periodEnd == end && o.nextBilling == Some(start)
    requires BaseCharge(o) >= 0 && next == Advance(end, o.interval, o.intervalCount) && Representable(next)
    requires Representable(Advance(next, o.interval, o.intervalCount))
    ensures var s := Run(o, [DoBill(start), DoCancel(true, told), DoBill(end)]);
            s.status == Ended && |s.invoices| == 2 && s.invoices[0].periodEnd == end == s.invoices[1].periodStart
  {
    FirstBill(o, start, end, next);
    CallKeepsValid(o, DoBill(start));
    PaidThenEnds(BillIfDue(o, start).value, told, end);
    RunThree(o, DoBill(start), DoCancel(true, told), DoBill(end));
  }

  lemma PaidThenEnds(paid: Sub, told: Day, end: Day)
    requires Valid(paid) && paid.status == Active && !paid.cancelAtPeriodEnd && paid.events == []
    requires |paid.invoices| == 1 && paid.invoices[0].periodEnd == end && paid.nextBilling == Some(end)
    requires BaseCharge(paid) >= 0 && Representable(Advance(paid.periodEnd, paid.interval, paid.intervalCount))
    ensures Cancel(paid, true, told).Committed? && BillIfDue(Cancel(paid, true, told).value, end).Committed?
    ensures var s := BillIfDue(Cancel(paid, true, told).value, end).value;
            s.status == Ended && |s.invoices| == 2 && s.invoices[0].periodEnd == end == s.invoices[1].periodStart
  {
    EndingStillBillsIff(paid, told, end);
    CancelLeavesTheBill(paid, told);
    LastBillEnds(Cancel(paid, true, told).value, end);
    assert BillIfDue(Cancel(paid, true, told).value, end).value.invoices[..1][0] == paid.invoices[0];
  }

  lemma RunThree(s: Sub, a: Call, b: Call, c: Call)
    ensures var s1 := After(Attempt(s, a), s);
            var s2 := After(Attempt(s1, b), s1);
            Run(s, [a, b, c]) == After(Attempt(s2, c), s2)
  {
    assert [a, b, c][..2] == [a, b] && [a, b][..1] == [a] && [a][..0] == [];
    assert Run(s, []) == s;
    assert Run(s, [a]) == After(Attempt(s, a), s);
    assert Run(s, [a, b]) == After(Attempt(Run(s, [a]), b), Run(s, [a]));
  }

  /** One licence at 31.00 a month from 1 January 2027, cancelled on the 10th at period end. */
  lemma BilledForFebruary()
    ensures var s := Run(Opened(Date(2027, 1, 1), Monthly, 1, 310000),
                         [DoBill(Date(2027, 1, 1)), DoCancel(true, Date(2027, 1, 10)), DoBill(Date(2027, 2, 1))]);
            s.status == Ended && |s.invoices| == 2 && s.invoices[1].periodStart == Date(2027, 2, 1)
  {
    assert Advance(Date(2027, 1, 1), Monthly, 1) == Date(2027, 2, 1);
    assert Advance(Date(2027, 2, 1), Monthly, 1) == Date(2027, 3, 1);
    assert Advance(Date(2027, 3, 1), Monthly, 1) == Date(2027, 4, 1);
    HalfEvenExact(3100, 100);
    PaidThenCancelledStillBilled(Date(2027, 1, 1), Monthly, 1, 310000, Date(2027, 1, 10));
  }

  // ------------------------------------------------------- whether it ends

  predicate EndsAtOnce(call: Call) { call.DoCancel? && !call.atPeriodEnd }

  ghost predicate NoneEndsAtOnce(calls: seq<Call>) { forall i :: 0 <= i < |calls| ==> !EndsAtOnce(calls[i]) }

  /** Still open with the same invoices, or ended by one further bill. */
  predicate OpenOrBilled(s: Sub, r: Sub) {
    && r.cancelAtPeriodEnd
    && |r.invoices| == |s.invoices| + if r.status == Ended then 1 else 0
  }

  lemma CallKeepsOpenOrBilled(s: Sub, r: Sub, call: Call)
    requires OpenOrBilled(s, r) && !EndsAtOnce(call)
    ensures OpenOrBilled(s, After(Attempt(r, call), r))
  {
  }

  lemma {:induction false} RunOpenOrBilled(s: Sub, calls: seq<Call>)
    requires s.status != Ended && s.cancelAtPeriodEnd && NoneEndsAtOnce(calls)
    ensures OpenOrBilled(s, Run(s, calls))
    decreases |calls|
  {
    if calls != [] {
      RunOpenOrBilled(s, calls[..|calls| - 1]);
      CallKeepsOpenOrBilled(s, Run(s, calls[..|calls| - 1]), calls[|calls| - 1]);
    }
  }

  /** Whatever is called after an active contract was told to end with its period, short of
      cancelling it at once, it has ended if and only if one further bill went through. */
  lemma EndsIffBilledAgain(s: Sub, told: Day, calls: seq<Call>)
    requires s.status == Active && NoneEndsAtOnce(calls)
    ensures Cancel(s, true, told).Committed?
    ensures var r := Run(Cancel(s, true, told).value, calls);
            && (r.status == Ended <==> |r.invoices| == |s.invoices| + 1)
            && (r.status != Ended <==> |r.invoices| == |s.invoices|)
  {
    CancelLeavesTheBill(s, told);
    RunOpenOrBilled(Cancel(s, true, told).value, calls);
  }

  /** The bill of the current period is refused on every date: pending credits exceed the
      charge, or the next period has no date. */
  predicate Unbillable(s: Sub) {
    || BaseCharge(s) + PendingAmount(s.events) < 0
    || !Representable(Advance(s.periodEnd, s.interval, s.intervalCount))
  }

  ghost predicate OnlyBills(calls: seq<Call>) { forall i :: 0 <= i < |calls| ==> calls[i].DoBill? }

  ghost predicate SomeDue(s: Sub, calls: seq<Call>) {
    exists i :: 0 <= i < |calls| && calls[i].DoBill? && Due(s, calls[i].today)
  }

  lemma SomeDueSnoc(s: Sub, front: seq<Call>, last: Call)
    ensures SomeDue(s, front + [last]) <==> SomeDue(s, front) || (last.DoBill? && Due(s, last.today))
  {
    var calls := front + [last];
    if i :| 0 <= i < |front| && front[i].DoBill? && Due(s, front[i].today) { assert calls[i] == front[i]; }
    if last.DoBill? && Due(s, last.today) { assert calls[|front|] == last; }
  }

  lemma BillEndsIff(s: Sub, today: Day)
    requires Valid(s) && s.status == Active && s.cancelAtPeriodEnd
    ensures var r := After(BillIfDue(s, today), s);
            && (r.status == Ended <==> Due(s, today) && !Unbillable(s))
            && (r.status != Ended ==> r == s)
  {
    BilledExactlyWhen(s, today);
  }

  lemma RunOneMore(s: Sub, front: seq<Call>, today: Day)
    ensures Run(s, front + [DoBill(today)]) == After(BillIfDue(Run(s, front), today), Run(s, front))
  {
    assert (front + [DoBill(today)])[..|front|] == front;
  }

  lemma OneMoreRun(s: Sub, r: Sub, today: Day, before: bool)
    requires Valid(s) && s.status == Active && s.cancelAtPeriodEnd
    requires r.status == Ended <==> before && !Unbillable(s)
    requires r.status != Ended ==> r == s
    ensures var r' := After(BillIfDue(r, today), r);
            && (r'.status == Ended <==> (before || Due(s, today)) && !Unbillable(s))
            && (r'.status != Ended ==> r' == s)
  {
    BillEndsIff(s, today);
  }

  /** Left to the daily run, on any dates in any order, such a contract ends if and only if
      one of them is due and the bill is not refused; otherwise nothing ever changes. */
  lemma {:induction false} DailyRunsEndIff(s: Sub, calls: seq<Call>)
    requires Valid(s) && s.status == Active && s.cancelAtPeriodEnd && OnlyBills(calls)
    ensures Run(s, calls).status == Ended <==> SomeDue(s, calls) && !Unbillable(s)
    ensures Run(s, calls).status != Ended ==> Run(s, calls) == s
    decreases |calls|
  {
    if calls != [] {
      var front, last := calls[..|calls| - 1], calls[|calls| - 1];
      DailyRunsEndIff(s, front);
      RunOneMore(s, front, last.today);
      OneMoreRun(s, Run(s, front), last.today, SomeDue(s, front));
      SomeDueSnoc(s, front, last);
      assert front + [DoBill(last.today)] == calls;
    }
  }

  predicate LeavesAmounts(call: Call) { !call.DoChange? && !EndsAtOnce(call) }

  ghost predicate AllLeaveAmounts(calls: seq<Call>) { forall i :: 0 <= i < |calls| ==> LeavesAmounts(calls[i]) }

  lemma CallKeepsUnbillable(s: Sub, call: Call)
    requires s.status != Ended && Unbillable(s) && LeavesAmounts(call)
    ensures var r := After(Attempt(s, call), s);
            r.status != Ended && Unbillable(r) && r.invoices == s.invoices
  {
    match call
    case DoPause(today) => AmountsSnoc(s.events, Event(PausedEvent, today, None, None));
    case DoResume(today) => AmountsSnoc(s.events, Event(ResumedEvent, today, None, None));
    case DoCancel(_, today) => AmountsSnoc(s.events, Event(CancelledEvent, s.periodEnd, None, None));
    case _ =>
  }

  /** A contract that cannot be billed never ends, told to or not, until its quantity changes
      or it is cancelled at once. */
  lemma {:induction false} UnbillableNeverEnds(s: Sub, calls: seq<Call>)
    requires s.status != Ended && Unbillable(s) && AllLeaveAmounts(calls)
    ensures var r := Run(s, calls); r.status != Ended && Unbillable(r) && r.invoices == s.invoices
    decreases |calls|
  {
    if calls != [] {
      UnbillableNeverEnds(s, calls[..|calls| - 1]);
      CallKeepsUnbillable(Run(s, calls[..|calls| - 1]), calls[|calls| - 1]);
    }
  }

  /** Ten licences at 31.00 a month from 1 January 2027, billed, cut to one on the 10th and
      cancelled at period end: 279.00 of credit against a charge of 31.00.  The contract
      never ends. */
  lemma CreditKeepsItOpen(o: Sub, start: Day, cut: Day, later: seq<Call>)
    requires start == Date(2027, 1, 1) && cut == Date(2027, 1, 10) && o == Opened(start, Monthly, 10, 310000)
    requires AllLeaveAmounts(later)
    ensures var s := Run(o, [DoBill(start), DoChange(1, cut), DoCancel(true, cut)]);
            && s.cancelAtPeriodEnd && BaseCharge(s) == 3100 && PendingAmount(s.events) == -27900
            && Run(s, later).status != Ended && |Run(s, later).invoices| == 1
  {
    var paid := JanuaryPaid(o, cut);
    CutThenToldToEnd(o, paid, start, cut, later);
  }

  lemma CutThenToldToEnd(o: Sub, paid: Sub, start: Day, cut: Day, later: seq<Call>)
    requires BillIfDue(o, start) == Committed(paid) && DayNumber(cut) <= DayNumber(paid.periodStart)
    requires paid.status == Active && paid.quantity == 10 && paid.unitPrice == 310000 && paid.events == []
    requires |paid.invoices| == 1 && DayNumber(paid.periodEnd) == DayNumber(paid.periodStart) + 28
    requires AllLeaveAmounts(later)
    ensures var s := Run(o, [DoBill(start), DoChange(1, cut), DoCancel(true, cut)]);
            && s.cancelAtPeriodEnd && BaseCharge(s) == 3100 && PendingAmount(s.events) == -27900
            && Run(s, later).status != Ended && |Run(s, later).invoices| == 1
  {
    var changed := NineGivenUp(paid, cut);
    RunThree(o, DoBill(start), DoChange(1, cut), DoCancel(true, cut));
    CancelLeavesTheBill(changed, cut);
    UnbillableNeverEnds(Cancel(changed, true, cut).value, later);
  }

  lemma JanuaryPaid(o: Sub, cut: Day) returns (paid: Sub)
    requires o == Opened(Date(2027, 1, 1), Monthly, 10, 310000) && cut == Date(2027, 1, 10)
    ensures BillIfDue(o, Date(2027, 1, 1)) == Committed(paid)
    ensures paid.status == Active && paid.quantity == 10 && paid.unitPrice == 310000 && !paid.cancelAtPeriodEnd
    ensures paid.events == [] && |paid.invoices| == 1
    ensures DayNumber(paid.periodEnd) == DayNumber(paid.periodStart) + 28
    ensures DayNumber(cut) <= DayNumber(paid.periodStart)
  {
    JanuaryHas31Days(o);
    MonthTable(2027);
    HalfEvenExact(31000, 100);
    OpenedIsValid(Date(2027, 1, 1), Monthly, 10, 310000);
    FirstBill(o, Date(2027, 1, 1), Date(2027, 2, 1), Date(2027, 3, 1));
    paid := BillIfDue(o, Date(2027, 1, 1)).value;
  }

  lemma NineGivenUp(paid: Sub, cut: Day) returns (changed: Sub)
    requires paid.status == Active && paid.quantity == 10 && paid.unitPrice == 310000 && paid.events == []
    requires DayNumber(paid.periodEnd) == DayNumber(paid.periodStart) + 28
             && DayNumber(cut) <= DayNumber(paid.periodStart)
    ensures ChangeQuantity(paid, 1, cut) == Committed(changed)
    ensures changed.status == Active && changed.cancelAtPeriodEnd == paid.cancelAtPeriodEnd
    ensures changed.invoices == paid.invoices
    ensures BaseCharge(changed) == 3100 && PendingAmount(changed.events) == -27900
  {
    assert DaysInPeriod(paid) == 28 && DaysRemaining(paid, cut) == 28;
    HalfEvenExact(-27900, 2800);
    assert -9 * paid.unitPrice * DaysRemaining(paid, cut) == -27900 * 2800;
    assert Prorated(paid, -9, cut) == -27900;
    HalfEvenExact(3100, 100);
    AmountsSnoc([], Event(QuantityChanged, cut, Some(-27900), None));
    changed := ChangeQuantity(paid, 1, cut).value;
    assert changed.events == [Event(QuantityChanged, cut, Some(-27900), None)];
  }
}
