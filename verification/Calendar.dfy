/** The billing calendar: the date arithmetic of `advance`, measured in day numbers. */
module Calendar {
  import opened Numbers
  import opened Rounding

  datatype Interval = Weekly | Monthly | Quarterly | Yearly

  datatype Date = Date(year: int, month: int, day: int)

  predicate Leap(year: int) {
    year % 4 == 0 && (year % 100 != 0 || year % 400 == 0)
  }

  function LastDay(year: int, month: int): int
    requires 1 <= month <= 12
  {
    if month == 2 then (if Leap(year) then 29 else 28)
    else if month == 4 || month == 6 || month == 9 || month == 11 then 30
    else 31
  }

  predicate ValidDate(d: Date) {
    1 <= d.year && 1 <= d.month <= 12 && 1 <= d.day <= LastDay(d.year, d.month)
  }

  /** A date that exists. */
  type Day = d: Date | ValidDate(d) witness Date(1, 1, 1)

  function DaysBeforeYear(year: int): int {
    var y := year - 1;
    365 * y + y / 4 - y / 100 + y / 400
  }

  function DaysBeforeMonth(year: int, month: int): int
    requires 1 <= month <= 12
    decreases month
  {
    if month == 1 then 0 else DaysBeforeMonth(year, month - 1) + LastDay(year, month - 1)
  }

  /** date.toordinal(): the day number, 1 January of year 1 being day 1. */
  function DayNumber(d: Date): int
    requires 1 <= d.month <= 12
  {
    DaysBeforeYear(d.year) + DaysBeforeMonth(d.year, d.month) + d.day
  }

  function NextDay(d: Date): Date
    requires 1 <= d.month <= 12
  {
    if d.day < LastDay(d.year, d.month) then d.(day := d.day + 1)
    else if d.month < 12 then Date(d.year, d.month + 1, 1)
    else Date(d.year + 1, 1, 1)
  }

  /** timedelta(days=n): the date n days on. */
  function AddDays(d: Date, n: nat): (r: Date)
    requires ValidDate(d)
    ensures ValidDate(r)
    ensures DayNumber(r) == DayNumber(d) + n
    decreases n
  {
    if n == 0 then d
    else
      NextDayIsNext(d);
      AddDays(NextDay(d), n - 1)
  }

  function MonthsIn(interval: Interval): nat {
    match interval
    case Weekly => 0
    case Monthly => 1
    case Quarterly => 3
    case Yearly => 12
  }

  /** `months` later, clamped to the end of a short month. */
  function AddMonths(d: Date, months: nat): (r: Date)
    requires 1 <= d.month <= 12
    ensures ValidDate(d) ==> ValidDate(r)
  {
    var year := d.year + (d.month - 1 + months) / 12;
    var month := (d.month - 1 + months) % 12 + 1;
    var last := LastDay(year, month);
    Date(year, month, if d.day < last then d.day else last)
  }

  /** advance: the end of `count` cycles starting at `d`. */
  function Advance(d: Date, interval: Interval, count: nat): (r: Date)
    requires ValidDate(d)
    ensures ValidDate(r)
  {
    if interval == Weekly then AddDays(d, 7 * count) else AddMonths(d, MonthsIn(interval) * count)
  }

  // ------------------------------------------------------------- day numbers

  lemma NewYearIsNext(year: int)
    ensures DaysBeforeYear(year + 1) == DaysBeforeYear(year) + if Leap(year) then 366 else 365
  {
    var y := year - 1;
    StepAcross(y, 4);
    StepAcross(y, 100);
    StepAcross(y, 400);
    assert year % 400 == 0 ==> year % 100 == 0;
    assert year % 100 == 0 ==> year % 4 == 0;
  }

  lemma StepAcross(y: int, k: int)
    requires k > 1
    ensures (y + 1) / k - y / k == if (y + 1) % k == 0 then 1 else 0
  {
    var q, r := y / k, y % k;
    if r == k - 1 {
      assert y + 1 == k * (q + 1) by { assert k * (q + 1) == k * q + k; }
      DivisionIsUnique(y + 1, k, q + 1, 0);
    } else {
      DivisionIsUnique(y + 1, k, q, r + 1);
    }
  }

  lemma MonthTable(year: int)
    ensures DaysBeforeMonth(year, 1) == 0 && DaysBeforeMonth(year, 2) == 31
    ensures var l := if Leap(year) then 1 else 0;
            && DaysBeforeMonth(year, 3) == 59 + l && DaysBeforeMonth(year, 4) == 90 + l
            && DaysBeforeMonth(year, 5) == 120 + l && DaysBeforeMonth(year, 6) == 151 + l
            && DaysBeforeMonth(year, 7) == 181 + l && DaysBeforeMonth(year, 8) == 212 + l
            && DaysBeforeMonth(year, 9) == 243 + l && DaysBeforeMonth(year, 10) == 273 + l
            && DaysBeforeMonth(year, 11) == 304 + l && DaysBeforeMonth(year, 12) == 334 + l
  {
    assert DaysBeforeMonth(year, 3) == DaysBeforeMonth(year, 2) + LastDay(year, 2);
    assert DaysBeforeMonth(year, 5) == DaysBeforeMonth(year, 4) + 30;
    assert DaysBeforeMonth(year, 7) == DaysBeforeMonth(year, 6) + 30;
    assert DaysBeforeMonth(year, 9) == DaysBeforeMonth(year, 8) + 31;
    assert DaysBeforeMonth(year, 11) == DaysBeforeMonth(year, 10) + 31;
  }

  lemma NextDayIsNext(d: Date)
    requires ValidDate(d)
    ensures ValidDate(NextDay(d)) && DayNumber(NextDay(d)) == DayNumber(d) + 1
  {
    MonthTable(d.year);
    MonthTable(d.year + 1);
    NewYearIsNext(d.year);
  }

  /** Calendar order is day-number order. */
  predicate Before(a: Date, b: Date) {
    a.year < b.year || (a.year == b.year && (a.month < b.month || (a.month == b.month && a.day < b.day)))
  }

  lemma {:induction false} YearsGrow(a: int, b: int)
    requires a < b
    ensures DaysBeforeYear(b) >= DaysBeforeYear(a) + if Leap(a) then 366 else 365
    decreases b - a
  {
    NewYearIsNext(b - 1);
    if a < b - 1 { YearsGrow(a, b - 1); }
  }

  lemma DayNumberOrders(a: Date, b: Date)
    requires ValidDate(a) && ValidDate(b)
    ensures Before(a, b) <==> DayNumber(a) < DayNumber(b)
    ensures a == b <==> DayNumber(a) == DayNumber(b)
  {
    MonthTable(a.year);
    MonthTable(b.year);
    if a.year < b.year { YearsGrow(a.year, b.year); }
    if b.year < a.year { YearsGrow(b.year, a.year); }
  }

  // ---------------------------------------------------------- one cycle's length

  lemma {:induction false} OneMonthLength(d: Date)
    requires ValidDate(d)
    ensures 28 <= DayNumber(AddMonths(d, 1)) - DayNumber(d) <= 31
  {
    MonthTable(d.year);
    MonthTable(d.year + 1);
    NewYearIsNext(d.year);
    var r := AddMonths(d, 1);
    assert if d.month == 12 then r.year == d.year + 1 && r.month == 1 else r.year == d.year && r.month == d.month + 1;
  }

  lemma ThreeMonthsLength(d: Date)
    requires ValidDate(d)
    ensures 89 <= DayNumber(AddMonths(d, 3)) - DayNumber(d) <= 92
  {
    MonthTable(d.year);
    MonthTable(d.year + 1);
    NewYearIsNext(d.year);
    var r := AddMonths(d, 3);
    if d.month >= 10 {
      assert r.year == d.year + 1 && r.month == d.month - 9;
    } else {
      assert r.year == d.year && r.month == d.month + 3;
    }
  }

  lemma TwelveMonthsLength(d: Date)
    requires ValidDate(d)
    ensures 365 <= DayNumber(AddMonths(d, 12)) - DayNumber(d) <= 366
  {
    MonthTable(d.year);
    MonthTable(d.year + 1);
    NewYearIsNext(d.year);
    var r := AddMonths(d, 12);
    assert r.year == d.year + 1 && r.month == d.month;
    LeapYearsApart(d.year);
  }

  lemma LeapYearsApart(year: int)
    ensures !(Leap(year) && Leap(year + 1))
  {
  }

  /** One cycle is a valid, strictly later date: 7 days a week, 28-31 a month, 89-92 a
      quarter, 365-366 a year. */
  lemma {:induction false} CycleLength(d: Date, interval: Interval)
    requires ValidDate(d)
    ensures var days := DayNumber(Advance(d, interval, 1)) - DayNumber(d);
            match interval
            case Weekly => days == 7
            case Monthly => 28 <= days <= 31
            case Quarterly => 89 <= days <= 92
            case Yearly => 365 <= days <= 366
  {
    match interval
    case Weekly =>
    case Monthly => OneMonthLength(d);
    case Quarterly => ThreeMonthsLength(d);
    case Yearly => TwelveMonthsLength(d);
  }

  // ------------------------------------------------------------- many cycles

  function MonthIndex(d: Date): int { 12 * d.year + d.month - 1 }

  lemma AddMonthsIndex(d: Date, months: nat)
    requires 1 <= d.month <= 12
    ensures MonthIndex(AddMonths(d, months)) == MonthIndex(d) + months
  {
  }

  /** Any positive number of cycles moves strictly forward. */
  lemma AdvanceIsLater(d: Date, interval: Interval, count: nat)
    requires ValidDate(d) && count >= 1
    ensures DayNumber(Advance(d, interval, count)) > DayNumber(d)
  {
    if interval != Weekly {
      var months := MonthsIn(interval) * count;
      assert months >= 1;

      AddMonthsIndex(d, months);
      DayNumberOrders(d, AddMonths(d, months));
    }
  }

  /** `count` advances of one cycle each, as consecutive billing does. */
  function Repeated(d: Date, interval: Interval, count: nat): (r: Date)
    requires ValidDate(d)
    ensures ValidDate(r)
    decreases count
  {
    if count == 0 then d
    else
      Advance(Repeated(d, interval, count - 1), interval, 1)
  }

  lemma ClampedDay(d: Date, months: nat)
    requires ValidDate(d)
    ensures AddMonths(d, months).day <= d.day && (AddMonths(d, months).day >= 28 || AddMonths(d, months).day == d.day)
  {
  }

  lemma OneMoreCycle(d: Date, interval: Interval, count: nat)
    requires ValidDate(d) && interval != Weekly && count > 0
    ensures var r, earlier := Repeated(d, interval, count), Repeated(d, interval, count - 1);
            && MonthIndex(r) == MonthIndex(earlier) + MonthsIn(interval)
            && r.day <= earlier.day && (r.day >= 28 || r.day == earlier.day)
  {
    var earlier := Repeated(d, interval, count - 1);
    assert MonthsIn(interval) * 1 == MonthsIn(interval);
    AddMonthsIndex(earlier, MonthsIn(interval));
    ClampedDay(earlier, MonthsIn(interval));
  }

  /** Where repeated single cycles stand: the month of one long advance, and a day that
      never exceeds the start day nor falls below the shorter of it and 28. */
  lemma {:induction false} RepeatedStands(d: Date, interval: Interval, count: nat)
    requires ValidDate(d) && interval != Weekly
    ensures var r := Repeated(d, interval, count);
            && MonthIndex(r) == MonthIndex(d) + MonthsIn(interval) * count
            && r.day <= d.day && (r.day >= 28 || r.day == d.day)
  {
    if count > 0 {
      RepeatedStands(d, interval, count - 1);
      OneMoreCycle(d, interval, count);
      var months := MonthsIn(interval);
      assert months * count == months * (count - 1) + months;
    }
  }

  /** n single-cycle advances land in the same month as one n-cycle advance, never later
      and at most three days earlier, and on the same date when the start day is at most
      28: clamping a short month forgets the original day. */
  lemma RepeatedVersusOnce(d: Date, interval: Interval, count: nat)
    requires ValidDate(d) && interval != Weekly
    ensures var r, once := Repeated(d, interval, count), Advance(d, interval, count);
            && r.year == once.year && r.month == once.month
            && once.day - 3 <= r.day <= once.day
            && (d.day <= 28 ==> r == once)
  {
    RepeatedStands(d, interval, count);
    AddMonthsIndex(d, MonthsIn(interval) * count);
  }

  /** Days in the month the k-th cycle ends in. */
  function Room(d: Date, interval: Interval, k: nat): int
    requires ValidDate(d)
  {
    LastDay(Advance(d, interval, k).year, Advance(d, interval, k).month)
  }

  /** Each single cycle keeps the day it starts from, or the last of a shorter month. */
  lemma RepeatedDay(d: Date, interval: Interval, count: nat)
    requires ValidDate(d) && interval != Weekly && count > 0
    ensures Repeated(d, interval, count).day == Min(Repeated(d, interval, count - 1).day, Room(d, interval, count))
  {
    RepeatedVersusOnce(d, interval, count);
    assert MonthsIn(interval) * 1 == MonthsIn(interval);
  }

  lemma {:induction false} RepeatedReaches(d: Date, interval: Interval, count: nat, day: int)
    requires ValidDate(d) && interval != Weekly
    ensures Repeated(d, interval, count).day >= day
            <==> d.day >= day && forall k :: 1 <= k <= count ==> Room(d, interval, k) >= day
  {
    if count > 0 {
      RepeatedReaches(d, interval, count - 1, day);
      RepeatedDay(d, interval, count);
    }
  }

  /** No drift if and only if no month a single cycle ends in is too short for the day the
      one long advance lands on. */
  lemma NoDriftIff(d: Date, interval: Interval, count: nat)
    requires ValidDate(d) && interval != Weekly
    ensures Repeated(d, interval, count) == Advance(d, interval, count)
            <==> forall k :: 1 <= k <= count ==> Room(d, interval, k) >= Advance(d, interval, count).day
  {
    RepeatedVersusOnce(d, interval, count);
    RepeatedReaches(d, interval, count, Advance(d, interval, count).day);
    ClampedDay(d, MonthsIn(interval) * count);
  }

  /** The drift is real: three single months from 31 January reach 28 April, one
      three-month advance reaches 30 April. */
  lemma {:induction false} DriftHappens()
    ensures Repeated(Date(2027, 1, 31), Monthly, 3) == Date(2027, 4, 28)
    ensures Advance(Date(2027, 1, 31), Monthly, 3) == Date(2027, 4, 30)
  {
    assert Repeated(Date(2027, 1, 31), Monthly, 1) == Date(2027, 2, 28);
    assert Repeated(Date(2027, 1, 31), Monthly, 2) == Date(2027, 3, 28);
  }
}
