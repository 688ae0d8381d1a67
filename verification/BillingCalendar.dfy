/** Billing cycles on the wall clock: the reference computation tiles time, and the service's own
    computation agrees with it except before the reset in a month after a shorter one. */
module BillingCalendar {

  /** Months counted from January of the year 0, days from 1; `second` of the day. */
  datatype Date = Date(month: int, day: int)

  datatype Moment = Moment(date: Date, second: int)

  const DAY := 24 * 60 * 60

  predicate Leap(year: int) {
    year % 4 == 0 && (year % 100 != 0 || year % 400 == 0)
  }

  function Days(month: int): (d: int)
    ensures 28 <= d <= 31
  {
    var m := month % 12;
    if m == 1 then if Leap(month / 12) then 29 else 28
    else if m == 3 || m == 5 || m == 8 || m == 10 then 30 else 31
  }

  predicate Valid(d: Date) {
    1 <= d.day <= Days(d.month)
  }

  predicate OnClock(t: Moment) {
    Valid(t.date) && 0 <= t.second < DAY
  }

  predicate DateLess(a: Date, b: Date) {
    a.month < b.month || (a.month == b.month && a.day < b.day)
  }

  predicate Less(a: Moment, b: Moment) {
    DateLess(a.date, b.date) || (a.date == b.date && a.second < b.second)
  }

  function Midnight(d: Date): Moment {
    Moment(d, 0)
  }

  /** Any day count is brought back into the calendar, as date arithmetic does. */
  function Normalize(month: int, day: int): (d: Date)
    ensures Valid(d)
    decreases if day < 1 then 1 - day else 0, if day < 1 then 0 else day
  {
    if day < 1 then Normalize(month - 1, day + Days(month - 1))
    else if day > Days(month) then Normalize(month + 1, day - Days(month))
    else Date(month, day)
  }

  function AddDays(d: Date, n: int): Date {
    Normalize(d.month, d.day + n)
  }

  function AddMonths(d: Date, n: int): Date {
    Normalize(d.month + n, d.day)
  }

  function DaysInMonth(month: int): int {
    Normalize(month + 1, 0).day
  }

  function Min(a: int, b: int): int { if a < b then a else b }

  // ---------- the reference ----------

  /** The day a cycle begins in a month; short months begin it on their last day. */
  function StartIn(month: int, resetDay: int): (d: Date)
    requires resetDay >= 1
    ensures Valid(d)
  {
    Date(month, Min(resetDay, Days(month)))
  }

  function CycleStart(now: Moment, resetDay: int): Date
    requires OnClock(now) && resetDay >= 1
  {
    var start := StartIn(now.date.month, resetDay);
    if Less(now, Midnight(start)) then
      var previous := AddDays(start.(day := 1), -1);
      StartIn(previous.month, resetDay)
    else start
  }

  function CycleEnd(start: Date, resetDay: int): Date
    requires Valid(start) && resetDay >= 1
  {
    StartIn(AddDays(start.(day := 28), 4).month, resetDay)
  }

  lemma NextMonth(d: Date)
    requires Valid(d)
    ensures AddDays(d.(day := 28), 4).month == d.month + 1
    ensures AddDays(d.(day := 1), -1) == Date(d.month - 1, Days(d.month - 1))
  {
    assert Normalize(d.month, 32) == Normalize(d.month + 1, 32 - Days(d.month));
    assert Normalize(d.month, 0) == Normalize(d.month - 1, Days(d.month - 1));
  }

  /** Every moment lies in its cycle, which ends where the next one begins. */
  lemma CyclesTile(now: Moment, resetDay: int)
    requires OnClock(now) && resetDay >= 1
    ensures var start := CycleStart(now, resetDay);
            var end := CycleEnd(start, resetDay);
            && !Less(now, Midnight(start)) && Less(now, Midnight(end))
            && CycleStart(Midnight(end), resetDay) == end
  {
    NextMonth(StartIn(now.date.month, resetDay));
    NextMonth(CycleStart(now, resetDay));
    NextMonth(CycleEnd(CycleStart(now, resetDay), resetDay));
  }

  /** Two moments have the same cycle exactly when one lies in the other's. */
  lemma SameCycle(a: Moment, b: Moment, resetDay: int)
    requires OnClock(a) && OnClock(b) && resetDay >= 1
    ensures var start := CycleStart(a, resetDay);
            CycleStart(b, resetDay) == start
            <==> !Less(b, Midnight(start)) && Less(b, Midnight(CycleEnd(start, resetDay)))
  {
    CyclesTile(b, resetDay);
    NextMonth(StartIn(a.date.month, resetDay));
    NextMonth(StartIn(b.date.month, resetDay));
    NextMonth(CycleStart(a, resetDay));
  }

  // ---------- the service ----------

  /** The same, with a step of one calendar month back from the day already clamped. */
  function BillingCycleStart(now: Moment, resetDay: int): Date
    requires OnClock(now)
  {
    var reset := if resetDay < 1 then 1 else resetDay;
    var month := now.date.month;
    var start := Date(month, Min(reset, DaysInMonth(month)));
    if Less(now, Midnight(start)) then
      var previous := AddMonths(start, -1);
      Date(previous.month, Min(reset, DaysInMonth(previous.month)))
    else start
  }

  lemma LastDay(month: int)
    ensures DaysInMonth(month) == Days(month)
  {
    assert Normalize(month + 1, 0) == Normalize(month, Days(month));
  }

  /** The two agree, except before the start of a cycle in a month whose clamped start day the
      month before does not have: then the step back lands in the same month. */
  lemma StartsAgree(now: Moment, resetDay: int)
    requires OnClock(now) && resetDay >= 1
    ensures BillingCycleStart(now, resetDay) == CycleStart(now, resetDay)
            <==> !(Less(now, Midnight(StartIn(now.date.month, resetDay)))
                   && Min(resetDay, Days(now.date.month)) > Days(now.date.month - 1))
  {
    var month := now.date.month;
    var day := Min(resetDay, Days(month));
    LastDay(month);
    LastDay(month - 1);
    NextMonth(StartIn(month, resetDay));
    if day > Days(month - 1) {
      assert AddMonths(Date(month, day), -1) == Normalize(month, day - Days(month - 1));
    }
  }

  /** Where they differ the service already names the start to come. */
  lemma DisagreementIsAhead(now: Moment, resetDay: int)
    requires OnClock(now) && resetDay >= 1
    ensures BillingCycleStart(now, resetDay) != CycleStart(now, resetDay)
            ==> BillingCycleStart(now, resetDay) == CycleEnd(CycleStart(now, resetDay), resetDay)
  {
    var month := now.date.month;
    var day := Min(resetDay, Days(month));
    LastDay(month);
    LastDay(month - 1);
    NextMonth(StartIn(month, resetDay));
    NextMonth(CycleStart(now, resetDay));
    if day > Days(month - 1) {
      assert AddMonths(Date(month, day), -1) == Normalize(month, day - Days(month - 1));
    }
  }

  lemma StartsAreValid(now: Moment, resetDay: int)
    requires OnClock(now) && resetDay >= 1
    ensures Valid(CycleStart(now, resetDay)) && Valid(BillingCycleStart(now, resetDay))
  {
    DisagreementIsAhead(now, resetDay);
  }

  /** The hour does not matter. */
  lemma DateDecides(a: Moment, b: Moment, resetDay: int)
    requires OnClock(a) && OnClock(b) && a.date == b.date
    ensures BillingCycleStart(a, resetDay) == BillingCycleStart(b, resetDay)
  {
  }

  /** Up to the 28th they always agree. */
  lemma EarlyResetsAgree(now: Moment, resetDay: int)
    requires OnClock(now) && 1 <= resetDay <= 28
    ensures BillingCycleStart(now, resetDay) == CycleStart(now, resetDay)
  {
    StartsAgree(now, resetDay);
  }

  /** The 15th of March 2025, resetting on the 31st: the cycle began on the 28th of February, but
      the service says the 31st of March. */
  lemma MarchIsAhead()
    ensures var now := Moment(Date(2025 * 12 + 2, 15), 0);
            && OnClock(now)
            && CycleStart(now, 31) == Date(2025 * 12 + 1, 28)
            && BillingCycleStart(now, 31) == Date(2025 * 12 + 2, 31)
  {
    var now := Moment(Date(2025 * 12 + 2, 15), 0);
    DisagreementIsAhead(now, 31);
    StartsAgree(now, 31);
    NextMonth(Date(2025 * 12 + 2, 31));
    NextMonth(Date(2025 * 12 + 1, 28));
  }

  /** Cycle starts never go back as time goes on, on either side and for every reset day. */
  lemma StartsAreMonotone(a: Moment, b: Moment, resetDay: int)
    requires OnClock(a) && OnClock(b) && resetDay >= 1 && Less(a, b)
    ensures !DateLess(CycleStart(b, resetDay), CycleStart(a, resetDay))
    ensures !DateLess(BillingCycleStart(b, resetDay), BillingCycleStart(a, resetDay))
  {
    hide Days, Normalize;
    StartsAgree(a, resetDay);
    StartsAgree(b, resetDay);
    DisagreementIsAhead(a, resetDay);
    DisagreementIsAhead(b, resetDay);
    NextMonth(StartIn(a.date.month, resetDay));
    NextMonth(StartIn(b.date.month, resetDay));
    NextMonth(CycleStart(a, resetDay));
    NextMonth(CycleStart(b, resetDay));
  }
}
