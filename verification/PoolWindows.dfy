/**
 * The recurring windows during which the pool takes contributions. Instants are milliseconds
 * since 1970-01-01T00:00Z, a Thursday; the calendar is any assignment of dates to day numbers.
 */
module PoolWindows {
  import opened Prelude

  const MINUTE := 60_000
  const DAY := 24 * 60 * MINUTE
  const WEEK := 7 * DAY

  datatype Date = Date(month: int, day: int)

  type Calendar = int -> Date

  /** Day numbers and times of day, negative instants included. */
  function DayOf(t: int): int {
    t / DAY
  }

  function MinuteOfDay(t: int): int {
    (t % DAY) / MINUTE
  }

  function Weekday(t: int): int {
    (DayOf(t) + 4) % 7
  }

  // ----- weekly -----

  predicate WeeklyCovers(t: int, weekdayStart: int, minuteStart: int, weekdayEnd: int, minuteEnd: int) {
    var sunday := DayOf(t) * DAY - Weekday(t) * DAY;
    var start := sunday + weekdayStart * DAY + minuteStart * MINUTE;
    var end0 := sunday + weekdayEnd * DAY + minuteEnd * MINUTE;
    var end := if end0 <= start then end0 + WEEK else end0;
    (start <= t < end) || (start - WEEK <= t < end - WEEK)
  }

  /** The Sunday before the epoch; every other Sunday is a whole number of weeks away. */
  const SUNDAY := -4 * DAY

  function AnchoredStart(weekday: int, minute: int): int {
    SUNDAY + weekday * DAY + minute * MINUTE
  }

  function AnchoredEnd(weekdayStart: int, minuteStart: int, weekdayEnd: int, minuteEnd: int): int {
    var end := AnchoredStart(weekdayEnd, minuteEnd);
    if end <= AnchoredStart(weekdayStart, minuteStart) then end + WEEK else end
  }

  /** Some whole-week shift of the anchored window contains the instant. */
  ghost predicate InWeekly(t: int, weekdayStart: int, minuteStart: int, weekdayEnd: int, minuteEnd: int) {
    exists k: int :: InShift(t, k, AnchoredStart(weekdayStart, minuteStart),
                             AnchoredEnd(weekdayStart, minuteStart, weekdayEnd, minuteEnd))
  }

  predicate InShift(t: int, k: int, start: int, end: int) {
    start + k * WEEK <= t < end + k * WEEK
  }

  /** The Sunday the code computes is the anchor shifted by whole weeks. */
  lemma SundayIsAnchored(t: int)
    ensures DayOf(t) * DAY - Weekday(t) * DAY == SUNDAY + ((DayOf(t) + 4) / 7) * WEEK
    ensures SUNDAY + ((DayOf(t) + 4) / 7) * WEEK <= t < SUNDAY + ((DayOf(t) + 4) / 7) * WEEK + WEEK
  {
    var d, q := DayOf(t), (DayOf(t) + 4) / 7;
    assert t == d * DAY + t % DAY;
    assert d + 4 == 7 * q + Weekday(t);
    assert (d + 4) * DAY == q * WEEK + Weekday(t) * DAY;
  }

  /** The code looks at this week's instance and last week's. */
  lemma WeeklyLooksTwice(t: int, weekdayStart: int, minuteStart: int, weekdayEnd: int, minuteEnd: int)
    ensures var start := AnchoredStart(weekdayStart, minuteStart);
            var end := AnchoredEnd(weekdayStart, minuteStart, weekdayEnd, minuteEnd);
            var q := (DayOf(t) + 4) / 7;
            WeeklyCovers(t, weekdayStart, minuteStart, weekdayEnd, minuteEnd)
            <==> InShift(t, q, start, end) || InShift(t, q - 1, start, end)
  {
    SundayIsAnchored(t);
    hide Weekday, DayOf;
  }

  lemma WeeklyIsExact(t: int, weekdayStart: int, minuteStart: int, weekdayEnd: int, minuteEnd: int)
    requires 0 <= weekdayStart <= 6 && 0 <= weekdayEnd <= 6
    requires 0 <= minuteStart <= 1440 && 0 <= minuteEnd <= 1440
    ensures WeeklyCovers(t, weekdayStart, minuteStart, weekdayEnd, minuteEnd)
       <==> InWeekly(t, weekdayStart, minuteStart, weekdayEnd, minuteEnd)
  {
    var start := AnchoredStart(weekdayStart, minuteStart);
    var end := AnchoredEnd(weekdayStart, minuteStart, weekdayEnd, minuteEnd);
    var q := (DayOf(t) + 4) / 7;
    SundayIsAnchored(t);
    WeeklyLooksTwice(t, weekdayStart, minuteStart, weekdayEnd, minuteEnd);
    assert SUNDAY <= start <= SUNDAY + WEEK && start <= end <= start + WEEK;
    hide WeeklyCovers, AnchoredStart, AnchoredEnd, Weekday, DayOf, InShift;
    forall k | InShift(t, k, start, end) ensures k == q || k == q - 1 {
      OnlyTwoShifts(t, k, q, start, end);
    }
  }

  lemma OnlyTwoShifts(t: int, k: int, q: int, start: int, end: int)
    requires SUNDAY + q * WEEK <= t < SUNDAY + q * WEEK + WEEK
    requires SUNDAY <= start <= SUNDAY + WEEK && end <= start + WEEK && InShift(t, k, start, end)
    ensures k == q || k == q - 1
  {
    assert k * WEEK < (q + 1) * WEEK && (q - 2) * WEEK < k * WEEK;
  }

  // ----- monthly -----

  function FirstMinute(minuteStart: Option<int>): int {
    if minuteStart.Some? then minuteStart.value else 0
  }

  function EndMinute(minuteEnd: Option<int>): int {
    if minuteEnd.Some? then minuteEnd.value else 1440
  }

  predicate OpenToday(minute: int, minuteStart: Option<int>, minuteEnd: Option<int>) {
    var start, end := FirstMinute(minuteStart), EndMinute(minuteEnd);
    if end <= start then minute >= start else start <= minute < end
  }

  /** The part of a window across midnight that falls on the next day. */
  predicate SpillsOver(minute: int, minuteStart: Option<int>, minuteEnd: Option<int>) {
    EndMinute(minuteEnd) <= FirstMinute(minuteStart) && minute < EndMinute(minuteEnd)
  }

  predicate MonthlyCovers(t: int, days: seq<int>, minuteStart: Option<int>, minuteEnd: Option<int>, cal: Calendar) {
    || (cal(DayOf(t)).day in days && OpenToday(MinuteOfDay(t), minuteStart, minuteEnd))
    || (cal(DayOf(t - DAY)).day in days && SpillsOver(MinuteOfDay(t), minuteStart, minuteEnd))
  }

  /** The window that opens on day `d`: whole-day bounds by default, into the next day if it wraps. */
  predicate InDayWindow(t: int, d: int, minuteStart: Option<int>, minuteEnd: Option<int>) {
    var start := match minuteStart case Some(m) => m case None => 0;
    var end := match minuteEnd case Some(m) => m case None => 24 * 60;
    d * DAY + start * MINUTE <= t < d * DAY + (if end <= start then end + 1440 else end) * MINUTE
  }

  ghost predicate InMonthly(t: int, days: seq<int>, minuteStart: Option<int>, minuteEnd: Option<int>, cal: Calendar) {
    exists d: int :: cal(d).day in days && InDayWindow(t, d, minuteStart, minuteEnd)
  }

  lemma DayWindowIsNear(t: int, d: int, minuteStart: Option<int>, minuteEnd: Option<int>)
    requires minuteStart.Some? ==> 0 <= minuteStart.value <= 1440
    requires minuteEnd.Some? ==> 0 <= minuteEnd.value <= 1440
    requires InDayWindow(t, d, minuteStart, minuteEnd)
    ensures d == DayOf(t) || d == DayOf(t) - 1
  {
    var q := DayOf(t);
    assert q * DAY <= t < q * DAY + DAY;
    assert d * DAY < (q + 1) * DAY && (q - 2) * DAY < d * DAY;
  }

  /** On the day itself and on the day after, the window is a matter of the minute of the day. */
  lemma DayWindowByMinute(t: int, minuteStart: Option<int>, minuteEnd: Option<int>)
    requires minuteStart.Some? ==> 0 <= minuteStart.value <= 1440
    requires minuteEnd.Some? ==> 0 <= minuteEnd.value <= 1440
    ensures InDayWindow(t, DayOf(t), minuteStart, minuteEnd) <==> OpenToday(MinuteOfDay(t), minuteStart, minuteEnd)
    ensures InDayWindow(t, DayOf(t) - 1, minuteStart, minuteEnd) <==> SpillsOver(MinuteOfDay(t), minuteStart, minuteEnd)
  {
    var q, m := DayOf(t), MinuteOfDay(t);
    assert t == q * DAY + t % DAY && m * MINUTE <= t % DAY < m * MINUTE + MINUTE;
    hide MinuteOfDay, DayOf;
  }

  lemma MonthlyIsExact(t: int, days: seq<int>, minuteStart: Option<int>, minuteEnd: Option<int>, cal: Calendar)
    requires minuteStart.Some? ==> 0 <= minuteStart.value <= 1440
    requires minuteEnd.Some? ==> 0 <= minuteEnd.value <= 1440
    ensures MonthlyCovers(t, days, minuteStart, minuteEnd, cal) <==> InMonthly(t, days, minuteStart, minuteEnd, cal)
  {
    hide InDayWindow, MinuteOfDay, DayOf, OpenToday, SpillsOver;
    var q := DayOf(t);
    Yesterday(t);
    DayWindowByMinute(t, minuteStart, minuteEnd);
    forall d: int | InDayWindow(t, d, minuteStart, minuteEnd) ensures d == q || d == q - 1 {
      DayWindowIsNear(t, d, minuteStart, minuteEnd);
    }
  }

  lemma Yesterday(t: int)
    ensures DayOf(t - DAY) == DayOf(t) - 1
  {
  }

  // ----- yearly -----

  function Ordinal(month: int, day: int): int {
    month * 100 + day
  }

  predicate YearlyCovers(t: int, from: Date, to: Date, cal: Calendar) {
    var here := Ordinal(cal(DayOf(t)).month, cal(DayOf(t)).day);
    var start := Ordinal(from.month, from.day);
    var end := Ordinal(to.month, to.day);
    if start <= end then start <= here <= end else here >= start || here <= end
  }

  /** The day of a calendar in which every month has 31 days, the first of January being 0. */
  function Slot(d: Date): int {
    (d.month - 1) * 31 + (d.day - 1)
  }

  /** Days of that calendar from one date on to another, over the turn of the year if need be. */
  function Onwards(from: Date, to: Date): int {
    (Slot(to) - Slot(from)) % 372
  }

  predicate IsDate(d: Date) {
    1 <= d.month <= 12 && 1 <= d.day <= 31
  }

  lemma OrdinalsOrderDates(a: Date, b: Date)
    requires IsDate(a) && IsDate(b)
    ensures Ordinal(a.month, a.day) <= Ordinal(b.month, b.day) <==> Slot(a) <= Slot(b)
  {
  }

  /** Going onwards from the first date, the day is met no later than the last date. */
  lemma YearlyIsCyclic(t: int, from: Date, to: Date, cal: Calendar)
    requires IsDate(from) && IsDate(to) && IsDate(cal(DayOf(t)))
    ensures YearlyCovers(t, from, to, cal) <==> Onwards(from, cal(DayOf(t))) <= Onwards(from, to)
  {
    var here := cal(DayOf(t));
    OrdinalsOrderDates(from, to);
    OrdinalsOrderDates(from, here);
    OrdinalsOrderDates(here, from);
    OrdinalsOrderDates(here, to);
    CyclicDistance(Slot(here) - Slot(from));
    CyclicDistance(Slot(to) - Slot(from));
  }

  lemma CyclicDistance(d: int)
    requires -372 <= d < 372
    ensures d % 372 == if d >= 0 then d else d + 372
  {
  }

  // ----- the windows together -----

  datatype Window =
    | OneOff(startsAt: Option<int>, endsAt: Option<int>)
    | Weekly(weekdayStart: Option<int>, weekdayEnd: Option<int>, from: Option<int>, to: Option<int>)
    | Monthly(days: Option<seq<int>>, from: Option<int>, to: Option<int>)
    | Yearly(first: Option<Date>, last: Option<Date>)

  datatype Row = Row(enabled: bool, window: Window)

  predicate MinuteOk(m: Option<int>) {
    m.Some? ==> 0 <= m.value <= 1440
  }

  predicate WeekdayOk(d: Option<int>) {
    d.Some? ==> 0 <= d.value <= 6
  }

  /** The documented ranges of the columns. */
  predicate RowOk(r: Row) {
    match r.window
    case OneOff(_, _) => true
    case Weekly(s, e, from, to) => WeekdayOk(s) && WeekdayOk(e) && MinuteOk(from) && MinuteOk(to)
    case Monthly(_, from, to) => MinuteOk(from) && MinuteOk(to)
    case Yearly(f, l) => (f.Some? ==> IsDate(f.value)) && (l.Some? ==> IsDate(l.value))
  }

  /** What a row means; a row with a missing bound means nothing. */
  ghost predicate Open(w: Window, t: int, cal: Calendar) {
    match w
    case OneOff(s, e) => s.Some? && e.Some? && s.value <= t < e.value
    case Weekly(s, e, from, to) =>
      s.Some? && e.Some? && from.Some? && to.Some? && InWeekly(t, s.value, from.value, e.value, to.value)
    case Monthly(days, from, to) => days.Some? && InMonthly(t, days.value, from, to, cal)
    case Yearly(f, l) => f.Some? && l.Some? && Onwards(f.value, cal(DayOf(t))) <= Onwards(f.value, l.value)
  }

  /** No enabled row means always open; otherwise some enabled row must contain the instant. */
  method IsWindowOpen(rows: seq<Row>, t: int, cal: Calendar) returns (open: bool)
    requires IsDate(cal(DayOf(t))) && forall r <- rows :: RowOk(r)
    ensures open <==> (forall r <- rows :: !r.enabled) || (exists r <- rows :: r.enabled && Open(r.window, t, cal))
  {
    var enabled := 0;
    for k := 0 to |rows|
      invariant enabled == 0 <==> forall j :: 0 <= j < k ==> !rows[j].enabled
      invariant 0 <= enabled
      invariant forall j :: 0 <= j < k && rows[j].enabled ==> !Open(rows[j].window, t, cal)
    {
      var r := rows[k];
      if r.enabled {
        enabled := enabled + 1;
        var covered := RowCovers(r, t, cal);
        if covered {
          return true;
        }
      }
    }
    open := enabled == 0;
  }

  method RowCovers(r: Row, t: int, cal: Calendar) returns (covered: bool)
    requires IsDate(cal(DayOf(t))) && RowOk(r)
    ensures covered <==> Open(r.window, t, cal)
  {
    match r.window
    case OneOff(s, e) =>
      covered := s.Some? && e.Some? && s.value <= t < e.value;
    case Weekly(s, e, from, to) =>
      covered := s.Some? && e.Some? && from.Some? && to.Some?
          && WeeklyCovers(t, s.value, from.value, e.value, to.value);
      if s.Some? && e.Some? && from.Some? && to.Some? {
        WeeklyIsExact(t, s.value, from.value, e.value, to.value);
      }
    case Monthly(days, from, to) =>
      covered := days.Some? && |days.value| > 0 && MonthlyCovers(t, days.value, from, to, cal);
      if days.Some? {
        MonthlyIsExact(t, days.value, from, to, cal);
      }
    case Yearly(f, l) =>
      covered := f.Some? && l.Some? && YearlyCovers(t, f.value, l.value, cal);
      if f.Some? && l.Some? {
        YearlyIsCyclic(t, f.value, l.value, cal);
      }
  }
}
