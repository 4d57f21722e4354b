/** Named date ranges (backend/src/ade_api/common/list_filters.py) over the Gregorian
    calendar of Python's `datetime`: years 1 to 9999, microseconds, one time zone. */
module Calendar {
  import opened Wrappers

  const DAY: nat := 86_400_000_000
  const MAX_YEAR := 9999
  const MAX_ORD := 3_652_059

  datatype Date = Date(year: int, month: int, day: int)

  /** A day and the microseconds since its midnight. */
  datatype Moment = Moment(date: Date, us: int)

  predicate Leap(year: int) {
    year % 4 == 0 && (year % 100 != 0 || year % 400 == 0)
  }

  function DaysIn(year: int, month: int): int {
    if month == 2 then (if Leap(year) then 29 else 28)
    else if month == 4 || month == 6 || month == 9 || month == 11 then 30
    else 31
  }

  predicate ValidDate(d: Date) {
    1 <= d.year <= MAX_YEAR && 1 <= d.month <= 12 && 1 <= d.day <= DaysIn(d.year, d.month)
  }

  predicate ValidMoment(m: Moment) {
    ValidDate(m.date) && 0 <= m.us < DAY
  }

  // ----- Counting days

  function DaysBeforeYear(year: int): int {
    (year - 1) * 365 + (year - 1) / 4 - (year - 1) / 100 + (year - 1) / 400
  }

  function DaysBeforeMonth(year: int, month: int): int
    decreases month
  {
    if month <= 1 then 0 else DaysBeforeMonth(year, month - 1) + DaysIn(year, month - 1)
  }

  /** `date.toordinal()`: 1 January of year 1 is day 1. */
  function Ord(d: Date): int {
    DaysBeforeYear(d.year) + DaysBeforeMonth(d.year, d.month) + d.day
  }

  /** `date.weekday()`: Monday is 0. */
  function Weekday(d: Date): int {
    (Ord(d) + 6) % 7
  }

  function NextDay(d: Date): Option<Date> {
    if d.day < DaysIn(d.year, d.month) then Some(d.(day := d.day + 1))
    else if d.month < 12 then Some(Date(d.year, d.month + 1, 1))
    else if d.year < MAX_YEAR then Some(Date(d.year + 1, 1, 1))
    else None
  }

  function PrevDay(d: Date): Option<Date> {
    if d.day > 1 then Some(d.(day := d.day - 1))
    else if d.month > 1 then Some(Date(d.year, d.month - 1, DaysIn(d.year, d.month - 1)))
    else if d.year > 1 then Some(Date(d.year - 1, 12, 31))
    else None
  }

  predicate IsFirst(d: Date) {
    d.year == 1 && d.month == 1 && d.day == 1
  }

  predicate IsLast(d: Date) {
    d.year == MAX_YEAR && d.month == 12 && d.day == 31
  }

  /** `d + timedelta(days=n)`; none stands for OverflowError. */
  function AddDays(d: Date, n: int): Option<Date>
    decreases if n < 0 then -n else n
  {
    if n == 0 then Some(d)
    else
      var step := if n > 0 then NextDay(d) else PrevDay(d);
      if step.None? then None else AddDays(step.value, if n > 0 then n - 1 else n + 1)
  }

  lemma YearLength(year: int)
    ensures DaysBeforeMonth(year, 12) == if Leap(year) then 335 else 334
    ensures DaysBeforeYear(year + 1) == DaysBeforeYear(year) + if Leap(year) then 366 else 365
  {
    MonthsBefore(year);
    assert year / 4 - (year - 1) / 4 == if year % 4 == 0 then 1 else 0;
    assert year / 100 - (year - 1) / 100 == if year % 100 == 0 then 1 else 0;
    assert year / 400 - (year - 1) / 400 == if year % 400 == 0 then 1 else 0;
    assert year % 100 == 0 ==> year % 4 == 0;
    assert year % 400 == 0 ==> year % 100 == 0;
  }

  lemma MonthsBefore(year: int)
    ensures var b := if Leap(year) then 1 else 0;
            && DaysBeforeMonth(year, 2) == 31 && DaysBeforeMonth(year, 3) == 59 + b && DaysBeforeMonth(year, 4) == 90 + b
            && DaysBeforeMonth(year, 5) == 120 + b && DaysBeforeMonth(year, 6) == 151 + b && DaysBeforeMonth(year, 7) == 181 + b
            && DaysBeforeMonth(year, 8) == 212 + b && DaysBeforeMonth(year, 9) == 243 + b && DaysBeforeMonth(year, 10) == 273 + b
            && DaysBeforeMonth(year, 11) == 304 + b && DaysBeforeMonth(year, 12) == 334 + b
  {
  }

  /** The successor of a day is the next valid date, one day on. */
  lemma NextIsOneOn(d: Date)
    requires ValidDate(d)
    ensures NextDay(d).Some? ==> ValidDate(NextDay(d).value) && Ord(NextDay(d).value) == Ord(d) + 1
    ensures NextDay(d).None? <==> IsLast(d)
  {
    if d.day == 31 && d.month == 12 && d.year < MAX_YEAR {
      NewYear(NextDay(d).value, d);
    }
  }

  /** Going one day back from there is where one came from. */
  lemma PrevOfNext(d: Date)
    requires ValidDate(d) && NextDay(d).Some?
    ensures AddDays(NextDay(d).value, -1) == Some(d)
  {
  }

  lemma PrevIsOneBack(d: Date)
    requires ValidDate(d)
    ensures PrevDay(d).Some? ==> ValidDate(PrevDay(d).value) && Ord(PrevDay(d).value) == Ord(d) - 1
    ensures PrevDay(d).None? <==> IsFirst(d)
  {
    if PrevDay(d).Some? {
      NextOfPrev(d);
      NextIsOneOn(PrevDay(d).value);
    }
  }

  lemma NextOfPrev(d: Date)
    requires ValidDate(d) && PrevDay(d).Some?
    ensures ValidDate(PrevDay(d).value) && NextDay(PrevDay(d).value) == Some(d)
  {
  }

  lemma NewYear(d: Date, e: Date)
    requires d.month == 1 && d.day == 1 && e == Date(d.year - 1, 12, 31)
    ensures Ord(e) + 1 == Ord(d)
  {
    YearLength(e.year);
  }

  lemma {:induction false} MonthGrows(year: int, m: int, n: int)
    requires 1 <= m < n <= 12
    ensures DaysBeforeMonth(year, m) + DaysIn(year, m) <= DaysBeforeMonth(year, n)
    decreases n
  {
    if m < n - 1 {
      MonthGrows(year, m, n - 1);
    }
  }

  lemma {:induction false} YearGrows(y: int, z: int)
    requires y < z
    ensures DaysBeforeYear(y + 1) <= DaysBeforeYear(z)
    decreases z - y
  {
    if y + 1 < z {
      YearLength(z - 1);
      YearGrows(y, z - 1);
    }
  }

  /** Where the days of a year lie. */
  lemma OrdInYear(d: Date)
    requires ValidDate(d)
    ensures DaysBeforeYear(d.year) < Ord(d) <= DaysBeforeYear(d.year + 1)
  {
    YearLength(d.year);
    MonthsBefore(d.year);
    if d.month < 12 {
      MonthGrows(d.year, d.month, 12);
    }
  }

  predicate Before(d: Date, e: Date) {
    d.year < e.year || (d.year == e.year && (d.month < e.month || (d.month == e.month && d.day < e.day)))
  }

  lemma OrdOrder(d: Date, e: Date)
    requires ValidDate(d) && ValidDate(e)
    ensures Before(d, e) <==> Ord(d) < Ord(e)
    ensures d == e <==> Ord(d) == Ord(e)
  {
    OrdUp(d, e);
    OrdUp(e, d);
  }

  lemma OrdUp(d: Date, e: Date)
    requires ValidDate(d) && ValidDate(e)
    ensures Before(d, e) ==> Ord(d) < Ord(e)
  {
    if d.year < e.year {
      OrdInYear(d);
      OrdInYear(e);
      YearGrows(d.year, e.year);
    } else if d.year == e.year && d.month < e.month {
      MonthGrows(d.year, d.month, e.month);
    }
  }

  lemma LastDayOrd(d: Date)
    requires IsLast(d)
    ensures Ord(d) == MAX_ORD
  {
    MonthsBefore(d.year);
    assert DaysBeforeYear(d.year) == 3_651_694;
    assert !Leap(d.year);
  }

  lemma OrdBetween(first: Date, d: Date, last: Date)
    requires ValidDate(first) && ValidDate(d) && ValidDate(last) && !Before(d, first) && !Before(last, d)
    ensures Ord(first) <= Ord(d) <= Ord(last) && (Ord(d) == Ord(first) <==> d == first) && (Ord(d) == Ord(last) <==> d == last)
  {
    OrdOrder(d, last);
    OrdOrder(last, d);
    OrdOrder(d, first);
  }

  lemma OrdBoundsFor(first: Date, d: Date, last: Date)
    requires IsFirst(first) && ValidDate(d) && IsLast(last)
    ensures 1 <= Ord(d) <= MAX_ORD && (Ord(d) == 1 <==> IsFirst(d)) && (Ord(d) == MAX_ORD <==> IsLast(d))
  {
    LastDayOrd(last);
    OrdBetween(first, d, last);
  }

  lemma OrdBounds(d: Date)
    requires ValidDate(d)
    ensures 1 <= Ord(d) <= MAX_ORD
    ensures (Ord(d) == 1 <==> IsFirst(d)) && (Ord(d) == MAX_ORD <==> IsLast(d))
  {
    OrdBoundsFor(Date(1, 1, 1), d, Date(MAX_YEAR, 12, 31));
  }

  lemma OrdRange(d: Date)
    requires ValidDate(d)
    ensures 1 <= Ord(d) <= MAX_ORD
  {
    OrdBounds(d);
  }

  /** A day and its ordinal, or no day outside the calendar. */
  predicate IsDay(d: Option<Date>, ord: int) {
    if 1 <= ord <= MAX_ORD then d.Some? && ValidDate(d.value) && Ord(d.value) == ord else d.None?
  }

  lemma StepIsDay(d: Date)
    requires ValidDate(d)
    ensures 1 <= Ord(d) <= MAX_ORD && IsDay(NextDay(d), Ord(d) + 1) && IsDay(PrevDay(d), Ord(d) - 1)
  {
    OrdBounds(d);
    NextIsOneOn(d);
    PrevIsOneBack(d);
  }

  /** Adding days moves the ordinal by as much, and overflows exactly outside the calendar. */
  lemma {:induction false} AddDaysMoves(d: Date, n: int, ord: int)
    requires ValidDate(d) && ord == Ord(d)
    ensures IsDay(AddDays(d, n), ord + n)
    decreases if n < 0 then -n else n
  {
    StepIsDay(d);
    var step := if n > 0 then NextDay(d) else PrevDay(d);
    if n != 0 && step.Some? {
      AddDaysMoves(step.value, if n > 0 then n - 1 else n + 1, if n > 0 then ord + 1 else ord - 1);
    }
  }

  // ----- Ranges

  datatype Range = Range(start: Moment, end: Moment)

  /** What a token gives: it is not one of these, `datetime` raises, or a range. */
  datatype Outcome = NotNamed | Raised | Resolved(range: Range)

  function StartOfDay(m: Moment): Moment {
    m.(us := 0)
  }

  function EndOfDay(m: Moment): Moment {
    m.(us := DAY - 1)
  }

  /** `m + timedelta(days=n)`. */
  function PlusDays(m: Moment, n: int): Option<Moment> {
    match AddDays(m.date, n)
    case None => None
    case Some(date) => Some(m.(date := date))
  }

  /** `m.replace(year=..., month=..., day=...)`. */
  function Replace(m: Moment, date: Date): Option<Moment> {
    if ValidDate(date) then Some(m.(date := date)) else None
  }

  datatype Unit = Day | Week | Month | Year

  /** `_start_of_day`, `_start_of_week`, `_start_of_month`, `_start_of_year`. */
  function StartOf(unit: Unit, m: Moment): Option<Moment> {
    var first :=
      match unit
      case Day => Some(m)
      case Week => PlusDays(m, -Weekday(m.date))
      case Month => Replace(m, m.date.(day := 1))
      case Year => Replace(m, m.date.(month := 1, day := 1));
    if first.None? then None else Some(StartOfDay(first.value))
  }

  /** `_end_of_day`, `_end_of_week`, `_end_of_month`, `_end_of_year`. */
  function EndOf(unit: Unit, m: Moment): Option<Moment> {
    var last :=
      match unit
      case Day => Some(m)
      case Week => Then(StartOf(Week, m), 6)
      case Month =>
        var next := if m.date.month == 12 then Date(m.date.year + 1, 1, 1) else Date(m.date.year, m.date.month + 1, 1);
        Then(Replace(m, next), -1)
      case Year => Then(Replace(m, Date(m.date.year + 1, 1, 1)), -1);
    if last.None? then None else Some(EndOfDay(last.value))
  }

  function Then(m: Option<Moment>, days: int): Option<Moment> {
    if m.None? then None else PlusDays(m.value, days)
  }

  function RangeOf(unit: Unit, m: Option<Moment>): Outcome {
    if m.None? || StartOf(unit, m.value).None? || EndOf(unit, m.value).None? then Raised
    else Resolved(Range(StartOf(unit, m.value).value, EndOf(unit, m.value).value))
  }

  datatype Name = Today | Yesterday | Tomorrow | ThisWeek | LastWeek | ThisMonth | LastMonth | ThisYear | LastYear

  function NameOf(token: string): Option<Name> {
    match token
    case "today" => Some(Today)
    case "yesterday" => Some(Yesterday)
    case "tomorrow" => Some(Tomorrow)
    case "this_week" => Some(ThisWeek)
    case "last_week" => Some(LastWeek)
    case "this_month" => Some(ThisMonth)
    case "last_month" => Some(LastMonth)
    case "this_year" => Some(ThisYear)
    case "last_year" => Some(LastYear)
    case _ => None
  }

  /** `_resolve_named_relative_range`, once the token is known. */
  function ResolveName(name: Name, now: Moment): Outcome {
    match name
    case Today => RangeOf(Day, Some(now))
    case Yesterday => RangeOf(Day, PlusDays(now, -1))
    case Tomorrow => RangeOf(Day, PlusDays(now, 1))
    case ThisWeek => RangeOf(Week, Some(now))
    case LastWeek => RangeOf(Week, PlusDays(now, -7))
    case ThisMonth => RangeOf(Month, Some(now))
    case LastMonth => RangeOf(Month, Then(Replace(now, now.date.(day := 1)), -1))
    case ThisYear => RangeOf(Year, Some(now))
    case LastYear => RangeOf(Year, Replace(now, now.date.(year := now.date.year - 1)))
  }

  /** `_resolve_named_relative_range`. */
  function ResolveNamed(token: string, now: Moment): Outcome {
    match NameOf(token)
    case None => NotNamed
    case Some(name) => ResolveName(name, now)
  }

  datatype Direction = Past | Last | Next

  /** `_resolve_relative_range_token`, once the pattern has given direction and count. */
  function ResolveRelative(direction: Direction, count: int, now: Moment): Outcome {
    if count <= 0 then NotNamed
    else
      var other := PlusDays(now, if direction.Next? then count - 1 else -(count - 1));
      if other.None? then Raised
      else if direction.Next? then Resolved(Range(StartOfDay(now), EndOfDay(other.value)))
      else Resolved(Range(StartOfDay(other.value), EndOfDay(now)))
  }

  // ----- What the ranges are

  /** Microseconds since the calendar began. */
  function Micros(m: Moment): int {
    Ord(m.date) * DAY + m.us
  }

  predicate Within(x: Moment, r: Range) {
    Micros(r.start) <= Micros(x) <= Micros(r.end)
  }

  /** Whole days, from one ordinal to another. */
  ghost predicate Covers(r: Range, from: int, to: int) {
    && ValidMoment(r.start) && ValidMoment(r.end)
    && Micros(r.start) == from * DAY && Micros(r.end) + 1 == (to + 1) * DAY
  }

  lemma CoversDays(r: Range, from: int, to: int, x: Moment)
    requires Covers(r, from, to) && ValidMoment(x)
    ensures Within(x, r) <==> from <= Ord(x.date) <= to
  {
  }

  /** Which day, week (from Monday), month or year a date is in, counted on without gaps. */
  function Index(unit: Unit, d: Date): int {
    match unit
    case Day => Ord(d)
    case Week => (Ord(d) - 1) / 7
    case Month => 12 * d.year + d.month
    case Year => d.year
  }

  function FirstOf(unit: Unit, d: Date): int {
    match unit
    case Day => Ord(d)
    case Week => 7 * Index(Week, d) + 1
    case Month => DaysBeforeYear(d.year) + DaysBeforeMonth(d.year, d.month) + 1
    case Year => DaysBeforeYear(d.year) + 1
  }

  function LastOf(unit: Unit, d: Date): int {
    match unit
    case Day => Ord(d)
    case Week => 7 * Index(Week, d) + 7
    case Month => DaysBeforeYear(d.year) + DaysBeforeMonth(d.year, d.month) + DaysIn(d.year, d.month)
    case Year => DaysBeforeYear(d.year + 1)
  }

  /** The days of a unit are those between its first and last. */
  lemma UnitIsInterval(unit: Unit, d: Date, x: Date)
    requires ValidDate(d) && ValidDate(x)
    ensures Index(unit, x) == Index(unit, d) <==> FirstOf(unit, d) <= Ord(x) <= LastOf(unit, d)
  {
    match unit
    case Day =>
    case Week =>
    case Month => MonthIsInterval(d, x);
    case Year => YearIsInterval(d, x);
  }

  lemma MonthIsInterval(d: Date, x: Date)
    requires ValidDate(d) && ValidDate(x)
    ensures Index(Month, x) == Index(Month, d) <==> FirstOf(Month, d) <= Ord(x) <= LastOf(Month, d)
  {
    var first, last := d.(day := 1), d.(day := DaysIn(d.year, d.month));
    assert Ord(first) == FirstOf(Month, d) && Ord(last) == LastOf(Month, d);
    OrdOrder(x, first);
    OrdOrder(last, x);
  }

  lemma YearIsInterval(d: Date, x: Date)
    requires ValidDate(d) && ValidDate(x)
    ensures Index(Year, x) == Index(Year, d) <==> FirstOf(Year, d) <= Ord(x) <= LastOf(Year, d)
  {
    OrdInYear(x);
    if x.year < d.year {
      YearGrows(x.year, d.year);
    } else if d.year < x.year {
      YearGrows(d.year, x.year);
    }
  }

  /** Units with successive indexes touch. */
  lemma UnitsTouch(unit: Unit, d: Date, e: Date)
    requires ValidDate(d) && ValidDate(e) && Index(unit, d) + 1 == Index(unit, e)
    ensures LastOf(unit, d) + 1 == FirstOf(unit, e)
  {
    match unit
    case Day =>
    case Week =>
    case Month => MonthsTouch(d, e);
    case Year =>
  }

  lemma MonthsTouch(d: Date, e: Date)
    requires ValidDate(d) && ValidDate(e) && Index(Month, d) + 1 == Index(Month, e)
    ensures LastOf(Month, d) + 1 == FirstOf(Month, e)
  {
    if d.month == 12 {
      assert e.year == d.year + 1 && e.month == 1;
      YearLength(d.year);
    } else {
      assert e.year == d.year && e.month == d.month + 1;
    }
  }

  // ----- When the range functions raise, and what they return

  /** The calendar ends within the week, or right after the month or year. */
  predicate AtTheEnd(unit: Unit, d: Date) {
    match unit
    case Day => false
    case Week => Ord(d) > MAX_ORD - 5
    case Month => d.year == MAX_YEAR && d.month == 12
    case Year => d.year == MAX_YEAR
  }

  /** Either there is no such moment, or it is at midnight of the day or its last microsecond. */
  ghost predicate IsEdge(m: Option<Moment>, ord: int, us: int, missing: bool) {
    if missing then m.None? else m.Some? && ValidMoment(m.value) && Ord(m.value.date) == ord && m.value.us == us
  }

  lemma PlusDaysMoves(m: Moment, n: int)
    requires ValidMoment(m)
    ensures IsEdge(PlusDays(m, n), Ord(m.date) + n, m.us, !(1 <= Ord(m.date) + n <= MAX_ORD))
  {
    AddDaysMoves(m.date, n, Ord(m.date));
  }

  lemma WeekStart(m: Moment)
    requires ValidMoment(m)
    ensures IsEdge(StartOf(Week, m), FirstOf(Week, m.date), 0, false)
  {
    OrdRange(m.date);
    WeekArithmetic(Ord(m.date));
    PlusDaysMoves(m, -Weekday(m.date));
  }

  lemma WeekEdges(m: Moment)
    requires ValidMoment(m)
    ensures IsEdge(StartOf(Week, m), FirstOf(Week, m.date), 0, false)
    ensures IsEdge(EndOf(Week, m), LastOf(Week, m.date), DAY - 1, AtTheEnd(Week, m.date))
  {
    WeekStart(m);
    OrdRange(m.date);
    WeekArithmetic(Ord(m.date));
    var start := StartOf(Week, m).value;
    PlusDaysMoves(start, 6);
  }

  lemma WeekArithmetic(ord: int)
    requires 1 <= ord
    ensures ord - (ord + 6) % 7 == 7 * ((ord - 1) / 7) + 1
    ensures 7 * ((ord - 1) / 7) + 7 > MAX_ORD <==> ord > MAX_ORD - 5
  {
  }

  lemma MonthEdges(m: Moment)
    requires ValidMoment(m)
    ensures IsEdge(StartOf(Month, m), FirstOf(Month, m.date), 0, false)
    ensures IsEdge(EndOf(Month, m), LastOf(Month, m.date), DAY - 1, AtTheEnd(Month, m.date))
  {
    var d := m.date;
    var next := if d.month == 12 then Date(d.year + 1, 1, 1) else Date(d.year, d.month + 1, 1);
    if ValidDate(next) {
      var last := d.(day := DaysIn(d.year, d.month));
      PrevOfNext(last);
    }
  }

  lemma YearEdges(m: Moment)
    requires ValidMoment(m)
    ensures IsEdge(StartOf(Year, m), FirstOf(Year, m.date), 0, false)
    ensures IsEdge(EndOf(Year, m), LastOf(Year, m.date), DAY - 1, AtTheEnd(Year, m.date))
  {
    var next := Date(m.date.year + 1, 1, 1);
    if ValidDate(next) {
      var last := Date(m.date.year, 12, 31);
      PrevOfNext(last);
      YearLength(m.date.year);
    }
  }

  /** Whole days of the unit that the moment is in, or an error at the end of the calendar. */
  ghost predicate CoversUnit(outcome: Outcome, unit: Unit, d: Date) {
    if AtTheEnd(unit, d) then outcome == Raised
    else outcome.Resolved? && Covers(outcome.range, FirstOf(unit, d), LastOf(unit, d))
  }

  lemma RangeOfUnit(unit: Unit, m: Moment)
    requires ValidMoment(m)
    ensures CoversUnit(RangeOf(unit, Some(m)), unit, m.date)
  {
    match unit
    case Day =>
    case Week => WeekEdges(m);
    case Month => MonthEdges(m);
    case Year => YearEdges(m);
  }

  function UnitOf(name: Name): Unit {
    match name
    case Today | Yesterday | Tomorrow => Day
    case ThisWeek | LastWeek => Week
    case ThisMonth | LastMonth => Month
    case ThisYear | LastYear => Year
  }

  /** How many units from the current one. */
  function OffsetOf(name: Name): int {
    match name
    case Today | ThisWeek | ThisMonth | ThisYear => 0
    case Yesterday | LastWeek | LastMonth | LastYear => -1
    case Tomorrow => 1
  }

  /** When `datetime` raises: past either end of the calendar, in the last units of it, and
      for `last_year` on every 29 February, which the year before does not have. */
  predicate Raises(name: Name, now: Date) {
    match name
    case Today => false
    case Yesterday => Ord(now) == 1
    case Tomorrow => Ord(now) == MAX_ORD
    case ThisWeek => Ord(now) > MAX_ORD - 5
    case LastWeek => Ord(now) <= 7
    case ThisMonth => now.year == MAX_YEAR && now.month == 12
    case LastMonth => now.year == 1 && now.month == 1
    case ThisYear => now.year == MAX_YEAR
    case LastYear => now.year == 1 || (now.month == 2 && now.day == 29)
  }

  /** What a name means: it raises in just those cases, and otherwise the range is made of the
      whole days of a unit that is so many units from the current one. */
  ghost predicate Means(name: Name, now: Date, outcome: Outcome) {
    if Raises(name, now) then outcome == Raised
    else outcome.Resolved? && exists d :: IsUnitRange(outcome.range, name, now, d)
  }

  ghost predicate IsUnitRange(r: Range, name: Name, now: Date, d: Date) {
    var unit := UnitOf(name);
    ValidDate(d) && Index(unit, d) == Index(unit, now) + OffsetOf(name) && Covers(r, FirstOf(unit, d), LastOf(unit, d))
  }

  lemma NamedBy(name: Name, now: Moment, e: Moment)
    requires ValidMoment(now) && ValidMoment(e) && !Raises(name, now.date)
    requires Index(UnitOf(name), e.date) == Index(UnitOf(name), now.date) + OffsetOf(name) && !AtTheEnd(UnitOf(name), e.date)
    ensures Means(name, now.date, RangeOf(UnitOf(name), Some(e)))
  {
    RangeOfUnit(UnitOf(name), e);
    var range := RangeOf(UnitOf(name), Some(e)).range;
    assert IsUnitRange(range, name, now.date, e.date);
  }

  /** A shifted moment that exists unless the name raises. */
  lemma NamedShift(name: Name, now: Moment, e: Option<Moment>)
    requires ValidMoment(now) && (Raises(name, now.date) <==> e.None?)
    requires e.Some? ==>
      && ValidMoment(e.value) && !AtTheEnd(UnitOf(name), e.value.date)
      && Index(UnitOf(name), e.value.date) == Index(UnitOf(name), now.date) + OffsetOf(name)
    ensures Means(name, now.date, RangeOf(UnitOf(name), e))
  {
    if e.Some? {
      NamedBy(name, now, e.value);
    }
  }

  /** Yesterday, tomorrow and last week add days to now. */
  lemma DaysShift(name: Name, now: Moment, e: Option<Moment>, days: int)
    requires ValidMoment(now) && IsEdge(e, Ord(now.date) + days, now.us, !(1 <= Ord(now.date) + days <= MAX_ORD))
    requires (name == Yesterday && days == -1) || (name == Tomorrow && days == 1) || (name == LastWeek && days == -7)
    ensures Means(name, now.date, RangeOf(UnitOf(name), e))
  {
    OrdRange(now.date);
    NamedShift(name, now, e);
  }

  lemma MonthBefore(now: Moment)
    requires ValidMoment(now)
    ensures Means(LastMonth, now.date, RangeOf(Month, Then(Replace(now, now.date.(day := 1)), -1)))
  {
    var first := now.date.(day := 1);
    assert AddDays(first, -1) == PrevDay(first);
    PrevIsOneBack(first);
    if !Raises(LastMonth, now.date) {
      NamedBy(LastMonth, now, now.(date := PrevDay(first).value));
    }
  }

  lemma YearBefore(now: Moment)
    requires ValidMoment(now)
    ensures Means(LastYear, now.date, RangeOf(Year, Replace(now, now.date.(year := now.date.year - 1))))
  {
    assert Leap(now.date.year) ==> !Leap(now.date.year - 1);
    if !Raises(LastYear, now.date) {
      NamedBy(LastYear, now, now.(date := now.date.(year := now.date.year - 1)));
    }
  }

  lemma CurrentUnit(name: Name, now: Moment)
    requires ValidMoment(now) && OffsetOf(name) == 0
    ensures Means(name, now.date, RangeOf(UnitOf(name), Some(now)))
  {
    RangeOfUnit(UnitOf(name), now);
    if !Raises(name, now.date) {
      NamedBy(name, now, now);
    }
  }

  /** Every named range is what its name says, and raises exactly when it must. */
  lemma NamedRangeMeans(name: Name, now: Moment)
    requires ValidMoment(now)
    ensures Means(name, now.date, ResolveName(name, now))
  {
    match name
    case Yesterday =>
      PlusDaysMoves(now, -1);
      DaysShift(name, now, PlusDays(now, -1), -1);
    case Tomorrow =>
      PlusDaysMoves(now, 1);
      DaysShift(name, now, PlusDays(now, 1), 1);
    case LastWeek =>
      PlusDaysMoves(now, -7);
      DaysShift(name, now, PlusDays(now, -7), -7);
    case LastMonth => MonthBefore(now);
    case LastYear => YearBefore(now);
    case Today | ThisWeek | ThisMonth | ThisYear => CurrentUnit(name, now);
  }

  /** So does every token, and any other token gives no range here. */
  lemma TokenMeans(token: string, now: Moment)
    requires ValidMoment(now)
    ensures match NameOf(token)
            case None => ResolveNamed(token, now) == NotNamed
            case Some(name) => Means(name, now.date, ResolveNamed(token, now))
  {
    if NameOf(token).Some? {
      NamedRangeMeans(NameOf(token).value, now);
    }
  }

  /** So a moment is in a named range exactly when its day, week, month or year is the named
      one: in particular a current range contains now and no other named range does. */
  lemma NamedRangeContains(name: Name, now: Moment, x: Moment, r: Range)
    requires ValidMoment(now) && ValidMoment(x) && ResolveName(name, now) == Resolved(r)
    ensures Within(x, r) <==> Index(UnitOf(name), x.date) == Index(UnitOf(name), now.date) + OffsetOf(name)
  {
    NamedRangeMeans(name, now);
    var unit := UnitOf(name);
    var d :| IsUnitRange(r, name, now.date, d);
    CoversDays(r, FirstOf(unit, d), LastOf(unit, d), x);
    UnitIsInterval(unit, d, x.date);
  }

  /** Successive ranges of one unit tile time: the next starts one microsecond after the end. */
  lemma NamedRangesTile(name: Name, name': Name, now: Moment, r: Range, r': Range)
    requires ValidMoment(now) && ResolveName(name, now) == Resolved(r) && ResolveName(name', now) == Resolved(r')
    requires UnitOf(name) == UnitOf(name') && OffsetOf(name) + 1 == OffsetOf(name')
    ensures Micros(r.end) + 1 == Micros(r'.start)
  {
    NamedRangeMeans(name, now);
    NamedRangeMeans(name', now);
    var unit := UnitOf(name);
    var d :| IsUnitRange(r, name, now.date, d);
    var e :| IsUnitRange(r', name', now.date, e);
    UnitsTouch(unit, d, e);
  }

  // ----- The texts

  /** The moments of one unit, so many units from now, or an error in these cases. */
  ghost predicate IsUnit(outcome: Outcome, now: Moment, unit: Unit, offset: int, raises: bool) {
    if raises then outcome == Raised
    else outcome.Resolved? && forall x :: ValidMoment(x) ==>
      (Within(x, outcome.range) <==> Index(unit, x.date) == Index(unit, now.date) + offset)
  }

  lemma NameIsUnit(name: Name, now: Moment, unit: Unit, offset: int, raises: bool)
    requires ValidMoment(now) && unit == UnitOf(name) && offset == OffsetOf(name) && raises == Raises(name, now.date)
    ensures IsUnit(ResolveName(name, now), now, unit, offset, raises)
  {
    NamedRangeMeans(name, now);
    if !raises {
      var r := ResolveName(name, now).range;
      forall x | ValidMoment(x)
        ensures Within(x, r) <==> Index(unit, x.date) == Index(unit, now.date) + offset
      {
        NamedRangeContains(name, now, x, r);
      }
    }
  }

  /** The word of a unit in a token. */
  function WordOf(unit: Unit): string {
    match unit
    case Day => "day"
    case Week => "week"
    case Month => "month"
    case Year => "year"
  }

  /** No unit before the first, and no 29 February in the year before. */
  predicate NoneBefore(unit: Unit, d: Date) {
    match unit
    case Day => Ord(d) == 1
    case Week => Ord(d) <= 7
    case Month => d.year == 1 && d.month == 1
    case Year => d.year == 1 || (d.month == 2 && d.day == 29)
  }

  lemma ThisText(unit: Unit) returns (name: Name)
    requires unit != Day
    ensures NameOf("this_" + WordOf(unit)) == Some(name) && UnitOf(name) == unit && OffsetOf(name) == 0
  {
    match unit
    case Week =>
      assert "this_" + WordOf(unit) == "this_week";
      name := ThisWeek;
    case Month =>
      assert "this_" + WordOf(unit) == "this_month";
      name := ThisMonth;
    case Year =>
      assert "this_" + WordOf(unit) == "this_year";
      name := ThisYear;
  }

  lemma LastText(unit: Unit) returns (name: Name)
    requires unit != Day
    ensures NameOf("last_" + WordOf(unit)) == Some(name) && UnitOf(name) == unit && OffsetOf(name) == -1
  {
    match unit
    case Week =>
      assert "last_" + WordOf(unit) == "last_week";
      name := LastWeek;
    case Month =>
      assert "last_" + WordOf(unit) == "last_month";
      name := LastMonth;
    case Year =>
      assert "last_" + WordOf(unit) == "last_year";
      name := LastYear;
  }

  lemma TokenIsUnit(token: string, name: Name, now: Moment, unit: Unit, offset: int, raises: bool)
    requires ValidMoment(now) && NameOf(token) == Some(name) && UnitOf(name) == unit && OffsetOf(name) == offset
    requires raises == Raises(name, now.date)
    ensures IsUnit(ResolveNamed(token, now), now, unit, offset, raises)
  {
    NameIsUnit(name, now, unit, offset, raises);
  }

  /** `this_week`, `this_month`, `this_year`: the moments of the current unit; an error only when
      its last day is followed by no other, or for a week is not in the calendar. */
  lemma ThisUnit(unit: Unit, now: Moment, token: string)
    requires ValidMoment(now) && unit != Day && token == "this_" + WordOf(unit)
    ensures IsUnit(ResolveNamed(token, now), now, unit, 0, AtTheEnd(unit, now.date))
  {
    var name := ThisText(unit);
    TokenIsUnit(token, name, now, unit, 0, AtTheEnd(unit, now.date));
  }

  /** `last_week`, `last_month`, `last_year`: the moments of the unit before. */
  lemma LastUnit(unit: Unit, now: Moment, token: string)
    requires ValidMoment(now) && unit != Day && token == "last_" + WordOf(unit)
    ensures IsUnit(ResolveNamed(token, now), now, unit, -1, NoneBefore(unit, now.date))
  {
    var name := LastText(unit);
    TokenIsUnit(token, name, now, unit, -1, NoneBefore(unit, now.date));
  }

  /** The three words for days. */
  lemma DayWord(token: string, now: Moment, offset: int, raises: bool)
    requires ValidMoment(now)
    requires || (token == "today" && offset == 0 && !raises)
             || (token == "yesterday" && offset == -1 && raises == (Ord(now.date) == 1))
             || (token == "tomorrow" && offset == 1 && raises == (Ord(now.date) == MAX_ORD))
    ensures IsUnit(ResolveNamed(token, now), now, Day, offset, raises)
  {
    var name := if offset == 0 then Today else if offset == -1 then Yesterday else Tomorrow;
    DayText(token, name);
    TokenIsUnit(token, name, now, Day, offset, raises);
  }

  lemma DayText(token: string, name: Name)
    requires (token == "today" && name == Today) || (token == "yesterday" && name == Yesterday) || (token == "tomorrow" && name == Tomorrow)
    ensures NameOf(token) == Some(name)
  {
  }

  /** No other text names a range here. */
  lemma NoOtherText(token: string, now: Moment)
    requires token !in {"today", "yesterday", "tomorrow"}
    requires forall unit: Unit :: unit != Day ==> token != "this_" + WordOf(unit) && token != "last_" + WordOf(unit)
    ensures ResolveNamed(token, now) == NotNamed
  {
    assert "this_" + WordOf(Week) == "this_week" && "last_" + WordOf(Week) == "last_week";
    assert "this_" + WordOf(Month) == "this_month" && "last_" + WordOf(Month) == "last_month";
    assert "this_" + WordOf(Year) == "this_year" && "last_" + WordOf(Year) == "last_year";
  }

  /** `past_N_days`, `last_N_days` and `next_N_days` are exactly N whole days that end or begin
      with today; they raise exactly when that leaves the calendar. */
  lemma RelativeRangeMeans(direction: Direction, count: int, now: Moment)
    requires ValidMoment(now)
    ensures var today, outcome := Ord(now.date), ResolveRelative(direction, count, now);
            if count <= 0 then outcome == NotNamed
            else if direction.Next? then
              if today + count - 1 > MAX_ORD then outcome == Raised
              else outcome.Resolved? && Covers(outcome.range, today, today + count - 1)
            else
              if today - count + 1 < 1 then outcome == Raised
              else outcome.Resolved? && Covers(outcome.range, today - count + 1, today)
  {
    if count > 0 {
      OrdRange(now.date);
      PlusDaysMoves(now, if direction.Next? then count - 1 else -(count - 1));
    }
  }
}
