/** The yearly recurrence written for a transition date
    (internal/ical/vtimezone.go), against the counting of weekdays in a month that
    gives BYDAY its meaning. */
module YearlyRule {

  datatype Date = Date(year: int, month: int, day: int)

  predicate IsLeap(year: int) {
    year % 4 == 0 && (year % 100 != 0 || year % 400 == 0)
  }

  function MonthLength(year: int, month: int): (n: int)
    requires 1 <= month <= 12
    ensures 28 <= n <= 31
  {
    if month == 2 then (if IsLeap(year) then 29 else 28)
    else if month in {4, 6, 9, 11} then 30
    else 31
  }

  predicate IsDate(d: Date) {
    1 <= d.month <= 12 && 1 <= d.day <= MonthLength(d.year, d.month)
  }

  // ----- Days of the week -----

  /** Days in the months before this one. */
  function DaysBeforeMonth(year: int, month: int): int
    requires 1 <= month <= 12
    decreases month
  {
    if month == 1 then 0 else DaysBeforeMonth(year, month - 1) + MonthLength(year, month - 1)
  }

  /** Days before the first of January of a year, from year 1. */
  function DaysBeforeYear(year: int): int {
    var y := year - 1;
    365 * y + y / 4 - y / 100 + y / 400
  }

  /** The day number of a Gregorian date; day 1 of year 1 is number 1, a Monday. */
  function DayNumber(d: Date): int
    requires IsDate(d)
  {
    DaysBeforeYear(d.year) + DaysBeforeMonth(d.year, d.month) + d.day
  }

  /** 0 is Sunday. */
  function Weekday(d: Date): (w: int)
    requires IsDate(d)
    ensures 0 <= w < 7
  {
    DayNumber(d) % 7
  }

  /** The day after: what adding twenty-four hours on a fixed-offset clock gives. */
  function NextDay(d: Date): (r: Date)
    requires IsDate(d)
    ensures IsDate(r)
  {
    if d.day < MonthLength(d.year, d.month) then d.(day := d.day + 1)
    else if d.month < 12 then Date(d.year, d.month + 1, 1)
    else Date(d.year + 1, 1, 1)
  }

  function PreviousDay(d: Date): (r: Date)
    requires IsDate(d)
    ensures IsDate(r)
  {
    if d.day > 1 then d.(day := d.day - 1)
    else if d.month > 1 then Date(d.year, d.month - 1, MonthLength(d.year, d.month - 1))
    else Date(d.year - 1, 12, 31)
  }

  lemma {:induction false} YearLength(year: int)
    ensures DaysBeforeYear(year + 1) == DaysBeforeYear(year) + if IsLeap(year) then 366 else 365
  {
    Multiples4(year);
    Multiples100(year);
    Multiples400(year);
    Nested(year);
  }

  lemma {:induction false} Nested(year: int)
    ensures year % 400 == 0 ==> year % 100 == 0
    ensures year % 100 == 0 ==> year % 4 == 0
  {
    if year % 400 == 0 { Hundreds(year / 400); }
    if year % 100 == 0 { Fours(year / 100); }
  }

  lemma {:induction false} Hundreds(q: int)
    ensures (400 * q) % 100 == 0
  {}

  lemma {:induction false} Fours(q: int)
    ensures (100 * q) % 4 == 0
  {}

  lemma {:induction false} Multiples4(year: int)
    ensures year / 4 - (year - 1) / 4 == if year % 4 == 0 then 1 else 0
  {}

  lemma {:induction false} Multiples100(year: int)
    ensures year / 100 - (year - 1) / 100 == if year % 100 == 0 then 1 else 0
  {}

  lemma {:induction false} Multiples400(year: int)
    ensures year / 400 - (year - 1) / 400 == if year % 400 == 0 then 1 else 0
  {}

  lemma {:induction false} MonthsBefore(year: int)
    ensures DaysBeforeMonth(year, 12) == if IsLeap(year) then 335 else 334
  {
    assert DaysBeforeMonth(year, 2) == 31;
    assert DaysBeforeMonth(year, 4) == 90 + if IsLeap(year) then 1 else 0;
    assert DaysBeforeMonth(year, 6) == 151 + if IsLeap(year) then 1 else 0;
    assert DaysBeforeMonth(year, 8) == 212 + if IsLeap(year) then 1 else 0;
    assert DaysBeforeMonth(year, 10) == 273 + if IsLeap(year) then 1 else 0;
  }

  lemma {:induction false} NextDayNumber(d: Date)
    requires IsDate(d)
    ensures DayNumber(NextDay(d)) == DayNumber(d) + 1
  {
    if d.day == MonthLength(d.year, d.month) && d.month == 12 {
      YearLength(d.year);
      MonthsBefore(d.year);
      assert DaysBeforeMonth(d.year + 1, 1) == 0;
    }
  }

  lemma {:induction false} NextWeekday(n: int)
    ensures (n + 1) % 7 == (n % 7 + 1) % 7
  {}

  lemma {:induction false} PreviousOfNext(d: Date)
    requires IsDate(d)
    ensures PreviousDay(NextDay(d)) == d
  {}

  /** Day numbers and weekdays follow the calendar from each day to the next. */
  lemma {:induction false} NextDayCounts(d: Date)
    requires IsDate(d)
    ensures DayNumber(NextDay(d)) == DayNumber(d) + 1
    ensures Weekday(NextDay(d)) == (Weekday(d) + 1) % 7
    ensures PreviousDay(NextDay(d)) == d
  {
    NextDayNumber(d);
    NextWeekday(DayNumber(d));
    PreviousOfNext(d);
  }

  // ----- yearlyRule -----

  /** FREQ=YEARLY;BYMONTH=month;BYDAY=ordinal weekday. */
  datatype Rule = Rule(month: int, ordinal: int, weekday: int)

  function YearlyRule(t: Date): Rule
    requires IsDate(t)
  {
    var firstOfNext := if t.month == 12 then Date(t.year + 1, 1, 1) else Date(t.year, t.month + 1, 1);
    var last := PreviousDay(firstOfNext);
    var week := if t.day > last.day - 7 then -1 else (t.day - 1) / 7 + 1;
    Rule(t.month, week, Weekday(t))
  }

  // ----- What a rule means -----

  /** How many days of the month, up to that one, fall on the weekday. */
  function CountUpTo(year: int, month: int, weekday: int, day: int): int
    requires 1 <= month <= 12 && 0 <= day <= MonthLength(year, month)
    decreases day
  {
    if day == 0 then 0
    else CountUpTo(year, month, weekday, day - 1) + if Weekday(Date(year, month, day)) == weekday then 1 else 0
  }

  /** The days a rule selects: those on its weekday that are its n-th in the
      month, counted from the end for a negative ordinal. */
  predicate Selects(r: Rule, d: Date)
    requires 1 <= r.month <= 12
  {
    && IsDate(d) && d.month == r.month && Weekday(d) == r.weekday
    && var upTo := CountUpTo(d.year, d.month, r.weekday, d.day);
       var total := CountUpTo(d.year, d.month, r.weekday, MonthLength(d.year, d.month));
       if r.ordinal > 0 then upTo == r.ordinal else total - upTo + 1 == -r.ordinal
  }

  lemma {:induction false} WeekdayOfDay(year: int, month: int, day: int)
    requires 1 <= month <= 12 && 1 <= day <= MonthLength(year, month)
    ensures Weekday(Date(year, month, day)) == (Weekday(Date(year, month, 1)) + day - 1) % 7
  {
    var one := DayNumber(Date(year, month, 1));
    assert DayNumber(Date(year, month, day)) == one + day - 1;
    ModAdd(one, day - 1);
  }

  lemma {:induction false} ModAdd(a: int, b: int)
    ensures (a + b) % 7 == (a % 7 + b) % 7
  {
    var q := a / 7;
    assert a + b == a % 7 + b + 7 * q;
    ModShift(a % 7 + b, q);
  }

  lemma {:induction false} ModShift(x: int, q: int)
    ensures (x + 7 * q) % 7 == x % 7
  {
    assert x + 7 * q == 7 * (x / 7 + q) + x % 7;
  }

  /** The first day of the month on a weekday, between 1 and 7. */
  function FirstOn(year: int, month: int, weekday: int): (d: int)
    requires 1 <= month <= 12 && 0 <= weekday < 7
    ensures 1 <= d <= 7
  {
    (weekday - Weekday(Date(year, month, 1))) % 7 + 1
  }

  /** The days on a weekday are the first one and every seventh after it. */
  lemma {:induction false} OnWeekday(year: int, month: int, weekday: int, day: int)
    requires 1 <= month <= 12 && 0 <= weekday < 7 && 1 <= day <= MonthLength(year, month)
    ensures Weekday(Date(year, month, day)) == weekday <==> (day - FirstOn(year, month, weekday)) % 7 == 0
  {
    WeekdayOfDay(year, month, day);
    SameWeekday(Weekday(Date(year, month, 1)), weekday, day);
  }

  lemma {:induction false} SameWeekday(first: int, weekday: int, day: int)
    requires 0 <= first < 7 && 0 <= weekday < 7
    ensures (first + day - 1) % 7 == weekday <==> (day - ((weekday - first) % 7 + 1)) % 7 == 0
  {
    var q, r := (first + day - 1) / 7, (first + day - 1) % 7;
    assert day == 7 * q + r - first + 1;
  }

  /** Counting them is dividing by seven. */
  lemma {:induction false} CountIsWeeks(year: int, month: int, weekday: int, day: int)
    requires 1 <= month <= 12 && 0 <= weekday < 7 && 0 <= day <= MonthLength(year, month)
    ensures var first := FirstOn(year, month, weekday);
      CountUpTo(year, month, weekday, day) == if day < first then 0 else (day - first) / 7 + 1
    decreases day
  {
    if day > 0 {
      CountIsWeeks(year, month, weekday, day - 1);
      OnWeekday(year, month, weekday, day);
    }
  }

  /** The day of its month that a rule selects in a year. */
  function SelectedDay(r: Rule, year: int): int
    requires 1 <= r.month <= 12 && 0 <= r.weekday < 7
  {
    var first := FirstOn(year, r.month, r.weekday);
    if r.ordinal > 0 then first + 7 * (r.ordinal - 1)
    else first + 7 * ((MonthLength(year, r.month) - first) / 7)
  }

  lemma {:induction false} WeeksExact(first: int, day: int, n: int)
    ensures (day - first) % 7 == 0 && (day - first) / 7 + 1 == n <==> day == first + 7 * (n - 1)
  {}

  /** The n-th such weekday of a month, for n up to 4, is a day of it. */
  lemma {:induction false} SelectsNth(r: Rule, d: Date)
    requires 1 <= r.month <= 12 && 0 <= r.weekday < 7 && 1 <= r.ordinal <= 4
    ensures Selects(r, d) <==> d == Date(d.year, r.month, SelectedDay(r, d.year))
    ensures 1 <= SelectedDay(r, d.year) <= MonthLength(d.year, r.month)
  {
    var first := FirstOn(d.year, r.month, r.weekday);
    if d.month == r.month && 1 <= d.day <= MonthLength(d.year, r.month) {
      CountIsWeeks(d.year, r.month, r.weekday, d.day);
      OnWeekday(d.year, r.month, r.weekday, d.day);
      WeeksExact(first, d.day, r.ordinal);
      assert d == Date(d.year, d.month, d.day);
    }
  }

  lemma {:induction false} LastWeek(first: int, day: int, length: int)
    requires 1 <= first <= 7 && first <= day <= length && (day - first) % 7 == 0
    ensures (length - first) / 7 == (day - first) / 7 <==> day == first + 7 * ((length - first) / 7)
  {}

  lemma {:induction false} NotBeforeFirst(first: int, day: int, length: int)
    requires 1 <= first <= 7 && 28 <= length
    ensures first <= first + 7 * ((length - first) / 7) <= length
    ensures day == first + 7 * ((length - first) / 7) ==> (day - first) % 7 == 0
  {}

  lemma {:induction false} LastIsSelected(r: Rule, year: int, day: int)
    requires 1 <= r.month <= 12 && 0 <= r.weekday < 7 && r.ordinal == -1 && 1 <= day <= MonthLength(year, r.month)
    ensures Selects(r, Date(year, r.month, day)) <==> day == SelectedDay(r, year)
  {
    var first, length := FirstOn(year, r.month, r.weekday), MonthLength(year, r.month);
    CountIsWeeks(year, r.month, r.weekday, length);
    CountIsWeeks(year, r.month, r.weekday, day);
    OnWeekday(year, r.month, r.weekday, day);
    NotBeforeFirst(first, day, length);
    if first <= day && (day - first) % 7 == 0 { LastWeek(first, day, length); }
  }

  lemma {:induction false} SelectsLast(r: Rule, d: Date)
    requires 1 <= r.month <= 12 && 0 <= r.weekday < 7 && r.ordinal == -1
    ensures Selects(r, d) <==> d == Date(d.year, r.month, SelectedDay(r, d.year))
    ensures 1 <= SelectedDay(r, d.year) <= MonthLength(d.year, r.month)
  {
    var length := MonthLength(d.year, r.month);
    NotBeforeFirst(FirstOn(d.year, r.month, r.weekday), d.day, length);
    if d.month == r.month && 1 <= d.day <= length {
      LastIsSelected(r, d.year, d.day);
      assert d == Date(d.year, r.month, d.day);
    }
  }

  /** A rule with ordinal 1 to 4, or -1, selects exactly one day in every year. */
  lemma {:induction false} SelectsExactlyOne(r: Rule, d: Date)
    requires 1 <= r.month <= 12 && 0 <= r.weekday < 7 && r.ordinal in {1, 2, 3, 4, -1}
    ensures Selects(r, d) <==> d == Date(d.year, r.month, SelectedDay(r, d.year))
    ensures 1 <= SelectedDay(r, d.year) <= MonthLength(d.year, r.month)
  {
    if r.ordinal == -1 { SelectsLast(r, d); } else { SelectsNth(r, d); }
  }

  lemma {:induction false} WrittenOrdinal(t: Date)
    requires IsDate(t)
    ensures var length := MonthLength(t.year, t.month);
      YearlyRule(t) == Rule(t.month, if t.day > length - 7 then -1 else (t.day - 1) / 7 + 1, Weekday(t))
  {}

  lemma {:induction false} WeekOfMonth(first: int, day: int, length: int)
    requires 1 <= first <= 7 && 1 <= day <= length && 28 <= length <= 31 && (day - first) % 7 == 0
    ensures first <= day && (day - first) / 7 == (day - 1) / 7
    ensures day > length - 7 ==> (length - first) / 7 == (day - first) / 7
    ensures day <= length - 7 ==> 1 <= (day - 1) / 7 + 1 <= 4
  {}

  lemma {:induction false} RuleSelectsItself(t: Date)
    requires IsDate(t)
    ensures YearlyRule(t).ordinal in {1, 2, 3, 4, -1} && Selects(YearlyRule(t), t)
  {
    var w := Weekday(t);
    var first, length := FirstOn(t.year, t.month, w), MonthLength(t.year, t.month);
    WrittenOrdinal(t);
    assert t == Date(t.year, t.month, t.day);
    OnWeekday(t.year, t.month, w, t.day);
    WeekOfMonth(first, t.day, length);
    CountIsWeeks(t.year, t.month, w, t.day);
    CountIsWeeks(t.year, t.month, w, length);
  }

  /** The written rule denotes its date: its ordinal is 1 to 4 or -1, in every
      year it selects exactly one day, and in the date's own year that date. */
  lemma {:induction false} RuleDenotesDate(t: Date, year: int)
    requires IsDate(t)
    ensures var r := YearlyRule(t);
      && r.ordinal in {1, 2, 3, 4, -1}
      && Selects(r, t)
      && (exists d :: Selects(r, d) && d.year == year)
      && (forall d, e :: Selects(r, d) && Selects(r, e) && d.year == e.year ==> d == e)
  {
    var r := YearlyRule(t);
    RuleSelectsItself(t);
    var chosen := Date(year, r.month, SelectedDay(r, year));
    SelectsExactlyOne(r, chosen);
    assert Selects(r, chosen);
    forall d, e | Selects(r, d) && Selects(r, e) && d.year == e.year ensures d == e {
      SelectsExactlyOne(r, d);
      SelectsExactlyOne(r, e);
    }
  }
}
