/**
 * Calendar arithmetic on (year, month, day) triples in the proleptic
 * Gregorian calendar: month lengths, a day count from 0000-01-01, the
 * weekday (Sunday first, as date-fns' `startOfWeek` uses by default), the
 * next day, `eachDayOfInterval`, and the month grid both calendar views show.
 */
module Dates {
  import opened Common

  /** The Gregorian leap-year rule. */
  predicate IsLeap(y: nat) {
    y % 4 == 0 && (y % 100 != 0 || y % 400 == 0)
  }

  /** The length of month `m` of year `y`. */
  function DaysInMonth(y: nat, m: nat): (n: nat)
    requires 1 <= m <= 12
    ensures 28 <= n <= 31
  {
    if m == 2 then (if IsLeap(y) then 29 else 28)
    else if m == 4 || m == 6 || m == 9 || m == 11 then 30
    else 31
  }

  /** A date that exists: month 1..12 and a day within that month. */
  predicate ValidDate(d: Date) {
    1 <= d.month <= 12 && 1 <= d.day <= DaysInMonth(d.year, d.month)
  }

  /** The length of year `y`. */
  function DaysInYear(y: nat): nat {
    if IsLeap(y) then 366 else 365
  }

  /** Days from 0000-01-01 to the first day of year `y`. */
  function DaysBeforeYear(y: nat): nat {
    if y == 0 then 0 else DaysBeforeYear(y - 1) + DaysInYear(y - 1)
  }

  /** Days from the first of January of `y` to the first day of month `m`. */
  function DaysBeforeMonth(y: nat, m: nat): nat
    requires 1 <= m <= 12
  {
    var common := [0, 31, 59, 90, 120, 151, 181, 212, 243, 273, 304, 334][m - 1];
    if m > 2 && IsLeap(y) then common + 1 else common
  }

  /** The next month starts after this one. */
  lemma DaysBeforeMonthStep(y: nat, m: nat)
    requires 1 <= m < 12
    ensures DaysBeforeMonth(y, m + 1) == DaysBeforeMonth(y, m) + DaysInMonth(y, m)
  {
  }

  /** December ends the year. */
  lemma DaysBeforeMonthLast(y: nat)
    ensures DaysBeforeMonth(y, 12) + DaysInMonth(y, 12) == DaysInYear(y)
  {
  }

  /** Days from 0000-01-01 to the first day of month `m` of year `y`, counted back one month at a time. */
  function MonthStart(y: nat, m: nat): nat
    requires 1 <= m <= 12
    decreases y, m
  {
    if m > 1 then MonthStart(y, m - 1) + DaysInMonth(y, m - 1)
    else if y > 0 then MonthStart(y - 1, 12) + 31
    else 0
  }

  /** The number of days from 0000-01-01 to `d`. */
  function DayNumber(d: Date): int
    requires ValidDate(d)
  {
    MonthStart(d.year, d.month) + d.day - 1
  }

  /** The start of a month in closed form: the days of the earlier years and of the earlier months. */
  lemma {:induction false} MonthStartFormula(y: nat, m: nat)
    requires 1 <= m <= 12
    ensures MonthStart(y, m) == DaysBeforeYear(y) + DaysBeforeMonth(y, m)
    decreases y, m
  {
    if m > 1 {
      MonthStartFormula(y, m - 1);
      DaysBeforeMonthStep(y, m - 1);
    } else if y > 0 {
      MonthStartFormula(y - 1, 12);
      DaysBeforeMonthLast(y - 1);
    }
  }

  /** The day number in closed form: the days of the earlier years, of the earlier months, and of the month so far. */
  lemma DayNumberFormula(d: Date)
    requires ValidDate(d)
    ensures DayNumber(d) == DaysBeforeYear(d.year) + DaysBeforeMonth(d.year, d.month) + d.day - 1
  {
    MonthStartFormula(d.year, d.month);
  }

  /** The weekday of `d`: 0 is Sunday, 6 is Saturday (0000-01-01 is a Saturday). */
  function Weekday(d: Date): (w: nat)
    requires ValidDate(d)
    ensures w < 7
  {
    (DayNumber(d) + 6) % 7
  }

  /** The day after `d`. */
  function NextDay(d: Date): (n: Date)
    requires ValidDate(d)
    ensures ValidDate(n)
  {
    if d.day < DaysInMonth(d.year, d.month) then Date(d.year, d.month, d.day + 1)
    else if d.month < 12 then Date(d.year, d.month + 1, 1)
    else Date(d.year + 1, 1, 1)
  }

  /** The next day is one day further on. */
  lemma NextDayNumber(d: Date)
    requires ValidDate(d)
    ensures DayNumber(NextDay(d)) == DayNumber(d) + 1
  {
  }

  /** The date `k` days after `d`. */
  function Advance(d: Date, k: nat): (r: Date)
    requires ValidDate(d)
    ensures ValidDate(r)
    decreases k
  {
    if k == 0 then d else Advance(NextDay(d), k - 1)
  }

  /** Advancing `k` days adds `k` to the day number. */
  lemma {:induction false} AdvanceNumber(d: Date, k: nat)
    requires ValidDate(d)
    ensures DayNumber(Advance(d, k)) == DayNumber(d) + k
    decreases k
  {
    if k > 0 {
      NextDayNumber(d);
      AdvanceNumber(NextDay(d), k - 1);
    }
  }

  /** Advancing within one month only moves the day of the month. */
  lemma {:induction false} AdvanceWithinMonth(y: nat, m: nat, a: nat, k: nat)
    requires 1 <= m <= 12 && 1 <= a && a + k <= DaysInMonth(y, m)
    ensures Advance(Date(y, m, a), k) == Date(y, m, a + k)
    decreases k
  {
    if k > 0 {
      AdvanceWithinMonth(y, m, a + 1, k - 1);
    }
  }

  /** Advancing `a + b` days is advancing `a` and then `b` days. */
  lemma {:induction false} AdvanceAdd(d: Date, a: nat, b: nat)
    requires ValidDate(d)
    ensures Advance(d, a + b) == Advance(Advance(d, a), b)
    decreases a
  {
    if a > 0 {
      AdvanceAdd(NextDay(d), a - 1, b);
    }
  }

  /** The month before (y, m), as (year, month): one step back in the count of months. */
  function PrevMonth(y: nat, m: nat): (p: (nat, nat))
    requires 1 <= m <= 12 && (m > 1 || 1 <= y)
    ensures 1 <= p.1 <= 12 && p.1 != m
    ensures p.0 * 12 + p.1 + 1 == y * 12 + m
  {
    if m == 1 then (y - 1, 12) else (y, m - 1)
  }

  /** The month after (y, m), as (year, month): one step on in the count of months. */
  function NextMonth(y: nat, m: nat): (p: (nat, nat))
    requires 1 <= m <= 12
    ensures 1 <= p.1 <= 12 && p.1 != m
    ensures p.0 * 12 + p.1 == y * 12 + m + 1
  {
    if m == 12 then (y + 1, 1) else (y, m + 1)
  }

  /** The month after the month before is the month itself. */
  lemma NextAfterPrev(y: nat, m: nat)
    requires 1 <= m <= 12 && (m > 1 || 1 <= y)
    ensures NextMonth(PrevMonth(y, m).0, PrevMonth(y, m).1) == (y, m)
  {
  }

  /** The month before the month after is the month itself. */
  lemma PrevAfterNext(y: nat, m: nat)
    requires 1 <= m <= 12
    ensures PrevMonth(NextMonth(y, m).0, NextMonth(y, m).1) == (y, m)
  {
  }

  /** The day `day` would have in month (y, m): kept when the month has it, else the month's last day. */
  function ClampDay(y: nat, m: nat, day: nat): nat
    requires 1 <= m <= 12
  {
    if day <= DaysInMonth(y, m) then day else DaysInMonth(y, m)
  }

  /**
   * `addMonths(d, 1)`: the same day of the next month, or that month's last
   * day when it is shorter than the day number.
   */
  function AddOneMonth(d: Date): (r: Date)
    requires ValidDate(d)
    ensures ValidDate(r)
    ensures (r.year, r.month) == NextMonth(d.year, d.month)
    ensures r.day <= d.day && (r.day == d.day || r.day == DaysInMonth(r.year, r.month))
  {
    var n := NextMonth(d.year, d.month);
    Date(n.0, n.1, ClampDay(n.0, n.1, d.day))
  }

  /**
   * `subMonths(d, 1)`: the same day of the previous month, or that month's
   * last day when it is shorter than the day number.
   */
  function SubOneMonth(d: Date): (r: Date)
    requires ValidDate(d) && (d.month > 1 || 1 <= d.year)
    ensures ValidDate(r)
    ensures (r.year, r.month) == PrevMonth(d.year, d.month)
    ensures r.day <= d.day && (r.day == d.day || r.day == DaysInMonth(r.year, r.month))
  {
    var p := PrevMonth(d.year, d.month);
    Date(p.0, p.1, ClampDay(p.0, p.1, d.day))
  }

  /**
   * Pressing next and then previous month, or previous and then next,
   * returns to the displayed month; the day comes back too when every
   * month has it (the 28th or earlier), and may be clamped otherwise.
   */
  lemma NavigationRoundTrip(d: Date)
    requires ValidDate(d) && (d.month > 1 || 1 <= d.year)
    ensures var back := SubOneMonth(AddOneMonth(d));
      (back.year, back.month) == (d.year, d.month) && back.day <= d.day && (d.day <= 28 ==> back == d)
    ensures var forth := AddOneMonth(SubOneMonth(d));
      (forth.year, forth.month) == (d.year, d.month) && forth.day <= d.day && (d.day <= 28 ==> forth == d)
  {
    PrevAfterNext(d.year, d.month);
    NextAfterPrev(d.year, d.month);
  }

  /** `startOfWeek(d)`: the Sunday on or before `d` (at most six days earlier, so in this or the previous month). */
  function StartOfWeek(d: Date): (s: Date)
    requires ValidDate(d) && (d.year >= 1 || d.month > 1 || d.day > Weekday(d))
    ensures ValidDate(s)
  {
    var w := Weekday(d);
    if d.day > w then Date(d.year, d.month, d.day - w)
    else
      var p := PrevMonth(d.year, d.month);
      Date(p.0, p.1, DaysInMonth(p.0, p.1) + d.day - w)
  }

  /** `endOfWeek(d)`: the Saturday on or after `d`. */
  function EndOfWeek(d: Date): (e: Date)
    requires ValidDate(d)
    ensures ValidDate(e)
  {
    var w := Weekday(d);
    var dim := DaysInMonth(d.year, d.month);
    if d.day + (6 - w) <= dim then Date(d.year, d.month, d.day + (6 - w))
    else
      var n := NextMonth(d.year, d.month);
      Date(n.0, n.1, d.day + (6 - w) - dim)
  }

  /** `eachDayOfInterval({start, end})`: every day from `start` through `end`, in order. */
  function EachDay(start: Date, end: Date): (r: seq<Date>)
    requires ValidDate(start) && ValidDate(end) && DayNumber(start) <= DayNumber(end)
    ensures forall i :: 0 <= i < |r| ==> ValidDate(r[i])
  {
    Days(start, DayNumber(end) - DayNumber(start) + 1)
  }

  /** `count` consecutive days starting at `start`. */
  function Days(start: Date, count: nat): (r: seq<Date>)
    requires ValidDate(start)
    ensures |r| == count
    ensures forall i :: 0 <= i < count ==> ValidDate(r[i])
    decreases count
  {
    if count == 0 then [] else [start] + Days(NextDay(start), count - 1)
  }

  /** Day `i` of the run is `start` advanced by `i` days. */
  lemma {:induction false} DaysIndex(start: Date, count: nat, i: nat)
    requires ValidDate(start) && i < count
    ensures Days(start, count)[i] == Advance(start, i)
    decreases i
  {
    if i > 0 {
      DaysIndex(NextDay(start), count - 1, i - 1);
    }
  }

  /** First and last day of a month. */
  function FirstOfMonth(y: nat, m: nat): (d: Date)
    requires 1 <= m <= 12
    ensures ValidDate(d)
  {
    Date(y, m, 1)
  }

  function LastOfMonth(y: nat, m: nat): (d: Date)
    requires 1 <= m <= 12
    ensures ValidDate(d)
  {
    Date(y, m, DaysInMonth(y, m))
  }

  /** Number of days shown before the 1st: its weekday. */
  function Lead(y: nat, m: nat): (n: nat)
    requires 1 <= m <= 12
    ensures n < 7
  {
    Weekday(FirstOfMonth(y, m))
  }

  /** The first day the grid shows: `startOfWeek(startOfMonth(d))`. */
  function GridFirstDay(y: nat, m: nat): (d: Date)
    requires 1 <= y && 1 <= m <= 12
    ensures ValidDate(d)
  {
    StartOfWeek(FirstOfMonth(y, m))
  }

  /** The last day the grid shows: `endOfWeek(endOfMonth(d))`. */
  function GridLastDay(y: nat, m: nat): (d: Date)
    requires 1 <= m <= 12
    ensures ValidDate(d)
  {
    EndOfWeek(LastOfMonth(y, m))
  }

  /** The number of days shown: the leading days, the month, and the days up to Saturday. */
  function GridSize(y: nat, m: nat): nat
    requires 1 <= m <= 12
  {
    Lead(y, m) + DaysInMonth(y, m) + 6 - Weekday(LastOfMonth(y, m))
  }

  /** The days a calendar view shows for month (y, m), from `GridFirstDay` on. */
  function MonthGrid(y: nat, m: nat): (g: seq<Date>)
    requires 1 <= y && 1 <= m <= 12
    ensures |g| == GridSize(y, m)
    ensures forall i :: 0 <= i < |g| ==> ValidDate(g[i])
  {
    Days(GridFirstDay(y, m), GridSize(y, m))
  }

  /** Advancing from day `a` of a month past its end reaches the 1st of the next month. */
  lemma AdvanceToNextMonth(y: nat, m: nat, a: nat)
    requires 1 <= m <= 12 && 1 <= a <= DaysInMonth(y, m)
    ensures Advance(Date(y, m, a), DaysInMonth(y, m) + 1 - a)
         == Date(NextMonth(y, m).0, NextMonth(y, m).1, 1)
  {
    var dim := DaysInMonth(y, m);
    AdvanceWithinMonth(y, m, a, dim - a);
    AdvanceAdd(Date(y, m, a), dim - a, 1);
  }

  /** The grid's first day lies `Lead` days before the 1st. */
  lemma GridStart(y: nat, m: nat)
    requires 1 <= y && 1 <= m <= 12
    ensures Advance(GridFirstDay(y, m), Lead(y, m)) == FirstOfMonth(y, m)
    ensures DayNumber(GridFirstDay(y, m)) + Lead(y, m) == DayNumber(FirstOfMonth(y, m))
  {
    var s, lead := GridFirstDay(y, m), Lead(y, m);
    if lead > 0 {
      var p := PrevMonth(y, m);
      GridFirstDayBefore(y, m);
      NextAfterPrev(y, m);
      AdvanceToNextMonth(p.0, p.1, DaysInMonth(p.0, p.1) + 1 - lead);
    } else {
      assert s == FirstOfMonth(y, m);
    }
    AdvanceNumber(s, lead);
  }

  /** The grid's last day is the Saturday on or after the last day of the month. */
  lemma GridEnd(y: nat, m: nat)
    requires 1 <= m <= 12
    ensures DayNumber(GridLastDay(y, m))
         == DayNumber(LastOfMonth(y, m)) + 6 - Weekday(LastOfMonth(y, m))
  {
    var last := LastOfMonth(y, m);
    var w := Weekday(last);
    if 6 - w > 0 {
      AfterMonth(y, m, 5 - w);
    } else {
      assert GridLastDay(y, m) == last;
    }
    AdvanceNumber(last, 6 - w);
  }

  /**
   * The grid is `eachDayOfInterval({ start: startOfWeek(startOfMonth(d)),
   * end: endOfWeek(endOfMonth(d)) })`: every day from the Sunday on or
   * before the 1st through the Saturday on or after the last day.
   */
  lemma MonthGridIsInterval(y: nat, m: nat)
    requires 1 <= y && 1 <= m <= 12
    ensures DayNumber(GridFirstDay(y, m)) <= DayNumber(GridLastDay(y, m))
    ensures MonthGrid(y, m) == EachDay(GridFirstDay(y, m), GridLastDay(y, m))
  {
    GridStart(y, m);
    GridEnd(y, m);
    assert DayNumber(LastOfMonth(y, m)) == DayNumber(FirstOfMonth(y, m)) + DaysInMonth(y, m) - 1;
  }

  /** The grid's end: the last grid day is `endOfWeek(endOfMonth(d))`. */
  lemma GridEndsOnLastDay(y: nat, m: nat)
    requires 1 <= y && 1 <= m <= 12
    ensures MonthGrid(y, m)[|MonthGrid(y, m)| - 1] == GridLastDay(y, m)
  {
    var last := LastOfMonth(y, m);
    var w := Weekday(last);
    var lead, dim := Lead(y, m), DaysInMonth(y, m);
    GridInside(y, m, lead + dim - 1);
    GridIndex(y, m, lead + dim - 1);
    GridIndex(y, m, lead + dim + 5 - w);
    AdvanceAdd(GridFirstDay(y, m), lead + dim - 1, 6 - w);
    if 6 - w > 0 {
      AfterMonth(y, m, 5 - w);
    }
  }

  /** Day `i` of the grid is the start of the grid advanced by `i` days. */
  lemma GridIndex(y: nat, m: nat, i: nat)
    requires 1 <= y && 1 <= m <= 12 && i < GridSize(y, m)
    ensures MonthGrid(y, m)[i] == Advance(GridFirstDay(y, m), i)
  {
    DaysIndex(GridFirstDay(y, m), GridSize(y, m), i);
  }

  /** Reducing one summand modulo 7 first does not change the sum modulo 7. */
  lemma ModSeven(a: int, b: int)
    ensures (a + b) % 7 == (a % 7 + b) % 7
  {
    var q, r := a / 7, a % 7;
    assert a == 7 * q + r;
    assert (a + b) == 7 * q + (r + b);
  }

  /** Going back to the previous Sunday lands on weekday 0. */
  lemma SundayStart(n: int)
    ensures (n - (n + 6) % 7 + 6) % 7 == 0
  {
    var q, r := (n + 6) / 7, (n + 6) % 7;
    assert n + 6 == 7 * q + r;
    assert n - r + 6 == 7 * q;
  }

  /** Rounding `t` down to whole weeks and adding one week gives a week multiple in range. */
  lemma WholeWeeks(t: nat)
    requires 27 <= t <= 36
    ensures (t - t % 7 + 7) % 7 == 0
    ensures 28 <= t - t % 7 + 7 <= 42
  {
    var q, r := t / 7, t % 7;
    assert t == 7 * q + r;
    assert t - r + 7 == 7 * (q + 1);
  }

  /** The last of a whole number of weeks is a week's seventh day. */
  lemma LastOfWholeWeeks(n: nat)
    requires n > 0 && n % 7 == 0
    ensures (n - 1) % 7 == 6
  {
    var q := n / 7;
    assert n == 7 * q;
    assert n - 1 == 7 * (q - 1) + 6;
  }

  /** The last day's weekday follows from the first day's. */
  lemma LastWeekday(y: nat, m: nat)
    requires 1 <= m <= 12
    ensures Weekday(LastOfMonth(y, m)) == (Lead(y, m) + DaysInMonth(y, m) - 1) % 7
  {
    var f := DayNumber(FirstOfMonth(y, m));
    assert DayNumber(LastOfMonth(y, m)) == f + DaysInMonth(y, m) - 1;
    ModSeven(f + 6, DaysInMonth(y, m) - 1);
  }

  /** The grid starts on a Sunday. */
  lemma GridStartsSunday(y: nat, m: nat)
    requires 1 <= y && 1 <= m <= 12
    ensures Weekday(GridFirstDay(y, m)) == 0
  {
    GridStart(y, m);
    SundayBefore(GridFirstDay(y, m), FirstOfMonth(y, m));
  }

  /** The day `Weekday(f)` days before `f` is a Sunday. */
  lemma SundayBefore(g: Date, f: Date)
    requires ValidDate(g) && ValidDate(f)
    requires DayNumber(g) + Weekday(f) == DayNumber(f)
    ensures Weekday(g) == 0
  {
    SundayStart(DayNumber(f));
  }

  /** Day `i` after a Sunday falls on weekday `i % 7`. */
  lemma WeekdayAfterSunday(s: Date, i: nat)
    requires ValidDate(s) && Weekday(s) == 0
    ensures Weekday(Advance(s, i)) == i % 7
  {
    AdvanceNumber(s, i);
    WeekShift(DayNumber(s), i);
  }

  /** `i` days after a day number of weekday 0 comes weekday `i % 7`. */
  lemma WeekShift(n: int, i: nat)
    requires (n + 6) % 7 == 0
    ensures (n + i + 6) % 7 == i % 7
  {
    ModSeven(n + 6, i);
  }

  /**
   * The grid consists of whole weeks, Sunday first: its length is a
   * multiple of seven, between four and six weeks, and day `i` falls on
   * weekday `i % 7`.
   */
  lemma MonthGridWeeks(y: nat, m: nat)
    requires 1 <= y && 1 <= m <= 12
    ensures |MonthGrid(y, m)| % 7 == 0
    ensures 28 <= |MonthGrid(y, m)| <= 42
    ensures forall i :: 0 <= i < |MonthGrid(y, m)| ==> Weekday(MonthGrid(y, m)[i]) == i % 7
  {
    LastWeekday(y, m);
    WholeWeeks(Lead(y, m) + DaysInMonth(y, m) - 1);
    GridStartsSunday(y, m);
    forall i | 0 <= i < |MonthGrid(y, m)| ensures Weekday(MonthGrid(y, m)[i]) == i % 7 {
      GridIndex(y, m, i);
      WeekdayAfterSunday(GridFirstDay(y, m), i);
    }
  }

  /**
   * The grid shows every day of the month, in order, after `Lead` days of
   * the previous month.
   */
  lemma MonthGridCovers(y: nat, m: nat)
    requires 1 <= y && 1 <= m <= 12
    ensures Lead(y, m) + DaysInMonth(y, m) <= |MonthGrid(y, m)|
    ensures forall i :: Lead(y, m) <= i < Lead(y, m) + DaysInMonth(y, m) ==>
              MonthGrid(y, m)[i] == Date(y, m, i - Lead(y, m) + 1)
  {
    var lead := Lead(y, m);
    forall i | lead <= i < lead + DaysInMonth(y, m) ensures MonthGrid(y, m)[i] == Date(y, m, i - lead + 1) {
      GridInside(y, m, i);
    }
  }

  /** Advancing from a day `lead` days before the 1st of (y, m). */
  lemma AdvanceIntoMonth(s: Date, lead: nat, y: nat, m: nat, i: nat)
    requires ValidDate(s) && 1 <= m <= 12
    requires Advance(s, lead) == Date(y, m, 1)
    requires lead <= i < lead + DaysInMonth(y, m)
    ensures Advance(s, i) == Date(y, m, i - lead + 1)
  {
    AdvanceAdd(s, lead, i - lead);
    AdvanceWithinMonth(y, m, 1, i - lead);
  }

  /** Grid day `i`, between the leading and the trailing days, is day `i - Lead + 1` of the month. */
  lemma GridInside(y: nat, m: nat, i: nat)
    requires 1 <= y && 1 <= m <= 12
    requires Lead(y, m) <= i < Lead(y, m) + DaysInMonth(y, m)
    ensures i < |MonthGrid(y, m)|
    ensures MonthGrid(y, m)[i] == Date(y, m, i - Lead(y, m) + 1)
  {
    GridStart(y, m);
    GridIndex(y, m, i);
    AdvanceIntoMonth(GridFirstDay(y, m), Lead(y, m), y, m, i);
  }

  /** When the 1st is not a Sunday, the grid starts in the previous month, `Lead` days before its end. */
  lemma GridFirstDayBefore(y: nat, m: nat)
    requires 1 <= y && 1 <= m <= 12 && Lead(y, m) > 0
    ensures var p := PrevMonth(y, m);
      GridFirstDay(y, m) == Date(p.0, p.1, DaysInMonth(p.0, p.1) + 1 - Lead(y, m))
  {
    var d, w := FirstOfMonth(y, m), Lead(y, m);
    assert Weekday(d) == w && !(d.day > w);
  }

  /** A grid day before the 1st lies in the previous month. */
  lemma GridBefore(y: nat, m: nat, i: nat)
    requires 1 <= y && 1 <= m <= 12 && i < Lead(y, m)
    ensures i < |MonthGrid(y, m)|
    ensures MonthGrid(y, m)[i].month != m
  {
    var p := PrevMonth(y, m);
    var a := DaysInMonth(p.0, p.1) + 1 - Lead(y, m);
    GridFirstDayBefore(y, m);
    GridIndex(y, m, i);
    AdvanceWithinMonth(p.0, p.1, a, i);
  }

  /** Up to a week after the last day of a month lies in the next month. */
  lemma AfterMonth(y: nat, m: nat, k: nat)
    requires 1 <= m <= 12 && k < 7
    ensures Advance(LastOfMonth(y, m), k + 1) == Date(NextMonth(y, m).0, NextMonth(y, m).1, k + 1)
  {
    var n := NextMonth(y, m);
    assert NextDay(LastOfMonth(y, m)) == Date(n.0, n.1, 1);
    AdvanceWithinMonth(n.0, n.1, 1, k);
  }

  /** A grid day after the last lies in the next month. */
  lemma GridAfter(y: nat, m: nat, i: nat)
    requires 1 <= y && 1 <= m <= 12
    requires Lead(y, m) + DaysInMonth(y, m) <= i < |MonthGrid(y, m)|
    ensures MonthGrid(y, m)[i].month != m
  {
    var s, lead, dim := GridFirstDay(y, m), Lead(y, m), DaysInMonth(y, m);
    GridIndex(y, m, i);
    GridIndex(y, m, lead + dim - 1);
    GridInside(y, m, lead + dim - 1);
    var k := i - lead - dim;
    AdvanceAdd(s, lead + dim - 1, k + 1);
    AfterMonth(y, m, k);
  }

  /**
   * On the grid, comparing the month number alone (`getMonth() ===`) and
   * comparing year and month (`isSameMonth`) agree, and both pick out
   * exactly the days of the displayed month.
   */
  lemma GridInMonth(y: nat, m: nat, i: nat)
    requires 1 <= y && 1 <= m <= 12 && i < |MonthGrid(y, m)|
    ensures MonthGrid(y, m)[i].month == m
        <==> Lead(y, m) <= i < Lead(y, m) + DaysInMonth(y, m)
    ensures MonthGrid(y, m)[i].month == m
        <==> MonthGrid(y, m)[i].year == y && MonthGrid(y, m)[i].month == m
  {
    var lead, dim := Lead(y, m), DaysInMonth(y, m);
    if i < lead {
      GridBefore(y, m, i);
    } else if i < lead + dim {
      GridInside(y, m, i);
    } else {
      GridAfter(y, m, i);
    }
  }

  /** The days before a year are strictly increasing in the year. */
  lemma {:induction false} DaysBeforeYearMonotone(a: nat, b: nat)
    requires a < b
    ensures DaysBeforeYear(a) + DaysInYear(a) <= DaysBeforeYear(b)
    decreases b - a
  {
    if a + 1 < b {
      DaysBeforeYearMonotone(a + 1, b);
    }
  }

  /** A valid date's day number lies within its year. */
  lemma DayNumberInYear(d: Date)
    requires ValidDate(d)
    ensures DaysBeforeYear(d.year) <= DayNumber(d) < DaysBeforeYear(d.year) + DaysInYear(d.year)
  {
    DayNumberFormula(d);
  }

  /**
   * A valid date lies between the first and last day of month (y, m),
   * by day number, exactly when it has that year and month: the
   * source's `startOfMonth(now) <= date <= endOfMonth(now)` test.
   */
  lemma InMonthRange(d: Date, y: nat, m: nat)
    requires ValidDate(d) && 1 <= m <= 12
    ensures DayNumber(FirstOfMonth(y, m)) <= DayNumber(d) <= DayNumber(LastOfMonth(y, m))
        <==> d.year == y && d.month == m
  {
    DayNumberInYear(d);
    DayNumberInYear(FirstOfMonth(y, m));
    DayNumberInYear(LastOfMonth(y, m));
    DayNumberFormula(d);
    DayNumberFormula(FirstOfMonth(y, m));
    DayNumberFormula(LastOfMonth(y, m));
    if d.year < y {
      DaysBeforeYearMonotone(d.year, y);
    } else if y < d.year {
      DaysBeforeYearMonotone(y, d.year);
    } else if d.month < m {
      DaysBeforeMonthMonotone(y, d.month, m);
    } else if m < d.month {
      DaysBeforeMonthMonotone(y, m, d.month);
    }
  }

  /** Later months of a year start after earlier months end. */
  lemma DaysBeforeMonthMonotone(y: nat, a: nat, b: nat)
    requires 1 <= a < b <= 12
    ensures DaysBeforeMonth(y, a) + DaysInMonth(y, a) <= DaysBeforeMonth(y, b)
  {
  }

  /** Same calendar day: date-fns `isSameDay` on date-only values. */
  predicate SameDay(a: Date, b: Date) {
    a == b
  }

  /** Same year and month: `getMonth()` and `getFullYear()` both equal. */
  predicate SameMonth(a: Date, b: Date) {
    a.year == b.year && a.month == b.month
  }

  /** The month range test of the source, on valid dates. */
  predicate WithinMonthOf(d: Date, now: Date)
    requires ValidDate(d) && ValidDate(now)
  {
    DayNumber(FirstOfMonth(now.year, now.month)) <= DayNumber(d) <= DayNumber(LastOfMonth(now.year, now.month))
  }
}
