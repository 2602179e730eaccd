/**
 * The expense calendar: one-time and recurring expenses together, grouped
 * by `yyyy-MM-dd` day, the total of the displayed month, and the month grid
 * of whole Sunday-to-Saturday weeks with the displayed month's days marked.
 */
module ExpenseCalendar {
  import opened Common
  import Folds
  import Text
  import Dates

  /** `allExpenses`: the one-time expenses followed by the recurring ones. */
  function AllExpenses(expenses: seq<Expense>, recurring: seq<Expense>): (all: seq<Expense>)
    ensures |all| == |expenses| + |recurring|
    ensures all[..|expenses|] == expenses && all[|expenses|..] == recurring
  {
    expenses + recurring
  }

  /** The day key of an expense: `format(new Date(expense.date), "yyyy-MM-dd")`. */
  function DayKeyOf(e: Expense): string {
    Text.DayKey(e.date)
  }

  /**
   * `expensesByDate`: every expense pushed onto the list of its day key, in
   * input order. `format` throws a RangeError on an invalid `Date`, so there
   * is no map at all when some expense's date is not a calendar date.
   * Otherwise a day key has a list exactly when some expense falls on it,
   * and that list is never empty.
   */
  method ExpensesByDate(all: seq<Expense>) returns (r: Option<map<string, seq<Expense>>>)
    ensures r.None? <==> exists e :: e in all && !Dates.ValidDate(e.date)
    ensures r.Some? ==> forall k :: k in r.value ==> r.value[k] == Folds.Bucket(all, DayKeyOf, k)
    ensures r.Some? ==> forall e :: e in all ==> DayKeyOf(e) in r.value && e in r.value[DayKeyOf(e)]
    ensures r.Some? ==> forall k :: k in r.value ==> r.value[k] != [] && forall e :: e in r.value[k] ==> e in all && DayKeyOf(e) == k
    ensures r.Some? ==> forall k :: k !in r.value ==> Folds.Bucket(all, DayKeyOf, k) == []
  {
    if exists e :: e in all && !Dates.ValidDate(e.date) {
      return None;
    }
    var keys, byDate := Folds.GroupBy(all, DayKeyOf);
    Folds.DistinctKeysFacts(all, DayKeyOf);
    forall e | e in all ensures e in byDate[DayKeyOf(e)] {
      Folds.BucketComplete(all, DayKeyOf, DayKeyOf(e), e);
    }
    forall k | k in byDate ensures byDate[k] != [] && forall e :: e in byDate[k] ==> e in all && DayKeyOf(e) == k {
      Folds.BucketSound(all, DayKeyOf, k);
      var e :| e in all && DayKeyOf(e) == k;
      Folds.BucketComplete(all, DayKeyOf, k, e);
    }
    forall k | k !in byDate ensures Folds.Bucket(all, DayKeyOf, k) == [] {
      Folds.BucketEmptyWhenAbsent(all, DayKeyOf, k);
    }
    r := Some(byDate);
  }

  /** A date whose key fields fit `yyyy-MM-dd`. */
  predicate KeyFits(d: Date) {
    d.year <= 9999 && d.month <= 99 && d.day <= 99
  }

  /** `expensesByDate[dateStr]?.length > 0`, for the list built by `ExpensesByDate`. */
  predicate HasExpenses(byDate: map<string, seq<Expense>>, d: Date) {
    var key := Text.DayKey(d);
    key in byDate && |byDate[key]| > 0
  }

  /**
   * A day of the grid is marked as having expenses exactly when some
   * expense, one-time or recurring, is dated on it (for dates whose key
   * fields fit `yyyy-MM-dd`).
   */
  lemma HasExpensesIff(all: seq<Expense>, byDate: map<string, seq<Expense>>, d: Date)
    requires forall k :: k in byDate ==> byDate[k] == Folds.Bucket(all, DayKeyOf, k)
    requires forall e :: e in all ==> DayKeyOf(e) in byDate && e in byDate[DayKeyOf(e)]
    requires KeyFits(d) && forall e :: e in all ==> KeyFits(e.date)
    ensures HasExpenses(byDate, d) <==> exists e :: e in all && e.date == d
  {
    var key := Text.DayKey(d);
    if HasExpenses(byDate, d) {
      Folds.BucketSound(all, DayKeyOf, key);
      var e := byDate[key][0];
      assert e in byDate[key];
      Text.DayKeyInjective(e.date, d);
    } else {
      forall e | e in all ensures e.date != d {
        assert e in byDate[DayKeyOf(e)];
      }
    }
  }

  /** The month filter of `monthlyTotal`: same month number and same year as the displayed date. */
  function InDisplayedMonth(current: Date): Expense -> bool {
    (e: Expense) => Dates.ValidDate(e.date) && e.date.month == current.month && e.date.year == current.year
  }

  /** `monthlyTotal`: Σ amounts of the expenses, one-time and recurring, dated in the displayed month. */
  function MonthlyTotal(all: seq<Expense>, current: Date): real {
    Folds.Sum(Folds.Bucket(all, InDisplayedMonth(current), true))
  }

  /**
   * The monthly total of the combined list is the one-time expenses' plus
   * the recurring expenses', each recurring expense counted once at its own
   * date rather than twelve times.
   */
  lemma MonthlyTotalSplits(expenses: seq<Expense>, recurring: seq<Expense>, current: Date)
    ensures MonthlyTotal(AllExpenses(expenses, recurring), current)
         == MonthlyTotal(expenses, current) + MonthlyTotal(recurring, current)
  {
    Folds.BucketAppend(expenses, recurring, InDisplayedMonth(current), true);
    Folds.SumAppend(Folds.Bucket(expenses, InDisplayedMonth(current), true),
                    Folds.Bucket(recurring, InDisplayedMonth(current), true));
  }

  /** One more expense raises the monthly total by its amount when it is dated in the displayed month, and by nothing otherwise. */
  lemma MonthlyTotalSnoc(all: seq<Expense>, e: Expense, current: Date)
    ensures MonthlyTotal(all + [e], current)
         == MonthlyTotal(all, current) + (if InDisplayedMonth(current)(e) then e.amount else 0.0)
  {
    var b := Folds.Bucket(all, InDisplayedMonth(current), true);
    Folds.BucketSnoc(all, e, InDisplayedMonth(current), true);
    if InDisplayedMonth(current)(e) {
      Folds.SumAppend(b, [e]);
      assert [e][..0] == [];
    } else {
      assert b + [] == b;
    }
  }

  /** `calendarDays`: from the start of the week of the 1st to the end of the week of the last day. */
  function CalendarDays(current: Date): seq<Date>
    requires Dates.ValidDate(current) && current.year >= 1
  {
    Dates.MonthGrid(current.year, current.month)
  }

  /**
   * The grid runs from `startOfWeek(startOfMonth)` to `endOfWeek(endOfMonth)`,
   * day by day, in whole Sunday-first weeks, and lists every day of the month.
   */
  lemma CalendarDaysShape(current: Date)
    requires Dates.ValidDate(current) && current.year >= 1
    ensures var g := CalendarDays(current);
      && 28 <= |g| <= 42 && |g| % 7 == 0
      && g[0] == Dates.GridFirstDay(current.year, current.month)
      && g[|g| - 1] == Dates.GridLastDay(current.year, current.month)
      && (forall i :: 0 <= i < |g| ==> Dates.Weekday(g[i]) == i % 7)
      && (forall day :: 1 <= day <= Dates.DaysInMonth(current.year, current.month) ==>
            Date(current.year, current.month, day) in g)
  {
    var y, m := current.year, current.month;
    Dates.MonthGridWeeks(y, m);
    Dates.GridIndex(y, m, 0);
    Dates.GridEndsOnLastDay(y, m);
    Dates.MonthGridCovers(y, m);
    forall day | 1 <= day <= Dates.DaysInMonth(y, m) ensures Date(y, m, day) in CalendarDays(current) {
      assert CalendarDays(current)[Dates.Lead(y, m) + day - 1] == Date(y, m, day);
    }
  }

  /** `date.getMonth() === currentDate.getMonth()`: the month number alone. */
  predicate IsCurrentMonth(date: Date, current: Date) {
    date.month == current.month
  }

  /**
   * Comparing the month number alone is enough on the grid: a grid day
   * passes exactly when it is a day of the displayed year and month, that
   * is, when it lies between the leading and trailing days of other months.
   */
  lemma CurrentMonthOnGrid(current: Date, i: nat)
    requires Dates.ValidDate(current) && current.year >= 1 && i < |CalendarDays(current)|
    ensures var d := CalendarDays(current)[i];
      && (IsCurrentMonth(d, current) <==> Dates.SameMonth(d, current))
      && (IsCurrentMonth(d, current) <==>
            Dates.Lead(current.year, current.month) <= i < Dates.Lead(current.year, current.month) + Dates.DaysInMonth(current.year, current.month))
  {
    Dates.GridInMonth(current.year, current.month, i);
  }
}
