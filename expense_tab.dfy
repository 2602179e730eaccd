/**
 * The expense tab: this year's one-time spending, the recurring spending
 * projected over twelve months, what is left of the yearly spendable
 * income, and the expense history grouped by `YYYY-MM` month, newest first.
 */
module ExpenseTab {
  import opened Common
  import Folds
  import Text
  import Dates

  /**
   * The filter of this year's one-time expenses: dated in `year` and not
   * recurring. A date that is not a calendar date parses to an invalid
   * `Date`, whose `getFullYear()` is NaN and equals no year.
   */
  function CountsThisYear(year: nat): Expense -> bool {
    (e: Expense) => Dates.ValidDate(e.date) && e.date.year == year && !e.isRecurring
  }

  /** The one-time expenses of `year`, in order. */
  function OneTimeThisYear(expenses: seq<Expense>, year: nat): seq<Expense> {
    Folds.Bucket(expenses, CountsThisYear(year), true)
  }

  /** `reduce((total, e) => total + e.amount * 12, 0)`. */
  function SumTwelve(es: seq<Expense>): real
    decreases |es|
  {
    if es == [] then 0.0 else SumTwelve(es[..|es| - 1]) + es[|es| - 1].amount * 12.0
  }

  /** Projecting each recurring amount over a year projects their sum. */
  lemma {:induction false} SumTwelveIsTwelveSums(es: seq<Expense>)
    ensures SumTwelve(es) == 12.0 * Folds.Sum(es)
    decreases |es|
  {
    if es != [] {
      SumTwelveIsTwelveSums(es[..|es| - 1]);
    }
  }

  /** The yearly figures of the tab. */
  datatype YearSummary = YearSummary(
    oneTime: real,
    recurringYearly: real,
    total: real,
    remaining: real,
    progress: Quotient)

  /** The tab's figures from its one-time total, its projected recurring total and the yearly spendable income. */
  function Figures(oneTime: real, recurringYearly: real, spendable: real): YearSummary {
    var total := oneTime + recurringYearly;
    YearSummary(oneTime, recurringYearly, total, spendable - total, PercentOf(total, spendable))
  }

  /** The tab's totals, remaining and progress for `currentYear`. */
  function Summary(income: Option<IncomeRecord>, expenses: seq<Expense>, recurring: seq<Expense>, currentYear: nat): YearSummary {
    Figures(Folds.Sum(OneTimeThisYear(expenses, currentYear)), SumTwelve(recurring), YearlySpendable(income))
  }

  /**
   * The one-time total sums this year's one-time expenses; the recurring total is twelve times the recurring amounts; the
   * remaining and the spent amount add up to the yearly spendable income;
   * and the progress is a percentage of it, not finite when it is 0.
   */
  lemma SummaryFacts(income: Option<IncomeRecord>, expenses: seq<Expense>, recurring: seq<Expense>, currentYear: nat)
    ensures var s := Summary(income, expenses, recurring, currentYear);
      var spendable := YearlySpendable(income);
      && s.oneTime == Folds.Sum(OneTimeThisYear(expenses, currentYear))
      && s.recurringYearly == 12.0 * Folds.Sum(recurring)
      && s.total == s.oneTime + 12.0 * Folds.Sum(recurring)
      && s.remaining + s.total == spendable
      && (s.progress.Finite? <==> spendable != 0.0)
      && (s.progress.Finite? ==> s.progress.value * spendable == s.total * 100.0)
  {
    SummaryTotals(income, expenses, recurring, currentYear);
    SummaryProgress(income, expenses, recurring, currentYear);
  }

  /** The totals half of `SummaryFacts`. */
  lemma SummaryTotals(income: Option<IncomeRecord>, expenses: seq<Expense>, recurring: seq<Expense>, currentYear: nat)
    ensures var s := Summary(income, expenses, recurring, currentYear);
      && s.oneTime == Folds.Sum(OneTimeThisYear(expenses, currentYear))
      && s.recurringYearly == 12.0 * Folds.Sum(recurring)
      && s.total == s.oneTime + 12.0 * Folds.Sum(recurring)
      && s.remaining + s.total == YearlySpendable(income)
  {
    SumTwelveIsTwelveSums(recurring);
  }

  /** The progress half of `SummaryFacts`. */
  lemma SummaryProgress(income: Option<IncomeRecord>, expenses: seq<Expense>, recurring: seq<Expense>, currentYear: nat)
    ensures var s := Summary(income, expenses, recurring, currentYear);
      var spendable := YearlySpendable(income);
      && (s.progress.Finite? <==> spendable != 0.0)
      && (s.progress.Finite? ==> s.progress.value * spendable == s.total * 100.0)
  {
    FiguresProgress(Folds.Sum(OneTimeThisYear(expenses, currentYear)), SumTwelve(recurring), YearlySpendable(income));
  }

  /** `(totalExpenses / yearlySpendable) * 100` is finite exactly when the spendable income is not 0, and is then the spent share in percent. */
  lemma FiguresProgress(oneTime: real, recurringYearly: real, spendable: real)
    ensures var s := Figures(oneTime, recurringYearly, spendable);
      && (s.progress.Finite? <==> spendable != 0.0)
      && (s.progress.Finite? ==> s.progress.value * spendable == s.total * 100.0)
  {
  }

  /** An expense is counted as one-time this year exactly when it has a calendar date in the year and is not recurring. */
  lemma OneTimeExactly(expenses: seq<Expense>, year: nat, e: Expense)
    ensures e in OneTimeThisYear(expenses, year) <==> e in expenses && Dates.ValidDate(e.date) && e.date.year == year && !e.isRecurring
  {
    Folds.BucketSound(expenses, CountsThisYear(year), true);
    if e in expenses && Dates.ValidDate(e.date) && e.date.year == year && !e.isRecurring {
      Folds.BucketComplete(expenses, CountsThisYear(year), true, e);
    }
  }

  /** Adding a recurring expense, or one not dated in the year, leaves the one-time total unchanged. */
  lemma OneTimeIgnores(expenses: seq<Expense>, e: Expense, year: nat)
    requires !Dates.ValidDate(e.date) || e.date.year != year || e.isRecurring
    ensures Folds.Sum(OneTimeThisYear(expenses + [e], year)) == Folds.Sum(OneTimeThisYear(expenses, year))
  {
    Folds.BucketSnoc(expenses, e, CountsThisYear(year), true);
    assert !CountsThisYear(year)(e);
    assert OneTimeThisYear(expenses + [e], year) == OneTimeThisYear(expenses, year) + [];
    assert OneTimeThisYear(expenses, year) + [] == OneTimeThisYear(expenses, year);
  }

  /**
   * The month key of an expense: `${year}-${month padded to 2}`. An invalid
   * `Date` gives NaN for both parts, so every expense whose date is not a
   * calendar date lands under the one key "NaN-NaN".
   */
  function MonthKeyOf(e: Expense): string {
    if Dates.ValidDate(e.date) then Text.MonthKey(e.date) else InvalidMonthKey
  }

  /** The key of an invalid date. */
  const InvalidMonthKey: string := "NaN-NaN"

  /**
   * The key of an invalid date is above every real month key in code-unit
   * order ('N' follows every digit), so the descending history lists the
   * expenses with invalid dates first.
   */
  lemma InvalidKeyAboveMonths(d: Date)
    ensures Text.LexLess(Text.MonthKey(d), InvalidMonthKey)
    ensures Text.MonthKey(d) != InvalidMonthKey
  {
    var k := Text.MonthKey(d);
    assert k[0] == Text.DecimalString(d.year)[0];
    assert '0' <= k[0] <= '9';
  }

  /** A strictly descending list has no repeated element. */
  lemma DescendingDistinct(s: seq<string>)
    requires Text.StrictlyDescending(s)
    ensures Text.Distinct(s)
  {
    forall i, j | 0 <= i < j < |s| ensures s[i] != s[j] {
      Text.LexIrreflexive(s[i]);
    }
  }

  /** Sorting distinct keys descending keeps exactly the same keys, now strictly descending. */
  lemma SortedKeys(keys: seq<string>)
    requires Text.Distinct(keys)
    ensures var s := Text.SortDescending(keys);
      && multiset(s) == multiset(keys)
      && (forall k :: k in s <==> k in keys)
      && Text.StrictlyDescending(s)
      && Text.Distinct(s)
  {
    var s := Text.SortDescending(keys);
    Text.SortDescendingCorrect(keys);
    assert forall k :: k in s <==> k in multiset(keys);
    DescendingDistinct(s);
  }

  /** When distinct keys cover every expense, their bucket totals add up to the total. */
  lemma BucketTotalsAddUp(es: seq<Expense>, ks: seq<string>)
    requires Text.Distinct(ks)
    requires forall e :: e in es ==> MonthKeyOf(e) in ks
    ensures Folds.SumKeys(es, MonthKeyOf, ks) == Folds.Sum(es)
  {
    Folds.OutsideEmpty(es, MonthKeyOf, ks);
    Folds.SumKeysPartition(es, MonthKeyOf, ks);
  }

  /**
   * Groups `es` by month and lists the months newest first: every expense
   * lands in exactly the bucket of its month, each bucket keeps the input
   * order, the months are the distinct month keys sorted descending, and
   * the month totals add up to the total of all amounts.
   */
  method GroupByMonth(es: seq<Expense>) returns (sortedMonths: seq<string>, groups: map<string, seq<Expense>>)
    ensures forall k :: k in groups <==> k in sortedMonths
    ensures forall k :: k in groups ==> groups[k] == Folds.Bucket(es, MonthKeyOf, k)
    ensures forall e :: e in es ==> MonthKeyOf(e) in groups && e in groups[MonthKeyOf(e)]
    ensures forall e, k :: e in es && k in groups && e in groups[k] ==> k == MonthKeyOf(e)
    ensures multiset(sortedMonths) == multiset(Folds.DistinctKeys(es, MonthKeyOf))
    ensures Text.StrictlyDescending(sortedMonths)
    ensures Folds.SumKeys(es, MonthKeyOf, sortedMonths) == Folds.Sum(es)
  {
    var keys;
    keys, groups := Folds.GroupBy(es, MonthKeyOf);
    Folds.DistinctKeysFacts(es, MonthKeyOf);
    SortedKeys(keys);
    sortedMonths := Text.SortDescending(keys);
    forall e | e in es ensures e in groups[MonthKeyOf(e)] {
      Folds.BucketComplete(es, MonthKeyOf, MonthKeyOf(e), e);
    }
    forall k | k in groups ensures forall e :: e in groups[k] ==> MonthKeyOf(e) == k {
      Folds.BucketSound(es, MonthKeyOf, k);
    }
    BucketTotalsAddUp(es, sortedMonths);
  }

  /**
   * The tab's history: the one-time and the recurring expenses grouped
   * together, each month's bucket holding its one-time expenses first.
   */
  method ExpenseHistory(expenses: seq<Expense>, recurring: seq<Expense>)
    returns (sortedMonths: seq<string>, groups: map<string, seq<Expense>>)
    ensures forall k :: k in groups <==> k in sortedMonths
    ensures forall k :: k in groups ==>
      groups[k] == Folds.Bucket(expenses, MonthKeyOf, k) + Folds.Bucket(recurring, MonthKeyOf, k)
    ensures forall e :: e in expenses + recurring ==> MonthKeyOf(e) in groups && e in groups[MonthKeyOf(e)]
    ensures Text.StrictlyDescending(sortedMonths)
    ensures Folds.SumKeys(expenses + recurring, MonthKeyOf, sortedMonths) == Folds.Sum(expenses) + Folds.Sum(recurring)
  {
    sortedMonths, groups := GroupByMonth(expenses + recurring);
    forall k | k in groups
      ensures groups[k] == Folds.Bucket(expenses, MonthKeyOf, k) + Folds.Bucket(recurring, MonthKeyOf, k)
    {
      Folds.BucketAppend(expenses, recurring, MonthKeyOf, k);
    }
    Folds.SumAppend(expenses, recurring);
  }

  /**
   * For four-digit years, a month listed earlier in a descending month list
   * is chronologically later: newest first.
   */
  lemma NewestFirst(sorted: seq<string>, i: nat, j: nat, d1: Date, d2: Date)
    requires Text.StrictlyDescending(sorted)
    requires i < j < |sorted|
    requires sorted[i] == Text.MonthKey(d1) && sorted[j] == Text.MonthKey(d2)
    requires 1000 <= d1.year <= 9999 && 1000 <= d2.year <= 9999 && d1.month <= 99 && d2.month <= 99
    ensures d2.year < d1.year || (d2.year == d1.year && d2.month < d1.month)
  {
    Text.MonthKeyOrder(d2, d1);
  }
}
