/**
 * The yearly income tracker: this year's one-time spending against the
 * yearly spendable income, the monthly average so far, the projection of
 * that average over the year, and what is left per remaining month.
 * "Today" enters as the current year and the zero-based month index that
 * `getMonth` gives (0 for January, 11 for December).
 */
module RemainingIncomeTracker {
  import opened Common
  import Folds
  import ExpenseTab
  import Dates

  /** The verdict line under the projection: over or under budget, and by how much. */
  datatype Budget = OverBudget(amount: real) | UnderBudget(amount: real)

  /** The figures the tracker shows. */
  datatype Tracker = Tracker(
    yearlySpendable: real,
    oneTime: real,
    remaining: real,
    progress: Quotient,
    monthlyAverage: real,
    projected: real,
    monthlyRemaining: real,
    budget: Budget)

  /**
   * `remainingSpendable / (12 - (currentMonth + 1))` as written: the number
   * of months after the current one, which is 0 in December.
   */
  function MonthlyRemainingAsWritten(remaining: real, monthIndex: nat): (q: Quotient)
    requires monthIndex < 12
    ensures q.Finite? <==> monthIndex < 11
  {
    Divide(remaining, (12 - (monthIndex + 1)) as real)
  }

  /** In December the as-written monthly remaining divides by zero and is not a finite amount. */
  lemma DecemberMonthlyRemainingNotFinite(remaining: real)
    ensures MonthlyRemainingAsWritten(remaining, 11).NotFinite?
  {
  }

  /**
   * The remaining budget spread over the months left in the year, the
   * current one included, so that December keeps the whole remainder.
   */
  function MonthlyRemaining(remaining: real, monthIndex: nat): (r: real)
    requires monthIndex < 12
    ensures r * (12 - monthIndex) as real == remaining
    ensures monthIndex == 11 ==> r == remaining
  {
    remaining / (12 - monthIndex) as real
  }

  /** The verdict: over budget exactly when the projection exceeds the spendable income. */
  function Verdict(projected: real, spendable: real): (b: Budget)
    ensures b.OverBudget? <==> projected > spendable
    ensures b.amount >= 0.0
    ensures b.OverBudget? ==> projected == spendable + b.amount && b.amount > 0.0
    ensures b.UnderBudget? ==> projected + b.amount == spendable
  {
    if projected > spendable then OverBudget(projected - spendable) else UnderBudget(spendable - projected)
  }

  /** `oneTimeExpenses / (currentMonth + 1)`: the spending per elapsed month, the current one included. */
  function MonthlyAverage(oneTime: real, monthIndex: nat): (r: real)
    ensures r * (monthIndex + 1) as real == oneTime
  {
    oneTime / (monthIndex + 1) as real
  }

  /** Averaging over `n` months and projecting over twelve. */
  lemma Averaging(total: real, n: real)
    requires n > 0.0
    ensures ((total / n) * 12.0) * n == 12.0 * total
  {
    assert ((total / n) * 12.0) * n == ((total / n) * n) * 12.0;
  }

  /** `monthlySpendingAverage * 12`: the spending so far extrapolated to twelve months. */
  function Projected(oneTime: real, monthIndex: nat): (r: real)
    ensures r * (monthIndex + 1) as real == 12.0 * oneTime
    ensures monthIndex == 0 ==> r == 12.0 * oneTime
    ensures monthIndex == 11 ==> r == oneTime
  {
    Averaging(oneTime, (monthIndex + 1) as real);
    MonthlyAverage(oneTime, monthIndex) * 12.0
  }

  /** The tracker's figures for `currentYear`, on the month with zero-based index `monthIndex`. */
  function Track(income: Option<IncomeRecord>, expenses: seq<Expense>, currentYear: nat, monthIndex: nat): Tracker
    requires monthIndex < 12
  {
    var spendable := YearlySpendable(income);
    var oneTime := Folds.Sum(ExpenseTab.OneTimeThisYear(expenses, currentYear));
    var remaining := spendable - oneTime;
    var average := MonthlyAverage(oneTime, monthIndex);
    var projected := Projected(oneTime, monthIndex);
    Tracker(spendable, oneTime, remaining, PercentOf(oneTime, spendable), average, projected,
      MonthlyRemaining(remaining, monthIndex), Verdict(projected, spendable))
  }

  /**
   * The tracker counts this year's one-time expenses only; spent plus
   * remaining is the yearly spendable income; the progress is a percentage
   * of the spendable income, not finite when it is 0; and the verdict is
   * "over budget" exactly when the projection exceeds that income.
   */
  lemma TrackTotals(income: Option<IncomeRecord>, expenses: seq<Expense>, currentYear: nat, monthIndex: nat)
    requires monthIndex < 12
    ensures var t := Track(income, expenses, currentYear, monthIndex);
      && t.yearlySpendable == YearlySpendable(income)
      && t.oneTime == Folds.Sum(ExpenseTab.OneTimeThisYear(expenses, currentYear))
      && t.remaining + t.oneTime == t.yearlySpendable
      && (t.progress.Finite? <==> t.yearlySpendable != 0.0)
      && (t.progress.Finite? ==> t.progress.value * t.yearlySpendable == t.oneTime * 100.0)
      && (t.budget.OverBudget? <==> t.projected > t.yearlySpendable)
  {
    var t := Track(income, expenses, currentYear, monthIndex);
    var spendable := YearlySpendable(income);
    var oneTime := Folds.Sum(ExpenseTab.OneTimeThisYear(expenses, currentYear));
    assert t.yearlySpendable == spendable && t.oneTime == oneTime && t.remaining == spendable - oneTime;
    assert t.progress == PercentOf(oneTime, spendable) && t.budget == Verdict(t.projected, spendable);
  }

  /** The tracker agrees with the expense tab on this year's one-time spending. */
  lemma AgreesWithExpenseTab(income: Option<IncomeRecord>, expenses: seq<Expense>, recurring: seq<Expense>, currentYear: nat, monthIndex: nat)
    requires monthIndex < 12
    ensures Track(income, expenses, currentYear, monthIndex).oneTime
         == ExpenseTab.Summary(income, expenses, recurring, currentYear).oneTime
  {
  }

  /** A recurring expense, or one not dated in the year, does not move any figure of the tracker. */
  lemma TrackIgnores(income: Option<IncomeRecord>, expenses: seq<Expense>, e: Expense, currentYear: nat, monthIndex: nat)
    requires monthIndex < 12
    requires !Dates.ValidDate(e.date) || e.date.year != currentYear || e.isRecurring
    ensures Track(income, expenses + [e], currentYear, monthIndex) == Track(income, expenses, currentYear, monthIndex)
  {
    ExpenseTab.OneTimeIgnores(expenses, e, currentYear);
  }

  /**
   * The corrected remainder spreads `remaining` over `12 - monthIndex`
   * months; the division as written, finite only before December, spreads
   * it over one month fewer.
   */
  lemma SpreadOverMonthsLeft(remaining: real, monthIndex: nat)
    requires monthIndex < 12
    ensures MonthlyRemaining(remaining, monthIndex) * (12 - monthIndex) as real == remaining
    ensures var q := MonthlyRemainingAsWritten(remaining, monthIndex);
      && (q.Finite? <==> monthIndex < 11)
      && (q.Finite? ==> q.value * (11 - monthIndex) as real == remaining)
  {
    var q := MonthlyRemainingAsWritten(remaining, monthIndex);
    assert (12 - (monthIndex + 1)) as real == (11 - monthIndex) as real;
  }

  /**
   * The tracker shows the corrected monthly remainder in every month, not
   * the division as written; `SpreadOverMonthsLeft` says how the two relate.
   */
  lemma TrackMonthlyRemaining(income: Option<IncomeRecord>, expenses: seq<Expense>, currentYear: nat, monthIndex: nat)
    requires monthIndex < 12
    ensures var t := Track(income, expenses, currentYear, monthIndex);
      t.monthlyRemaining == MonthlyRemaining(t.remaining, monthIndex)
  {
  }

  /**
   * The progress bar's colour: red above 75 %. A zero spendable income
   * gives an infinite percentage (red) for positive spending and NaN or
   * minus infinity (blue) otherwise.
   */
  function ProgressColor(oneTime: real, spendable: real): string {
    if spendable != 0.0 then (if oneTime / spendable * 100.0 > 75.0 then "bg-red-500" else "bg-blue-500")
    else if oneTime > 0.0 then "bg-red-500" else "bg-blue-500"
  }

  /** For a positive spendable income the bar is red exactly when more than three quarters of it is spent. */
  lemma ProgressColorRule(oneTime: real, spendable: real)
    requires spendable > 0.0
    ensures ProgressColor(oneTime, spendable) == "bg-red-500" <==> oneTime * 4.0 > spendable * 3.0
  {
    var p := oneTime / spendable;
    assert p * spendable == oneTime;
    if p * 100.0 > 75.0 {
      assert p * 4.0 > 3.0;
      assert (p * 4.0) * spendable > 3.0 * spendable;
    } else {
      assert p * 4.0 <= 3.0;
      assert (p * 4.0) * spendable <= 3.0 * spendable;
    }
  }
}
