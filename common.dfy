/**
 * Value types shared by every part of the Kakeibo model: optional values,
 * calendar dates, expense records and the outcome of a JavaScript division.
 */
module Common {

  /** A value that may be absent (a JavaScript `undefined` field or a missing record). */
  datatype Option<T> = None | Some(value: T) {

    /** The value, or `default` when absent: the source's `x || default` on a number. */
    function GetOr(default: T): T {
      if Some? then value else default
    }
  }

  /**
   * A calendar date as a (year, month, day) triple. `month` runs 1..12, that is
   * the source's `getMonth() + 1`; `day` is the day of the month.
   */
  datatype Date = Date(year: nat, month: nat, day: nat)

  /**
   * One expense row. The same shape is used for the one-time list
   * (`state.expenses`) and the recurring list (`state.recurringExpenses`).
   */
  datatype Expense = Expense(
    id: string,
    amount: real,
    category: string,
    description: string,
    date: Date,
    isRecurring: bool)

  /**
   * A savings goal. `currentAmount` is the amount allocated to the goal;
   * it may be absent, and every reader counts an absent amount as 0.
   */
  datatype Goal = Goal(
    id: string,
    name: string,
    targetAmount: real,
    currentAmount: Option<real>,
    deadline: Date)

  /** The allocated amount of a goal: `goal.current_amount || 0`. */
  function Allocated(g: Goal): real {
    g.currentAmount.GetOr(0.0)
  }

  /**
   * The income record held in the application state. Every numeric field
   * may be absent: the initial state carries only some of them, and
   * `SET_INCOME` stores whatever record it is given.
   */
  datatype IncomeRecord = IncomeRecord(
    amount: Option<real>,
    grossAmount: Option<real>,
    taxRate: Option<real>,
    frequency: string,
    currency: string,
    monthlyNet: Option<real>,
    yearlyNet: Option<real>,
    monthlySavings: Option<real>,
    monthlySpendable: Option<real>,
    yearlySpendable: Option<real>)

  /** `state.income?.yearlySpendable || 0`. */
  function YearlySpendable(income: Option<IncomeRecord>): real {
    if income.Some? then income.value.yearlySpendable.GetOr(0.0) else 0.0
  }

  /** `state.income?.monthlySpendable || 0`. */
  function MonthlySpendable(income: Option<IncomeRecord>): real {
    if income.Some? then income.value.monthlySpendable.GetOr(0.0) else 0.0
  }

  /** `state.income?.monthlySavings || 0`. */
  function MonthlySavings(income: Option<IncomeRecord>): real {
    if income.Some? then income.value.monthlySavings.GetOr(0.0) else 0.0
  }

  /**
   * The value of a division `a / b` in JavaScript: a finite number, or
   * Infinity/NaN when the divisor is zero (the source never guards against it).
   */
  datatype Quotient = Finite(value: real) | NotFinite

  /** `a / b` as JavaScript evaluates it on finite operands. */
  function Divide(a: real, b: real): (q: Quotient)
    ensures q.Finite? <==> b != 0.0
    ensures q.Finite? ==> q.value * b == a
  {
    if b == 0.0 then NotFinite else Finite(a / b)
  }

  /** `(part / whole) * 100`: a percentage, not finite when `whole` is zero. */
  function PercentOf(part: real, whole: real): (q: Quotient)
    ensures q.Finite? <==> whole != 0.0
    ensures q.Finite? ==> q.value * whole == part * 100.0
  {
    if whole == 0.0 then NotFinite else Finite(part / whole * 100.0)
  }

  /** The two colour stops of a chart segment's gradient. */
  datatype Gradient = Gradient(startColor: string, endColor: string)

  /** The grey gradient the charts fall back to for a category missing from their tables. */
  const FallbackGradient := Gradient("#cccccc", "#999999")
}
