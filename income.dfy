/**
 * The income screen: deriving monthly and yearly gross, tax, net, savings
 * and spendable figures from the submitted form, and what is left of the
 * net and spendable income once the recurring expenses are paid.
 */
module Income {
  import opened Common
  import Folds

  /** The form values `handleSubmit` reads; rates are percents. */
  datatype Form = Form(
    amount: real,
    incomeType: string,
    currency: string,
    taxRate: real,
    savingsPercentage: real)

  /** The derived figures, before the two-decimal rounding of the stored record. */
  datatype Figures = Figures(
    monthlyGross: real,
    yearlyGross: real,
    monthlyTax: real,
    yearlyTax: real,
    monthlyNet: real,
    yearlyNet: real,
    monthlySavings: real,
    yearlySavings: real,
    monthlySpendable: real,
    yearlySpendable: real)

  /** `x * (rate / 100)`. */
  function Share(x: real, rate: real): real {
    x * (rate / 100.0)
  }

  /**
   * `handleSubmit`: the gross figures follow the income type; tax, net,
   * savings and spendable are derived the same way for each period. Tax,
   * savings and spendable money always add back up to the gross.
   */
  function Derive(f: Form): (r: Figures)
    ensures r.monthlyTax + r.monthlySavings + r.monthlySpendable == r.monthlyGross
    ensures r.yearlyTax + r.yearlySavings + r.yearlySpendable == r.yearlyGross
  {
    var monthlyGross := if f.incomeType == "yearly" then f.amount / 12.0 else f.amount;
    var yearlyGross := if f.incomeType == "monthly" then f.amount * 12.0 else f.amount;
    var monthlyTax := Share(monthlyGross, f.taxRate);
    var yearlyTax := Share(yearlyGross, f.taxRate);
    var monthlyNet := monthlyGross - monthlyTax;
    var yearlyNet := yearlyGross - yearlyTax;
    var monthlySavings := Share(monthlyNet, f.savingsPercentage);
    var yearlySavings := Share(yearlyNet, f.savingsPercentage);
    Figures(monthlyGross, yearlyGross, monthlyTax, yearlyTax, monthlyNet, yearlyNet,
      monthlySavings, yearlySavings, monthlyNet - monthlySavings, yearlyNet - yearlySavings)
  }

  /**
   * A monthly amount is the monthly gross and twelve times it the yearly
   * gross; a yearly amount is the yearly gross and a twelfth of it the
   * monthly gross; any other type takes the amount as both.
   */
  lemma GrossByType(f: Form)
    ensures f.incomeType == "monthly" ==> Derive(f).monthlyGross == f.amount && Derive(f).yearlyGross == 12.0 * f.amount
    ensures f.incomeType == "yearly" ==> Derive(f).monthlyGross == f.amount / 12.0 && Derive(f).yearlyGross == f.amount
    ensures f.incomeType != "monthly" && f.incomeType != "yearly" ==>
      Derive(f).monthlyGross == f.amount && Derive(f).yearlyGross == f.amount
  {
  }

  /**
   * Tax is the rate's share of the gross, net is gross less tax, savings
   * are the savings percentage of the net and spendable is net less savings.
   */
  lemma FiguresInTermsOfRates(f: Form)
    ensures var r := Derive(f);
      && r.monthlyTax * 100.0 == r.monthlyGross * f.taxRate
      && r.yearlyTax * 100.0 == r.yearlyGross * f.taxRate
      && r.monthlyNet == r.monthlyGross - r.monthlyTax
      && r.yearlyNet == r.yearlyGross - r.yearlyTax
      && r.monthlySavings * 100.0 == r.monthlyNet * f.savingsPercentage
      && r.yearlySavings * 100.0 == r.yearlyNet * f.savingsPercentage
      && r.monthlySpendable == r.monthlyNet - r.monthlySavings
      && r.yearlySpendable == r.yearlyNet - r.yearlySavings
  {
  }

  /** A share of twelve times a figure is twelve times its share. */
  lemma ShareScales(x: real, rate: real)
    ensures Share(12.0 * x, rate) == 12.0 * Share(x, rate)
  {
  }

  /** For a monthly or yearly income, every yearly figure is twelve times its monthly one. */
  lemma YearlyIsTwelveMonthly(f: Form)
    requires f.incomeType == "monthly" || f.incomeType == "yearly"
    ensures var r := Derive(f);
      && r.yearlyGross == 12.0 * r.monthlyGross
      && r.yearlyTax == 12.0 * r.monthlyTax
      && r.yearlyNet == 12.0 * r.monthlyNet
      && r.yearlySavings == 12.0 * r.monthlySavings
      && r.yearlySpendable == 12.0 * r.monthlySpendable
  {
    var r := Derive(f);
    assert r.yearlyGross == 12.0 * r.monthlyGross;
    ShareScales(r.monthlyGross, f.taxRate);
    ShareScales(r.monthlyNet, f.savingsPercentage);
  }

  /** Entering twelve times an amount as yearly gives exactly the figures of the amount entered as monthly. */
  lemma YearlyMatchesMonthly(a: real, currency: string, taxRate: real, savingsPercentage: real)
    ensures Derive(Form(12.0 * a, "yearly", currency, taxRate, savingsPercentage))
         == Derive(Form(a, "monthly", currency, taxRate, savingsPercentage))
  {
    var y := Derive(Form(12.0 * a, "yearly", currency, taxRate, savingsPercentage));
    var m := Derive(Form(a, "monthly", currency, taxRate, savingsPercentage));
    assert y.monthlyGross == m.monthlyGross;
    assert y.yearlyGross == m.yearlyGross;
  }

  /** The product of two non-negative reals is non-negative. */
  lemma NonNegativeProduct(a: real, b: real)
    requires a >= 0.0 && b >= 0.0
    ensures a * b >= 0.0
  {
  }

  /** A share at a rate between 0 and 100 of a non-negative figure lies between 0 and the figure. */
  lemma ShareBounds(x: real, rate: real)
    requires x >= 0.0 && 0.0 <= rate <= 100.0
    ensures 0.0 <= Share(x, rate) <= x
  {
    var p := rate / 100.0;
    assert 0.0 <= p <= 1.0;
    NonNegativeProduct(x, p);
    NonNegativeProduct(x, 1.0 - p);
    assert x - x * p == x * (1.0 - p);
  }

  /**
   * With a non-negative amount and both rates between 0 and 100, each
   * period has 0 ≤ spendable ≤ net ≤ gross, and tax and savings are
   * non-negative.
   */
  lemma FiguresBounded(f: Form)
    requires f.amount >= 0.0
    requires 0.0 <= f.taxRate <= 100.0 && 0.0 <= f.savingsPercentage <= 100.0
    ensures var r := Derive(f);
      && 0.0 <= r.monthlySpendable <= r.monthlyNet <= r.monthlyGross
      && 0.0 <= r.yearlySpendable <= r.yearlyNet <= r.yearlyGross
      && r.monthlyTax >= 0.0 && r.yearlyTax >= 0.0
      && r.monthlySavings >= 0.0 && r.yearlySavings >= 0.0
  {
    var r := Derive(f);
    ShareBounds(r.monthlyGross, f.taxRate);
    ShareBounds(r.yearlyGross, f.taxRate);
    ShareBounds(r.monthlyNet, f.savingsPercentage);
    ShareBounds(r.yearlyNet, f.savingsPercentage);
  }

  /** The four "remaining" figures of the income summary. */
  datatype Remaining = Remaining(
    monthlyIncome: real,
    yearlyIncome: real,
    monthlyAfterSavings: real,
    yearlyAfterSavings: real)

  /** `field - spent || 0`: an absent field (or absent income) gives 0. */
  function Left(field: Option<real>, spent: real): (r: real)
    ensures field.None? ==> r == 0.0
    ensures field.Some? ==> r + spent == field.value
  {
    if field.Some? then field.value - spent else 0.0
  }

  /** `field` of the income record, absent when there is no income. */
  function Field(income: Option<IncomeRecord>, select: IncomeRecord -> Option<real>): Option<real> {
    if income.Some? then select(income.value) else None
  }

  /**
   * The recurring totals and what remains of the monthly and yearly net and
   * spendable income after them; the recurring total is a month's worth,
   * twelve times it a year's.
   */
  function RemainingAfterRecurring(income: Option<IncomeRecord>, recurring: seq<Expense>): Remaining {
    var monthly := Folds.Sum(recurring);
    var yearly := monthly * 12.0;
    Remaining(
      Left(Field(income, (i: IncomeRecord) => i.monthlyNet), monthly),
      Left(Field(income, (i: IncomeRecord) => i.yearlyNet), yearly),
      Left(Field(income, (i: IncomeRecord) => i.monthlySpendable), monthly),
      Left(Field(income, (i: IncomeRecord) => i.yearlySpendable), yearly))
  }

  /** Without an income record every remaining figure is 0. */
  lemma NoIncomeLeavesNothing(recurring: seq<Expense>)
    ensures RemainingAfterRecurring(None, recurring) == Remaining(0.0, 0.0, 0.0, 0.0)
  {
  }

  /**
   * With the figures present, the remaining amounts are the net and
   * spendable figures less the recurring total, monthly and twelve times
   * it yearly; and when the record's yearly figures are twelve times the
   * monthly ones, so are the remaining ones.
   */
  lemma RemainingFigures(i: IncomeRecord, recurring: seq<Expense>)
    requires i.monthlyNet.Some? && i.yearlyNet.Some? && i.monthlySpendable.Some? && i.yearlySpendable.Some?
    ensures var r := RemainingAfterRecurring(Some(i), recurring);
      var spent := Folds.Sum(recurring);
      && r.monthlyIncome == i.monthlyNet.value - spent
      && r.yearlyIncome == i.yearlyNet.value - 12.0 * spent
      && r.monthlyAfterSavings == i.monthlySpendable.value - spent
      && r.yearlyAfterSavings == i.yearlySpendable.value - 12.0 * spent
      && (i.yearlyNet.value == 12.0 * i.monthlyNet.value ==> r.yearlyIncome == 12.0 * r.monthlyIncome)
      && (i.yearlySpendable.value == 12.0 * i.monthlySpendable.value ==>
            r.yearlyAfterSavings == 12.0 * r.monthlyAfterSavings)
  {
  }
}
