/**
 * The first-run setup wizard: four questions (currency, yearly income, tax
 * rate, savings goal) walked through with Next and Back, and the income
 * figures derived from the answers when the last question is completed.
 */
module WelcomeFlow {
  import Income

  /** The wizard's answers, as typed: every field is text, empty until answered. */
  datatype Answers = Answers(currency: string, yearlyIncome: string, taxRate: string, savingsGoal: string)

  /** The answers the wizard starts with. */
  const InitialAnswers: Answers := Answers("USD", "", "", "")

  /** The index of the last question. */
  const LastStep: int := 3

  /** The income type `handleSubmit` stores, which is neither of the income screen's two types. */
  const WizardIncomeType: string := "salary"

  /** The record `handleSubmit` saves; the rates are fractions (percent / 100). */
  datatype Setup = Setup(amount: real, incomeType: string, currency: string, taxRate: real, savingsRate: real, figures: Income.Figures)

  /**
   * `handleSubmit` on the parsed answers: the monthly gross is a twelfth of
   * the yearly income, the monthly figures are derived from it, and every
   * yearly figure is twelve times its monthly one.
   */
  function DeriveFromYearly(yearlyGross: real, currency: string, taxPercent: real, savingsPercent: real): (r: Setup)
    ensures r.taxRate * 100.0 == taxPercent && r.savingsRate * 100.0 == savingsPercent
    ensures r.amount == yearlyGross && r.currency == currency
    ensures r.incomeType == WizardIncomeType && r.incomeType != "monthly" && r.incomeType != "yearly"
  {
    var monthlyGross := yearlyGross / 12.0;
    var taxRate := taxPercent / 100.0;
    var savingsRate := savingsPercent / 100.0;
    var monthlyTax := monthlyGross * taxRate;
    var monthlyNet := monthlyGross - monthlyTax;
    var monthlySavings := monthlyNet * savingsRate;
    var monthlySpendable := monthlyNet - monthlySavings;
    Setup(yearlyGross, WizardIncomeType, currency, taxRate, savingsRate,
      Income.Figures(monthlyGross, yearlyGross, monthlyTax, monthlyTax * 12.0, monthlyNet, monthlyNet * 12.0,
        monthlySavings, monthlySavings * 12.0, monthlySpendable, monthlySpendable * 12.0))
  }

  /**
   * The wizard's figures: net is gross less tax and spendable is net less
   * savings, in each period, and every yearly figure is twelve times the
   * monthly one, the gross included.
   */
  lemma SetupFigures(yearlyGross: real, currency: string, taxPercent: real, savingsPercent: real)
    ensures var f := DeriveFromYearly(yearlyGross, currency, taxPercent, savingsPercent).figures;
      && f.yearlyGross == 12.0 * f.monthlyGross
      && f.yearlyTax == 12.0 * f.monthlyTax
      && f.yearlyNet == 12.0 * f.monthlyNet
      && f.yearlySavings == 12.0 * f.monthlySavings
      && f.yearlySpendable == 12.0 * f.monthlySpendable
      && f.monthlyNet == f.monthlyGross - f.monthlyTax && f.yearlyNet == f.yearlyGross - f.yearlyTax
      && f.monthlySpendable == f.monthlyNet - f.monthlySavings
      && f.yearlySpendable == f.yearlyNet - f.yearlySavings
  {
  }

  /**
   * The wizard and the income screen agree: the wizard's figures for a
   * yearly income are the income screen's figures for the same amount
   * entered as yearly with the same percentages.
   */
  lemma AgreesWithIncomeScreen(yearlyGross: real, currency: string, taxPercent: real, savingsPercent: real)
    ensures DeriveFromYearly(yearlyGross, currency, taxPercent, savingsPercent).figures
         == Income.Derive(Income.Form(yearlyGross, "yearly", currency, taxPercent, savingsPercent))
  {
    var w := DeriveFromYearly(yearlyGross, currency, taxPercent, savingsPercent).figures;
    var i := Income.Derive(Income.Form(yearlyGross, "yearly", currency, taxPercent, savingsPercent));
    assert w.monthlyGross == i.monthlyGross;
    assert w.yearlyGross == 12.0 * w.monthlyGross;
    Income.ShareScales(i.monthlyGross, taxPercent);
    assert w.yearlyTax == i.yearlyTax;
    assert w.yearlyNet == i.yearlyNet;
    Income.ShareScales(i.monthlyNet, savingsPercent);
  }

  /**
   * The stored income type is neither "monthly" nor "yearly": the income
   * screen's derivation takes the stored amount, a yearly one, as both the
   * monthly and the yearly gross, so for a nonzero income it disagrees with
   * the wizard's own monthly gross.
   */
  lemma StoredTypeReadsAsOther(yearlyGross: real, currency: string, taxPercent: real, savingsPercent: real)
    ensures var s := DeriveFromYearly(yearlyGross, currency, taxPercent, savingsPercent);
      var again := Income.Derive(Income.Form(s.amount, s.incomeType, s.currency, taxPercent, savingsPercent));
      && again.monthlyGross == yearlyGross && again.yearlyGross == yearlyGross
      && (yearlyGross != 0.0 ==> again.monthlyGross != s.figures.monthlyGross)
  {
    var s := DeriveFromYearly(yearlyGross, currency, taxPercent, savingsPercent);
    Income.GrossByType(Income.Form(s.amount, s.incomeType, s.currency, taxPercent, savingsPercent));
  }

  /** The answer the question at `step` asks for. */
  function Answer(a: Answers, step: int): string
    requires 0 <= step <= LastStep
  {
    if step == 0 then a.currency
    else if step == 1 then a.yearlyIncome
    else if step == 2 then a.taxRate
    else a.savingsGoal
  }

  /** The Next button is enabled exactly when the current question is answered. */
  predicate NextEnabled(a: Answers, step: int)
    requires 0 <= step <= LastStep
  {
    Answer(a, step) != ""
  }

  /**
   * On the initial answers only the first question, the currency, is
   * answered: Next is enabled at step 0 and disabled at every later step.
   */
  lemma InitialAnswersEnableOnlyCurrency(step: int)
    requires 0 <= step <= LastStep
    ensures NextEnabled(InitialAnswers, step) <==> step == 0
  {
  }

  /** A press of one of the two buttons. */
  datatype Press = NextPress | BackPress

  /** The step after one press: Next moves forward below the last step, Back moves back above the first. */
  function StepAfter(step: int, p: Press): int {
    match p
    case NextPress => if step < LastStep then step + 1 else step
    case BackPress => if step > 0 then step - 1 else step
  }

  /** The step after a sequence of presses, starting at `step`. */
  function Walk(step: int, ps: seq<Press>): (r: int)
    decreases |ps|
  {
    if ps == [] then step else Walk(StepAfter(step, ps[0]), ps[1..])
  }

  /** From any step in 0..3, any sequence of presses stays in 0..3. */
  lemma {:induction false} WalkStaysInRange(step: int, ps: seq<Press>)
    requires 0 <= step <= LastStep
    ensures 0 <= Walk(step, ps) <= LastStep
    decreases |ps|
  {
    if ps != [] {
      WalkStaysInRange(StepAfter(step, ps[0]), ps[1..]);
    }
  }

  /** Back undoes a Next taken below the last step, and Next undoes a Back taken above the first. */
  lemma BackUndoesNext(step: int)
    requires 0 <= step <= LastStep
    ensures step < LastStep ==> Walk(step, [NextPress, BackPress]) == step
    ensures step > 0 ==> Walk(step, [BackPress, NextPress]) == step
  {
  }

  /** Three presses of Next lead from the first question to the last one. */
  lemma ThreeNextsReachLast()
    ensures Walk(0, [NextPress, NextPress, NextPress]) == LastStep
  {
  }

  /**
   * The wizard's navigation state: the question shown and the direction of
   * the last slide (1 forward, -1 back, 0 before any move).
   */
  class Wizard {
    var step: int
    var direction: int

    ghost predicate Valid()
      reads this
    {
      0 <= step <= LastStep && -1 <= direction <= 1
    }

    constructor()
      ensures Valid() && step == 0 && direction == 0
    {
      step := 0;
      direction := 0;
    }

    /**
     * `handleNext`: below the last step, slide forward to the next question;
     * at the last step, submit instead (`submit`) and stay.
     */
    method Next() returns (submit: bool)
      requires Valid()
      modifies this
      ensures Valid()
      ensures submit <==> old(step) == LastStep
      ensures step == StepAfter(old(step), NextPress)
      ensures direction == if submit then old(direction) else 1
    {
      if step < LastStep {
        direction := 1;
        step := step + 1;
        submit := false;
      } else {
        submit := true;
      }
    }

    /** `handleBack`: above the first step, slide back; at the first step, nothing changes. */
    method Back()
      requires Valid()
      modifies this
      ensures Valid()
      ensures step == StepAfter(old(step), BackPress)
      ensures direction == if old(step) > 0 then -1 else old(direction)
    {
      if step > 0 {
        direction := -1;
        step := step - 1;
      }
    }
  }
}
