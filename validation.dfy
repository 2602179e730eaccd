/**
 * Field-by-field validation of income and expense records: each validator
 * starts from an empty error map, adds one message per failed check, and is
 * valid exactly when the map stays empty.
 */
module Validation {
  import opened Common

  /**
   * A field value as JavaScript sees it: absent, a number, NaN, or text
   * together with what `parseFloat` makes of it (`None` for NaN).
   */
  datatype Field = Missing | Number(n: real) | NotANumber | Text(text: string, parsed: Option<real>)

  /** `!x`: absent, 0, NaN and the empty text are falsy. */
  predicate Falsy(f: Field) {
    match f
    case Missing => true
    case Number(n) => n == 0.0
    case NotANumber => true
    case Text(t, _) => t == ""
  }

  /** `parseFloat(x)`, with `None` for NaN. */
  function Parse(f: Field): Option<real> {
    match f
    case Missing => None
    case Number(n) => Some(n)
    case NotANumber => None
    case Text(_, p) => p
  }

  /** `parseFloat("")` is NaN: text fields parse consistently with their emptiness. */
  predicate WellParsed(f: Field) {
    f.Text? && f.text == "" ==> f.parsed.None?
  }

  /** The amount check of both validators. */
  predicate BadAmount(f: Field) {
    Falsy(f) || Parse(f).None? || Parse(f).value <= 0.0
  }

  /** The tax-rate and savings-percentage check. */
  predicate BadPercent(f: Field) {
    f.Missing? || Parse(f).None? || Parse(f).value < 0.0 || Parse(f).value > 100.0
  }

  /** The record passed to `validateIncome`. */
  datatype IncomeInput = IncomeInput(amount: Field, incomeType: Field, taxRate: Field, savingsPercentage: Field)

  /** The date field of an expense: absent, or text with whether `new Date(text)` is a valid time. */
  datatype DateInput = NoDate | DateText(text: string, parses: bool)

  /** The record passed to `validateExpense`. */
  datatype ExpenseInput = ExpenseInput(amount: Field, category: string, date: DateInput)

  const AmountMessage := "Amount must be a valid number greater than 0"
  const IncomeTypeMessage := "Income type is required"
  const TaxRateMessage := "Tax rate must be between 0 and 100"
  const SavingsMessage := "Savings percentage must be between 0 and 100"
  const CategoryMessage := "Category is required"
  const DateRequiredMessage := "Date is required"
  const DateFormatMessage := "Invalid date format"

  /**
   * The amount is rejected exactly when it is missing, not a number, or not
   * above 0 (for text that parses consistently).
   */
  lemma BadAmountIff(f: Field)
    requires WellParsed(f)
    ensures BadAmount(f) <==> Parse(f).None? || Parse(f).value <= 0.0
  {
  }

  /** A percentage is accepted exactly when it is a number in 0..100, so both bounds are accepted. */
  lemma PercentRange(f: Field)
    ensures !BadPercent(f) <==> Parse(f).Some? && 0.0 <= Parse(f).value <= 100.0
    ensures !BadPercent(Number(0.0)) && !BadPercent(Number(100.0))
  {
  }

  /** `validateIncome`. */
  method ValidateIncome(d: IncomeInput) returns (isValid: bool, errors: map<string, string>)
    ensures "amount" in errors <==> BadAmount(d.amount)
    ensures "income_type" in errors <==> Falsy(d.incomeType)
    ensures "tax_rate" in errors <==> BadPercent(d.taxRate)
    ensures "savings_percentage" in errors <==> BadPercent(d.savingsPercentage)
    ensures forall k :: k in errors ==> k in {"amount", "income_type", "tax_rate", "savings_percentage"}
    ensures "amount" in errors ==> errors["amount"] == AmountMessage
    ensures "income_type" in errors ==> errors["income_type"] == IncomeTypeMessage
    ensures "tax_rate" in errors ==> errors["tax_rate"] == TaxRateMessage
    ensures "savings_percentage" in errors ==> errors["savings_percentage"] == SavingsMessage
    ensures isValid <==> |errors| == 0
    ensures isValid <==> !BadAmount(d.amount) && !Falsy(d.incomeType)
                         && !BadPercent(d.taxRate) && !BadPercent(d.savingsPercentage)
  {
    errors := map[];
    if BadAmount(d.amount) {
      errors := errors["amount" := AmountMessage];
    }
    if Falsy(d.incomeType) {
      errors := errors["income_type" := IncomeTypeMessage];
    }
    if BadPercent(d.taxRate) {
      errors := errors["tax_rate" := TaxRateMessage];
    }
    if BadPercent(d.savingsPercentage) {
      errors := errors["savings_percentage" := SavingsMessage];
    }
    isValid := |errors| == 0;
    EmptyMapHasNoKeys(errors);
  }

  /** A map with a key is not empty; an empty map has no key. */
  lemma EmptyMapHasNoKeys(m: map<string, string>)
    ensures |m| == 0 <==> forall k :: k !in m
  {
    if |m| != 0 {
      var k :| k in m.Keys;
    } else {
      assert m.Keys == {};
    }
  }

  /** `validateExpense`: the date message is "required" for a missing date and "format" for one that does not parse. */
  method ValidateExpense(d: ExpenseInput) returns (isValid: bool, errors: map<string, string>)
    ensures "amount" in errors <==> BadAmount(d.amount)
    ensures "category" in errors <==> d.category == ""
    ensures "date" in errors <==> d.date.NoDate? || d.date.text == "" || !d.date.parses
    ensures forall k :: k in errors ==> k in {"amount", "category", "date"}
    ensures "amount" in errors ==> errors["amount"] == AmountMessage
    ensures "category" in errors ==> errors["category"] == CategoryMessage
    ensures "date" in errors ==> errors["date"] == (if d.date.NoDate? || d.date.text == "" then DateRequiredMessage else DateFormatMessage)
    ensures isValid <==> |errors| == 0
    ensures isValid <==> !BadAmount(d.amount) && d.category != "" && d.date.DateText? && d.date.text != "" && d.date.parses
  {
    errors := map[];
    if BadAmount(d.amount) {
      errors := errors["amount" := AmountMessage];
    }
    if d.category == "" {
      errors := errors["category" := CategoryMessage];
    }
    if d.date.NoDate? || d.date.text == "" {
      errors := errors["date" := DateRequiredMessage];
    } else if !d.date.parses {
      errors := errors["date" := DateFormatMessage];
    }
    isValid := |errors| == 0;
    EmptyMapHasNoKeys(errors);
  }
}
