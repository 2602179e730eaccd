/**
 * The monthly overview: everything spent, one-time and recurring alike,
 * against the monthly spendable income, and the spending broken down by
 * category with each category's share of the total.
 */
module Overview {
  import opened Common
  import Folds

  /** How the overview shows a category: its title (the label shown) and its gradient. */
  datatype Style = Style(title: string, gradient: Gradient)

  /** The overview's category table, keyed by lower-case category. */
  const Categories: map<string, Style> := map[
    "housing" := Style("Housing", Gradient("#3b82f6", "#6366f1")),
    "subscriptions" := Style("Subscriptions", Gradient("#a855f7", "#ec4899")),
    "daily needs" := Style("Daily Needs", Gradient("#22c55e", "#14b8a6")),
    "wants" := Style("Wants", Gradient("#facc15", "#fb923c")),
    "leisure" := Style("Leisure", Gradient("#f472b6", "#ef4444")),
    "unexpected" := Style("Unexpected", Gradient("#f87171", "#991b1b"))]

  /** One line of the breakdown. */
  datatype Entry = Entry(category: string, title: string, amount: real, percentage: real, gradient: Gradient)

  /** `totalSpent > 0 ? amount / totalSpent * 100 : 0`, before rounding to two decimals. */
  function Percentage(amount: real, total: real): (p: real)
    ensures total > 0.0 ==> p * total == amount * 100.0
    ensures total <= 0.0 ==> p == 0.0
  {
    if total > 0.0 then amount / total * 100.0 else 0.0
  }

  /** `EXPENSE_CATEGORIES[category]`, falling back to the raw key and grey for a category outside the table. */
  function StyleOf(category: string): Style {
    if category in Categories then Categories[category] else Style(category, FallbackGradient)
  }

  /** The breakdown line of a category. */
  function Describe(category: string, amount: real, total: real): Entry {
    var style := StyleOf(category);
    Entry(category, style.title, amount, Percentage(amount, total), style.gradient)
  }

  /** A category outside the table is labelled by its own key and drawn grey. */
  lemma UnknownCategoryFallback(category: string, amount: real, total: real)
    requires category !in Categories
    ensures Describe(category, amount, total).title == category
    ensures Describe(category, amount, total).gradient == Gradient("#cccccc", "#999999")
  {
  }

  /** The `map` over the category totals: each entry keeps its category and amount. */
  function Decorate(t: seq<(string, real)>, total: real): (r: seq<Entry>)
    ensures |r| == |t|
    ensures forall i :: 0 <= i < |t| ==> r[i].category == t[i].0 && r[i].amount == t[i].1
    decreases |t|
  {
    if t == [] then [] else [Describe(t[0].0, t[0].1, total)] + Decorate(t[1..], total)
  }

  /** Each decorated entry is its category's description. */
  lemma {:induction false} DecorateDescribes(t: seq<(string, real)>, total: real)
    ensures var r := Decorate(t, total);
      forall i :: 0 <= i < |r| ==> r[i] == Describe(r[i].category, r[i].amount, total)
    decreases |t|
  {
    if t != [] {
      DecorateDescribes(t[1..], total);
      var r := Decorate(t, total);
      assert r[1..] == Decorate(t[1..], total);
    }
  }

  /** Σ of the breakdown's amounts. */
  function SumAmounts(b: seq<Entry>): real
    decreases |b|
  {
    if b == [] then 0.0 else b[0].amount + SumAmounts(b[1..])
  }

  /** Σ of the breakdown's percentages. */
  function SumPercentages(b: seq<Entry>): real
    decreases |b|
  {
    if b == [] then 0.0 else b[0].percentage + SumPercentages(b[1..])
  }

  /** Decorating keeps the amounts, so their sum is the totals' sum. */
  lemma {:induction false} DecorateKeepsAmounts(t: seq<(string, real)>, total: real)
    ensures SumAmounts(Decorate(t, total)) == Folds.SumEntries(t)
    decreases |t|
  {
    if t != [] {
      DecorateKeepsAmounts(t[1..], total);
    }
  }

  /** For a positive total, the percentages scale the amounts by 100 / total. */
  lemma {:induction false} PercentagesScale(t: seq<(string, real)>, total: real)
    requires total > 0.0
    ensures SumPercentages(Decorate(t, total)) * total == Folds.SumEntries(t) * 100.0
    decreases |t|
  {
    if t != [] {
      PercentagesScale(t[1..], total);
      var p := Describe(t[0].0, t[0].1, total).percentage;
      var rest := SumPercentages(Decorate(t[1..], total));
      assert SumPercentages(Decorate(t, total)) == p + rest;
      assert (p + rest) * total == p * total + rest * total;
    }
  }

  /** When the entries add up to a positive total, their percentages add up to 100. */
  lemma PercentagesAddUp(t: seq<(string, real)>, total: real)
    requires total > 0.0 && Folds.SumEntries(t) == total
    ensures SumPercentages(Decorate(t, total)) == 100.0
  {
    PercentagesScale(t, total);
    var s := SumPercentages(Decorate(t, total));
    assert (s - 100.0) * total == 0.0;
  }

  /**
   * The decorated per-category totals of `es`: one entry per distinct
   * category, each entry holding its category's sum and described by the
   * table.
   */
  lemma BreakdownEntries(es: seq<Expense>, total: real)
    ensures var b := Decorate(Folds.TotalsSpec(es, Folds.CategoryOf), total);
      && (forall i, j :: 0 <= i < j < |b| ==> b[i].category != b[j].category)
      && (forall i :: 0 <= i < |b| ==> b[i].amount == Folds.Sum(Folds.Bucket(es, Folds.CategoryOf, b[i].category)))
      && (forall i :: 0 <= i < |b| ==> b[i] == Describe(b[i].category, b[i].amount, total))
  {
    Folds.TotalsKeys(es, Folds.CategoryOf);
    DecorateDescribes(Folds.TotalsSpec(es, Folds.CategoryOf), total);
  }

  /** The breakdown lists the categories in the order of `Object.keys`. */
  lemma BreakdownOrder(es: seq<Expense>, total: real)
    ensures var ks := Folds.DistinctKeys(es, Folds.CategoryOf);
      var b := Decorate(Folds.TotalsSpec(es, Folds.CategoryOf), total);
      |b| == |ks| && forall i :: 0 <= i < |b| ==> b[i].category == ks[i]
  {
  }

  /** Every expense's category is one of the distinct categories. */
  lemma EveryCategoryListed(es: seq<Expense>)
    ensures forall e :: e in es ==> e.category in Folds.DistinctKeys(es, Folds.CategoryOf)
  {
    Folds.DistinctKeysFacts(es, Folds.CategoryOf);
  }

  /** Entries whose categories are `ks` have an entry for every category in `ks`. */
  lemma CategoriesCovered(es: seq<Expense>, b: seq<Entry>, ks: seq<string>)
    requires |b| == |ks| && forall i :: 0 <= i < |b| ==> b[i].category == ks[i]
    requires forall e :: e in es ==> e.category in ks
    ensures forall e :: e in es ==> exists i :: 0 <= i < |b| && b[i].category == e.category
  {
    forall e | e in es ensures exists i :: 0 <= i < |b| && b[i].category == e.category {
      var i :| 0 <= i < |ks| && ks[i] == e.category;
      assert b[i].category == e.category;
    }
  }

  /** The breakdown of `es` has an entry for the category of every expense. */
  lemma BreakdownCovers(es: seq<Expense>, total: real)
    ensures var b := Decorate(Folds.TotalsSpec(es, Folds.CategoryOf), total);
      forall e :: e in es ==> exists i :: 0 <= i < |b| && b[i].category == e.category
  {
    BreakdownOrder(es, total);
    EveryCategoryListed(es);
    CategoriesCovered(es, Decorate(Folds.TotalsSpec(es, Folds.CategoryOf), total), Folds.DistinctKeys(es, Folds.CategoryOf));
  }

  /** Every entry of the breakdown of `es` is the category of some expense. */
  lemma BreakdownWitnessed(es: seq<Expense>, total: real)
    ensures var b := Decorate(Folds.TotalsSpec(es, Folds.CategoryOf), total);
      forall i :: 0 <= i < |b| ==> exists e :: e in es && e.category == b[i].category
  {
    var ks := Folds.DistinctKeys(es, Folds.CategoryOf);
    BreakdownOrder(es, total);
    Folds.DistinctKeysFacts(es, Folds.CategoryOf);
    CategoriesWitnessed(es, Decorate(Folds.TotalsSpec(es, Folds.CategoryOf), total), ks);
  }

  /** Entries whose categories are `ks` name only categories of expenses when every key in `ks` does. */
  lemma CategoriesWitnessed(es: seq<Expense>, b: seq<Entry>, ks: seq<string>)
    requires |b| == |ks| && forall i :: 0 <= i < |b| ==> b[i].category == ks[i]
    requires forall k :: k in ks ==> exists e :: e in es && e.category == k
    ensures forall i :: 0 <= i < |b| ==> exists e :: e in es && e.category == b[i].category
  {
    forall i | 0 <= i < |b| ensures exists e :: e in es && e.category == b[i].category {
      assert ks[i] in ks;
      var e :| e in es && e.category == ks[i];
      assert e.category == b[i].category;
    }
    assert forall i :: 0 <= i < |b| ==> exists e :: e in es && e.category == b[i].category;
  }

  /**
   * The overview's figures: `totalSpent` over the expenses followed by the
   * recurring expenses, what is left of the monthly spendable income, and
   * the breakdown with one entry per distinct category (in order of first
   * appearance), each holding that category's sum, the amounts adding up
   * to the total and the percentages to 100 when something was spent.
   */
  method SpendingOverview(income: Option<IncomeRecord>, expenses: seq<Expense>, recurring: seq<Expense>)
    returns (totalSpent: real, remaining: real, breakdown: seq<Entry>)
    ensures totalSpent == Folds.Sum(expenses) + Folds.Sum(recurring)
    ensures remaining == MonthlySpendable(income) - totalSpent
    ensures forall i, j :: 0 <= i < j < |breakdown| ==> breakdown[i].category != breakdown[j].category
    ensures forall e :: e in expenses + recurring ==> exists i :: 0 <= i < |breakdown| && breakdown[i].category == e.category
    ensures forall i :: 0 <= i < |breakdown| ==> exists e :: e in expenses + recurring && e.category == breakdown[i].category
    ensures forall i :: 0 <= i < |breakdown| ==>
      breakdown[i].amount == Folds.Sum(Folds.Bucket(expenses + recurring, Folds.CategoryOf, breakdown[i].category))
    ensures forall i :: 0 <= i < |breakdown| ==>
      breakdown[i] == Describe(breakdown[i].category, breakdown[i].amount, totalSpent)
    ensures SumAmounts(breakdown) == totalSpent
    ensures totalSpent > 0.0 ==> SumPercentages(breakdown) == 100.0
    ensures totalSpent <= 0.0 ==> forall i :: 0 <= i < |breakdown| ==> breakdown[i].percentage == 0.0
  {
    var all := expenses + recurring;
    Folds.SumAppend(expenses, recurring);
    totalSpent := Folds.Sum(all);
    remaining := MonthlySpendable(income) - totalSpent;
    var entries := Folds.TotalsBy(all, Folds.CategoryOf);
    Folds.TotalsAddUp(all, Folds.CategoryOf);
    BreakdownEntries(all, totalSpent);
    BreakdownCovers(all, totalSpent);
    BreakdownWitnessed(all, totalSpent);
    breakdown := Decorate(entries, totalSpent);
    DecorateKeepsAmounts(entries, totalSpent);
    if totalSpent > 0.0 {
      PercentagesAddUp(entries, totalSpent);
    }
  }

  /** The breakdown is shown only when something was spent. */
  predicate BreakdownShown(totalSpent: real) {
    totalSpent > 0.0
  }

  /** With positive amounts, the breakdown is shown exactly when there is any expense, one-time or recurring. */
  lemma ShownIffAnyExpense(expenses: seq<Expense>, recurring: seq<Expense>)
    requires forall e :: e in expenses + recurring ==> e.amount > 0.0
    ensures BreakdownShown(Folds.Sum(expenses) + Folds.Sum(recurring)) <==> expenses + recurring != []
  {
    Folds.SumPositive(expenses + recurring);
    Folds.SumAppend(expenses, recurring);
  }
}
