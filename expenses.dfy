/**
 * The expenses screen. Its yearly totals are the expense tab's
 * (`ExpenseTab.Summary`); its history groups the one-time expenses only,
 * and each category is shown in a colour looked up case-insensitively.
 */
module Expenses {
  import opened Common
  import Folds
  import Text
  import ExpenseTab

  /** The history of the screen: `state.expenses` grouped by month, newest first. */
  method ExpenseHistory(expenses: seq<Expense>) returns (sortedMonths: seq<string>, groups: map<string, seq<Expense>>)
    ensures forall k :: k in groups <==> k in sortedMonths
    ensures forall k :: k in groups ==> groups[k] == Folds.Bucket(expenses, ExpenseTab.MonthKeyOf, k)
    ensures forall e :: e in expenses ==> ExpenseTab.MonthKeyOf(e) in groups && e in groups[ExpenseTab.MonthKeyOf(e)]
    ensures forall k :: k in groups ==> forall e :: e in groups[k] ==> e in expenses
    ensures Text.StrictlyDescending(sortedMonths)
    ensures Folds.SumKeys(expenses, ExpenseTab.MonthKeyOf, sortedMonths) == Folds.Sum(expenses)
  {
    sortedMonths, groups := ExpenseTab.GroupByMonth(expenses);
    forall k | k in groups ensures forall e :: e in groups[k] ==> e in expenses {
      Folds.BucketSound(expenses, ExpenseTab.MonthKeyOf, k);
    }
  }

  const DefaultColor := "text-gray-400"

  /** The colour table of `getCategoryColor`, keyed by lower-case category. */
  const Colors: map<string, string> := map[
    "groceries" := "text-green-400",
    "entertainment" := "text-purple-400",
    "transportation" := "text-blue-400",
    "utilities" := "text-yellow-400",
    "housing" := "text-red-400",
    "healthcare" := "text-pink-400",
    "default" := DefaultColor]

  /** `colors[category.toLowerCase()] || colors.default`. */
  function CategoryColor(category: string): (c: string)
    ensures Text.ToLower(category) in Colors ==> c == Colors[Text.ToLower(category)]
    ensures Text.ToLower(category) !in Colors ==> c == DefaultColor
  {
    var key := Text.ToLower(category);
    if key in Colors then Colors[key] else Colors["default"]
  }

  /**
   * The lookup ignores case: categories that lower-case alike get the same
   * colour, and a category gets the colour of its lower-case spelling.
   */
  lemma ColorIgnoresCase(a: string, b: string)
    requires Text.ToLower(a) == Text.ToLower(b)
    ensures CategoryColor(a) == CategoryColor(b)
    ensures CategoryColor(a) == CategoryColor(Text.ToLower(a))
  {
    Text.ToLowerIdempotent(a);
  }

  /** A category outside the table, whatever its case, is grey. */
  lemma UnknownCategoryIsGrey(category: string)
    requires Text.ToLower(category) !in Colors
    ensures CategoryColor(category) == "text-gray-400"
  {
  }

  /** An illustration of `ColorIgnoresCase`: the upper-case spelling "Groceries" finds the green entry. */
  lemma CapitalisedCategoryFound()
    ensures CategoryColor("Groceries") == "text-green-400"
  {
    assert Text.ToLower("Groceries") == "groceries";
  }
}
