/**
 * The segmented donut chart: this month's one-time expenses, their total,
 * the total of each of the six fixed categories, and one arc per category
 * whose angle is its share of the full turn less a small gap. Angles are in
 * radians; π enters as the parameter `pi`.
 */
module SegmentedDonutChart {
  import opened Common
  import Dates
  import Folds

  /** The keys of `EXPENSE_CATEGORIES`, in declaration order. */
  const CategoryKeys: seq<string> := ["Housing", "Subscriptions", "DailyNeeds", "Wants", "Leisure", "Unexpected"]

  /**
   * The current-month filter: the expense's date is a real date in the
   * month of `today`. An unparseable date compares false and never matches.
   */
  function InCurrentMonth(today: Date): Expense -> bool {
    (e: Expense) => Dates.ValidDate(e.date) && Dates.SameMonth(e.date, today)
  }

  /** The filter is the source's `startOfMonth(now) <= date <= endOfMonth(now)` range test. */
  lemma InCurrentMonthIsRange(e: Expense, today: Date)
    requires Dates.ValidDate(today)
    ensures InCurrentMonth(today)(e) <==> Dates.ValidDate(e.date) && Dates.WithinMonthOf(e.date, today)
  {
    if Dates.ValidDate(e.date) {
      Dates.InMonthRange(e.date, today.year, today.month);
    }
  }

  /** `state.expenses` dated in the current month, in order. */
  function CurrentMonthExpenses(expenses: seq<Expense>, today: Date): seq<Expense> {
    Folds.Bucket(expenses, InCurrentMonth(today), true)
  }

  /** An expense is counted this month exactly when it is in the list and dated in the month of `today`. */
  lemma CurrentMonthExactly(expenses: seq<Expense>, today: Date, e: Expense)
    ensures e in CurrentMonthExpenses(expenses, today)
        <==> e in expenses && Dates.ValidDate(e.date) && Dates.SameMonth(e.date, today)
  {
    Folds.BucketSound(expenses, InCurrentMonth(today), true);
    if e in expenses && InCurrentMonth(today)(e) {
      Folds.BucketComplete(expenses, InCurrentMonth(today), true, e);
    }
  }

  /** `expensesByCategory`: for each fixed category key, in order, the sum of its expenses. */
  function ByCategory(current: seq<Expense>): (t: seq<(string, real)>)
    ensures |t| == |CategoryKeys|
    ensures forall i :: 0 <= i < |t| ==>
      t[i].0 == CategoryKeys[i] && t[i].1 == Folds.Sum(Folds.Bucket(current, Folds.CategoryOf, CategoryKeys[i]))
  {
    Folds.Totals(current, Folds.CategoryOf, CategoryKeys)
  }

  /** A category nobody spent on this month totals 0. */
  lemma UnusedCategoryZero(current: seq<Expense>, i: nat)
    requires i < |CategoryKeys|
    requires forall e :: e in current ==> e.category != CategoryKeys[i]
    ensures ByCategory(current)[i].1 == 0.0
  {
    Folds.DistinctKeysFacts(current, Folds.CategoryOf);
    Folds.BucketEmptyWhenAbsent(current, Folds.CategoryOf, CategoryKeys[i]);
  }

  /** The six category keys are distinct: their initials already differ. */
  lemma CategoryKeysDistinct()
    ensures forall i, j :: 0 <= i < j < |CategoryKeys| ==> CategoryKeys[i] != CategoryKeys[j]
  {
    var initials := "HSDWLU";
    assert forall i :: 0 <= i < |CategoryKeys| ==> CategoryKeys[i] != [] && CategoryKeys[i][0] == initials[i];
  }

  /** The category totals plus the expenses of unknown categories make up the month's total. */
  lemma CategoriesPartition(current: seq<Expense>)
    ensures Folds.SumEntries(ByCategory(current)) + Folds.Sum(Folds.Outside(current, Folds.CategoryOf, CategoryKeys))
         == Folds.Sum(current)
  {
    Folds.SumEntriesOfTotals(current, Folds.CategoryOf, CategoryKeys);
    CategoryKeysDistinct();
    Folds.SumKeysPartition(current, Folds.CategoryOf, CategoryKeys);
  }

  /** When every category is a known key, the category totals add up to the month's total. */
  lemma KnownCategoriesAddUp(current: seq<Expense>)
    requires forall e :: e in current ==> e.category in CategoryKeys
    ensures Folds.SumEntries(ByCategory(current)) == Folds.Sum(current)
  {
    CategoriesPartition(current);
    Folds.OutsideEmpty(current, Folds.CategoryOf, CategoryKeys);
  }

  /** With non-negative amounts, the category totals never exceed the month's total. */
  lemma CategoriesWithinTotal(current: seq<Expense>)
    requires forall e :: e in current ==> e.amount >= 0.0
    ensures Folds.SumEntries(ByCategory(current)) <= Folds.Sum(current)
  {
    var out := Folds.Outside(current, Folds.CategoryOf, CategoryKeys);
    CategoriesPartition(current);
    forall e | e in out ensures e.amount >= 0.0 {
      Folds.OutsideExactly(current, Folds.CategoryOf, CategoryKeys, e);
    }
    Folds.SumNonNegative(out);
  }

  /** With positive amounts, the category totals add up to the month's total only when every category is known. */
  lemma AddsUpOnlyIfKnown(current: seq<Expense>)
    requires forall e :: e in current ==> e.amount > 0.0
    requires Folds.SumEntries(ByCategory(current)) == Folds.Sum(current)
    ensures forall e :: e in current ==> e.category in CategoryKeys
  {
    var out := Folds.Outside(current, Folds.CategoryOf, CategoryKeys);
    CategoriesPartition(current);
    forall e | e in out ensures e.amount > 0.0 {
      Folds.OutsideExactly(current, Folds.CategoryOf, CategoryKeys, e);
    }
    Folds.SumPositive(out);
    forall e | e in current ensures e.category in CategoryKeys {
      Folds.OutsideExactly(current, Folds.CategoryOf, CategoryKeys, e);
    }
  }

  /** `totalExpenses ? amount / totalExpenses : 0`. */
  function Percentage(amount: real, total: real): (p: real)
    ensures total != 0.0 ==> p * total == amount
    ensures total == 0.0 ==> p == 0.0
  {
    if total != 0.0 then amount / total else 0.0
  }

  /** The share of a sum is the sum of the shares. */
  lemma PercentageAdds(a: real, b: real, total: real)
    ensures Percentage(a + b, total) == Percentage(a, total) + Percentage(b, total)
  {
    if total != 0.0 {
      var pa := Percentage(a, total);
      var pb := Percentage(b, total);
      var pab := Percentage(a + b, total);
      assert (pa + pb) * total == a + b;
      assert (pab - (pa + pb)) * total == 0.0;
    }
  }

  /** `2 * Math.PI * share`: a share of the full turn, in radians. */
  function Turn(share: real, pi: real): real {
    2.0 * pi * share
  }

  /** One arc of the chart. `largeArc` is the SVG large-arc flag. */
  datatype Arc = Arc(category: string, amount: real, percentage: real, startAngle: real, angle: real, largeArc: bool)

  /**
   * Arc `k` for the category totals `t`: its angle is its share of the full
   * turn less the 0.02 gap, and it starts at the full turn scaled by the
   * share of all earlier categories, the gaps subtracted and added back
   * cancelling out.
   */
  function ArcAt(t: seq<(string, real)>, total: real, pi: real, k: nat): Arc
    requires k < |t|
  {
    var p := Percentage(t[k].1, total);
    var angle := Turn(p, pi) - 0.02;
    Arc(t[k].0, t[k].1, p, Turn(Percentage(Folds.SumEntries(t[..k]), total), pi), angle, angle > pi)
  }

  /** The start of arc k + 1 is the start of arc k advanced by its full share of the turn. */
  lemma StartStep(t: seq<(string, real)>, total: real, pi: real, k: nat)
    requires k < |t|
    ensures Turn(Percentage(Folds.SumEntries(t[..k + 1]), total), pi)
         == Turn(Percentage(Folds.SumEntries(t[..k]), total), pi) + Turn(Percentage(t[k].1, total), pi)
  {
    var before := Percentage(Folds.SumEntries(t[..k]), total);
    var share := Percentage(t[k].1, total);
    Folds.SumEntriesSnoc(t, k);
    PercentageAdds(Folds.SumEntries(t[..k]), t[k].1, total);
    assert 2.0 * pi * (before + share) == 2.0 * pi * before + 2.0 * pi * share;
  }

  /**
   * The `map` over the category totals that advances `startAngle` by each
   * arc's angle and the gap: arc `k` is `ArcAt(t, total, pi, k)`.
   */
  method LayOut(t: seq<(string, real)>, total: real, pi: real) returns (arcs: seq<Arc>)
    ensures |arcs| == |t|
    ensures forall k :: 0 <= k < |t| ==> arcs[k] == ArcAt(t, total, pi, k)
  {
    var startAngle := 0.0;
    arcs := [];
    var i := 0;
    while i < |t|
      invariant 0 <= i <= |t|
      invariant |arcs| == i
      invariant forall k :: 0 <= k < i ==> arcs[k] == ArcAt(t, total, pi, k)
      invariant startAngle == Turn(Percentage(Folds.SumEntries(t[..i]), total), pi)
    {
      var percentage := Percentage(t[i].1, total);
      var angle := Turn(percentage, pi) - 0.02;
      arcs := arcs + [Arc(t[i].0, t[i].1, percentage, startAngle, angle, angle > pi)];
      StartStep(t, total, pi, i);
      startAngle := startAngle + angle + 0.02;
      i := i + 1;
    }
  }

  /**
   * The chart's figures for the month of `today`: the month's total, the
   * six category totals and one arc per category, whether or not anything
   * was spent on it.
   */
  method Chart(expenses: seq<Expense>, today: Date, pi: real)
    returns (total: real, byCategory: seq<(string, real)>, arcs: seq<Arc>)
    ensures total == Folds.Sum(CurrentMonthExpenses(expenses, today))
    ensures byCategory == ByCategory(CurrentMonthExpenses(expenses, today))
    ensures |arcs| == |CategoryKeys|
    ensures forall k :: 0 <= k < |arcs| ==> arcs[k] == ArcAt(byCategory, total, pi, k)
  {
    var current := CurrentMonthExpenses(expenses, today);
    total := Folds.Sum(current);
    byCategory := ByCategory(current);
    arcs := LayOut(byCategory, total, pi);
  }

  /** Each arc is followed, after exactly the 0.02 gap, by the next. */
  lemma ArcsContiguous(t: seq<(string, real)>, total: real, pi: real, k: nat)
    requires k + 1 < |t|
    ensures ArcAt(t, total, pi, k + 1).startAngle
         == ArcAt(t, total, pi, k).startAngle + ArcAt(t, total, pi, k).angle + 0.02
  {
    StartStep(t, total, pi, k);
  }

  /**
   * When the category totals add up to the (nonzero) total, the last arc
   * ends one gap short of the full turn.
   */
  lemma LastArcEnds(t: seq<(string, real)>, total: real, pi: real)
    requires t != [] && total != 0.0 && Folds.SumEntries(t) == total
    ensures var last := ArcAt(t, total, pi, |t| - 1);
      last.startAngle + last.angle == 2.0 * pi - 0.02
  {
    var n := |t| - 1;
    StartStep(t, total, pi, n);
    assert t[..n + 1] == t;
    var whole := Percentage(total, total);
    assert (whole - 1.0) * total == 0.0;
  }

  /** For a positive π, the large-arc flag is set exactly when the share exceeds one half by more than the gap's part of the turn. */
  lemma LargeArcRule(t: seq<(string, real)>, total: real, pi: real, k: nat)
    requires k < |t| && pi > 0.0
    ensures var a := ArcAt(t, total, pi, k);
      a.largeArc <==> a.percentage * pi > 0.5 * pi + 0.01
  {
  }

  /** A category with nothing spent still gets an arc, of negative angle −0.02 and without the large-arc flag. */
  lemma EmptyCategoryArc(t: seq<(string, real)>, total: real, pi: real, k: nat)
    requires k < |t| && t[k].1 == 0.0 && pi > 0.0
    ensures ArcAt(t, total, pi, k).angle == -0.02
    ensures !ArcAt(t, total, pi, k).largeArc
  {
  }
}
