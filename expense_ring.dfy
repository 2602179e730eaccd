/**
 * The expense ring: one arc per category of all expenses, one-time and
 * recurring, each arc's share of the ring proportional to the category's
 * total, with a 10-degree gap after every arc. Angles are in degrees; the
 * dash lengths on the circle are these angles scaled by the circumference.
 */
module ExpenseRing {
  import opened Common
  import Folds
  import Text

  /** The ring's gradient table, keyed by capitalised category name. */
  const Gradients: map<string, Gradient> := map[
    "Housing" := Gradient("#3b82f6", "#6366f1"),
    "Subscriptions" := Gradient("#a855f7", "#ec4899"),
    "DailyNeeds" := Gradient("#22c55e", "#14b8a6"),
    "Wants" := Gradient("#facc15", "#fb923c"),
    "Leisure" := Gradient("#f472b6", "#ef4444"),
    "Unexpected" := Gradient("#f87171", "#991b1b")]

  /** `EXPENSE_CATEGORIES[category] || { startColor: "#cccccc", endColor: "#999999" }`. */
  function GradientOf(category: string): Gradient {
    if category in Gradients then Gradients[category] else FallbackGradient
  }

  /** An illustration of the case-sensitive lookup: the lower-case "housing" gets the grey gradient. */
  lemma LookupIsCaseSensitive()
    ensures GradientOf("housing") == FallbackGradient
    ensures GradientOf("Housing") == Gradient("#3b82f6", "#6366f1")
  {
  }

  /**
   * The lookup is case-sensitive for every key: each key begins with a
   * capital, so its lower-cased spelling falls back to the grey gradient.
   */
  lemma LowerCasedKeysMiss(category: string)
    requires category in Gradients
    ensures GradientOf(Text.ToLower(category)) == FallbackGradient
  {
    var low := Text.ToLower(category);
    assert 'A' <= category[0] <= 'Z';
    assert 'a' <= low[0] <= 'z';
  }

  /** One arc: its category, gradient, start angle and extent. */
  datatype Segment = Segment(category: string, gradient: Gradient, startAngle: real, degrees: real)

  /** `amount / total * availableDegrees`: an arc's share of the available degrees. */
  function Degrees(amount: real, total: real, available: real): real
    requires total != 0.0
  {
    amount / total * available
  }

  /** An arc's extent is to the available degrees as its amount is to the total. */
  lemma DegreesShare(amount: real, total: real, available: real)
    requires total != 0.0
    ensures Degrees(amount, total, available) * total == amount * available
  {
    var share := amount / total;
    assert (share * available) * total == (share * total) * available;
  }

  /** Σ of the extents of the arcs for the category totals `t`. */
  function Swept(t: seq<(string, real)>, total: real, available: real): real
    requires total != 0.0
    decreases |t|
  {
    if t == [] then 0.0 else Degrees(t[0].1, total, available) + Swept(t[1..], total, available)
  }

  /**
   * Arc `k` for the category totals `t`: it spans its share of the
   * `available` degrees and starts after all earlier arcs and their gaps,
   * at `Σ(earlier extents) + 10k`.
   */
  function SegmentAt(t: seq<(string, real)>, total: real, available: real, k: nat): Segment
    requires total != 0.0 && k < |t|
  {
    Segment(t[k].0, GradientOf(t[k].0), Swept(t[..k], total, available) + 10.0 * k as real,
      Degrees(t[k].1, total, available))
  }

  /** The extents of the first k + 1 arcs are those of the first k and arc k. */
  lemma {:induction false} SweptSnoc(t: seq<(string, real)>, total: real, available: real, k: nat)
    requires total != 0.0 && k < |t|
    ensures Swept(t[..k + 1], total, available) == Swept(t[..k], total, available) + Degrees(t[k].1, total, available)
    decreases k
  {
    if k > 0 {
      assert t[..k + 1][1..] == t[1..][..k];
      assert t[..k][1..] == t[1..][..k - 1];
      SweptSnoc(t[1..], total, available, k - 1);
    }
  }

  /** The arcs together span the available degrees scaled by the share of the total that `t` holds. */
  lemma {:induction false} SweptScale(t: seq<(string, real)>, total: real, available: real)
    requires total != 0.0
    ensures Swept(t, total, available) * total == Folds.SumEntries(t) * available
    decreases |t|
  {
    if t != [] {
      SweptScale(t[1..], total, available);
      var d := Degrees(t[0].1, total, available);
      DegreesShare(t[0].1, total, available);
      var rest := Swept(t[1..], total, available);
      assert (d + rest) * total == d * total + rest * total;
    }
  }

  /** Each arc is followed, after exactly the 10-degree gap, by the next: arcs are ordered and never overlap. */
  lemma SegmentsContiguous(t: seq<(string, real)>, total: real, available: real, k: nat)
    requires total != 0.0 && k + 1 < |t|
    ensures SegmentAt(t, total, available, k + 1).startAngle
         == SegmentAt(t, total, available, k).startAngle + SegmentAt(t, total, available, k).degrees + 10.0
  {
    SweptSnoc(t, total, available, k);
  }

  /** The arcs for the category totals `t`: one per category, arc `k` being `SegmentAt(t, total, available, k)`. */
  function Arcs(t: seq<(string, real)>, total: real, available: real): seq<Segment>
    requires total != 0.0
  {
    seq(|t|, k requires 0 <= k < |t| => SegmentAt(t, total, available, k))
  }

  /**
   * The `map` over the category totals that advances `startAngle` by each
   * arc's extent and the gap: arc `k` is `SegmentAt(t, total, available, k)`.
   */
  method LayOut(t: seq<(string, real)>, total: real, available: real) returns (segments: seq<Segment>)
    requires total != 0.0
    ensures segments == Arcs(t, total, available)
  {
    var startAngle := 0.0;
    segments := [];
    var i := 0;
    while i < |t|
      invariant 0 <= i <= |t|
      invariant |segments| == i
      invariant forall k :: 0 <= k < i ==> segments[k] == SegmentAt(t, total, available, k)
      invariant startAngle == Swept(t[..i], total, available) + 10.0 * i as real
    {
      var degrees := Degrees(t[i].1, total, available);
      segments := segments + [Segment(t[i].0, GradientOf(t[i].0), startAngle, degrees)];
      SweptSnoc(t, total, available, i);
      startAngle := startAngle + degrees + 10.0;
      i := i + 1;
    }
    assert forall k :: 0 <= k < |t| ==> segments[k] == Arcs(t, total, available)[k];
  }

  /** The category totals, in first-appearance order, of the expenses `all`. */
  function CategoryTotals(all: seq<Expense>): seq<(string, real)> {
    Folds.TotalsSpec(all, Folds.CategoryOf)
  }

  /** The degrees left for the arcs of `t` once every arc has its 10-degree gap. */
  function Available(t: seq<(string, real)>): real {
    360.0 - 10.0 * |t| as real
  }

  /** The ring of the expenses `all`: the arcs of their category totals, laid out over the available degrees. */
  function Ring(all: seq<Expense>, total: real): seq<Segment>
    requires total != 0.0
  {
    var t := CategoryTotals(all);
    Arcs(t, total, Available(t))
  }

  /**
   * The body of `calculateSegments` over `combinedExpenses`: their total; no
   * arc when it is 0; otherwise one arc per distinct category, in
   * first-appearance order, laid out over `360 - 10 * (number of
   * categories)` degrees.
   */
  method SegmentsOf(all: seq<Expense>) returns (total: real, segments: seq<Segment>)
    ensures total == Folds.Sum(all)
    ensures total == 0.0 <==> segments == []
    ensures total != 0.0 ==> segments == Ring(all, total)
  {
    total := Folds.Sum(all);
    if total == 0.0 {
      segments := [];
    } else {
      var t := Folds.TotalsBy(all, Folds.CategoryOf);
      segments := LayOut(t, total, 360.0 - 10.0 * |t| as real);
      NonZeroTotalHasCategory(all);
    }
  }

  /** `calculateSegments`: the ring of the expenses followed by the recurring expenses. */
  method CalculateSegments(expenses: seq<Expense>, recurring: seq<Expense>) returns (total: real, segments: seq<Segment>)
    ensures total == Folds.Sum(expenses) + Folds.Sum(recurring)
    ensures total == 0.0 <==> segments == []
    ensures total != 0.0 ==> segments == Ring(expenses + recurring, total)
  {
    var combinedExpenses := expenses + recurring;
    Folds.SumAppend(expenses, recurring);
    total, segments := SegmentsOf(combinedExpenses);
  }

  /**
   * For a nonzero total there is at least one arc, and the arcs exactly
   * fill the available degrees.
   */
  lemma RingFills(all: seq<Expense>)
    requires Folds.Sum(all) != 0.0
    ensures var t := CategoryTotals(all);
      t != [] && Swept(t, Folds.Sum(all), Available(t)) == Available(t)
  {
    var t := CategoryTotals(all);
    Folds.TotalsAddUp(all, Folds.CategoryOf);
    RingFilled(t, Folds.Sum(all), Available(t));
    NonZeroTotalHasCategory(all);
  }

  /** When the category totals add up to the (nonzero) total, the arcs exactly fill the available degrees. */
  lemma RingFilled(t: seq<(string, real)>, total: real, available: real)
    requires total != 0.0 && Folds.SumEntries(t) == total
    ensures Swept(t, total, available) == available
  {
    var s := Swept(t, total, available);
    SweptScale(t, total, available);
    assert (s - available) * total == 0.0;
  }

  /** A nonzero total needs at least one expense, hence at least one category. */
  lemma NonZeroTotalHasCategory(es: seq<Expense>)
    requires Folds.Sum(es) != 0.0
    ensures Folds.TotalsSpec(es, Folds.CategoryOf) != []
  {
    assert es != [];
    Folds.DistinctKeysFacts(es, Folds.CategoryOf);
    assert Folds.CategoryOf(es[0]) in Folds.DistinctKeys(es, Folds.CategoryOf);
  }

  /**
   * When the arcs fill their available degrees, the last one ends 10
   * degrees short of a full turn, where the gap before the first begins.
   */
  lemma LastSegmentEnds(t: seq<(string, real)>, total: real)
    requires total != 0.0 && t != []
    requires Swept(t, total, Available(t)) == Available(t)
    ensures var last := SegmentAt(t, total, Available(t), |t| - 1);
      last.startAngle + last.degrees == 350.0
  {
    var n := |t| - 1;
    SweptSnoc(t, total, Available(t), n);
    assert t[..n + 1] == t;
  }

  /** The ring shows "No expenses to display" exactly when the total is 0. */
  predicate ShowsNoExpenses(total: real, segments: seq<Segment>) {
    total == 0.0 || |segments| == 0
  }
}
