/**
 * The donut chart: one slice per data item, in order, each spanning its
 * share of the full 360 degrees, the running total `cumulativeValue`
 * placing each slice right after the previous one.
 */
module DonutChart {

  /** One data item: its value and its fill colour. */
  datatype Item = Item(value: real, color: string)

  /** One slice: its colour, start and end angle in degrees, and the SVG large-arc flag. */
  datatype Slice = Slice(color: string, startAngle: real, endAngle: real, largeArc: bool)

  /** `data.reduce((sum, item) => sum + item.value, 0)`. */
  function Total(data: seq<Item>): real
    decreases |data|
  {
    if data == [] then 0.0 else Total(data[..|data| - 1]) + data[|data| - 1].value
  }

  /** The running total after k + 1 items is the one after k items plus item k. */
  lemma TotalSnoc(data: seq<Item>, k: nat)
    requires k < |data|
    ensures Total(data[..k + 1]) == Total(data[..k]) + data[k].value
  {
    assert data[..k + 1][..k] == data[..k];
  }

  /** `(x / total) * 360`: the angle of a cumulative value. */
  function Angle(x: real, total: real): (a: real)
    requires total != 0.0
    ensures a * total == x * 360.0
  {
    var share := x / total;
    assert (share * 360.0) * total == (share * total) * 360.0;
    share * 360.0
  }

  /** The angle of a sum is the sum of the angles. */
  lemma AngleAdds(x: real, y: real, total: real)
    requires total != 0.0
    ensures Angle(x + y, total) == Angle(x, total) + Angle(y, total)
  {
    var ax, ay, axy := Angle(x, total), Angle(y, total), Angle(x + y, total);
    assert (ax + ay) * total == (x + y) * 360.0;
    assert (axy - (ax + ay)) * total == 0.0;
  }

  /** For a positive total, a larger value has a larger angle. */
  lemma AngleMonotone(x: real, y: real, total: real)
    requires total > 0.0 && x <= y
    ensures Angle(x, total) <= Angle(y, total)
  {
    AngleAdds(x, y - x, total);
    var d := Angle(y - x, total);
    if d < 0.0 {
      assert d * total < 0.0;
    }
  }

  /**
   * Slice `k`: from the angle of the values before it to the angle of the
   * values up to and including it.
   */
  function SliceAt(data: seq<Item>, total: real, k: nat): Slice
    requires total != 0.0 && k < |data|
  {
    var before := Total(data[..k]);
    var startAngle := Angle(before, total);
    var endAngle := Angle(before + data[k].value, total);
    Slice(data[k].color, startAngle, endAngle, endAngle - startAngle > 180.0)
  }

  /**
   * The `map` over the data that draws each slice from `cumulativeValue`
   * and then advances it by the item's value. The source divides by the
   * total, so it must not be 0.
   */
  method Slices(data: seq<Item>) returns (slices: seq<Slice>)
    requires Total(data) != 0.0
    ensures |slices| == |data|
    ensures forall k :: 0 <= k < |data| ==> slices[k] == SliceAt(data, Total(data), k)
  {
    var total := Total(data);
    var cumulativeValue := 0.0;
    slices := [];
    var i := 0;
    while i < |data|
      invariant 0 <= i <= |data|
      invariant |slices| == i
      invariant forall k :: 0 <= k < i ==> slices[k] == SliceAt(data, total, k)
      invariant cumulativeValue == Total(data[..i])
    {
      var item := data[i];
      var startAngle := (cumulativeValue / total) * 360.0;
      var endAngle := ((cumulativeValue + item.value) / total) * 360.0;
      TotalSnoc(data, i);
      cumulativeValue := cumulativeValue + item.value;
      slices := slices + [Slice(item.color, startAngle, endAngle, endAngle - startAngle > 180.0)];
      i := i + 1;
    }
  }

  /** Each slice ends exactly where the next one starts. */
  lemma SlicesContiguous(data: seq<Item>, total: real, k: nat)
    requires total != 0.0 && k + 1 < |data|
    ensures SliceAt(data, total, k).endAngle == SliceAt(data, total, k + 1).startAngle
  {
    TotalSnoc(data, k);
  }

  /** The first slice starts at 0 degrees and the last ends at 360. */
  lemma SlicesFillCircle(data: seq<Item>)
    requires data != [] && Total(data) != 0.0
    ensures SliceAt(data, Total(data), 0).startAngle == 0.0
    ensures SliceAt(data, Total(data), |data| - 1).endAngle == 360.0
  {
    var n := |data| - 1;
    var total := Total(data);
    TotalSnoc(data, n);
    assert data[..n + 1] == data;
    assert data[..0] == [];
    var first, last := Angle(0.0, total), Angle(total, total);
    assert first * total == 0.0;
    assert (last - 360.0) * total == 0.0;
  }

  /** A slice spans its item's share of 360 degrees. */
  lemma SliceSpan(data: seq<Item>, total: real, k: nat)
    requires total != 0.0 && k < |data|
    ensures var s := SliceAt(data, total, k);
      (s.endAngle - s.startAngle) * total == data[k].value * 360.0
  {
    AngleAdds(Total(data[..k]), data[k].value, total);
  }

  /** For a positive total, the large-arc flag is set exactly when the item is more than half of the total. */
  lemma LargeArcRule(data: seq<Item>, total: real, k: nat)
    requires total > 0.0 && k < |data|
    ensures SliceAt(data, total, k).largeArc <==> data[k].value * 2.0 > total
  {
    var s := SliceAt(data, total, k);
    var span := s.endAngle - s.startAngle;
    SliceSpan(data, total, k);
    assert s.largeArc == (span > 180.0);
    assert span * total == data[k].value * 360.0;
    if span > 180.0 {
      assert span * total > 180.0 * total;
    } else {
      assert span * total <= 180.0 * total;
    }
  }

  /** With non-negative values, the running totals never exceed the total. */
  lemma {:induction false} PrefixWithinTotal(data: seq<Item>, k: nat)
    requires k <= |data|
    requires forall i :: 0 <= i < |data| ==> data[i].value >= 0.0
    ensures 0.0 <= Total(data[..k]) <= Total(data)
    decreases |data|
  {
    if data != [] {
      var n := |data| - 1;
      var prefix := data[..n];
      assert forall i :: 0 <= i < |prefix| ==> prefix[i].value == data[i].value;
      if k == |data| {
        assert data[..k] == data;
        PrefixWithinTotal(prefix, n);
        assert prefix[..n] == prefix;
      } else {
        PrefixWithinTotal(prefix, k);
        assert prefix[..k] == data[..k];
      }
    }
  }

  /**
   * With non-negative values (and a nonzero, hence positive, total), every
   * slice lies within 0 to 360 degrees and goes forward: its end is never
   * before its start.
   */
  lemma SlicesForward(data: seq<Item>, k: nat)
    requires k < |data| && Total(data) != 0.0
    requires forall i :: 0 <= i < |data| ==> data[i].value >= 0.0
    ensures var s := SliceAt(data, Total(data), k);
      0.0 <= s.startAngle <= s.endAngle <= 360.0
  {
    var total := Total(data);
    PrefixWithinTotal(data, k);
    PrefixWithinTotal(data, k + 1);
    PrefixWithinTotal(data, |data|);
    TotalSnoc(data, k);
    var before := Total(data[..k]);
    AngleMonotone(0.0, before, total);
    AngleMonotone(before, before + data[k].value, total);
    AngleMonotone(before + data[k].value, total, total);
  }
}
