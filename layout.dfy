/** Pixel geometry of the item list: the size each index stands for, the
    offset accumulated in front of an index, the binary search that turns a
    scroll offset back into an index, and the padding behind the window. */
module Layout {
  import opened Numbers

  /** An item identity (`IdType` is `number | string`). */
  datatype Id = Text(s: string) | Number(n: int)

  /** What an index's offset depends on: the ordered ids of the data set,
      the measured sizes by id, and the estimate used for an unmeasured id. */
  datatype Geometry = Geometry(ids: seq<Id>, sizes: map<Id, int>, estimate: int)

  /** The size the offset loop adds for index i: the measured size of the
      i-th id, or the estimate when it has none. An index past the end names
      no id (`uniqueIds[i]` is undefined), so it takes the estimate too. */
  function ItemSize(g: Geometry, i: int): int {
    if 0 <= i < |g.ids| && g.ids[i] in g.sizes then g.sizes[g.ids[i]] else g.estimate
  }

  /** The offset of index k: the sizes of the items before it, summed from
      index 0 as the engine's loop does (zero for k <= 0). */
  function OffsetOf(g: Geometry, k: int): int
    decreases k
  {
    if k <= 0 then 0 else OffsetOf(g, k - 1) + ItemSize(g, k - 1)
  }

  /** The size of the items with index in [a, b), summed from a upwards: a
      reference definition independent of OffsetOf. */
  function SpanSize(g: Geometry, a: int, b: int): int
    decreases b - a
  {
    if a >= b then 0 else ItemSize(g, a) + SpanSize(g, a + 1, b)
  }

  /** The size of the whole list. */
  function TotalSize(g: Geometry): int {
    SpanSize(g, 0, |g.ids|)
  }

  /** Pixel sizes as the host reports them: never negative. */
  ghost predicate NonNegative(g: Geometry) {
    g.estimate >= 0 && forall id :: id in g.sizes ==> g.sizes[id] >= 0
  }

  /** Every measured size and the estimate equal s (the fixed-size case). */
  ghost predicate Uniform(g: Geometry, s: int) {
    g.estimate == s && forall id :: id in g.sizes ==> g.sizes[id] == s
  }

  lemma {:induction false} SpanSplit(g: Geometry, a: int, m: int, b: int)
    requires a <= m <= b
    ensures SpanSize(g, a, b) == SpanSize(g, a, m) + SpanSize(g, m, b)
    decreases m - a
  {
    if a < m {
      SpanSplit(g, a + 1, m, b);
    }
  }

  /** The engine's prefix sum agrees with the reference sum of the items
      in front of the index. */
  lemma {:induction false} OffsetIsSpan(g: Geometry, k: int)
    requires k >= 0
    ensures OffsetOf(g, k) == SpanSize(g, 0, k)
  {
    if k > 0 {
      OffsetIsSpan(g, k - 1);
      SpanSplit(g, 0, k - 1, k);
    }
  }

  /** With non-negative sizes, offsets never decrease with the index: the
      key of the binary search is monotone. */
  lemma {:induction false} OffsetMonotone(g: Geometry, a: int, b: int)
    requires NonNegative(g) && a <= b
    ensures OffsetOf(g, a) <= OffsetOf(g, b)
    decreases b - a
  {
    if a < b {
      OffsetMonotone(g, a, b - 1);
      assert ItemSize(g, b - 1) >= 0;
    }
  }

  /** With all sizes equal to s, the offset of index k is k * s. */
  lemma {:induction false} UniformOffset(g: Geometry, s: int, k: int)
    requires Uniform(g, s) && k >= 0
    ensures OffsetOf(g, k) == k * s
  {
    if k > 0 {
      UniformOffset(g, s, k - 1);
      assert ItemSize(g, k - 1) == s;
    }
  }

  /** With all sizes equal to s, the items in [a, b) take (b - a) * s. */
  lemma {:induction false} UniformSpan(g: Geometry, s: int, a: int, b: int)
    requires Uniform(g, s) && a <= b
    ensures SpanSize(g, a, b) == (b - a) * s
    decreases b - a
  {
    if a < b {
      UniformSpan(g, s, a + 1, b);
      assert ItemSize(g, a) == s;
    }
  }

  /** lastCalcIndex after one call getIndexOffset(given) on an engine that
      has its parameters: unchanged for index 0, else raised to given - 1
      and then capped at lastIndex. */
  function CalcIndexAfter(lastCalcIndex: int, given: int, lastIndex: int): (r: int)
    ensures given != 0 ==> r <= lastIndex
  {
    if given == 0 then lastCalcIndex else Min(Max(lastCalcIndex, given - 1), lastIndex)
  }

  /** The probe index of the search over [low, high]. */
  function Middle(low: int, high: int): (m: int)
    requires low <= high
    ensures low <= m <= high
  {
    low + (high - low) / 2
  }

  /** The binary search of getScrollOvers over [low, high] for a positive
      target offset: returns the index it settles on and the lastCalcIndex
      its probes leave behind. */
  function Search(g: Geometry, target: int, low: int, high: int, lastCalcIndex: int): (int, int)
    decreases if low <= high then high - low + 1 else 0
  {
    if low > high then
      (if low > 0 then low - 1 else 0, lastCalcIndex)
    else
      var middle := Middle(low, high);
      var probed := CalcIndexAfter(lastCalcIndex, middle, |g.ids| - 1);
      var middleOffset := OffsetOf(g, middle);
      if middleOffset == target then (middle, probed)
      else if middleOffset < target then Search(g, target, middle + 1, high, probed)
      else Search(g, target, low, middle - 1, probed)
  }

  /** One probe of the search, unfolded for the engine's loop. */
  lemma SearchProbe(g: Geometry, target: int, low: int, high: int, lastCalcIndex: int)
    requires low <= high
    ensures var middle := Middle(low, high);
      var probed := CalcIndexAfter(lastCalcIndex, middle, |g.ids| - 1);
      Search(g, target, low, high, lastCalcIndex) ==
        if OffsetOf(g, middle) == target then (middle, probed)
        else if OffsetOf(g, middle) < target then Search(g, target, middle + 1, high, probed)
        else Search(g, target, low, middle - 1, probed)
  {
  }

  /** Without any assumption on the sizes, the search stays inside the
      interval it was given (for the engine, [0, number of ids]). */
  lemma {:induction false} SearchInBounds(g: Geometry, target: int, low: int, high: int, lastCalcIndex: int)
    requires 0 <= low <= high + 1
    ensures 0 <= Search(g, target, low, high, lastCalcIndex).0 <= Max(high, 0)
    decreases if low <= high then high - low + 1 else 0
  {
    if low <= high {
      var middle := Middle(low, high);
      var probed := CalcIndexAfter(lastCalcIndex, middle, |g.ids| - 1);
      if OffsetOf(g, middle) < target {
        SearchInBounds(g, target, middle + 1, high, probed);
      } else if OffsetOf(g, middle) > target {
        SearchInBounds(g, target, low, middle - 1, probed);
      }
    }
  }

  /** r is where a search for target may settle: an index in [0, number of
      ids] whose offset is at most the target and that is the last index, an
      exact match, or followed by an index whose offset passes the target. */
  ghost predicate Settles(g: Geometry, target: int, r: int) {
    0 <= r <= |g.ids| && OffsetOf(g, r) <= target &&
    (r == |g.ids| || OffsetOf(g, r) == target || target < OffsetOf(g, r + 1))
  }

  /** From a positive target, the search over [low, high] settles, provided
      everything before low lies below the target and everything after high
      above it. */
  lemma {:induction false} SearchFindsIndex(g: Geometry, target: int, low: int, high: int, lastCalcIndex: int)
    requires target > 0
    requires 0 <= low <= high + 1 && 0 <= high <= |g.ids|
    requires low == 0 || OffsetOf(g, low - 1) < target
    requires high == |g.ids| || target < OffsetOf(g, high + 1)
    ensures Settles(g, target, Search(g, target, low, high, lastCalcIndex).0)
    decreases if low <= high then high - low + 1 else 0
  {
    if low <= high {
      var middle := Middle(low, high);
      var probed := CalcIndexAfter(lastCalcIndex, middle, |g.ids| - 1);
      SearchProbe(g, target, low, high, lastCalcIndex);
      if OffsetOf(g, middle) < target {
        SearchFindsIndex(g, target, middle + 1, high, probed);
      } else if OffsetOf(g, middle) > target {
        SearchFindsIndex(g, target, low, middle - 1, probed);
      }
    }
  }

  /** The search over [0, number of ids] from a positive target, with
      non-negative sizes: an exact match whenever one exists, else the last
      index whose offset is below the target. */
  lemma SearchOvers(g: Geometry, target: int, lastCalcIndex: int)
    requires NonNegative(g) && target > 0
    ensures var r := Search(g, target, 0, |g.ids|, lastCalcIndex).0;
      0 <= r <= |g.ids| && OffsetOf(g, r) <= target &&
      (r == |g.ids| || OffsetOf(g, r) == target || target < OffsetOf(g, r + 1)) &&
      (forall j :: 0 <= j <= |g.ids| && OffsetOf(g, j) == target ==> OffsetOf(g, r) == target)
  {
    var r := Search(g, target, 0, |g.ids|, lastCalcIndex).0;
    SearchFindsIndex(g, target, 0, |g.ids|, lastCalcIndex);
    forall j | 0 <= j <= |g.ids| && OffsetOf(g, j) == target
      ensures OffsetOf(g, r) == target
    {
      if j <= r {
        OffsetMonotone(g, j, r);
      } else {
        OffsetMonotone(g, r + 1, j);
      }
    }
  }

  /** With every size equal to a positive s, the accumulate-and-search path
      agrees with the fixed-size shortcut floor(target / s), capped at the
      number of ids (the shortcut itself is not capped). */
  lemma FixedShortcutAgrees(g: Geometry, s: int, target: int, lastCalcIndex: int)
    requires s > 0 && Uniform(g, s) && target > 0
    ensures Search(g, target, 0, |g.ids|, lastCalcIndex).0 == Min(target / s, |g.ids|)
  {
    var r := Search(g, target, 0, |g.ids|, lastCalcIndex).0;
    SearchFindsIndex(g, target, 0, |g.ids|, lastCalcIndex);
    UniformOffset(g, s, r);
    UniformOffset(g, s, r + 1);
    DivLowerBound(r, s, target);
    if r < |g.ids| || r * s == target || target < (r + 1) * s {
      DivUpperBound(r, s, target);
    }
  }

  /** r * s <= t implies r <= t / s, for positive s. */
  lemma DivLowerBound(r: int, s: int, t: int)
    requires s > 0 && r * s <= t
    ensures r <= t / s
  {
    var q := t / s;
    assert t == q * s + t % s && t % s < s;
    assert (q + 1) * s == q * s + s;
    if r > q {
      MulMonotone(q + 1, r, s);
    }
  }

  /** t < (r + 1) * s implies t / s <= r, for positive s. */
  lemma DivUpperBound(r: int, s: int, t: int)
    requires s > 0 && t < (r + 1) * s
    ensures t / s <= r
  {
    var q := t / s;
    assert t == q * s + t % s && 0 <= t % s;
    if q > r {
      MulMonotone(r + 1, q, s);
    }
  }

  lemma MulMonotone(a: int, b: int, s: int)
    requires a <= b && s > 0
    ensures a * s <= b * s
  {
    assert b * s - a * s == (b - a) * s;
  }

  /** The padding behind the window when every offset is known, as written at
      virtual.ts:341: offset(lastIndex) - offset(end). */
  function PadBehindExactAsWritten(g: Geometry, end: int): int {
    OffsetOf(g, |g.ids| - 1) - OffsetOf(g, end)
  }

  /** The padding behind the window when every offset is known, corrected:
      offset(lastIndex + 1) - offset(end + 1). */
  function PadBehindExact(g: Geometry, end: int): int {
    OffsetOf(g, |g.ids|) - OffsetOf(g, end + 1)
  }

  /** The corrected padding is exactly the size of the items behind the
      window, those with index in (end, lastIndex]. */
  lemma PadBehindExactIsTail(g: Geometry, end: int)
    requires -1 <= end < |g.ids|
    ensures PadBehindExact(g, end) == SpanSize(g, end + 1, |g.ids|)
  {
    OffsetIsSpan(g, |g.ids|);
    OffsetIsSpan(g, end + 1);
    SpanSplit(g, 0, end + 1, |g.ids|);
  }

  /** The padding as written stands for the items with index in
      [end, lastIndex): it counts the last rendered item and leaves out the
      last item of the list. */
  lemma PadBehindAsWrittenIsShifted(g: Geometry, end: int)
    requires 0 <= end < |g.ids|
    ensures PadBehindExactAsWritten(g, end) == SpanSize(g, end, |g.ids| - 1)
  {
    OffsetIsSpan(g, |g.ids| - 1);
    OffsetIsSpan(g, end);
    SpanSplit(g, 0, end, |g.ids| - 1);
  }

  /** Three items of 10, 20 and 30 pixels with only item 0 rendered: the
      padding as written is 30, so front padding, window and trailing
      padding add up to 40 while the list is 60 pixels long. */
  lemma PadBehindAsWrittenMiscounts()
    ensures var g := Geometry([Text("a"), Text("b"), Text("c")],
                              map[Text("a") := 10, Text("b") := 20, Text("c") := 30], 0);
      PadBehindExactAsWritten(g, 0) == 30 && TotalSize(g) == 60 &&
      OffsetOf(g, 0) + SpanSize(g, 0, 1) + PadBehindExactAsWritten(g, 0) != TotalSize(g)
  {
    var g := Geometry([Text("a"), Text("b"), Text("c")],
                      map[Text("a") := 10, Text("b") := 20, Text("c") := 30], 0);
    assert ItemSize(g, 0) == 10 && ItemSize(g, 1) == 20 && ItemSize(g, 2) == 30;
    assert SpanSize(g, 2, 3) == 30 && SpanSize(g, 1, 3) == 50 && SpanSize(g, 0, 1) == 10;
    assert OffsetOf(g, 1) == 10 && OffsetOf(g, 2) == 30;
  }

  /** Padding conservation with every offset known: front padding, the
      rendered items [start, end] and the corrected trailing padding add up
      to the size of the whole list. */
  lemma PaddingConservation(g: Geometry, start: int, end: int)
    requires 0 <= start <= end + 1 <= |g.ids|
    ensures OffsetOf(g, start) + SpanSize(g, start, end + 1) + PadBehindExact(g, end) == TotalSize(g)
  {
    OffsetIsSpan(g, start);
    PadBehindExactIsTail(g, end);
    SpanSplit(g, 0, start, end + 1);
    SpanSplit(g, 0, end + 1, |g.ids|);
  }

  /** Padding conservation in fixed-size mode: s * start in front and
      (lastIndex - end) * s behind leave exactly the rendered items. */
  lemma FixedPaddingConservation(g: Geometry, s: int, start: int, end: int)
    requires Uniform(g, s) && 0 <= start <= end + 1 <= |g.ids|
    ensures s * start + SpanSize(g, start, end + 1) + (|g.ids| - 1 - end) * s == TotalSize(g)
  {
    UniformSpan(g, s, start, end + 1);
    UniformSpan(g, s, 0, |g.ids|);
    assert s * start + (end + 1 - start) * s + (|g.ids| - 1 - end) * s == |g.ids| * s;
  }
}
