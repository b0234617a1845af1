/** Concrete runs of the engine, proved from the contracts of class Virtual:
    the window a scroll selects in a fixed-size list, how the first-range
    average freezes, what updateParam keeps of the sizes, and the engine
    staying silent once destroyed. */
module Scenarios {
  import opened Wrappers
  import opened Numbers
  import opened Layout
  import opened Window
  import opened Sizing
  import opened Engine

  /** checkRange twice with the same arguments: the second call finds the
      corrected start in place, so it leaves the range, lastCalcIndex and the
      callback log as the first call left them. */
  method CheckRangeTwice(v: Virtual, start: int, end: int)
    requires v.SizeModeValid()
    modifies v
    ensures v.SizeModeValid()
    ensures |v.emitted| <= |old(v.emitted)| + 1
    ensures v.Checked(start, end, old(v.range), old(v.lastCalcIndex), old(v.emitted))
  {
    v.CheckRange(start, end);
    ghost var range1, lci1, log1 := v.range, v.lastCalcIndex, v.emitted;
    v.CheckRange(start, end);
    assert v.range == range1 && v.lastCalcIndex == lci1 && v.emitted == log1;
  }

  /** One hundred items of 50 pixels, keeps 10, buffer 3: the first window
      is [0, 9]; scrolling to 1000 passes 20 items, and the window moves to
      [20, 29] with 1000 pixels in front and 3500 behind. */
  method ScrollInFixedList() returns (v: Virtual)
    ensures v.Valid()
    ensures v.GetRange() == Some(Range(20, 29, 1000, 3500))
    ensures |v.emitted| == 2 && v.emitted[0] == Range(0, 9, 0, 4500)
  {
    var ids := seq(100, i => Number(i));
    v := new Virtual(VirtualParam(0, 0, 10, 50, 3, ids), true);
    assert v.Total() == 100 && v.LastIndex() == 99;
    assert CorrectWindow(0, 9, 10, 100) == Window(0, 9);
    assert OffsetOf(v.CurrentGeometry(), 0) == 0;
    assert v.range == Some(Range(0, 9, 0, 4500));
    v.SaveSize(Number(0), 50);
    assert v.calcType == Fixed && v.fixedSizeValue == Some(50);
    v.HandleScroll(1000);
    assert v.Overs(0) == (20, 0);
    assert EndByStart(20, 10, 99) == 29;
    assert CorrectWindow(20, 29, 10, 100) == Window(20, 29);
  }

  /** keeps 3 over four items: the second, different size switches to
      dynamic mode and sets the average to round(30 / 2) = 15; the third
      size reaches the freeze bound, so the average stays 15 for good. */
  method AverageFreezes() returns (v: Virtual)
    ensures v.Valid()
    ensures v.calcType == Dynamic
    ensures v.firstRangeTotalSize.None? && v.firstRangeAverageSize == 15
    ensures v.EstimateSize() == 15
  {
    var ids := [Text("a"), Text("b"), Text("c"), Text("d")];
    v := new Virtual(VirtualParam(0, 0, 3, 40, 1, ids), false);
    v.SaveSize(Text("a"), 10);
    assert v.calcType == Fixed;
    v.SaveSize(Text("b"), 20);
    assert v.sizes == map[Text("a") := 10, Text("b") := 20];
    SumOfTwo(Text("a"), Text("b"), 10, 20);
    assert RoundHalfUp(30, 2) == 15;
    assert v.firstRangeAverageSize == 15;
    v.SaveSize(Text("c"), 30);
    assert |v.sizes| == 3;
  }

  /** The sum of two measured sizes under distinct ids. */
  lemma SumOfTwo(a: Id, b: Id, x: int, y: int)
    requires a != b
    ensures SumValues(map[a := x, b := y]) == x + y
  {
    var m := map[a := x, b := y];
    SumValuesRemove(m, a);
    assert m - {a} == map[b := y];
    SumValuesRemove(map[b := y], b);
    assert map[b := y] - {b} == map[];
  }

  /** Items a, b, c measured at 10, 20 and 30 pixels, with lastCalcIndex at
      the last index: updateRange(0, 0) stores 30 as the padding behind,
      the size of item 1 only, though the items after the window take 50
      pixels; front padding, window and padding behind come to 40 of 60. */
  method ExactPaddingMiscounts() returns (v: Virtual)
    ensures v.Valid()
    ensures v.range == Some(Range(0, 0, 0, 30))
    ensures v.param.Some? && TotalSize(v.CurrentGeometry()) == 60 && SpanSize(v.CurrentGeometry(), 1, 3) == 50
  {
    var ids := [Text("a"), Text("b"), Text("c")];
    v := new Virtual(VirtualParam(0, 0, 1, 40, 1, ids), false);
    v.SaveSize(Text("a"), 10);
    v.SaveSize(Text("b"), 20);
    v.SaveSize(Text("c"), 30);
    assert v.sizes == map[Text("a") := 10, Text("b") := 20, Text("c") := 30];
    var toEnd := v.GetIndexOffset(3);
    assert v.lastCalcIndex == 2;
    ghost var g := v.CurrentGeometry();
    assert ItemSize(g, 0) == 10 && ItemSize(g, 1) == 20 && ItemSize(g, 2) == 30;
    assert OffsetOf(g, 1) == 10 && OffsetOf(g, 2) == 30;
    assert SpanSize(g, 2, 3) == 30 && SpanSize(g, 1, 3) == 50;
    v.UpdateRange(0, 0);
  }

  /** Sizes of a, b and c are known; the new id list b, c, d drops a and
      keeps b and c with their sizes. */
  method PruneOnNewIds() returns (v: Virtual)
    ensures v.Valid()
    ensures v.sizes == map[Text("b") := 20, Text("c") := 30]
    ensures v.param.Some? && v.param.value.uniqueIds == [Text("b"), Text("c"), Text("d")]
  {
    var ids := [Text("a"), Text("b"), Text("c")];
    v := new Virtual(VirtualParam(0, 0, 10, 40, 1, ids), false);
    v.SaveSize(Text("a"), 10);
    v.SaveSize(Text("b"), 20);
    v.SaveSize(Text("c"), 30);
    assert v.sizes == map[Text("a") := 10, Text("b") := 20, Text("c") := 30];
    var newIds := [Text("b"), Text("c"), Text("d")];
    PruneDropsA();
    v.UpdateParam(PartialParam(None, None, None, None, None, Some(newIds)));
  }

  /** Pruning the sizes of a, b, c to the ids b, c, d drops a. */
  lemma PruneDropsA()
    ensures Prune(map[Text("a") := 10, Text("b") := 20, Text("c") := 30], [Text("b"), Text("c"), Text("d")])
      == map[Text("b") := 20, Text("c") := 30]
  {
  }

  /** After destroy, scrolling and measuring leave the range absent and the
      callback log as it was. */
  method DestroyThenDrive(v: Virtual)
    requires v.Valid()
    modifies v
    ensures v.Valid() && v.range.None? && v.param.None?
    ensures v.emitted == old(v.emitted)
  {
    v.Destroy();
    v.HandleScroll(500);
    v.SaveSize(Number(1), 30);
    v.HandleScroll(100);
  }
}
