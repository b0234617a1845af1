/** The range engine (class Virtual of src/virtual.ts): from the scroll
    offset, the measured item sizes and the ordered item ids it keeps the
    window of indices to render and the padding standing in for the items
    around it, and reports every new window to the host. */
module Engine {
  import opened Wrappers
  import opened Numbers
  import opened Layout
  import opened Window
  import opened Sizing

  /** Items the window is shifted ahead in the direction of travel when the
      data set changes. */
  const LeadingBuffer := 2

  /** `Number.MAX_SAFE_INTEGER`, the freeze bound used without parameters. */
  const MaxSafeInteger := 9007199254740991

  /** The last scroll direction; Unset is the empty string after init. */
  datatype Direction = Unset | Front | Behind

  /** The host's parameters (VirtualParam). */
  datatype VirtualParam = VirtualParam(
    slotHeaderSize: int,
    slotFooterSize: int,
    keeps: int,
    estimateSize: int,
    buffer: int,
    uniqueIds: seq<Id>)

  /** A Partial<VirtualParam>: None for a key the object does not carry. */
  datatype PartialParam = PartialParam(
    slotHeaderSize: Option<int>,
    slotFooterSize: Option<int>,
    keeps: Option<int>,
    estimateSize: Option<int>,
    buffer: Option<int>,
    uniqueIds: Option<seq<Id>>)

  /** `{ ...param, ...partial }`: every key the partial carries replaces the
      old value, every other key keeps it. */
  function Merge(p: VirtualParam, partial: PartialParam): (r: VirtualParam)
    ensures partial.slotHeaderSize.Some? ==> r.slotHeaderSize == partial.slotHeaderSize.value
    ensures partial.slotHeaderSize.None? ==> r.slotHeaderSize == p.slotHeaderSize
    ensures partial.slotFooterSize.Some? ==> r.slotFooterSize == partial.slotFooterSize.value
    ensures partial.slotFooterSize.None? ==> r.slotFooterSize == p.slotFooterSize
    ensures partial.keeps.Some? ==> r.keeps == partial.keeps.value
    ensures partial.keeps.None? ==> r.keeps == p.keeps
    ensures partial.estimateSize.Some? ==> r.estimateSize == partial.estimateSize.value
    ensures partial.estimateSize.None? ==> r.estimateSize == p.estimateSize
    ensures partial.buffer.Some? ==> r.buffer == partial.buffer.value
    ensures partial.buffer.None? ==> r.buffer == p.buffer
    ensures partial.uniqueIds.Some? ==> r.uniqueIds == partial.uniqueIds.value
    ensures partial.uniqueIds.None? ==> r.uniqueIds == p.uniqueIds
  {
    VirtualParam(
      partial.slotHeaderSize.GetOr(p.slotHeaderSize),
      partial.slotFooterSize.GetOr(p.slotFooterSize),
      partial.keeps.GetOr(p.keeps),
      partial.estimateSize.GetOr(p.estimateSize),
      partial.buffer.GetOr(p.buffer),
      partial.uniqueIds.GetOr(p.uniqueIds))
  }

  /** The render window and its padding (class Range). getRange hands out
      copies only, so it is a value here. */
  datatype Range = Range(start: int, end: int, padFront: int, padBehind: int)

  class Virtual {
    var param: Option<VirtualParam>
    /** Whether a callUpdate callback is installed. */
    var hasCallUpdate: bool
    var sizes: map<Id, int>
    /** None while the range is the empty object of init. */
    var range: Option<Range>
    /** None once deleted: the first-range average is then frozen. */
    var firstRangeTotalSize: Option<int>
    var firstRangeAverageSize: int
    var lastCalcIndex: int
    /** None once deleted on leaving fixed mode. */
    var fixedSizeValue: Option<int>
    var calcType: CalcType
    var offset: int
    var direction: Direction
    /** Every range passed to callUpdate, oldest first. */
    ghost var emitted: seq<Range>

    /** What the size bookkeeping keeps true: no size before the first
        measurement; in fixed mode a fixed size that every measured size
        equals; no averaging before dynamic mode; the fixed size deleted in
        dynamic mode. */
    ghost predicate SizeModeValid()
      reads this`sizes, this`calcType, this`fixedSizeValue, this`firstRangeTotalSize, this`firstRangeAverageSize
    {
      && (calcType == CalcType.Init ==> sizes == map[])
      && (calcType == Fixed ==> fixedSizeValue.Some? && forall id :: id in sizes ==> sizes[id] == fixedSizeValue.value)
      && (calcType != Dynamic ==> firstRangeTotalSize == Some(0) && firstRangeAverageSize == 0)
      && (calcType == Dynamic ==> fixedSizeValue.None?)
    }

    /** The engine invariant: the size bookkeeping, and a range whenever there
        are parameters. */
    ghost predicate Valid()
      reads this
    {
      SizeModeValid() && (param.Some? ==> range.Some?)
    }

    /** The state init leaves outside the range: the given parameters and
        callback, no sizes, size mode INIT with fixed size 0, a first-range
        total and average of 0, offset 0 and no direction. */
    ghost predicate IsReset(p: Option<VirtualParam>, callUpdate: bool)
      reads this`param, this`hasCallUpdate, this`sizes, this`calcType, this`fixedSizeValue,
            this`firstRangeTotalSize, this`firstRangeAverageSize, this`offset, this`direction
    {
      && param == p && hasCallUpdate == callUpdate && sizes == map[]
      && calcType == CalcType.Init && fixedSizeValue == Some(0)
      && firstRangeTotalSize == Some(0) && firstRangeAverageSize == 0
      && offset == 0 && direction == Unset
    }

    /** The fixed-size division of getScrollOvers has a positive divisor. */
    ghost predicate FixedSizePositive()
      reads this`calcType, this`fixedSizeValue
    {
      calcType == Fixed ==> fixedSizeValue.Some? && fixedSizeValue.value > 0
    }

    function Keeps(): int reads this`param { if param.Some? then param.value.keeps else 0 }
    function Total(): int reads this`param { if param.Some? then |param.value.uniqueIds| else 0 }
    function Buffer(): int reads this`param { if param.Some? then param.value.buffer else 0 }
    function Header(): int reads this`param { if param.Some? then param.value.slotHeaderSize else 0 }

    /** getLastIndex: the last index of the data set, -1 when it is empty or
        there are no parameters. */
    function LastIndex(): (r: int)
      reads this`param
      ensures r >= -1 && (param.None? ==> r == -1)
      ensures param.Some? ==> r + 1 == |param.value.uniqueIds|
    {
      Total() - 1
    }

    /** isFixedType: every measurement so far has had the same size, so a
        valid state has a fixed size that every measured size equals. */
    predicate IsFixedType(): (r: bool)
      reads this`sizes, this`calcType, this`fixedSizeValue, this`firstRangeTotalSize, this`firstRangeAverageSize
      ensures r && SizeModeValid() ==> fixedSizeValue.Some? && forall id :: id in sizes ==> sizes[id] == fixedSizeValue.value
    {
      calcType == Fixed
    }

    /** isFront: the last scroll went towards index 0; never together with
        isBehind. */
    predicate IsFront(): (r: bool)
      reads this`direction
      ensures r ==> !IsBehind()
    {
      direction == Front
    }

    /** isBehind: the last scroll went towards the end; before any scroll
        the engine is neither front nor behind. */
    predicate IsBehind(): (r: bool)
      reads this`direction
      ensures direction == Unset ==> !r
    {
      direction == Behind
    }

    /** getEstimateSize: the fixed size in fixed mode, which every measured
        size then equals; otherwise the first-range average, or the host's
        estimate while that average is 0. */
    function EstimateSize(): (r: int)
      reads this`sizes, this`calcType, this`fixedSizeValue, this`firstRangeTotalSize, this`firstRangeAverageSize, this`param
      requires SizeModeValid()
      ensures calcType == Fixed ==> r == fixedSizeValue.value
      ensures calcType == Fixed ==> forall id :: id in sizes ==> sizes[id] == r
      ensures calcType != Fixed && firstRangeAverageSize != 0 ==> r == firstRangeAverageSize
      ensures calcType != Fixed && firstRangeAverageSize == 0 ==> r == (if param.Some? then param.value.estimateSize else 0)
    {
      if IsFixedType() then fixedSizeValue.value
      else if firstRangeAverageSize != 0 then firstRangeAverageSize
      else if param.Some? then param.value.estimateSize
      else 0
    }

    /** The sizes getIndexOffset adds up with the current parameters. */
    ghost function CurrentGeometry(): Geometry
      reads this`sizes, this`calcType, this`fixedSizeValue, this`firstRangeTotalSize, this`firstRangeAverageSize, this`param
      requires SizeModeValid() && param.Some?
    {
      Geometry(param.value.uniqueIds, sizes, EstimateSize())
    }

    /** The value getIndexOffset(i) returns. */
    ghost function IndexOffset(i: int): int
      reads this`sizes, this`calcType, this`fixedSizeValue, this`firstRangeTotalSize, this`firstRangeAverageSize, this`param
      requires SizeModeValid()
    {
      if param.None? then 0 else OffsetOf(CurrentGeometry(), i)
    }

    /** lastCalcIndex after getIndexOffset(given), starting from lci. */
    ghost function CalcIndexAfterOffset(lci: int, given: int): int
      reads this`param
    {
      if param.None? then lci else CalcIndexAfter(lci, given, LastIndex())
    }

    /** The overs index getScrollOvers returns, with the lastCalcIndex it
        leaves behind when it starts from lci. */
    ghost function Overs(lci: int): (int, int)
      reads this`sizes, this`calcType, this`fixedSizeValue, this`firstRangeTotalSize, this`firstRangeAverageSize, this`param, this`offset
      requires SizeModeValid() && param.Some? && FixedSizePositive()
    {
      var target := offset - Header();
      if target <= 0 then (0, lci)
      else if calcType == Fixed then (target / fixedSizeValue.value, lci)
      else Search(CurrentGeometry(), target, 0, |param.value.uniqueIds|, lci)
    }

    /** getPadFront for a window starting at start, with the lastCalcIndex it
        leaves behind. */
    ghost function PadFrontFor(start: int, lci: int): (int, int)
      reads this`sizes, this`calcType, this`fixedSizeValue, this`firstRangeTotalSize, this`firstRangeAverageSize, this`param
      requires SizeModeValid()
    {
      if calcType == Fixed then (fixedSizeValue.value * start, lci)
      else (IndexOffset(start), CalcIndexAfterOffset(lci, start))
    }

    /** getPadBehind for a window ending at end, with the lastCalcIndex it
        leaves behind: once lastCalcIndex has reached the last index, the
        offset of lastIndex less the offset of end, which sums the items
        [end, lastIndex) (RangeForExactBehind); estimated before. */
    ghost function PadBehindFor(end: int, lci: int): (int, int)
      reads this`sizes, this`calcType, this`fixedSizeValue, this`firstRangeTotalSize, this`firstRangeAverageSize, this`param
      requires SizeModeValid()
    {
      var lastIndex := LastIndex();
      if calcType == Fixed then ((lastIndex - end) * fixedSizeValue.value, lci)
      else if lci == lastIndex then
        (IndexOffset(lastIndex) - IndexOffset(end),
         CalcIndexAfterOffset(CalcIndexAfterOffset(lci, lastIndex), end))
      else ((lastIndex - end) * EstimateSize(), lci)
    }

    /** The range updateRange(start, end) stores, with the lastCalcIndex it
        leaves behind. */
    ghost function RangeFor(start: int, end: int, lci: int): (Range, int)
      reads this`sizes, this`calcType, this`fixedSizeValue, this`firstRangeTotalSize, this`firstRangeAverageSize, this`param
      requires SizeModeValid()
    {
      var front := PadFrontFor(start, lci);
      var behind := PadBehindFor(end, front.1);
      (Range(start, end, front.0, behind.0), behind.1)
    }

    /** The state after updateRange(start, end) from range0, lci0, log0: the
        new range, and one callback with it when a callback is installed. */
    ghost predicate Updated(start: int, end: int, lci0: int, log0: seq<Range>)
      reads this
      requires SizeModeValid()
    {
      var o := RangeFor(start, end, lci0);
      range == Some(o.0) && lastCalcIndex == o.1 &&
      emitted == log0 + (if hasCallUpdate then [o.0] else [])
    }

    /** The state after checkRange(start, end) from range0, lci0, log0: the
        corrected window replaces the range exactly when its start differs
        from the current start (or there is no range yet); otherwise nothing
        changes and no callback fires. */
    ghost predicate Checked(start: int, end: int, range0: Option<Range>, lci0: int, log0: seq<Range>)
      reads this
      requires SizeModeValid()
    {
      var w := CorrectWindow(start, end, Keeps(), Total());
      if range0.None? || range0.value.start != w.start then Updated(w.start, w.end, lci0, log0)
      else range == range0 && lastCalcIndex == lci0 && emitted == log0
    }

    /** The state after handleFront from range0, lci0, log0. */
    ghost predicate FrontHandled(range0: Option<Range>, lci0: int, log0: seq<Range>)
      reads this
      requires SizeModeValid() && param.Some? && FixedSizePositive() && range0.Some?
    {
      var overs := Overs(lci0);
      if overs.0 > range0.value.start then
        range == range0 && lastCalcIndex == overs.1 && emitted == log0
      else
        var start := Max(overs.0 - Buffer(), 0);
        Checked(start, EndByStart(start, Keeps(), LastIndex()), range0, overs.1, log0)
    }

    /** The state after handleBehind from range0, lci0, log0. */
    ghost predicate BehindHandled(range0: Option<Range>, lci0: int, log0: seq<Range>)
      reads this
      requires SizeModeValid() && param.Some? && FixedSizePositive() && range0.Some?
    {
      var overs := Overs(lci0);
      if overs.0 < range0.value.start + Buffer() then
        range == range0 && lastCalcIndex == overs.1 && emitted == log0
      else
        Checked(overs.0, EndByStart(overs.0, Keeps(), LastIndex()), range0, overs.1, log0)
    }

    /** The freeze bound of the first-range average:
        min(keeps, number of ids), MAX_SAFE_INTEGER without parameters. */
    function FreezeBound(): int
      reads this`param
    {
      if param.Some? then Min(param.value.keeps, |param.value.uniqueIds|) else MaxSafeInteger
    }

    constructor (p: VirtualParam, callUpdate: bool)
      ensures Valid() && range.Some? && IsReset(Some(p), callUpdate)
      ensures Checked(0, p.keeps - 1, None, 0, [])
    {
      param, hasCallUpdate, sizes, range := None, false, map[], None;
      firstRangeTotalSize, firstRangeAverageSize, lastCalcIndex := Some(0), 0, 0;
      fixedSizeValue, calcType, offset, direction := Some(0), CalcType.Init, 0, Unset;
      emitted := [];
      new;
      Init(Some(p), callUpdate);
    }

    /** init: forget every measurement, the scroll state and the range, then
        with parameters compute the first window through checkRange over
        [0, keeps - 1]. That always updates (the range has no start yet), so
        an installed callback fires once. */
    method Init(p: Option<VirtualParam>, callUpdate: bool)
      modifies this
      ensures Valid() && IsReset(p, callUpdate)
      ensures p.None? ==> range.None? && lastCalcIndex == 0 && emitted == old(emitted)
      ensures p.Some? ==> Checked(0, p.value.keeps - 1, None, 0, old(emitted))
      ensures p.Some? ==> range.Some? && |emitted| == |old(emitted)| + (if callUpdate then 1 else 0)
    {
      Reset(p, callUpdate);
      if p.Some? {
        CheckRange(0, p.value.keeps - 1);
      }
    }

    /** The field resets of init, before the first window is computed. */
    method Reset(p: Option<VirtualParam>, callUpdate: bool)
      modifies this
      ensures IsReset(p, callUpdate) && range.None? && lastCalcIndex == 0 && emitted == old(emitted)
    {
      param := p;
      hasCallUpdate := callUpdate;
      sizes := map[];
      firstRangeTotalSize := Some(0);
      firstRangeAverageSize := 0;
      lastCalcIndex := 0;
      fixedSizeValue := Some(0);
      calcType := CalcType.Init;
      offset := 0;
      direction := Unset;
      range := None;
    }

    /** destroy: init without parameters or callback; the engine then has no
        range and never calls back again. */
    method Destroy()
      modifies this
      ensures Valid()
      ensures param.None? && !hasCallUpdate && range.None? && sizes == map[]
      ensures IsReset(None, false) && lastCalcIndex == 0 && emitted == old(emitted)
    {
      Init(None, false);
    }

    /** getRange: a copy of the current range; there is one whenever there
        are parameters. */
    function GetRange(): (r: Option<Range>)
      reads this
      requires Valid()
      ensures param.Some? ==> r.Some?
      ensures r == range
    {
      range
    }

    /** getOffset: the scroll offset of index start, the offset of the items
        in front of it plus the header slot; start * fixed size plus the
        header in fixed mode. */
    method GetOffset(start: int) returns (r: int)
      requires SizeModeValid()
      modifies this`lastCalcIndex
      ensures r == IndexOffset(start) + Header()
      ensures lastCalcIndex == (if start < 1 then old(lastCalcIndex) else CalcIndexAfterOffset(old(lastCalcIndex), start))
      ensures calcType == Fixed && param.Some? && start >= 0 ==> r == start * fixedSizeValue.value + Header()
    {
      var front := 0;
      if start >= 1 {
        front := GetIndexOffset(start);
      }
      r := front + Header();
      if calcType == Fixed && param.Some? && start >= 0 {
        UniformOffset(CurrentGeometry(), fixedSizeValue.value, start);
      }
    }

    /** updateParam: with parameters, merge the partial field by field and,
        when it carries uniqueIds, delete exactly the sizes whose id is not in
        the new list; without parameters, nothing happens. */
    method UpdateParam(partial: PartialParam)
      requires Valid()
      modifies this`param, this`sizes
      ensures Valid()
      ensures old(param).None? ==> param.None? && sizes == old(sizes)
      ensures old(param).Some? ==> param == Some(Merge(old(param).value, partial))
      ensures old(param).Some? && partial.uniqueIds.Some? ==> sizes == Prune(old(sizes), partial.uniqueIds.value)
      ensures partial.uniqueIds.None? ==> sizes == old(sizes)
    {
      if param.Some? {
        if partial.uniqueIds.Some? {
          var newIds := partial.uniqueIds.value;
          ghost var original := sizes;
          var keys := sizes.Keys;
          while keys != {}
            invariant keys <= original.Keys && param == old(param)
            invariant sizes == map k | k in original && (k in keys || k in newIds) :: original[k]
            decreases |keys|
          {
            var k :| k in keys;
            if k !in newIds {
              sizes := sizes - {k};
            }
            keys := keys - {k};
          }
        }
        param := Some(Merge(param.value, partial));
      }
    }

    /** The sum of the measured sizes (`[...sizes.values()].reduce`). */
    method SumOfSizes() returns (total: int)
      ensures total == SumValues(sizes)
    {
      total := 0;
      var rest := sizes;
      while rest != map[]
        invariant total + SumValues(rest) == SumValues(sizes)
        decreases |rest|
      {
        var k :| k in rest;
        SumValuesRemove(rest, k);
        assert (rest - {k}).Keys == rest.Keys - {k};
        total := total + rest[k];
        rest := rest - {k};
      }
    }

    /** saveSize: record the size of id, step the size mode, and while in
        dynamic mode and not yet frozen either recompute the first-range
        average over all sizes (fewer sizes than the freeze bound) or freeze
        it for good. */
    method SaveSize(id: Id, size: int)
      requires Valid()
      modifies this`sizes, this`calcType, this`fixedSizeValue, this`firstRangeTotalSize, this`firstRangeAverageSize
      ensures Valid()
      ensures sizes == old(sizes)[id := size]
      ensures (calcType, fixedSizeValue) == NextCalcType(old(calcType), old(fixedSizeValue), size)
      ensures calcType == Fixed ==> firstRangeTotalSize == old(firstRangeTotalSize) && firstRangeAverageSize == old(firstRangeAverageSize)
      ensures old(firstRangeTotalSize).None? ==> firstRangeTotalSize.None? && firstRangeAverageSize == old(firstRangeAverageSize)
      ensures calcType == Dynamic && old(firstRangeTotalSize).Some? && |sizes| < FreezeBound() ==>
        firstRangeTotalSize == Some(SumValues(sizes)) && firstRangeAverageSize == RoundHalfUp(SumValues(sizes), |sizes|)
      ensures calcType == Dynamic && old(firstRangeTotalSize).Some? && |sizes| >= FreezeBound() ==>
        firstRangeTotalSize.None? && firstRangeAverageSize == old(firstRangeAverageSize)
    {
      sizes := sizes[id := size];
      if calcType == CalcType.Init {
        fixedSizeValue := Some(size);
        calcType := Fixed;
      } else if calcType == Fixed && fixedSizeValue != Some(size) {
        calcType := Dynamic;
        fixedSizeValue := None;
      }
      UpdateFirstRangeAverage();
    }

    /** The averaging step of saveSize: outside fixed mode and until frozen,
        the rounded mean of all sizes while there are fewer sizes than the
        freeze bound, else the total is deleted and the average frozen. */
    method UpdateFirstRangeAverage()
      requires SizeModeValid() && |sizes| > 0
      modifies this`firstRangeTotalSize, this`firstRangeAverageSize
      ensures SizeModeValid()
      ensures calcType == Fixed || old(firstRangeTotalSize).None? ==>
        firstRangeTotalSize == old(firstRangeTotalSize) && firstRangeAverageSize == old(firstRangeAverageSize)
      ensures calcType != Fixed && old(firstRangeTotalSize).Some? && |sizes| < FreezeBound() ==>
        firstRangeTotalSize == Some(SumValues(sizes)) && firstRangeAverageSize == RoundHalfUp(SumValues(sizes), |sizes|)
      ensures calcType != Fixed && old(firstRangeTotalSize).Some? && |sizes| >= FreezeBound() ==>
        firstRangeTotalSize.None? && firstRangeAverageSize == old(firstRangeAverageSize)
      ensures (forall id :: id in sizes ==> sizes[id] >= 0) && old(firstRangeAverageSize) >= 0 ==>
        firstRangeAverageSize >= 0
    {
      if calcType != Fixed && firstRangeTotalSize.Some? {
        if |sizes| < FreezeBound() {
          if forall id :: id in sizes ==> sizes[id] >= 0 {
            AverageNonNegative(sizes);
          }
          var total := SumOfSizes();
          firstRangeTotalSize := Some(total);
          firstRangeAverageSize := RoundHalfUp(total, |sizes|);
        } else {
          firstRangeTotalSize := None;
        }
      }
    }

    /** handleDataSourcesChange: update unconditionally to a window that
        keeps the current start and takes its end from the start shifted by
        the leading buffer in the last direction (at least 0). */
    method HandleDataSourcesChange()
      requires Valid() && range.Some?
      modifies this`range, this`lastCalcIndex, this`emitted
      ensures Valid()
      ensures var start := old(range).value.start;
        var shifted := if direction == Front then start - LeadingBuffer
                       else if direction == Behind then start + LeadingBuffer
                       else start;
        Updated(start, EndByStart(Max(shifted, 0), Keeps(), LastIndex()), old(lastCalcIndex), old(emitted))
      ensures range.value.start == old(range).value.start
    {
      var start := range.value.start;
      if IsFront() {
        start := start - LeadingBuffer;
      } else if IsBehind() {
        start := start + LeadingBuffer;
      }
      start := Max(start, 0);
      UpdateRange(range.value.start, EndByStart(start, Keeps(), LastIndex()));
    }

    /** handleSlotSizeChange: the same as handleDataSourcesChange. */
    method HandleSlotSizeChange()
      requires Valid() && range.Some?
      modifies this`range, this`lastCalcIndex, this`emitted
      ensures Valid()
      ensures var start := old(range).value.start;
        var shifted := if direction == Front then start - LeadingBuffer
                       else if direction == Behind then start + LeadingBuffer
                       else start;
        Updated(start, EndByStart(Max(shifted, 0), Keeps(), LastIndex()), old(lastCalcIndex), old(emitted))
    {
      HandleDataSourcesChange();
    }

    /** handleScroll: the direction is FRONT exactly when the offset went
        down, the offset is stored, and with parameters the front or behind
        handler runs; without parameters the range is left alone. At most
        one callback fires. */
    method HandleScroll(offset: int)
      requires Valid() && (param.Some? ==> FixedSizePositive())
      modifies this`direction, this`offset, this`range, this`lastCalcIndex, this`emitted
      ensures Valid()
      ensures IsFront() <==> offset < old(this.offset)
      ensures IsBehind() <==> !IsFront()
      ensures this.offset == offset
      ensures param.None? ==> range == old(range) && lastCalcIndex == old(lastCalcIndex) && emitted == old(emitted)
      ensures param.Some? && IsFront() ==> FrontHandled(old(range), old(lastCalcIndex), old(emitted))
      ensures param.Some? && IsBehind() ==> BehindHandled(old(range), old(lastCalcIndex), old(emitted))
      ensures |emitted| <= |old(emitted)| + 1
    {
      direction := if offset < this.offset then Front else Behind;
      this.offset := offset;
      if param.None? {
        return;
      }
      if direction == Front {
        HandleFront();
      } else {
        HandleBehind();
      }
    }

    /** handleFront: leave the range while overs is past its start; else
        check the window that starts a buffer before overs (at least 0). */
    method HandleFront()
      requires Valid() && param.Some? && FixedSizePositive()
      modifies this`range, this`lastCalcIndex, this`emitted
      ensures Valid()
      ensures FrontHandled(old(range), old(lastCalcIndex), old(emitted))
      ensures |emitted| <= |old(emitted)| + 1
    {
      var overs := GetScrollOvers();
      if overs > range.value.start {
        return;
      }
      var start := Max(overs - Buffer(), 0);
      CheckRange(start, EndByStart(start, Keeps(), LastIndex()));
    }

    /** handleBehind: leave the range while overs is within a buffer of its
        start; else check the window that starts at overs. */
    method HandleBehind()
      requires Valid() && param.Some? && FixedSizePositive()
      modifies this`range, this`lastCalcIndex, this`emitted
      ensures Valid()
      ensures BehindHandled(old(range), old(lastCalcIndex), old(emitted))
      ensures |emitted| <= |old(emitted)| + 1
    {
      var overs := GetScrollOvers();
      if overs < range.value.start + Buffer() {
        return;
      }
      CheckRange(overs, EndByStart(overs, Keeps(), LastIndex()));
    }

    /** getScrollOvers: the index the scroll offset has passed, as Overs
        specifies; OversBounds, OversSettles and FixedOversAgree state what
        that index is. */
    method GetScrollOvers() returns (overs: int)
      requires SizeModeValid() && param.Some? && FixedSizePositive()
      modifies this`lastCalcIndex
      ensures (overs, lastCalcIndex) == Overs(old(lastCalcIndex))
    {
      var target := offset - Header();
      if target <= 0 {
        return 0;
      }
      if IsFixedType() {
        return target / fixedSizeValue.value;
      }
      overs := SearchOffset(CurrentGeometry(), target);
    }

    /** The overs index is 0 when the offset does not pass the header slot,
        floor(target / fixed size) in fixed mode, and otherwise an index in
        [0, number of ids]. */
    lemma OversBounds(lci: int)
      requires SizeModeValid() && param.Some? && FixedSizePositive()
      ensures var target := offset - Header();
        var overs := Overs(lci).0;
        && overs >= 0
        && (target <= 0 ==> overs == 0)
        && (target > 0 && calcType == Fixed ==> overs == target / fixedSizeValue.value)
        && (calcType != Fixed ==> overs <= Total())
    {
      var target := offset - Header();
      if target > 0 && calcType != Fixed {
        SearchInBounds(CurrentGeometry(), target, 0, Total(), lci);
      }
    }

    /** With non-negative sizes the search settles on the index whose item
        holds the target offset: its offset does not exceed the target, and
        the next one does unless the offset matches exactly or the index is
        the end; an exact match is found whenever one exists. */
    lemma OversSettles(lci: int)
      requires SizeModeValid() && param.Some? && FixedSizePositive()
      requires calcType != Fixed && NonNegative(CurrentGeometry()) && offset - Header() > 0
      ensures var target := offset - Header();
        var overs := Overs(lci).0;
        Settles(CurrentGeometry(), target, overs) &&
        (forall j :: 0 <= j <= Total() && IndexOffset(j) == target ==> IndexOffset(overs) == target)
    {
      SearchOvers(CurrentGeometry(), offset - Header(), lci);
    }

    /** The fixed-mode division agrees with the binary search, up to the
        number of ids the search is bounded by. */
    lemma FixedOversAgree(lci: int)
      requires SizeModeValid() && param.Some? && FixedSizePositive()
      requires calcType == Fixed && offset - Header() > 0
      ensures Min(Overs(lci).0, Total()) == Search(CurrentGeometry(), offset - Header(), 0, Total(), lci).0
    {
      FixedShortcutAgrees(CurrentGeometry(), fixedSizeValue.value, offset - Header(), lci);
    }

    /** The binary search of getScrollOvers over [0, number of ids]: each
        probe sums the offset of the middle index, so it moves
        lastCalcIndex as getIndexOffset does. */
    method SearchOffset(ghost g: Geometry, target: int) returns (overs: int)
      requires SizeModeValid() && param.Some? && g == CurrentGeometry()
      modifies this`lastCalcIndex
      ensures (overs, lastCalcIndex) == Search(g, target, 0, |g.ids|, old(lastCalcIndex))
    {
      ghost var result := Search(g, target, 0, |g.ids|, lastCalcIndex);
      var low, middle, middleOffset := 0, 0, 0;
      var high := |param.value.uniqueIds|;
      while low <= high
        invariant Search(g, target, low, high, lastCalcIndex) == result
        decreases high - low + 1
      {
        SearchProbe(g, target, low, high, lastCalcIndex);
        middle, middleOffset := Probe(g, low, high);
        if middleOffset == target {
          return middle;
        } else if middleOffset < target {
          low := middle + 1;
        } else {
          high := middle - 1;
        }
      }
      overs := if low > 0 then low - 1 else 0;
    }

    /** One probe of the search: the middle of [low, high] and its offset,
        summed by getIndexOffset. */
    method Probe(ghost g: Geometry, low: int, high: int) returns (middle: int, middleOffset: int)
      requires SizeModeValid() && param.Some? && g == CurrentGeometry() && low <= high
      modifies this`lastCalcIndex
      ensures middle == Middle(low, high) && middleOffset == OffsetOf(g, middle)
      ensures lastCalcIndex == CalcIndexAfter(old(lastCalcIndex), middle, |g.ids| - 1)
    {
      middle := low + (high - low) / 2;
      middleOffset := GetIndexOffset(middle);
    }

    /** getIndexOffset: the sizes of the items before givenIndex, measured
        or estimated; it also raises lastCalcIndex to givenIndex - 1, capped
        at the last index, so lastCalcIndex never exceeds the last index
        after a call that sums. */
    method GetIndexOffset(givenIndex: int) returns (r: int)
      requires SizeModeValid()
      modifies this`lastCalcIndex
      ensures r == IndexOffset(givenIndex)
      ensures lastCalcIndex == CalcIndexAfterOffset(old(lastCalcIndex), givenIndex)
      ensures givenIndex != 0 && param.Some? ==> lastCalcIndex <= LastIndex()
    {
      if givenIndex == 0 {
        return 0;
      }
      if param.None? {
        return 0;
      }
      ghost var g := CurrentGeometry();
      var ids := param.value.uniqueIds;
      var estimate := EstimateSize();
      var sum := 0;
      var index := 0;
      while index < givenIndex
        invariant 0 <= index <= Max(givenIndex, 0)
        invariant sum == OffsetOf(g, index)
      {
        var indexSize := if index < |ids| && ids[index] in sizes then Some(sizes[ids[index]]) else None;
        assert ItemSize(g, index) == if indexSize.Some? then indexSize.value else estimate;
        sum := sum + (if indexSize.Some? then indexSize.value else estimate);
        index := index + 1;
      }
      if givenIndex > 0 {
        assert index == givenIndex;
      }
      lastCalcIndex := Max(lastCalcIndex, givenIndex - 1);
      lastCalcIndex := Min(lastCalcIndex, LastIndex());
      r := sum;
    }

    /** checkRange: correct the window and update only when the corrected
        start differs from the current one; afterwards the range starts at
        the corrected start either way, so a second identical call changes
        nothing and fires nothing. */
    method CheckRange(start: int, end: int)
      requires SizeModeValid()
      modifies this`range, this`lastCalcIndex, this`emitted
      ensures Checked(start, end, old(range), old(lastCalcIndex), old(emitted))
      ensures range.Some? && range.value.start == CorrectWindow(start, end, Keeps(), Total()).start
      ensures |emitted| <= |old(emitted)| + 1
      ensures old(range).None? ==> |emitted| == |old(emitted)| + (if hasCallUpdate then 1 else 0)
    {
      var keeps := Keeps();
      var total := Total();
      var s, e := start, end;
      if total <= keeps {
        s := 0;
        e := LastIndex();
      } else if e - s < keeps - 1 {
        s := e - keeps + 1;
      }
      assert Window(s, e) == CorrectWindow(start, end, keeps, total);
      if range.None? || range.value.start != s {
        UpdateRange(s, e);
      }
    }

    /** updateRange: store the window with its padding, as RangeFor
        specifies, and pass a copy to the callback when one is installed;
        RangeForConserves and RangeForExactBehind state what the padding
        adds up to. */
    method UpdateRange(start: int, end: int)
      requires SizeModeValid()
      modifies this`range, this`lastCalcIndex, this`emitted
      ensures Updated(start, end, old(lastCalcIndex), old(emitted))
    {
      ghost var result := RangeFor(start, end, lastCalcIndex);
      var padFront := GetPadFront(start);
      var padBehind := GetPadBehind(end);
      assert (Range(start, end, padFront, padBehind), lastCalcIndex) == result;
      range := Some(Range(start, end, padFront, padBehind));
      if hasCallUpdate {
        emitted := emitted + [range.value];
      }
    }

    /** In fixed mode the padding updateRange computes adds up with the
        rendered items to the size of the whole list. */
    lemma RangeForConserves(start: int, end: int, lci: int)
      requires SizeModeValid() && param.Some? && calcType == Fixed && 0 <= start <= end + 1 <= Total()
      ensures var r := RangeFor(start, end, lci).0;
        r.padFront + SpanSize(CurrentGeometry(), start, end + 1) + r.padBehind == TotalSize(CurrentGeometry())
    {
      FixedPaddingConservation(CurrentGeometry(), fixedSizeValue.value, start, end);
    }

    /** Outside fixed mode, once getPadFront has moved lastCalcIndex to the
        last index, the padding behind that updateRange stores is the
        as-written exact padding: the items [end, lastIndex). It counts the
        rendered item end and leaves out the last item, so the pads and the
        window miss the size of the list by size(end) - size(lastIndex). */
    lemma RangeForExactBehind(start: int, end: int, lci: int)
      requires SizeModeValid() && param.Some? && calcType != Fixed && 0 <= start <= end < Total()
      requires CalcIndexAfterOffset(lci, start) == LastIndex()
      ensures var g := CurrentGeometry(); var r := RangeFor(start, end, lci).0;
        && r.padBehind == PadBehindExactAsWritten(g, end)
        && r.padBehind == SpanSize(g, end, Total() - 1)
        && r.padFront + SpanSize(g, start, end + 1) + r.padBehind + ItemSize(g, Total() - 1)
           == TotalSize(g) + ItemSize(g, end)
    {
      var g := CurrentGeometry();
      PadBehindAsWrittenIsShifted(g, end);
      PaddingConservation(g, start, end);
      PadBehindExactIsTail(g, end);
      SpanSplit(g, end, end + 1, Total());
      SpanSplit(g, end, Total() - 1, Total());
    }

    /** getPadFront: fixed size * start in fixed mode, else the offset of
        start. */
    method GetPadFront(start: int) returns (pad: int)
      requires SizeModeValid()
      modifies this`lastCalcIndex
      ensures (pad, lastCalcIndex) == PadFrontFor(start, old(lastCalcIndex))
    {
      if IsFixedType() {
        pad := fixedSizeValue.value * start;
      } else {
        pad := GetIndexOffset(start);
      }
    }

    /** getPadBehind: (lastIndex - end) * fixed size in fixed mode; once
        lastCalcIndex has reached the last index, the offset of lastIndex
        less the offset of end; else (lastIndex - end) * estimate. */
    method GetPadBehind(end: int) returns (pad: int)
      requires SizeModeValid()
      modifies this`lastCalcIndex
      ensures (pad, lastCalcIndex) == PadBehindFor(end, old(lastCalcIndex))
    {
      var lastIndex := LastIndex();
      if IsFixedType() {
        return (lastIndex - end) * fixedSizeValue.value;
      }
      if lastCalcIndex == lastIndex {
        var toLast := GetIndexOffset(lastIndex);
        var toEnd := GetIndexOffset(end);
        pad := toLast - toEnd;
      } else {
        pad := (lastIndex - end) * EstimateSize();
      }
    }
  }
}
