# vue3-recycler-view range engine, in Dafny

This project models the range engine of vue3-recycler-view: class `Virtual`
in `src/virtual.ts`, together with its `Range` record. The engine renders a
virtual list. It is given the scroll offset, the measured pixel size of each
item (keyed by item id) and the ordered list of item ids. From these it
decides which window `[start, end]` of indices to render. It also computes
the padding in front of and behind the window, which stands in for the
items that are not rendered. Every new window is reported to the host
through a callback.

Files:

- `wrappers.dfy`: `Option`, used wherever the source deletes a field or reads
  an optional parameter.
- `numbers.dfy`: `Min`, `Max` and the half-up rounding of `Math.round`.
- `layout.dfy`:
  - the pure geometry: item sizes, offsets, the span reference sum;
  - the binary search of `getScrollOvers`, whose probes move `lastCalcIndex`;
  - the padding behind the window, both as written and corrected;
  - the padding conservation lemmas.
- `window.dfy`: `getEndByStart` and the window correction rule of
  `checkRange`.
- `sizing.dfy`:
  - the one-way size mode (INIT, FIXED, DYNAMIC);
  - the sum behind the first-range average;
  - the pruning of sizes by `updateParam`.
- `engine.dfy`: class `Virtual`.
  - Its fields are the engine's fields.
  - Each state-changing operation is a method with `modifies` and loop
    invariants.
  - Each method is proved against ghost functions of the state (`Overs`,
    `RangeFor`, `Checked`, `FrontHandled`, `BehindHandled`).
  - The callback is recorded as the ghost sequence `emitted` of the ranges
    passed to it.
- `scenarios.dfy`: concrete runs of the engine, proved from the class
  contracts.

Modelling choices:

- **Pixels.** Pixel values are `int`.
- **Range.** `range` is an `Option<Range>`. `None` is the empty object that
  `init` installs (`Object.create(null)`, with no `start`), so the first
  `checkRange` always updates. `Range` is a value, because `getRange` only
  hands out copies.
- **Deleted fields.** `fixedSizeValue` and `firstRangeTotalSize` are options,
  and `None` stands for the field after `delete`. A deleted
  `firstRangeTotalSize` means the first-range average is frozen.
- **Callback.** `callUpdate` is the flag `hasCallUpdate`. Each call of the
  callback appends the range it was given to `emitted`.
- **Initial callback.** `init` fires the callback for the first window.
  `callUpdate` is stored before `checkRange(0, keeps - 1)` runs, and that
  check always updates (src/virtual.ts:55, src/virtual.ts:70-72). The host
  also reads `getRange()` right after construction
  (src/vue3-recycler-view.ts:103).
- **Exact padding behind.** The engine computes the padding behind as the
  source writes it (src/virtual.ts:341), including the miscount recorded
  under "## Findings". The corrected padding is defined and proved beside
  it in `layout.dfy`.
- **Window and pads.** `getPadFront` and `getPadBehind` read `range.start`
  and `range.end`, which `updateRange` has just set. Here they take `start`
  and `end` as parameters instead.

## Model

| member | source | states |
|---|---|---|
| Engine.Merge | src/virtual.ts:121 | every key the partial carries replaces the old value; every other key keeps its value |
| Engine.Virtual.LastIndex | src/virtual.ts:280-282 | one less than the number of ids; -1 without parameters |
| Engine.Virtual.IsFixedType | src/virtual.ts:275-277 | in a valid state, fixed mode means there is a fixed size and every measured size equals it |
| Engine.Virtual.IsFront | src/virtual.ts:98-100 | the last scroll went towards index 0; never together with isBehind |
| Engine.Virtual.IsBehind | src/virtual.ts:94-96 | the last scroll went towards the end; false before any scroll |
| Engine.Virtual.EstimateSize | src/virtual.ts:349-351 | in fixed mode, the fixed size, which every measured item has; otherwise the first-range average when it is non-zero, else the host's estimate (0 without parameters) |
| Engine.Virtual.GetRange | src/virtual.ts:85-92 | the current range, which exists whenever there are parameters |
| Engine.Virtual.constructor | src/virtual.ts:48-50 | the state init leaves for the given parameters and callback |
| Engine.Virtual.Init | src/virtual.ts:52-78 | sizes, averaging, size mode, offset and direction are reset; without parameters there is no range and no callback; with parameters the result of checkRange(0, keeps - 1) from an absent range, which updates and fires one callback when one is installed |
| Engine.Virtual.Reset | src/virtual.ts:53-70 | the parameters and callback are stored; sizes, averaging, size mode, offset and direction are reset; there is no range and lastCalcIndex is 0; the callback log is unchanged |
| Engine.Virtual.Destroy | src/virtual.ts:80-82 | the state init(undefined, undefined) leaves: no parameters, no callback, no range, no sizes, size mode INIT with fixed size 0, first-range total and average 0, offset 0, no direction, lastCalcIndex 0; the callback log is unchanged |
| Engine.Virtual.GetOffset | src/virtual.ts:103-105 | the offset of the items before start plus the header slot (0 for start < 1); start times the fixed size plus the header in fixed mode |
| Engine.Virtual.UpdateParam | src/virtual.ts:107-123 | without parameters nothing changes; otherwise the parameters are merged field by field and, when the partial carries ids, exactly the sizes of ids not in the new list are deleted and the rest keep their values |
| Engine.Virtual.UpdateFirstRangeAverage | src/virtual.ts:141-150 | in fixed mode or once frozen nothing changes; otherwise the total and the rounded mean of all sizes while there are fewer sizes than min(keeps, number of ids), else the total is deleted and the average kept for good; non-negative sizes keep the average non-negative |
| Engine.Virtual.SumOfSizes | src/virtual.ts:144 | the sum of all measured sizes |
| Engine.Virtual.SaveSize | src/virtual.ts:126-151 | the size of id is set and no other size changes; the size mode steps as NextCalcType says; in fixed mode the average is untouched; the average is recomputed as the rounded mean of all sizes while there are fewer sizes than min(keeps, number of ids), otherwise it is frozen for good |
| Engine.Virtual.HandleDataSourcesChange | src/virtual.ts:155-167 | an unconditional update that keeps the current start and ends where the window from the start shifted by 2 (towards the last direction, at least 0) ends |
| Engine.Virtual.HandleSlotSizeChange | src/virtual.ts:170-172 | the same update as handleDataSourcesChange |
| Engine.Virtual.HandleScroll | src/virtual.ts:175-188 | the direction is FRONT exactly when the new offset is below the previous one, else BEHIND; the offset is stored; without parameters range, lastCalcIndex and the callback log are untouched; with them the front or behind handling; at most one callback |
| Engine.Virtual.HandleFront | src/virtual.ts:192-202 | no change while overs is past the range start; otherwise checkRange of the window starting a buffer before overs (at least 0) |
| Engine.Virtual.HandleBehind | src/virtual.ts:204-212 | no change while overs is below start + buffer; otherwise checkRange of the window starting at overs |
| Engine.Virtual.GetScrollOvers | src/virtual.ts:215-247 | the overs index and the lastCalcIndex the search leaves, as Overs specifies |
| Engine.Virtual.OversBounds | src/virtual.ts:215-247 | overs is 0 when the offset does not pass the header slot, floor(target / fixed size) in fixed mode, and otherwise in [0, number of ids] |
| Engine.Virtual.OversSettles | src/virtual.ts:227-247 | with non-negative sizes the overs index has offset at most the target, the next index passes it unless the match is exact or the index is the end, and an exact match is found whenever one exists |
| Engine.Virtual.FixedOversAgree | src/virtual.ts:222-247 | in fixed mode the division shortcut agrees with the binary search, capped at the number of ids |
| Engine.Virtual.SearchOffset | src/virtual.ts:227-246 | the while loop returns what Search over [0, number of ids] returns and leaves lastCalcIndex where Search's probes leave it |
| Engine.Virtual.Probe | src/virtual.ts:234-235 | the middle of [low, high] and its offset; lastCalcIndex moves as getIndexOffset moves it |
| Engine.Virtual.GetIndexOffset | src/virtual.ts:251-272 | the sum of the measured or estimated sizes before givenIndex; lastCalcIndex is raised to givenIndex - 1 and capped at the last index, so it never exceeds the last index; untouched for index 0 or without parameters |
| Engine.Virtual.CheckRange | src/virtual.ts:286-302 | the corrected window replaces the range, with one callback, exactly when its start differs from the current start or there is no range; the range then starts at the corrected start |
| Engine.Virtual.UpdateRange | src/virtual.ts:305-313 | the range becomes the window with the pads of RangeFor; one callback with it when a callback is installed, none otherwise |
| Engine.Virtual.RangeForConserves | src/virtual.ts:305-337 | in fixed mode, front padding + rendered items + padding behind = size of the whole list |
| Engine.Virtual.RangeForExactBehind | src/virtual.ts:305-346 | outside fixed mode, once the front padding has moved lastCalcIndex to the last index, the stored padding behind is the as-written sum of [end, lastIndex), and front + window + behind misses the list size by size(end) - size(lastIndex) |
| Engine.Virtual.GetPadFront | src/virtual.ts:322-328 | fixed size times start in fixed mode, else the offset of start |
| Engine.Virtual.GetPadBehind | src/virtual.ts:331-346 | (lastIndex - end) times the fixed size in fixed mode; once lastCalcIndex is the last index, getIndexOffset(lastIndex) - getIndexOffset(end), the sizes of items [end, lastIndex); else (lastIndex - end) times the estimate |
| Layout.OffsetIsSpan | src/virtual.ts:259-265 | the offset getIndexOffset accumulates equals the span sum over [0, k) |
| Layout.SpanSplit | src/virtual.ts:259-265 | span sums add up over adjacent intervals |
| Layout.OffsetMonotone | src/virtual.ts:259-265 | with non-negative sizes, offsets do not decrease with the index |
| Layout.UniformOffset | src/virtual.ts:222-225 | when every size is s, the offset of k is k * s |
| Layout.UniformSpan | src/virtual.ts:335-337 | when every size is s, the span over [a, b) is (b - a) * s |
| Layout.CalcIndexAfter | src/virtual.ts:252-254 | after summing up to a non-zero index, lastCalcIndex is at most the last index |
| Layout.Middle | src/virtual.ts:234 | the probe index lies in [low, high] |
| Layout.SearchInBounds | src/virtual.ts:227-246 | the search result lies in [0, high] |
| Layout.SearchFindsIndex | src/virtual.ts:227-246 | with everything before low below the target and everything after high above it, the search settles |
| Layout.SearchOvers | src/virtual.ts:215-247 | with non-negative sizes, the search over [0, number of ids] settles and finds an exact match whenever one exists |
| Layout.FixedShortcutAgrees | src/virtual.ts:222-247 | with every size s > 0 the search returns min(floor(target / s), number of ids) |
| Layout.PadBehindExactIsTail | src/virtual.ts:339-341 | the corrected exact padding behind is the sum of the sizes after end |
| Layout.PadBehindAsWrittenIsShifted | src/virtual.ts:341 | the padding behind as written sums [end, lastIndex) |
| Layout.PadBehindAsWrittenMiscounts | src/virtual.ts:341 | for sizes 10, 20, 30 with end 0 the padding as written is 30, and front + window + behind is not the total of 60 |
| Layout.PaddingConservation | src/virtual.ts:322-346 | offset of start + window sizes + corrected padding behind = total size |
| Layout.FixedPaddingConservation | src/virtual.ts:323-337 | with every size s, s * start + window sizes + (lastIndex - end) * s = total size |
| Window.EndByStart | src/virtual.ts:316-319 | the end is min(start + keeps - 1, lastIndex), so never past the last index |
| Window.CorrectWindow | src/virtual.ts:286-298 | at most keeps items: the whole list [0, total - 1]; otherwise the end is kept and a window shorter than keeps has its start moved back so it holds keeps items |
| Window.WindowFromStart | src/virtual.ts:286-319 | from any start >= 0, a list longer than keeps gets a window of exactly keeps items within [0, total - 1] |
| Window.CorrectWindowIdempotent | src/virtual.ts:286-301 | a corrected window needs no further correction |
| Sizing.NextCalcType | src/virtual.ts:132-139 | the first size fixes the mode and the size; in fixed mode the mode stays fixed exactly when the size equals the fixed size; leaving fixed mode drops the fixed size; the rank never falls |
| Sizing.ModeNeverFallsBack | src/virtual.ts:132-139 | over any sequence of sizes the mode rank never falls, and DYNAMIC stays DYNAMIC |
| Sizing.FixedWhileEqual | src/virtual.ts:132-139 | fixed mode with size f survives a sequence of sizes exactly when all of them equal f |
| Sizing.SumValuesRemove | src/virtual.ts:144 | the sum of the sizes is any one size plus the sum of the others |
| Sizing.SumValuesNonNegative | src/virtual.ts:144 | non-negative sizes have a non-negative sum |
| Sizing.AverageNonNegative | src/virtual.ts:143-146 | the rounded mean of non-negative sizes is non-negative |
| Sizing.Prune | src/virtual.ts:113-117 | exactly the ids present in the new list keep their sizes, with their values |
| Numbers.RoundHalfUp | src/virtual.ts:145 | the integer r with r - 1/2 <= total / count < r + 1/2, as Math.round gives |
| Numbers.RoundHalfUpNonNegative | src/virtual.ts:145 | the rounded average of a non-negative total is non-negative |
| Scenarios.CheckRangeTwice | src/virtual.ts:286-302 | two identical checkRange calls leave the state the first leaves, with at most one callback |
| Scenarios.ScrollInFixedList | src/virtual.ts:175-212 | 100 items of 50 pixels, keeps 10, buffer 3: the first window [0, 9] with 4500 behind; scrolling to 1000 gives [20, 29] with 1000 in front and 3500 behind |
| Scenarios.AverageFreezes | src/virtual.ts:126-151 | with keeps 3, sizes 10 then 20 switch to dynamic mode with average 15, and the third size freezes it |
| Scenarios.ExactPaddingMiscounts | src/virtual.ts:305-346 | sizes 10, 20, 30 with lastCalcIndex at the last index: updateRange(0, 0) stores padding behind 30, while the items after the window take 50 of the 60 pixels |
| Scenarios.PruneOnNewIds | src/virtual.ts:107-123 | sizes of a, b, c and new ids b, c, d leave the sizes of b and c |
| Scenarios.DestroyThenDrive | src/virtual.ts:80-82 | after destroy, scrolling and measuring fire no callback and leave no range |

## Left out

- Engine.Virtual.HandleScroll: requires a positive fixed size in fixed mode. In JavaScript a zero fixed size makes the division at src/virtual.ts:224 give Infinity, and integers have no such value.
- Engine.Virtual.HandleDataSourcesChange: requires a range. On an engine without one (after destroy) the source computes with `undefined` and stores NaN.
- Engine.Virtual.HandleSlotSizeChange: requires a range, for the same reason.
- Engine.Virtual.GetScrollOvers: requires parameters. Its only callers, handleFront and handleBehind, run only when `handleScroll` has parameters.
- Engine.Virtual.GetPadFront: takes the start from `updateRange` instead of reading `range.start`; both are the same value at the only call site.
- Engine.Virtual.GetPadBehind: takes the end from `updateRange` instead of reading `range.end`, for the same reason.
- Engine.Virtual.UpdateParam: a partial that carries a key explicitly set to `undefined` is not modelled, nor is a key outside VirtualParam. Each partial field is present or absent.
- Engine.Virtual.GetRange: without a range it returns None. The source returns a Range whose fields are `undefined`.
- Floating point: pixel sizes and offsets are integers. `Math.round` is modelled as half-up rounding of an integer quotient.
- The `offset` getter (src/virtual.ts:353-355) is the public field `offset`.
- Re-entrancy: a callback is not modelled as driving the engine again from inside `updateRange`. The callback is a record of the ranges passed to it.
- src/vue3-recycler-view.ts:
  - the Vue component, its watchers and its DOM scroll getters and setters;
  - the `setTimeout` retry loop of scrollToBottom;
  - event emission and rendering.
- src/wrappers.ts and src/item.ts: resize-observer components with no engine logic.
- src/props.ts: prop declarations only.
- vue3-recycler-view.d.ts: type declarations only.

## Findings

| source | as written | input that shows it | evidently intended | confidence | as-written member | corrected member |
|---|---|---|---|---|---|---|
| src/virtual.ts:341 | the exact padding behind is `getIndexOffset(lastIndex) - getIndexOffset(end)`, the sizes of items [end, lastIndex): it includes the rendered item `end` and leaves out the last item | three items of sizes 10, 20, 30, window [0, 0], lastCalcIndex at the last index: padding behind 30 instead of 50, so front + window + behind is 40, not the total of 60 | the sizes of the items after end, `getIndexOffset(lastIndex + 1) - getIndexOffset(end + 1)`, as the fixed-size branch at line 336 counts (lastIndex - end items) | medium, not executed | Scenarios.ExactPaddingMiscounts | Layout.PaddingConservation |
