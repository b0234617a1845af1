/** The index window arithmetic of the engine: the end that belongs to a
    start (getEndByStart) and the correction rule of checkRange. */
module Window {

  /** An inclusive index interval [start, end]. */
  datatype Window = Window(start: int, end: int)

  /** getEndByStart: a window of keeps items from start, but never past the
      last index. */
  function EndByStart(start: int, keeps: int, lastIndex: int): (end: int)
    ensures end <= lastIndex && end <= start + keeps - 1
    ensures end == lastIndex || end == start + keeps - 1
  {
    if start + keeps - 1 <= lastIndex then start + keeps - 1 else lastIndex
  }

  /** The correction of checkRange: a list of at most keeps items is
      rendered whole; otherwise a window shorter than keeps is lengthened by
      moving its start back, its end staying where it is. */
  function CorrectWindow(start: int, end: int, keeps: int, total: int): (w: Window)
    ensures total <= keeps ==> w == Window(0, total - 1)
    ensures total > keeps ==> w.end == end && w.start <= start && w.end - w.start >= keeps - 1
    ensures total > keeps ==> w.start == start || w.end - w.start == keeps - 1
  {
    if total <= keeps then Window(0, total - 1)
    else if end - start < keeps - 1 then Window(end - keeps + 1, end)
    else Window(start, end)
  }

  /** Window length invariant: from any start at or after index 0, a list
      longer than keeps gets a window of exactly keeps items that starts at
      or after index 0 and ends at or before the last index. */
  lemma WindowFromStart(start: int, keeps: int, total: int)
    requires 0 <= start && 1 <= keeps < total
    ensures var w := CorrectWindow(start, EndByStart(start, keeps, total - 1), keeps, total);
      0 <= w.start && w.end - w.start == keeps - 1 && w.end <= total - 1
  {
  }

  /** A corrected window needs no further correction. */
  lemma CorrectWindowIdempotent(start: int, end: int, keeps: int, total: int)
    ensures var w := CorrectWindow(start, end, keeps, total);
      CorrectWindow(w.start, w.end, keeps, total) == w
  {
  }
}
