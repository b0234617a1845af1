/** The JavaScript `Math` operations the engine applies to pixel counts,
    stated over unbounded integers. */
module Numbers {

  /** `Math.min` on two integers. */
  function Min(a: int, b: int): (r: int)
    ensures r <= a && r <= b && (r == a || r == b)
  {
    if a <= b then a else b
  }

  /** `Math.max` on two integers. */
  function Max(a: int, b: int): (r: int)
    ensures r >= a && r >= b && (r == a || r == b)
  {
    if a >= b then a else b
  }

  /** `Math.round(total / count)` for a positive count: JavaScript rounds a
      half up, towards positive infinity, so the result is the integer
      nearest to total / count, taking the upper one on a tie. */
  function RoundHalfUp(total: int, count: int): (r: int)
    requires count > 0
    ensures count * (2 * r - 1) <= 2 * total < count * (2 * r + 1)
  {
    var q := (2 * total + count) / (2 * count);
    var m := (2 * total + count) % (2 * count);
    assert 2 * total + count == 2 * count * q + m && 0 <= m < 2 * count;
    assert count * (2 * q - 1) == 2 * count * q - count;
    assert count * (2 * q + 1) == 2 * count * q + count;
    q
  }

  /** The rounded average of non-negative sizes is non-negative. */
  lemma RoundHalfUpNonNegative(total: int, count: int)
    requires total >= 0 && count > 0
    ensures RoundHalfUp(total, count) >= 0
  {
  }
}
