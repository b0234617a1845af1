/** The bookkeeping saveSize and updateParam do on measured sizes: the
    one-way size mode, the sum behind the first-range average, and the
    pruning of sizes whose id left the data set. */
module Sizing {
  import opened Wrappers
  import opened Numbers
  import opened Layout

  /** The size mode: INIT until the first measurement, FIXED while every
      measurement equals the first, DYNAMIC from the first one that differs. */
  datatype CalcType = Init | Fixed | Dynamic

  /** How far along the one-way order INIT, FIXED, DYNAMIC a mode is. */
  function Rank(mode: CalcType): nat {
    match mode
    case Init => 0
    case Fixed => 1
    case Dynamic => 2
  }

  /** The size mode and fixed size after one saveSize(_, size): the first
      measurement fixes the size, a different one later ends fixed mode and
      drops the fixed size, anything else leaves both as they are. */
  function NextCalcType(mode: CalcType, fixed: Option<int>, size: int): (r: (CalcType, Option<int>))
    ensures mode == Init ==> r == (Fixed, Some(size))
    ensures mode == Fixed ==> (r.0 == Fixed <==> fixed == Some(size))
    ensures r.0 == Dynamic ==> r.1 == None || r == (mode, fixed)
    ensures Rank(r.0) >= Rank(mode) && (mode == Fixed && r.0 == Fixed ==> r.1 == fixed)
  {
    match mode
    case Init => (Fixed, Some(size))
    case Fixed => if fixed != Some(size) then (Dynamic, None) else (Fixed, fixed)
    case Dynamic => (Dynamic, fixed)
  }

  /** The size mode and fixed size after saveSize with each of sizes in turn. */
  function ModeAfter(mode: CalcType, fixed: Option<int>, sizes: seq<int>): (CalcType, Option<int>)
    decreases |sizes|
  {
    if sizes == [] then (mode, fixed)
    else
      var next := NextCalcType(mode, fixed, sizes[0]);
      ModeAfter(next.0, next.1, sizes[1..])
  }

  /** The size mode never moves back: in particular, once DYNAMIC no sequence
      of measurements returns it to FIXED. */
  lemma {:induction false} ModeNeverFallsBack(mode: CalcType, fixed: Option<int>, sizes: seq<int>)
    ensures Rank(ModeAfter(mode, fixed, sizes).0) >= Rank(mode)
    ensures mode == Dynamic ==> ModeAfter(mode, fixed, sizes).0 == Dynamic
    decreases |sizes|
  {
    if sizes != [] {
      var next := NextCalcType(mode, fixed, sizes[0]);
      ModeNeverFallsBack(next.0, next.1, sizes[1..]);
    }
  }

  /** Fixed mode with size f survives a sequence of measurements exactly
      when every one of them equals f. */
  lemma {:induction false} FixedWhileEqual(f: int, sizes: seq<int>)
    ensures ModeAfter(Fixed, Some(f), sizes) == (Fixed, Some(f)) <==>
            forall i :: 0 <= i < |sizes| ==> sizes[i] == f
    decreases |sizes|
  {
    if sizes != [] {
      if sizes[0] == f {
        FixedWhileEqual(f, sizes[1..]);
        assert forall i :: 1 <= i < |sizes| ==> sizes[i] == sizes[1..][i - 1];
      } else {
        ModeNeverFallsBack(Dynamic, None, sizes[1..]);
      }
    }
  }

  /** Some id of a non-empty map. */
  ghost function PickKey(m: map<Id, int>): (k: Id)
    requires m != map[]
    ensures k in m
  {
    var k :| k in m; k
  }

  /** The sum of the values of a map (the reduce over `sizes.values()`). */
  ghost function SumValues(m: map<Id, int>): int
    decreases |m|
  {
    if m == map[] then 0
    else
      var k := PickKey(m);
      assert |m - {k}| == |m| - 1 by { assert (m - {k}).Keys == m.Keys - {k}; }
      m[k] + SumValues(m - {k})
  }

  /** The sum does not depend on which id is taken out first. */
  lemma {:induction false} SumValuesRemove(m: map<Id, int>, k: Id)
    requires k in m
    ensures SumValues(m) == m[k] + SumValues(m - {k})
    decreases |m|
  {
    var j := PickKey(m);
    if j != k {
      assert (m - {k}).Keys == m.Keys - {k};
      assert (m - {j}).Keys == m.Keys - {j};
      SumValuesRemove(m - {j}, k);
      SumValuesRemove(m - {k}, j);
      assert m - {j} - {k} == m - {k} - {j};
    }
  }

  /** Non-negative sizes have a non-negative sum. */
  lemma {:induction false} SumValuesNonNegative(m: map<Id, int>)
    requires forall k :: k in m ==> m[k] >= 0
    ensures SumValues(m) >= 0
    decreases |m|
  {
    if m != map[] {
      var k := PickKey(m);
      assert (m - {k}).Keys == m.Keys - {k};
      SumValuesNonNegative(m - {k});
    }
  }

  /** The first-range average of non-negative sizes, the rounded mean
      saveSize stores, is non-negative. */
  lemma AverageNonNegative(m: map<Id, int>)
    requires |m| > 0 && forall k :: k in m ==> m[k] >= 0
    ensures RoundHalfUp(SumValues(m), |m|) >= 0
  {
    SumValuesNonNegative(m);
    RoundHalfUpNonNegative(SumValues(m), |m|);
  }

  /** The sizes kept when the data set becomes ids: exactly the entries
      whose id is still in the list, each with its value. */
  function Prune(m: map<Id, int>, ids: seq<Id>): (r: map<Id, int>)
    ensures forall k :: k in r <==> k in m && k in ids
    ensures forall k :: k in r ==> r[k] == m[k]
  {
    map k | k in m && k in ids :: m[k]
  }
}
