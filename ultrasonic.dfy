/** Ultrasonic range post-processing (`src/v1/ultrasonic_module.py`): validation of one sensor
    reading, a bounded history of valid readings, and the upper median of that history published
    as the smoothed range together with the near-obstacle flag. The sensor itself is not
    modelled: a reading arrives as `None` (the sensor raised) or as the value it returned. */
module Ultrasonic {
  import opened Types
  import opened Seqs
  import opened SharedState

  /** `_read_cm`: the reading in centimetres, or `None` when the sensor raised, when the
      reading is negative, or when the centimetre value is not in `(0, maxDistance * 100]`. */
  function ReadCm(sample: Option<real>, maxDistance: real): (r: Option<real>)
    ensures sample.None? ==> r.None?
    ensures sample.Some? && sample.value < 0.0 ==> r.None?
    ensures r.Some? <==> sample.Some? && 0.0 < sample.value * 100.0 <= maxDistance * 100.0
    ensures r.Some? ==> r.value == sample.value * 100.0 && 0.0 < r.value <= maxDistance * 100.0
  {
    match sample
    case None => None
    case Some(dProp) =>
      if dProp < 0.0 then None
      else
        var dCm := dProp * 100.0;
        if dCm <= 0.0 || dCm > maxDistance * 100.0 then None
        else Some(dCm)
  }

  /** `deque.append` on a deque bounded by `maxLen`: the newest `maxLen` entries of the history
      followed by `x`, so the oldest entry is the one evicted. */
  function Push(h: seq<real>, x: real, maxLen: nat): (r: seq<real>)
    ensures |r| == if |h| + 1 <= maxLen then |h| + 1 else maxLen
    ensures r == (h + [x])[|h| + 1 - |r|..]
    ensures maxLen >= 1 ==> r[|r| - 1] == x
    ensures |h| < maxLen ==> r == h + [x]
  {
    var t := h + [x];
    if |t| > maxLen then t[|t| - maxLen..] else t
  }

  function Neg(x: real): real { -x }

  ghost predicate Ascending(t: seq<real>) {
    forall i, j :: 0 <= i < j < |t| ==> t[i] <= t[j]
  }

  /** `sorted(h)`: ascending order is descending order of the negated value. */
  function SortAscending(h: seq<real>): (r: seq<real>)
    ensures multiset(r) == multiset(h) && |r| == |h|
    ensures Ascending(r)
  {
    var r := SortByKeyDesc(h, Neg);
    assert SortedDesc(r, Neg);
    r
  }

  function AtMost(m: real): real -> bool { (e: real) => e <= m }
  function AtLeast(m: real): real -> bool { (e: real) => e >= m }

  /** `sorted(h)[len(h) // 2]`: the upper median. */
  function UpperMedian(h: seq<real>): (r: real)
    requires h != []
    ensures r in h
  {
    var t := SortAscending(h);
    assert t[|t| / 2] in multiset(h);
    t[|h| / 2]
  }

  /** In ascending order, the entries up to index `k` are at most the one at `k`... */
  lemma AscendingUpTo(t: seq<real>, k: nat)
    requires k < |t| && Ascending(t)
    ensures |Filter(t, AtMost(t[k]))| >= k + 1
  {
    forall j | 0 <= j < k + 1 ensures AtMost(t[k])(t[j]) {
      if j < k {
        assert t[j] <= t[k];
      }
    }
    FilterKeepsPrefix(t, AtMost(t[k]), k + 1);
  }

  /** ...and the entries from index `k` on are at least it. */
  lemma AscendingFrom(t: seq<real>, k: nat)
    requires k < |t| && Ascending(t)
    ensures |Filter(t, AtLeast(t[k]))| >= |t| - k
  {
    forall j | k <= j < |t| ensures AtLeast(t[k])(t[j]) {
      if k < j {
        assert t[k] <= t[j];
      }
    }
    FilterKeepsSuffix(t, AtLeast(t[k]), k);
  }

  /** More than half of the history is at most the upper median. */
  lemma MedianBoundsBelow(h: seq<real>)
    requires h != []
    ensures |Filter(h, AtMost(UpperMedian(h)))| >= |h| / 2 + 1
  {
    var t := SortAscending(h);
    AscendingUpTo(t, |h| / 2);
    FilterPermutation(t, h, AtMost(t[|h| / 2]));
  }

  /** At least half of the history is at least the upper median. */
  lemma MedianBoundsAbove(h: seq<real>)
    requires h != []
    ensures |Filter(h, AtLeast(UpperMedian(h)))| >= |h| - |h| / 2
  {
    var t := SortAscending(h);
    AscendingFrom(t, |h| / 2);
    FilterPermutation(t, h, AtLeast(t[|h| / 2]));
  }

  /** `UltrasonicModule`. `hist` exists only when the module is enabled; a disabled module
      never touches it. */
  class UltrasonicModule {
    const enabled: bool
    const smoothN: nat
    const maxDistance: real
    const nearCm: real
    var hist: seq<real>

    ghost predicate Valid()
      reads this
    {
      enabled ==> smoothN >= 1 && |hist| <= smoothN
    }

    /** `smoothN` is `RANGE_SMOOTH_N` (5 when unset), `maxDistance` is `MAX_DISTANCE` in metres
        and `nearCm` is `OBSTACLE_NEAR_CM` (80 when unset). A history bounded by 0 would leave
        nothing to take the median of, so an enabled module needs a bound of at least 1. */
    constructor (enabled: bool, smoothN: nat, maxDistance: real, nearCm: real)
      requires enabled ==> smoothN >= 1
      ensures this.enabled == enabled && this.smoothN == smoothN
      ensures this.maxDistance == maxDistance && this.nearCm == nearCm
      ensures hist == []
      ensures Valid()
    {
      this.enabled := enabled;
      this.smoothN := smoothN;
      this.maxDistance := maxDistance;
      this.nearCm := nearCm;
      hist := [];
    }

    /** `process`: a disabled module changes nothing. An invalid reading only clears
        `range_raw_cm`, leaving a stale `range_cm`. A valid reading is recorded raw, pushed into
        the history, and the history's upper median becomes `range_cm`, stamped with the loop's
        `now_ts` (0.0 when it is not set) and compared with the near threshold. */
    method Process(state: FusionState, sample: Option<real>)
      requires Valid()
      modifies this, state
      ensures Valid()
      ensures !enabled ==> hist == old(hist) && unchanged(state)
      ensures enabled && ReadCm(sample, maxDistance).None? ==>
        hist == old(hist) &&
        state.rangeRawCm == None && state.rangeCm == old(state.rangeCm) &&
        state.rangeTs == old(state.rangeTs) && state.obstacleNear == old(state.obstacleNear)
      ensures enabled && ReadCm(sample, maxDistance).Some? ==>
        var cm := ReadCm(sample, maxDistance).value;
        hist == Push(old(hist), cm, smoothN) && hist != [] &&
        state.rangeRawCm == Some(cm) &&
        state.rangeCm == Some(UpperMedian(hist)) &&
        state.rangeTs == Some(old(state.nowTs).GetOr(0.0)) &&
        state.obstacleNear == Some(UpperMedian(hist) <= nearCm)
      ensures state.cocoDets == old(state.cocoDets) && state.faces == old(state.faces)
      ensures state.personPresent == old(state.personPresent) && state.persons == old(state.persons)
      ensures state.nowTs == old(state.nowTs)
    {
      if !enabled {
        return;
      }
      var cm := ReadCm(sample, maxDistance);
      if cm.None? {
        state.rangeRawCm := None;
        return;
      }
      var h := Push(hist, cm.value, smoothN);
      var med := UpperMedian(h);
      var ts := state.nowTs.GetOr(0.0);
      hist := h;
      state.rangeRawCm := cm;
      state.rangeCm := Some(med);
      state.rangeTs := Some(ts);
      state.obstacleNear := Some(med <= nearCm);
    }
  }
}
