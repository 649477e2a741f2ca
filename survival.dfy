/**
 Survival lookup on a step survival curve.

 A curve is given by two sequences: ascending event times and the survival
 probability after each of them. The lookup answers 1.0 at or before the first
 time, the last probability at or after the last time, and in between the
 probability of the rightmost time that is at or before the query, found by a
 right-biased binary search (numpy's searchsorted with side='right').
 */
module SurvivalLookup {

  /** Result of a lookup: a probability, or the IndexError Python raises when
      a sequence is indexed out of range. */
  datatype Lookup = Prob(value: real) | IndexError

  /** numpy's searchsorted requires its input to be sorted ascending (ties allowed). */
  predicate Ascending(s: seq<real>)
  {
    forall i, j :: 0 <= i < j < |s| ==> s[i] <= s[j]
  }

  predicate NonIncreasing(s: seq<real>)
  {
    forall i, j :: 0 <= i < j < |s| ==> s[i] >= s[j]
  }

  /** A curve as the survival model produces it: one probability per time. */
  predicate WellFormed(times: seq<real>, probs: seq<real>)
  {
    0 < |times| && |times| == |probs| && Ascending(times)
  }

  /** Binary search for the right insertion point of v in a[lo..hi], knowing that
      everything before lo is <= v and everything from hi on is > v. */
  function BisectRight(a: seq<real>, v: real, lo: nat, hi: nat): (k: nat)
    requires Ascending(a)
    requires lo <= hi <= |a|
    requires forall i :: 0 <= i < lo ==> a[i] <= v
    requires forall i :: hi <= i < |a| ==> v < a[i]
    ensures lo <= k <= hi
    ensures forall i :: 0 <= i < k ==> a[i] <= v
    ensures forall i :: k <= i < |a| ==> v < a[i]
    decreases hi - lo
  {
    if lo == hi then lo
    else
      var mid := (lo + hi) / 2;
      if v < a[mid] then BisectRight(a, v, lo, mid)
      else BisectRight(a, v, mid + 1, hi)
  }

  /** numpy's right-sided searchsorted: the number of elements of a that are <= v,
      which splits a into the part <= v and the part > v. */
  function SearchSortedRight(a: seq<real>, v: real): (k: nat)
    requires Ascending(a)
    ensures k <= |a|
    ensures forall i :: 0 <= i < k ==> a[i] <= v
    ensures forall i :: k <= i < |a| ==> v < a[i]
  {
    BisectRight(a, v, 0, |a|)
  }

  /** The survival probability at time t on the curve with event times `times`
      (the step function's x) and probabilities `probs` (its y). */
  function GetSurvivalProbability(times: seq<real>, probs: seq<real>, t: real): (r: Lookup)
    requires Ascending(times)
    ensures |times| == 0 ==> r == IndexError
    ensures WellFormed(times, probs) ==> r.Prob?
    ensures r.Prob? ==> r.value == 1.0 || r.value in probs
  {
    if |times| == 0 then IndexError
    else if t <= times[0] then Prob(1.0)
    else if t >= times[|times| - 1] then
      if |probs| == 0 then IndexError else Prob(probs[|probs| - 1])
    else
      var idx := SearchSortedRight(times, t) - 1;
      var i := if idx < 0 then 0 else idx;
      if i < |probs| then Prob(probs[i]) else IndexError
  }

  /** Reference definition, independent of the binary search: scanning times[..n]
      from the right, the index of the last time at or before t, or -1 if none. */
  function LastAtOrBefore(times: seq<real>, t: real, n: nat): (i: int)
    requires n <= |times|
    ensures -1 <= i < n
    ensures 0 <= i ==> times[i] <= t
    ensures forall j :: i < j < n ==> t < times[j]
    decreases n
  {
    if n == 0 then -1
    else if times[n - 1] <= t then n - 1
    else LastAtOrBefore(times, t, n - 1)
  }

  /** The survival step function the lookup is meant to evaluate: 1.0 up to and
      including the first time, afterwards the probability of the last time at or
      before t. */
  ghost function StepValue(times: seq<real>, probs: seq<real>, t: real): real
    requires 0 < |times| && |times| == |probs|
  {
    if t <= times[0] then 1.0
    else
      var i := LastAtOrBefore(times, t, |times|);
      probs[i]
  }

  /** In the middle branch, one less than the insertion point is the largest index
      whose time is <= t; it is at least 0, so clamping it at 0 changes nothing,
      and it is at most |times| - 2. */
  lemma MiddleIndexIsRightmostKnot(times: seq<real>, t: real)
    requires Ascending(times) && 0 < |times|
    requires times[0] < t < times[|times| - 1]
    ensures var idx := SearchSortedRight(times, t) - 1;
      && 0 <= idx <= |times| - 2
      && times[idx] <= t
      && (forall j :: idx < j < |times| ==> t < times[j])
      && idx == LastAtOrBefore(times, t, |times|)
  {
  }

  /** Every branch of the lookup evaluates the step function, and a well-formed
      curve never raises: all indices used are in range. */
  lemma MatchesStepFunction(times: seq<real>, probs: seq<real>, t: real)
    requires WellFormed(times, probs)
    ensures GetSurvivalProbability(times, probs, t) == Prob(StepValue(times, probs, t))
  {
    var n := |times|;
    if t <= times[0] {
    } else if t >= times[n - 1] {
      assert LastAtOrBefore(times, t, n) == n - 1;
    } else {
      MiddleIndexIsRightmostKnot(times, t);
    }
  }

  /** An empty curve has no first time to compare with: the lookup raises. */
  lemma EmptyCurveRaises(probs: seq<real>, t: real)
    ensures GetSurvivalProbability([], probs, t) == IndexError
  {
  }

  /** At or before the first time the answer is exactly 1.0, whatever probs[0] is. */
  lemma OneAtOrBeforeFirstKnot(times: seq<real>, probs: seq<real>, t: real)
    requires WellFormed(times, probs)
    requires t <= times[0]
    ensures GetSurvivalProbability(times, probs, t) == Prob(1.0)
  {
  }

  /** At or after the last time the last probability is held; this is not an error. */
  lemma HoldsLastValue(times: seq<real>, probs: seq<real>, t: real)
    requires WellFormed(times, probs)
    requires times[|times| - 1] <= t
    ensures t <= times[0] ==> GetSurvivalProbability(times, probs, t) == Prob(1.0)
    ensures times[0] < t ==> GetSurvivalProbability(times, probs, t) == Prob(probs[|probs| - 1])
  {
  }

  /** Between the first and the last time the answer is the probability of the
      rightmost time at or before t (left value held, not interpolated). */
  lemma RightmostKnotBetween(times: seq<real>, probs: seq<real>, t: real, i: nat)
    requires WellFormed(times, probs)
    requires times[0] < t
    requires i < |times| && times[i] <= t
    requires forall j :: i < j < |times| ==> t < times[j]
    ensures GetSurvivalProbability(times, probs, t) == Prob(probs[i])
  {
    MatchesStepFunction(times, probs, t);
  }

  /** The answer is constant on each half-open interval [times[i], times[i+1])
      that lies after the first time. */
  lemma ConstantBetweenKnots(times: seq<real>, probs: seq<real>, i: nat, t: real)
    requires WellFormed(times, probs)
    requires i + 1 < |times|
    requires times[0] < t && times[i] <= t < times[i + 1]
    ensures GetSurvivalProbability(times, probs, t) == Prob(probs[i])
  {
    forall j | i < j < |times|
      ensures t < times[j]
    {
      assert times[i + 1] <= times[j];
    }
    RightmostKnotBetween(times, probs, t, i);
  }

  lemma {:induction false} LastAtOrBeforeMonotone(times: seq<real>, t1: real, t2: real, n: nat)
    requires n <= |times|
    requires t1 <= t2
    ensures LastAtOrBefore(times, t1, n) <= LastAtOrBefore(times, t2, n)
    decreases n
  {
    if n > 0 && times[n - 1] > t2 {
      LastAtOrBeforeMonotone(times, t1, t2, n - 1);
    }
  }

  /** A survival curve whose probabilities do not increase and start at most 1.0
      gives answers that do not increase with time. */
  lemma NonIncreasingInTime(times: seq<real>, probs: seq<real>, t1: real, t2: real)
    requires WellFormed(times, probs)
    requires NonIncreasing(probs) && probs[0] <= 1.0
    requires t1 <= t2
    ensures var r1 := GetSurvivalProbability(times, probs, t1);
      var r2 := GetSurvivalProbability(times, probs, t2);
      r1.Prob? && r2.Prob? && r1.value >= r2.value
  {
    MatchesStepFunction(times, probs, t1);
    MatchesStepFunction(times, probs, t2);
    var n := |times|;
    if t1 > times[0] {
      LastAtOrBeforeMonotone(times, t1, t2, n);
    } else if t2 > times[0] {
      var i := LastAtOrBefore(times, t2, n);
      assert probs[0] >= probs[i] by { if 0 < i { } }
    }
  }

  /** Probabilities in [0, 1] give answers in [0, 1]. */
  lemma AnswerIsProbability(times: seq<real>, probs: seq<real>, t: real)
    requires WellFormed(times, probs)
    requires forall i :: 0 <= i < |probs| ==> 0.0 <= probs[i] <= 1.0
    ensures var r := GetSurvivalProbability(times, probs, t);
      r.Prob? && 0.0 <= r.value <= 1.0
  {
    MatchesStepFunction(times, probs, t);
  }

  /** The fixed 1- to 4-year horizons of the result cards and summary table. */
  const HORIZONS: seq<real> := [1.0, 2.0, 3.0, 4.0]

  /** The four lookups surv_1y .. surv_4y, in horizon order. */
  function SurvivalAtHorizons(times: seq<real>, probs: seq<real>): (r: seq<Lookup>)
    requires Ascending(times)
    ensures |r| == |HORIZONS|
  {
    seq(|HORIZONS|, k requires 0 <= k < |HORIZONS| =>
      GetSurvivalProbability(times, probs, HORIZONS[k]))
  }

  /** A horizon past the end of a curve that starts before it shows the last
      probability; a well-formed curve gives four probabilities. */
  lemma HorizonsPastCurveHoldLast(times: seq<real>, probs: seq<real>)
    requires WellFormed(times, probs)
    ensures forall k :: 0 <= k < |HORIZONS| ==> SurvivalAtHorizons(times, probs)[k].Prob?
    ensures forall k ::
      0 <= k < |HORIZONS| && times[0] < HORIZONS[k] && times[|times| - 1] <= HORIZONS[k] ==>
        SurvivalAtHorizons(times, probs)[k] == Prob(probs[|probs| - 1])
  {
    forall k | 0 <= k < |HORIZONS|
      ensures SurvivalAtHorizons(times, probs)[k].Prob?
    {
      MatchesStepFunction(times, probs, HORIZONS[k]);
    }
  }

  /** On a curve that does not increase and starts at most 1.0, the 1- to 4-year
      survival values do not increase. */
  lemma HorizonsNonIncreasing(times: seq<real>, probs: seq<real>)
    requires WellFormed(times, probs)
    requires NonIncreasing(probs) && probs[0] <= 1.0
    ensures var r := SurvivalAtHorizons(times, probs);
      forall k, m :: 0 <= k < m < |r| ==> r[k].Prob? && r[m].Prob? && r[k].value >= r[m].value
  {
    var r := SurvivalAtHorizons(times, probs);
    forall k, m | 0 <= k < m < |r|
      ensures r[k].Prob? && r[m].Prob? && r[k].value >= r[m].value
    {
      NonIncreasingInTime(times, probs, HORIZONS[k], HORIZONS[m]);
    }
  }

  /** A worked example: times 0..5, probabilities 1.0 down to 0.4. */
  lemma WorkedExample()
    ensures var times := [0.0, 1.0, 2.0, 3.0, 4.0, 5.0];
      var probs := [1.0, 0.9, 0.75, 0.6, 0.5, 0.4];
      && GetSurvivalProbability(times, probs, 1.0) == Prob(0.9)
      && GetSurvivalProbability(times, probs, 1.5) == Prob(0.9)
      && GetSurvivalProbability(times, probs, 4.9) == Prob(0.5)
      && GetSurvivalProbability(times, probs, 10.0) == Prob(0.4)
      && GetSurvivalProbability(times, probs, 0.0) == Prob(1.0)
  {
    var times := [0.0, 1.0, 2.0, 3.0, 4.0, 5.0];
    var probs := [1.0, 0.9, 0.75, 0.6, 0.5, 0.4];
    ConstantBetweenKnots(times, probs, 1, 1.0);
    ConstantBetweenKnots(times, probs, 1, 1.5);
    ConstantBetweenKnots(times, probs, 4, 4.9);
  }
}
