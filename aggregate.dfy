/**
 * `aggregate_route` of `src/utils.py`: normalise every member flight of a trunk
 * route, drop the ones that give `None`, and average the survivors entry by entry.
 */
module Aggregate {
  import opened Py
  import opened Flight

  predicate AllFeatureTrajectories(ms: seq<Matrix>) {
    forall t :: 0 <= t < |ms| ==> IsFeatureTrajectory(ms[t])
  }

  /** What `preprocess_flight(extract_flight(data, call))` gives for each member `call`, in member order. */
  function MemberOutcomes(data: seq<Row>, callsigns: seq<string>): (outs: seq<Py<Matrix>>)
    ensures |outs| == |callsigns|
    ensures WellShaped(outs)
  {
    seq(|callsigns|, j requires 0 <= j < |callsigns| => PreprocessFlight(ExtractFlight(data, callsigns[j])))
  }

  /** Every trajectory among the outcomes has the 200 x 6 shape. */
  predicate WellShaped(outs: seq<Py<Matrix>>) {
    forall j :: 0 <= j < |outs| ==> outs[j].Returns? ==> IsFeatureTrajectory(outs[j].value)
  }

  predicate AnyRaises(outs: seq<Py<Matrix>>) {
    exists j :: 0 <= j < |outs| && outs[j].Raises?
  }

  /** The trajectories among the outcomes, in order (the list `matrices`). */
  function Survivors(outs: seq<Py<Matrix>>): (ms: seq<Matrix>)
    requires WellShaped(outs)
    ensures AllFeatureTrajectories(ms)
    ensures |ms| <= |outs|
  {
    if |outs| == 0 then []
    else
      var prev := Survivors(outs[..|outs| - 1]);
      match outs[|outs| - 1]
      case Returns(m) => prev + [m]
      case _ => prev
  }

  /** The sum of entry `(a, b)` over a stack of matrices. */
  function EntrySum(ms: seq<Matrix>, a: nat, b: nat): real
    requires AllFeatureTrajectories(ms)
    requires a < TARGET_LENGTH && b < FEATURE_COUNT
  {
    if |ms| == 0 then 0.0 else EntrySum(ms[..|ms| - 1], a, b) + ms[|ms| - 1][a][b]
  }

  /** `np.stack(matrices, axis=0).mean(axis=0)` in exact arithmetic. */
  function Mean(ms: seq<Matrix>): (r: Matrix)
    requires |ms| > 0 && AllFeatureTrajectories(ms)
    ensures IsFeatureTrajectory(r)
  {
    seq(TARGET_LENGTH, a requires 0 <= a < TARGET_LENGTH =>
      seq(FEATURE_COUNT, b requires 0 <= b < FEATURE_COUNT => EntrySum(ms, a, b) / (|ms| as real)))
  }

  /**
   * `aggregate_route`. A member without rows makes `preprocess_flight` raise `IndexError`,
   * which propagates; otherwise the result is `None` when no member normalises, and the
   * entrywise mean of exactly the surviving trajectories when some do.
   */
  method AggregateRoute(data: seq<Row>, callsigns: seq<string>) returns (r: Py<Matrix>)
    ensures var outs := MemberOutcomes(data, callsigns);
      && (r.Raises? <==> AnyRaises(outs))
      && (r.Raises? ==> r.error == IndexError)
      && (r.ReturnsNone? <==> !AnyRaises(outs) && Survivors(outs) == [])
      && (r.Returns? ==> Survivors(outs) != [] && r.value == Mean(Survivors(outs)))
  {
    ghost var outs := MemberOutcomes(data, callsigns);
    var matrices: seq<Matrix> := [];
    for j := 0 to |callsigns|
      invariant matrices == Survivors(outs[..j])
      invariant !AnyRaises(outs[..j])
    {
      var flight := ExtractFlight(data, callsigns[j]);
      var traj := PreprocessFlight(flight);
      assert traj == outs[j];
      OutcomesStep(outs, j);
      match traj
      case Raises(e) =>
        r := Raises(e);
        return;
      case ReturnsNone =>
      case Returns(m) =>
        matrices := matrices + [m];
    }
    assert outs[..|callsigns|] == outs;
    if |matrices| == 0 {
      return ReturnsNone;
    }
    r := Returns(Mean(matrices));
  }

  /** One more outcome: it raises or adds its trajectory to the survivors, or neither. */
  lemma OutcomesStep(outs: seq<Py<Matrix>>, j: nat)
    requires j < |outs| && WellShaped(outs)
    ensures AnyRaises(outs[..j + 1]) <==> AnyRaises(outs[..j]) || outs[j].Raises?
    ensures Survivors(outs[..j + 1]) == if outs[j].Returns? then Survivors(outs[..j]) + [outs[j].value] else Survivors(outs[..j])
  {
    var next := outs[..j + 1];
    assert next[..j] == outs[..j];
    assert next[j] == outs[j];
    if AnyRaises(next) && !outs[j].Raises? {
      var i :| 0 <= i < |next| && next[i].Raises?;
      assert outs[..j][i].Raises?;
    }
  }

  /** A member's `preprocess_flight` raises exactly when the table has no row with its callsign. */
  lemma MemberRaisesIff(data: seq<Row>, callsigns: seq<string>, j: nat)
    requires j < |callsigns|
    ensures MemberOutcomes(data, callsigns)[j].Raises? <==>
      forall i :: 0 <= i < |data| ==> data[i].callsign != callsigns[j]
  {
    ExtractFlightEmpty(data, callsigns[j]);
  }

  /** There are no survivors exactly when no outcome is a trajectory, i.e. every member gave `None` or raised. */
  lemma {:induction false} SurvivorsEmptyIff(outs: seq<Py<Matrix>>)
    requires WellShaped(outs)
    ensures Survivors(outs) == [] <==> forall j :: 0 <= j < |outs| ==> !outs[j].Returns?
  {
    if |outs| > 0 {
      var init := outs[..|outs| - 1];
      SurvivorsEmptyIff(init);
      assert forall j :: 0 <= j < |init| ==> init[j] == outs[j];
    }
  }

  /** The survivors are exactly the trajectories among the outcomes, and there are as many as there are trajectories. */
  lemma {:induction false} SurvivorsAreOutcomes(outs: seq<Py<Matrix>>)
    requires WellShaped(outs)
    ensures forall m :: m in Survivors(outs) <==> Returns(m) in outs
    ensures |Survivors(outs)| == |set j | 0 <= j < |outs| && outs[j].Returns?|
  {
    if |outs| > 0 {
      var n := |outs| - 1;
      var init := outs[..n];
      SurvivorsAreOutcomes(init);
      assert outs == init + [outs[n]];
      var before := set j | 0 <= j < n && init[j].Returns?;
      var after := set j | 0 <= j < |outs| && outs[j].Returns?;
      if outs[n].Returns? {
        assert after == before + {n};
      } else {
        assert after == before;
      }
    }
  }

  lemma {:induction false} EntrySumBounds(ms: seq<Matrix>, a: nat, b: nat, lo: real, hi: real)
    requires AllFeatureTrajectories(ms) && a < TARGET_LENGTH && b < FEATURE_COUNT
    requires forall t :: 0 <= t < |ms| ==> lo <= ms[t][a][b] <= hi
    ensures (|ms| as real) * lo <= EntrySum(ms, a, b) <= (|ms| as real) * hi
  {
    if |ms| > 0 {
      EntrySumBounds(ms[..|ms| - 1], a, b, lo, hi);
    }
  }

  /** Each entry of the mean lies between the smallest and the largest value of that entry among the members. */
  lemma MeanBounds(ms: seq<Matrix>, a: nat, b: nat, lo: real, hi: real)
    requires |ms| > 0 && AllFeatureTrajectories(ms) && a < TARGET_LENGTH && b < FEATURE_COUNT
    requires forall t :: 0 <= t < |ms| ==> lo <= ms[t][a][b] <= hi
    ensures lo <= Mean(ms)[a][b] <= hi
  {
    var n := |ms| as real;
    var sum := EntrySum(ms, a, b);
    EntrySumBounds(ms, a, b, lo, hi);
    assert Mean(ms)[a][b] == sum / n;
    assert sum / n * n == sum;
  }

  lemma {:induction false} EntrySumOfCopies(ms: seq<Matrix>, m: Matrix, a: nat, b: nat)
    requires IsFeatureTrajectory(m) && a < TARGET_LENGTH && b < FEATURE_COUNT
    requires forall t :: 0 <= t < |ms| ==> ms[t] == m
    ensures EntrySum(ms, a, b) == (|ms| as real) * m[a][b]
  {
    if |ms| > 0 {
      EntrySumOfCopies(ms[..|ms| - 1], m, a, b);
    }
  }

  /** Aggregating `n` copies of one trajectory gives that trajectory back. */
  lemma MeanOfCopies(m: Matrix, n: nat)
    requires IsFeatureTrajectory(m) && n > 0
    ensures Mean(seq(n, _ => m)) == m
  {
    var ms := seq(n, _ => m);
    var r := Mean(ms);
    forall a | 0 <= a < TARGET_LENGTH
      ensures r[a] == m[a]
    {
      forall b | 0 <= b < FEATURE_COUNT
        ensures r[a][b] == m[a][b]
      {
        EntrySumOfCopies(ms, m, a, b);
        assert r[a][b] == (n as real) * m[a][b] / (n as real);
      }
    }
  }
}
