/**
 * One flight's telemetry and its normalisation (`extract_flight` and
 * `preprocess_flight` of `src/utils.py`): sort by time, reject flights longer
 * than eight hours, resample to 200 rows by truncated `linspace` indices,
 * re-centre latitude and longitude on the first row, keep six columns.
 */
module Flight {
  import opened Py

  /** One row of the cleaned telemetry table (time in whole seconds). */
  datatype Row = Row(
    time: int, callsign: string, lat: real, lon: real,
    velocity: real, sinHeading: real, cosHeading: real, altitude: real)

  /** A feature trajectory: rows of `(delta_lat, delta_lon, velocity, sin_heading, cos_heading, altitude)`. */
  type Matrix = seq<seq<real>>

  /** `MAX_FLIGHT_DURATION`: eight hours, in seconds. */
  const MAX_FLIGHT_DURATION: int := 8 * 3600
  /** `TARGET_LENGTH`: the number of rows every normalised flight has. */
  const TARGET_LENGTH: nat := 200
  /** The number of feature columns of a normalised flight. */
  const FEATURE_COUNT: nat := 6

  /** A matrix of the shape `preprocess_flight` produces: 200 rows of 6 columns. */
  predicate IsFeatureTrajectory(m: Matrix) {
    |m| == TARGET_LENGTH && forall i :: 0 <= i < |m| ==> |m[i]| == FEATURE_COUNT
  }

  // ---------------------------------------------------------------- extract_flight

  /** `extract_flight`: the rows whose callsign is `callsign`, in their original order. */
  function ExtractFlight(data: seq<Row>, callsign: string): (r: seq<Row>)
    ensures |r| <= |data|
    ensures forall i :: 0 <= i < |r| ==> r[i].callsign == callsign
  {
    if |data| == 0 then []
    else (if data[0].callsign == callsign then [data[0]] else []) + ExtractFlight(data[1..], callsign)
  }

  /** The filter keeps every row with the callsign as often as the table has it, and no other row. */
  lemma {:induction false} ExtractFlightCounts(data: seq<Row>, callsign: string)
    ensures forall x ::
      multiset(ExtractFlight(data, callsign))[x] == (if x.callsign == callsign then multiset(data)[x] else 0)
  {
    if |data| > 0 {
      assert data == [data[0]] + data[1..];
      ExtractFlightCounts(data[1..], callsign);
    }
  }

  /** Filtering keeps the order of the table: it distributes over concatenation. */
  lemma {:induction false} ExtractFlightConcat(a: seq<Row>, b: seq<Row>, callsign: string)
    ensures ExtractFlight(a + b, callsign) == ExtractFlight(a, callsign) + ExtractFlight(b, callsign)
  {
    if |a| > 0 {
      assert (a + b)[1..] == a[1..] + b;
      ExtractFlightConcat(a[1..], b, callsign);
    } else {
      assert a + b == b;
    }
  }

  /** A callsign selects no rows exactly when no row carries it. */
  lemma ExtractFlightEmpty(data: seq<Row>, callsign: string)
    ensures ExtractFlight(data, callsign) == [] <==> forall j :: 0 <= j < |data| ==> data[j].callsign != callsign
  {
    var r := ExtractFlight(data, callsign);
    ExtractFlightCounts(data, callsign);
    if r == [] {
      forall j | 0 <= j < |data| ensures data[j].callsign != callsign {
        assert multiset(data)[data[j]] > 0;
      }
    } else {
      assert multiset(r)[r[0]] > 0;
      assert r[0] in multiset(data);
    }
  }

  // ---------------------------------------------------------------- sorting by time

  /** Each row is no earlier than the one before it. */
  predicate TimeSorted(s: seq<Row>) {
    forall i :: 0 < i < |s| ==> s[i - 1].time <= s[i].time
  }

  lemma {:induction false} TimeSortedPairwise(s: seq<Row>, i: nat, j: nat)
    requires TimeSorted(s) && i <= j < |s|
    ensures s[i].time <= s[j].time
    decreases j - i
  {
    if i < j {
      TimeSortedPairwise(s, i, j - 1);
    }
  }

  function InsertByTime(x: Row, s: seq<Row>): (r: seq<Row>)
    ensures |r| == |s| + 1
  {
    if |s| == 0 || x.time <= s[0].time then [x] + s
    else [s[0]] + InsertByTime(x, s[1..])
  }

  lemma {:induction false} InsertByTimePermutes(x: Row, s: seq<Row>)
    ensures multiset(InsertByTime(x, s)) == multiset(s) + multiset{x}
  {
    if |s| > 0 && x.time > s[0].time {
      InsertByTimePermutes(x, s[1..]);
      assert s == [s[0]] + s[1..];
    }
  }

  lemma {:induction false} InsertByTimeSorted(x: Row, s: seq<Row>)
    requires TimeSorted(s)
    ensures var r := InsertByTime(x, s); TimeSorted(r) && (r[0] == x || (|s| > 0 && r[0] == s[0]))
  {
    if |s| > 0 && x.time > s[0].time {
      InsertByTimeSorted(x, s[1..]);
    }
  }

  /**
   * `df_flight.sort_values("time")`: the rows ordered by time. pandas' default sort is
   * not stable, so the model promises only a time-ordered permutation of the rows.
   */
  function SortByTime(s: seq<Row>): (r: seq<Row>)
    ensures |r| == |s|
  {
    if |s| == 0 then [] else InsertByTime(s[0], SortByTime(s[1..]))
  }

  /** Sorting gives a time-ordered permutation of the rows. */
  lemma {:induction false} SortByTimeSorted(s: seq<Row>)
    ensures TimeSorted(SortByTime(s)) && multiset(SortByTime(s)) == multiset(s)
  {
    if |s| > 0 {
      assert s == [s[0]] + s[1..];
      SortByTimeSorted(s[1..]);
      InsertByTimeSorted(s[0], SortByTime(s[1..]));
      InsertByTimePermutes(s[0], SortByTime(s[1..]));
    }
  }

  /** The earliest timestamp of a non-empty flight. */
  function MinTime(s: seq<Row>): (t: int)
    requires |s| > 0
    ensures forall i :: 0 <= i < |s| ==> t <= s[i].time
    ensures exists i :: 0 <= i < |s| && s[i].time == t
  {
    if |s| == 1 then s[0].time
    else
      var m := MinTime(s[1..]);
      assert exists i :: 1 <= i < |s| && s[i].time == m by {
        var i :| 0 <= i < |s| - 1 && s[1..][i].time == m;
        assert s[i + 1].time == m;
      }
      if s[0].time <= m then s[0].time else m
  }

  /** The latest timestamp of a non-empty flight. */
  function MaxTime(s: seq<Row>): (t: int)
    requires |s| > 0
    ensures forall i :: 0 <= i < |s| ==> s[i].time <= t
    ensures exists i :: 0 <= i < |s| && s[i].time == t
  {
    if |s| == 1 then s[0].time
    else
      var m := MaxTime(s[1..]);
      assert exists i :: 1 <= i < |s| && s[i].time == m by {
        var i :| 0 <= i < |s| - 1 && s[1..][i].time == m;
        assert s[i + 1].time == m;
      }
      if s[0].time >= m then s[0].time else m
  }

  /** After sorting, the first row is an earliest row and the last row a latest one. */
  lemma SortedEnds(s: seq<Row>)
    requires |s| > 0
    ensures SortByTime(s)[0].time == MinTime(s)
    ensures SortByTime(s)[|s| - 1].time == MaxTime(s)
  {
    var t := SortByTime(s);
    SortByTimeSorted(s);
    PermutationEnds(s, t);
  }

  lemma PermutationEnds(s: seq<Row>, t: seq<Row>)
    requires |s| > 0 && TimeSorted(t) && multiset(t) == multiset(s)
    ensures |t| == |s|
    ensures t[0].time == MinTime(s) && t[|t| - 1].time == MaxTime(s)
  {
    assert |t| == |multiset(t)| == |multiset(s)| == |s|;
    PermutationFirst(s, t);
    PermutationLast(s, t);
  }

  /** A row of one sequence occurs at some index of any permutation of it. */
  lemma PermutationIndex(s: seq<Row>, t: seq<Row>, j: nat) returns (k: nat)
    requires multiset(t) == multiset(s) && j < |s|
    ensures k < |t| && t[k] == s[j]
  {
    assert s[j] in multiset(t);
    k :| 0 <= k < |t| && t[k] == s[j];
  }

  lemma PermutationFirst(s: seq<Row>, t: seq<Row>)
    requires |s| > 0 && |t| == |s| && TimeSorted(t) && multiset(t) == multiset(s)
    ensures t[0].time == MinTime(s)
  {
    var j := PermutationIndex(t, s, 0);
    var lo :| 0 <= lo < |s| && s[lo].time == MinTime(s);
    var k := PermutationIndex(s, t, lo);
    TimeSortedPairwise(t, 0, k);
  }

  lemma PermutationLast(s: seq<Row>, t: seq<Row>)
    requires |s| > 0 && |t| == |s| && TimeSorted(t) && multiset(t) == multiset(s)
    ensures t[|t| - 1].time == MaxTime(s)
  {
    var j := PermutationIndex(t, s, |t| - 1);
    var hi :| 0 <= hi < |s| && s[hi].time == MaxTime(s);
    var k := PermutationIndex(s, t, hi);
    TimeSortedPairwise(t, k, |t| - 1);
  }

  // ---------------------------------------------------------------- resampling

  /** `np.linspace(0, n - 1, TARGET_LENGTH).astype(int)[i]` in exact arithmetic: `i * (n - 1) / 199`, truncated. */
  function ResampleIndex(i: nat, n: nat): nat
    requires n > 0
  {
    i * (n - 1) / (TARGET_LENGTH - 1)
  }

  /** The index is the floor of the evenly spaced position `i * (n - 1) / 199`. */
  lemma ResampleIndexIsFloor(i: nat, n: nat)
    requires n > 0
    ensures ResampleIndex(i, n) * 199 <= i * (n - 1) < (ResampleIndex(i, n) + 1) * 199
  {
  }

  lemma ResampleIndexMonotone(i: nat, j: nat, n: nat)
    requires n > 0 && i <= j
    ensures ResampleIndex(i, n) <= ResampleIndex(j, n)
  {
    assert i * (n - 1) <= j * (n - 1) by {
      assert (j - i) * (n - 1) >= 0;
    }
  }

  lemma ResampleIndexBounds(i: nat, n: nat)
    requires n > 0 && i < TARGET_LENGTH
    ensures ResampleIndex(i, n) < n
    ensures i == 0 ==> ResampleIndex(i, n) == 0
    ensures i == TARGET_LENGTH - 1 ==> ResampleIndex(i, n) == n - 1
  {
    ResampleIndexMonotone(i, TARGET_LENGTH - 1, n);
  }

  /** Consecutive indices differ by at most one when there are at most 200 rows, and by at least one otherwise. */
  lemma ResampleIndexStep(i: nat, n: nat)
    requires n > 0
    ensures n <= TARGET_LENGTH ==> ResampleIndex(i + 1, n) <= ResampleIndex(i, n) + 1
    ensures n >= TARGET_LENGTH ==> ResampleIndex(i + 1, n) >= ResampleIndex(i, n) + 1
  {
    assert (i + 1) * (n - 1) == i * (n - 1) + (n - 1);
  }

  /** The 200 resample indices of a flight of `n` rows. */
  function ResampleIndices(n: nat): (idxs: seq<nat>)
    requires n > 0
    ensures |idxs| == TARGET_LENGTH
    ensures forall i :: 0 <= i < |idxs| ==> idxs[i] * 199 <= i * (n - 1) < (idxs[i] + 1) * 199
  {
    seq(TARGET_LENGTH, i requires 0 <= i < TARGET_LENGTH => ResampleIndex(i, n))
  }

  /** The indices start at 0, end at `n - 1`, never decrease and stay within the flight. */
  lemma ResampleIndicesShape(n: nat)
    requires n > 0
    ensures var idxs := ResampleIndices(n);
      && idxs[0] == 0 && idxs[TARGET_LENGTH - 1] == n - 1
      && (forall i :: 0 <= i < TARGET_LENGTH ==> idxs[i] < n)
      && (forall i, j :: 0 <= i <= j < TARGET_LENGTH ==> idxs[i] <= idxs[j])
  {
    var idxs := ResampleIndices(n);
    forall i | 0 <= i < TARGET_LENGTH ensures idxs[i] < n {
      ResampleIndexBounds(i, n);
    }
    forall i, j | 0 <= i <= j < TARGET_LENGTH ensures idxs[i] <= idxs[j] {
      ResampleIndexMonotone(i, j, n);
    }
    ResampleIndexBounds(0, n);
    ResampleIndexBounds(TARGET_LENGTH - 1, n);
  }

  lemma {:induction false} StrictlyIncreasingIndicesGrow(n: nat, i: nat)
    requires n > 0 && i < TARGET_LENGTH
    requires forall j :: 0 <= j < i ==> ResampleIndex(j, n) < ResampleIndex(j + 1, n)
    ensures ResampleIndex(i, n) >= i
  {
    if i > 0 {
      StrictlyIncreasingIndicesGrow(n, i - 1);
    }
  }

  /** Some index repeats exactly when the flight has fewer than 200 rows. */
  lemma ResampleRepeatsIffShort(n: nat)
    requires n > 0
    ensures (exists i :: 0 <= i < TARGET_LENGTH - 1 && ResampleIndex(i, n) == ResampleIndex(i + 1, n))
        <==> n < TARGET_LENGTH
  {
    if n < TARGET_LENGTH {
      if forall j :: 0 <= j < TARGET_LENGTH - 1 ==> ResampleIndex(j, n) != ResampleIndex(j + 1, n) {
        forall j | 0 <= j < TARGET_LENGTH - 1 ensures ResampleIndex(j, n) < ResampleIndex(j + 1, n) {
          ResampleIndexMonotone(j, j + 1, n);
        }
        StrictlyIncreasingIndicesGrow(n, TARGET_LENGTH - 1);
        ResampleIndexBounds(TARGET_LENGTH - 1, n);
        assert false;
      }
    } else {
      forall i | 0 <= i < TARGET_LENGTH - 1 ensures ResampleIndex(i, n) != ResampleIndex(i + 1, n) {
        ResampleIndexStep(i, n);
      }
    }
  }

  lemma {:induction false} ResampleReaches(n: nat, i: nat, v: nat)
    requires 0 < n <= TARGET_LENGTH && i < TARGET_LENGTH && v <= ResampleIndex(i, n)
    ensures exists j :: 0 <= j <= i && ResampleIndex(j, n) == v
  {
    if v < ResampleIndex(i, n) {
      ResampleIndexStep(i - 1, n);
      ResampleReaches(n, i - 1, v);
    }
  }

  /** With at most 200 rows every row index is taken at least once: no row is skipped. */
  lemma ResampleCoversShortFlights(n: nat, v: nat)
    requires 0 < n <= TARGET_LENGTH && v < n
    ensures exists i :: 0 <= i < TARGET_LENGTH && ResampleIndex(i, n) == v
  {
    ResampleIndexBounds(TARGET_LENGTH - 1, n);
    ResampleReaches(n, TARGET_LENGTH - 1, v);
  }

  // ---------------------------------------------------------------- preprocess_flight

  /** `df_flight.iloc[idxs]`: the rows at the resample indices, in order. */
  function Resample(s: seq<Row>): (r: seq<Row>)
    requires |s| > 0
    ensures |r| == TARGET_LENGTH
    ensures r[0] == s[0] && r[TARGET_LENGTH - 1] == s[|s| - 1]
  {
    ResampleIndexBounds(0, |s|);
    ResampleIndexBounds(TARGET_LENGTH - 1, |s|);
    seq(TARGET_LENGTH, i requires 0 <= i < TARGET_LENGTH =>
      ResampleIndexBounds(i, |s|); s[ResampleIndex(i, |s|)])
  }

  /** The six output columns of one row, positions relative to `origin`. */
  function Features(r: Row, origin: Row): (v: seq<real>)
    ensures |v| == FEATURE_COUNT
  {
    [r.lat - origin.lat, r.lon - origin.lon, r.velocity, r.sinHeading, r.cosHeading, r.altitude]
  }

  /**
   * `preprocess_flight`. An empty flight raises `IndexError` (`iloc[-1]` of an empty
   * series), a flight spanning more than eight hours gives `None`, anything else a
   * 200 x 6 trajectory whose first row sits at the origin.
   */
  function PreprocessFlight(flight: seq<Row>): (r: Py<Matrix>)
    ensures r.Raises? <==> |flight| == 0
    ensures r.Raises? ==> r.error == IndexError
    ensures r.ReturnsNone? <==> |flight| > 0 && MaxTime(flight) - MinTime(flight) > MAX_FLIGHT_DURATION
    ensures r.Returns? ==> IsFeatureTrajectory(r.value) && r.value[0][0] == 0.0 && r.value[0][1] == 0.0
  {
    if |flight| == 0 then Raises(IndexError)
    else
      var sorted := SortByTime(flight);
      var duration := sorted[|sorted| - 1].time - sorted[0].time;
      SortedEnds(flight);
      if duration > MAX_FLIGHT_DURATION then ReturnsNone
      else Returns(Recentred(Resample(sorted)))
  }

  /** The six output columns of every row, latitude and longitude relative to the first row. */
  function Recentred(rows: seq<Row>): (m: Matrix)
    requires |rows| == TARGET_LENGTH
    ensures IsFeatureTrajectory(m) && m[0][0] == 0.0 && m[0][1] == 0.0
    ensures forall i :: 0 <= i < |m| ==> m[i][5] == rows[i].altitude
  {
    seq(TARGET_LENGTH, i requires 0 <= i < TARGET_LENGTH => Features(rows[i], rows[0]))
  }

  /** The row of the time-sorted flight that output row `i` is taken from. */
  function SampledRow(flight: seq<Row>, i: nat): Row
    requires |flight| > 0 && i < TARGET_LENGTH
  {
    ResampleIndexBounds(i, |flight|);
    SortByTime(flight)[ResampleIndex(i, |flight|)]
  }

  /** Sampled rows are rows of the flight. */
  lemma SampledRowInFlight(flight: seq<Row>, i: nat)
    requires |flight| > 0 && i < TARGET_LENGTH
    ensures SampledRow(flight, i) in flight
  {
    ResampleIndexBounds(i, |flight|);
    SortByTimeSorted(flight);
    assert SortByTime(flight)[ResampleIndex(i, |flight|)] in multiset(flight);
  }

  /** Sampled rows come in time order. */
  lemma SampledRowsInTimeOrder(flight: seq<Row>, i: nat, j: nat)
    requires |flight| > 0 && i <= j < TARGET_LENGTH
    ensures SampledRow(flight, i).time <= SampledRow(flight, j).time
  {
    var n := |flight|;
    var t := SortByTime(flight);
    SortByTimeSorted(flight);
    ResampleIndexBounds(i, n);
    ResampleIndexBounds(j, n);
    ResampleIndexMonotone(i, j, n);
    var a, b := ResampleIndex(i, n), ResampleIndex(j, n);
    assert SampledRow(flight, i) == t[a] && SampledRow(flight, j) == t[b];
    TimeSortedPairwise(t, a, b);
  }

  /** The first sampled row is an earliest row of the flight, the last a latest one. */
  lemma SampledEnds(flight: seq<Row>)
    requires |flight| > 0
    ensures SampledRow(flight, 0).time == MinTime(flight)
    ensures SampledRow(flight, TARGET_LENGTH - 1).time == MaxTime(flight)
  {
    ResampleIndexBounds(0, |flight|);
    ResampleIndexBounds(TARGET_LENGTH - 1, |flight|);
    SortedEnds(flight);
  }

  /**
   * Each output row is one of the flight's own rows, re-centred on output row 0: its first
   * two columns are its latitude and longitude minus those of row 0, the other four are
   * copied in the order velocity, sin_heading, cos_heading, altitude.
   */
  lemma PreprocessRows(flight: seq<Row>, i: nat)
    requires PreprocessFlight(flight).Returns? && i < TARGET_LENGTH
    ensures var m, x, o := PreprocessFlight(flight).value, SampledRow(flight, i), SampledRow(flight, 0);
      && x in flight
      && m[i] == [x.lat - o.lat, x.lon - o.lon, x.velocity, x.sinHeading, x.cosHeading, x.altitude]
  {
    PreprocessValue(flight);
    var rows := Resample(SortByTime(flight));
    ResampleAt(flight, i);
    ResampleAt(flight, 0);
    RecentredAt(rows, i);
    SampledRowInFlight(flight, i);
  }

  lemma PreprocessValue(flight: seq<Row>)
    requires PreprocessFlight(flight).Returns?
    ensures PreprocessFlight(flight).value == Recentred(Resample(SortByTime(flight)))
  {
  }

  lemma ResampleAt(flight: seq<Row>, i: nat)
    requires |flight| > 0 && i < TARGET_LENGTH
    ensures Resample(SortByTime(flight))[i] == SampledRow(flight, i)
  {
  }

  lemma RecentredAt(rows: seq<Row>, i: nat)
    requires |rows| == TARGET_LENGTH && i < TARGET_LENGTH
    ensures var x, o := rows[i], rows[0];
      Recentred(rows)[i] == [x.lat - o.lat, x.lon - o.lon, x.velocity, x.sinHeading, x.cosHeading, x.altitude]
  {
  }

  /** A flight of at most 200 rows keeps every one of its rows in the output. */
  lemma PreprocessKeepsShortFlights(flight: seq<Row>, x: Row)
    requires PreprocessFlight(flight).Returns? && |flight| <= TARGET_LENGTH && x in flight
    ensures exists i :: 0 <= i < TARGET_LENGTH && SampledRow(flight, i) == x
  {
    var s := SortByTime(flight);
    SortByTimeSorted(flight);
    assert x in multiset(s);
    var v :| 0 <= v < |s| && s[v] == x;
    ResampleCoversShortFlights(|flight|, v);
    var i :| 0 <= i < TARGET_LENGTH && ResampleIndex(i, |flight|) == v;
    assert SampledRow(flight, i) == x;
  }
}
