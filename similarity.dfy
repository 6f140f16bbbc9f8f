/**
 * `moved_enough`, `top_k_dtw` and the result mapping of `src/similarity.py`.
 *
 * Every candidate flight that passes the altitude and displacement gate is scored against
 * every trunk route, and each route keeps a min-heap of at most `k` tuples
 * `(-score, callsign)`, so the heap holds the `k` lowest scores and its root is the worst of them.
 * The score is `compute_dtw`, an external dynamic-time-warping library call; here it is
 * the parameter `score`, about which nothing is assumed.
 */
module Similarity {
  import Py
  import opened Flight
  import opened Heapq

  /** One item of `flight_vectors`: a callsign and its normalised trajectory. */
  datatype Candidate = Candidate(callsign: string, vec: Matrix)

  /** One serialised entry `{"callsign": ..., "dtw_score": ...}`. */
  datatype Record = Record(callsign: string, dtwScore: real)

  /** `moved_enough` assumes about 111 km per degree. */
  const KM_PER_DEGREE: real := 111.0

  /** The default `min_displacement_km` of `moved_enough`, used by the gate. */
  const MIN_DISPLACEMENT_KM: real := 100.0

  /** The gate reads columns 0, 1 and 5 of the first and last rows; a shorter matrix makes pandas raise. */
  predicate Gateable(vec: Matrix) {
    |vec| > 0 && |vec[0]| >= FEATURE_COUNT && |vec[|vec| - 1]| >= FEATURE_COUNT
  }

  predicate AllGateable(flights: seq<Candidate>) {
    forall j :: 0 <= j < |flights| ==> Gateable(flights[j].vec)
  }

  /** The callsigns are the keys of a dictionary, so no two candidates share one. */
  predicate DistinctCallsigns(flights: seq<Candidate>) {
    forall j, l :: 0 <= j < l < |flights| ==> flights[j].callsign != flights[l].callsign
  }

  /** The squared length, in degrees, of the move from the first to the last row in (delta_lat, delta_lon). */
  function SquaredDisplacement(vec: Matrix): (d: real)
    requires Gateable(vec)
    ensures d >= 0.0
  {
    var dx := vec[|vec| - 1][0] - vec[0][0];
    var dy := vec[|vec| - 1][1] - vec[0][1];
    dx * dx + dy * dy
  }

  /** `moved_enough(vec, min_km)`, comparing squares instead of taking the norm's square root. */
  predicate MovedEnough(vec: Matrix, minKm: real)
    requires Gateable(vec)
  {
    minKm <= 0.0 || KM_PER_DEGREE * KM_PER_DEGREE * SquaredDisplacement(vec) >= minKm * minKm
  }

  lemma PositiveProduct(x: real, y: real)
    requires x > 0.0 && y > 0.0
    ensures x * y > 0.0
  {
  }

  lemma SquaresOrdered(a: real, b: real)
    requires a >= 0.0 && b >= 0.0
    ensures a >= b <==> a * a >= b * b
  {
    if a >= b {
      assert a * a - b * b == (a - b) * (a + b);
      assert (a - b) * (a + b) >= 0.0;
    } else {
      assert b * b - a * a == (b - a) * (b + a);
      PositiveProduct(b - a, b + a);
    }
  }

  /**
   * The test of `moved_enough`: for the Euclidean norm `norm` of the displacement,
   * `norm * 111 >= min_km`, the boundary included.
   */
  lemma MovedEnoughIsNormTest(vec: Matrix, minKm: real, norm: real)
    requires Gateable(vec) && norm >= 0.0 && norm * norm == SquaredDisplacement(vec)
    ensures MovedEnough(vec, minKm) <==> norm * KM_PER_DEGREE >= minKm
  {
    var km := norm * KM_PER_DEGREE;
    assert km * km == KM_PER_DEGREE * KM_PER_DEGREE * SquaredDisplacement(vec);
    if minKm > 0.0 {
      SquaresOrdered(km, minKm);
    }
  }

  /** The gate of `top_k_dtw`: negative altitude at the first and the last row, and at least 100 km moved. */
  predicate Accepted(vec: Matrix)
    requires Gateable(vec)
  {
    !(vec[0][5] >= 0.0 || vec[|vec| - 1][5] >= 0.0 || !MovedEnough(vec, MIN_DISPLACEMENT_KM))
  }

  /** How many candidates pass the gate. */
  function CountAccepted(flights: seq<Candidate>): (n: nat)
    requires AllGateable(flights)
    ensures n <= |flights|
  {
    if |flights| == 0 then 0
    else CountAccepted(flights[..|flights| - 1]) + (if Accepted(flights[|flights| - 1].vec) then 1 else 0)
  }

  /** The tuples pushed for one route, in the order `top_k_dtw` offers them. */
  function Offered(flights: seq<Candidate>, trunk: Matrix, score: (Matrix, Matrix) -> real): (o: seq<Entry>)
    requires AllGateable(flights)
  {
    if |flights| == 0 then []
    else
      var prev := Offered(flights[..|flights| - 1], trunk, score);
      var f := flights[|flights| - 1];
      if Accepted(f.vec) then prev + [Entry(-score(f.vec, trunk), f.callsign)] else prev
  }

  /** `min(k, n)`, and no entries at all when `k` is not positive. */
  function Retained(k: int, n: nat): (m: nat)
    ensures m <= n && (k > 0 ==> m <= k)
  {
    if k <= 0 then 0 else if k < n then k else n
  }

  /**
   * `h` holds exactly the `k` largest of the offered tuples (the `k` lowest scores): as many as
   * can be kept, taken from the offered ones, and none of those left out above any of those kept.
   */
  predicate IsTopK(h: seq<Entry>, offered: seq<Entry>, k: int) {
    && |h| == Retained(k, |offered|)
    && multiset(h) <= multiset(offered)
    && forall x, y :: x in multiset(h) && y in multiset(offered) - multiset(h) ==> Le(y, x)
  }

  /**
   * The reference answer: the `min(k, n)` largest of the offered tuples (those of the lowest
   * raw scores), in ascending order.
   */
  function TopKSpec(offered: seq<Entry>, k: int): (t: seq<Entry>)
    ensures |t| == Retained(k, |offered|)
  {
    var s := SortEntries(offered);
    s[|s| - Retained(k, |s|)..]
  }

  // ---------------------------------------------------------------------------
  // The offered tuples

  lemma {:induction false} OfferedLength(flights: seq<Candidate>, trunk: Matrix, score: (Matrix, Matrix) -> real)
    requires AllGateable(flights)
    ensures |Offered(flights, trunk, score)| == CountAccepted(flights)
  {
    if |flights| > 0 {
      OfferedLength(flights[..|flights| - 1], trunk, score);
    }
  }

  /** Every offered tuple is `(-score, callsign)` of a candidate that passed the gate. */
  lemma {:induction false} OfferedFromAccepted(flights: seq<Candidate>, trunk: Matrix, score: (Matrix, Matrix) -> real, x: Entry)
    requires AllGateable(flights) && x in Offered(flights, trunk, score)
    ensures exists j :: (0 <= j < |flights| && Accepted(flights[j].vec)
      && x == Entry(-score(flights[j].vec, trunk), flights[j].callsign))
  {
    var n := |flights| - 1;
    var init := flights[..n];
    if x in Offered(init, trunk, score) {
      OfferedFromAccepted(init, trunk, score, x);
      var j :| 0 <= j < |init| && Accepted(init[j].vec) && x == Entry(-score(init[j].vec, trunk), init[j].callsign);
      assert flights[j] == init[j];
    } else {
      assert x == Entry(-score(flights[n].vec, trunk), flights[n].callsign);
    }
  }

  /** Every candidate that passes the gate is offered to every route. */
  lemma {:induction false} AcceptedAreOffered(flights: seq<Candidate>, trunk: Matrix, score: (Matrix, Matrix) -> real, j: nat)
    requires AllGateable(flights) && j < |flights| && Accepted(flights[j].vec)
    ensures Entry(-score(flights[j].vec, trunk), flights[j].callsign) in Offered(flights, trunk, score)
  {
    var n := |flights| - 1;
    if j < n {
      var init := flights[..n];
      assert init[j] == flights[j];
      AcceptedAreOffered(init, trunk, score, j);
    }
  }

  /**
   * Routes are independent: what a route is offered depends only on the scores that the
   * accepted candidates get against it.
   */
  lemma {:induction false} RoutesIndependent(flights: seq<Candidate>, t1: Matrix, s1: (Matrix, Matrix) -> real,
                                             t2: Matrix, s2: (Matrix, Matrix) -> real)
    requires AllGateable(flights)
    requires forall j :: 0 <= j < |flights| && Accepted(flights[j].vec) ==> s1(flights[j].vec, t1) == s2(flights[j].vec, t2)
    ensures Offered(flights, t1, s1) == Offered(flights, t2, s2)
  {
    if |flights| > 0 {
      var init := flights[..|flights| - 1];
      forall j | 0 <= j < |init| && Accepted(init[j].vec)
        ensures s1(init[j].vec, t1) == s2(init[j].vec, t2)
      {
        assert init[j] == flights[j];
      }
      RoutesIndependent(init, t1, s1, t2, s2);
    }
  }

  // ---------------------------------------------------------------------------
  // The top-k characterisation

  lemma SubMultisetSameSize(a: multiset<Entry>, b: multiset<Entry>)
    requires a <= b && |a| == |b|
    ensures a == b
  {
    assert b == a + (b - a);
    assert |b - a| == 0;
  }

  /** `heappush` while the list is below `k`: every tuple offered so far is kept. */
  lemma TopKPush(h: seq<Entry>, r: seq<Entry>, offered: seq<Entry>, e: Entry, k: int)
    requires IsTopK(h, offered, k) && |h| < k
    requires |r| == |h| + 1 && multiset(r) == multiset(h) + multiset{e}
    ensures IsTopK(r, offered + [e], k)
  {
    SubMultisetSameSize(multiset(h), multiset(offered));
    assert multiset(offered + [e]) == multiset(offered) + multiset{e} == multiset(r);
  }

  /**
   * `heappushpop` once the list holds `k`: the popped tuple is the smallest of the `k + 1`,
   * so it joins the left-out ones and the rest stays the `k` largest.
   */
  lemma TopKPushPop(h: seq<Entry>, r: seq<Entry>, popped: Entry, offered: seq<Entry>, e: Entry, k: int)
    requires IsTopK(h, offered, k) && |h| >= k && |r| == |h|
    requires multiset(r) + multiset{popped} == multiset(h) + multiset{e}
    requires forall x :: x in multiset(r) ==> Le(popped, x)
    requires popped == e || popped in multiset(h)
    ensures IsTopK(r, offered + [e], k)
  {
    var o2 := multiset(offered + [e]);
    var rest := multiset(offered) - multiset(h);
    var rest2 := o2 - multiset(r);
    forall z
      ensures multiset(r)[z] <= o2[z] && rest2[z] == rest[z] + multiset{popped}[z]
    {
      assert (multiset(r) + multiset{popped})[z] == (multiset(h) + multiset{e})[z];
      assert o2[z] == multiset(offered)[z] + multiset{e}[z];
    }
    assert multiset(r) <= o2;
    forall x, y | x in multiset(r) && y in rest2
      ensures Le(y, x)
    {
      if y != popped {
        assert y in rest;
        if x !in multiset(h) {
          assert popped in multiset(h);
          LeTransitive(y, popped, x);
        }
      }
    }
  }

  /** Two lists that are both a top-k of the same offers have the same elements ... (one direction). */
  lemma TopKNoExcess(h1: seq<Entry>, h2: seq<Entry>, offered: seq<Entry>, k: int, x: Entry)
    requires IsTopK(h1, offered, k) && IsTopK(h2, offered, k)
    ensures multiset(h1)[x] <= multiset(h2)[x]
  {
    var a := multiset(h1);
    var b := multiset(h2);
    if a[x] > b[x] {
      if b <= a {
        SubMultisetSameSize(b, a);
      } else {
        var y :| b[y] > a[y];
        assert y in multiset(offered) - a;
        assert x in multiset(offered) - b;
        LeAntisymmetric(x, y);
      }
    }
  }

  /** ... and so the top-k of a sequence of offers is unique as a multiset. */
  lemma TopKUnique(h1: seq<Entry>, h2: seq<Entry>, offered: seq<Entry>, k: int)
    requires IsTopK(h1, offered, k) && IsTopK(h2, offered, k)
    ensures multiset(h1) == multiset(h2)
  {
    forall x
      ensures multiset(h1)[x] == multiset(h2)[x]
    {
      TopKNoExcess(h1, h2, offered, k, x);
      TopKNoExcess(h2, h1, offered, k, x);
    }
  }

  /** The last `m` elements of an ascending list are no smaller than the ones before them. */
  lemma SortedSuffixIsTop(s: seq<Entry>, m: nat)
    requires IsSorted(s) && m <= |s|
    ensures var cut := |s| - m;
      forall x, y :: x in multiset(s[cut..]) && y in multiset(s[..cut]) ==> Le(y, x)
  {
    var cut := |s| - m;
    forall x, y | x in multiset(s[cut..]) && y in multiset(s[..cut])
      ensures Le(y, x)
    {
      var a :| 0 <= a < cut && s[..cut][a] == y;
      var b :| 0 <= b < m && s[cut..][b] == x;
      assert y == s[a] && x == s[cut + b];
      SortedPairwise(s, a, cut + b);
    }
  }

  lemma SortedSuffixSorted(s: seq<Entry>, cut: nat)
    requires IsSorted(s) && cut <= |s|
    ensures IsSorted(s[cut..])
  {
    var t := s[cut..];
    forall j | 0 < j < |t|
      ensures Le(t[j - 1], t[j])
    {
      assert t[j - 1] == s[cut + j - 1] && t[j] == s[cut + j];
    }
  }

  /** The reference answer is a top-k, and it is ascending. */
  lemma TopKSpecIsTopK(offered: seq<Entry>, k: int)
    ensures IsTopK(TopKSpec(offered, k), offered, k) && IsSorted(TopKSpec(offered, k))
  {
    var s := SortEntries(offered);
    SortEntriesSorted(offered);
    var m := Retained(k, |s|);
    var cut := |s| - m;
    var t := s[cut..];
    assert t == TopKSpec(offered, k);
    assert s == s[..cut] + t;
    assert multiset(offered) == multiset(s[..cut]) + multiset(t);
    assert multiset(offered) - multiset(t) == multiset(s[..cut]);
    SortedSuffixIsTop(s, m);
    SortedSuffixSorted(s, cut);
  }

  /** Sorting a top-k gives the reference answer, whatever the heap's layout was. */
  lemma SortedTopKIsSpec(h: seq<Entry>, offered: seq<Entry>, k: int)
    requires IsTopK(h, offered, k)
    ensures SortEntries(h) == TopKSpec(offered, k)
  {
    var s := SortEntries(h);
    SortEntriesSorted(h);
    assert IsTopK(s, offered, k);
    TopKSpecIsTopK(offered, k);
    TopKUnique(s, TopKSpec(offered, k), offered, k);
    SortedUnique(s, TopKSpec(offered, k));
  }

  /**
   * What the top-k keeps, in raw scores: no left-out candidate has a lower score than a kept one,
   * and on a tie at the cut-off the larger callsign is the one kept.
   */
  lemma TopKKeepsLowestScores(h: seq<Entry>, offered: seq<Entry>, k: int, x: Entry, y: Entry)
    requires IsTopK(h, offered, k) && x in multiset(h) && y in multiset(offered) - multiset(h)
    ensures -x.negScore <= -y.negScore
    ensures x.negScore == y.negScore ==> x == y || PyStr.StrLt(y.callsign, x.callsign)
  {
  }

  /** A candidate turned away by the gate has no entry in any route's top-k. */
  lemma RejectedNeverKept(flights: seq<Candidate>, trunk: Matrix, score: (Matrix, Matrix) -> real,
                          k: int, h: seq<Entry>, j: nat)
    requires AllGateable(flights) && DistinctCallsigns(flights)
    requires IsTopK(h, Offered(flights, trunk, score), k)
    requires j < |flights| && !Accepted(flights[j].vec)
    ensures forall x :: x in h ==> x.callsign != flights[j].callsign
  {
    forall x | x in h
      ensures x.callsign != flights[j].callsign
    {
      assert x in multiset(Offered(flights, trunk, score));
      OfferedFromAccepted(flights, trunk, score, x);
      var l :| 0 <= l < |flights| && Accepted(flights[l].vec)
        && x == Entry(-score(flights[l].vec, trunk), flights[l].callsign);
      assert l != j;
    }
  }

  // ---------------------------------------------------------------------------
  // top_k_dtw

  /** What every route has been offered by the first candidates: entry `r` is route `r`'s offers. */
  function AllOffers(flights: seq<Candidate>, trunks: seq<Matrix>, score: (Matrix, Matrix) -> real): (o: seq<seq<Entry>>)
    requires AllGateable(flights)
    ensures |o| == |trunks|
  {
    seq(|trunks|, r requires 0 <= r < |trunks| => Offered(flights, trunks[r], score))
  }

  /** Each route's offers extended by the candidate's tuple for that route. */
  function Extend(offers: seq<seq<Entry>>, c: Candidate, trunks: seq<Matrix>, score: (Matrix, Matrix) -> real): (o: seq<seq<Entry>>)
    requires |offers| == |trunks|
    ensures |o| == |trunks|
  {
    seq(|trunks|, r requires 0 <= r < |trunks| => offers[r] + [Entry(-score(c.vec, trunks[r]), c.callsign)])
  }

  /** One more candidate: an accepted one extends every route's offers, a rejected one none. */
  lemma OffersStep(flights: seq<Candidate>, f: nat, trunks: seq<Matrix>, score: (Matrix, Matrix) -> real)
    requires AllGateable(flights) && f < |flights|
    ensures AllOffers(flights[..f + 1], trunks, score) ==
      if Accepted(flights[f].vec) then Extend(AllOffers(flights[..f], trunks, score), flights[f], trunks, score)
      else AllOffers(flights[..f], trunks, score)
    ensures CountAccepted(flights[..f + 1]) == CountAccepted(flights[..f]) + (if Accepted(flights[f].vec) then 1 else 0)
  {
    assert flights[..f + 1][..f] == flights[..f];
  }

  /** Before any candidate is accepted, no route has been offered anything. */
  lemma NoOffersYet(flights: seq<Candidate>, trunks: seq<Matrix>, score: (Matrix, Matrix) -> real)
    requires AllGateable(flights) && CountAccepted(flights) == 0
    ensures forall r :: 0 <= r < |trunks| ==> AllOffers(flights, trunks, score)[r] == []
  {
    forall r | 0 <= r < |trunks|
      ensures AllOffers(flights, trunks, score)[r] == []
    {
      OfferedLength(flights, trunks[r], score);
    }
  }

  /**
   * Lines 36-39 of `top_k_dtw` for one route: `heappush` while the list is shorter than `k`,
   * `heappushpop` afterwards. A top-k of the earlier offers becomes a top-k of the offers with `e`.
   */
  method Offer(h: seq<Entry>, e: Entry, k: int, ghost offered: seq<Entry>) returns (r: seq<Entry>)
    requires IsHeap(h) && IsTopK(h, offered, k)
    ensures IsHeap(r) && IsTopK(r, offered + [e], k)
  {
    if |h| < k {
      r := HeapPush(h, e);
      TopKPush(h, r, offered, e, k);
    } else {
      var popped;
      r, popped := HeapPushPop(h, e);
      TopKPushPop(h, r, popped, offered, e, k);
    }
  }

  /** Route `r`, when present in `topk`, holds a heap that is a top-k of its offers. */
  predicate RouteOk(topk: map<int, seq<Entry>>, offers: seq<seq<Entry>>, r: int, k: int) {
    r in topk ==> 0 <= r < |offers| && IsHeap(topk[r]) && IsTopK(topk[r], offers[r], k)
  }

  /** Every route with index in `lo .. hi - 1` is `RouteOk`. */
  predicate RoutesHoldTopK(topk: map<int, seq<Entry>>, offers: seq<seq<Entry>>, lo: nat, hi: nat, k: int) {
    forall r {:trigger RouteOk(topk, offers, r, k)} :: lo <= r < hi ==> RouteOk(topk, offers, r, k)
  }

  /** `topk[i]` on the `defaultdict(list)`: the list of route `i`, or a new empty one. */
  function DefaultGet(topk: map<int, seq<Entry>>, i: int): seq<Entry> {
    if i in topk then topk[i] else []
  }

  /**
   * Lines 33-39 of `top_k_dtw` for one accepted candidate `c`: it is scored against every
   * route and offered to that route's heap; `topk[i]` creates an empty list for a route not yet
   * present, which happens only while no candidate has been accepted before.
   */
  method OfferToRoutes(topk0: map<int, seq<Entry>>, trunks: seq<Matrix>, c: Candidate, k: int,
                       score: (Matrix, Matrix) -> real, ghost before: seq<seq<Entry>>)
    returns (topk: map<int, seq<Entry>>)
    requires |before| == |trunks|
    requires forall r :: r in topk0 ==> 0 <= r < |trunks|
    requires forall r :: 0 <= r < |trunks| && r !in topk0 ==> before[r] == []
    requires RoutesHoldTopK(topk0, before, 0, |trunks|, k)
    ensures forall r :: r in topk <==> 0 <= r < |trunks|
    ensures RoutesHoldTopK(topk, Extend(before, c, trunks, score), 0, |trunks|, k)
  {
    ghost var after := Extend(before, c, trunks, score);
    topk := topk0;
    for i := 0 to |trunks|
      invariant RoutesPending(topk, trunks, before, after, i, k)
    {
      topk := OfferToRoute(topk, trunks, c, k, score, before, after, i);
    }
  }

  /**
   * The state of the loop over the routes at route `i`: routes before `i` are present and hold
   * a top-k of their extended offers, later ones are as they were.
   */
  predicate RoutesPending(topk: map<int, seq<Entry>>, trunks: seq<Matrix>, before: seq<seq<Entry>>,
                          after: seq<seq<Entry>>, i: nat, k: int) {
    && |before| == |trunks| == |after|
    && i <= |trunks|
    && (forall r :: r in topk ==> 0 <= r < |trunks|)
    && (forall r :: 0 <= r < i ==> r in topk)
    && (forall r :: i <= r < |trunks| && r !in topk ==> before[r] == [])
    && RoutesHoldTopK(topk, after, 0, i, k)
    && RoutesHoldTopK(topk, before, i, |trunks|, k)
  }

  /** One iteration of the loop over the routes: `topk[i]` is offered the candidate's tuple for route `i`. */
  method OfferToRoute(topk: map<int, seq<Entry>>, trunks: seq<Matrix>, c: Candidate, k: int,
                      score: (Matrix, Matrix) -> real, ghost before: seq<seq<Entry>>, ghost after: seq<seq<Entry>>, i: nat)
    returns (next: map<int, seq<Entry>>)
    requires RoutesPending(topk, trunks, before, after, i, k) && i < |trunks|
    requires after[i] == before[i] + [Entry(-score(c.vec, trunks[i]), c.callsign)]
    ensures RoutesPending(next, trunks, before, after, i + 1, k)
    ensures i in next && forall r :: r != i ==> (r in next <==> r in topk) && (r in next ==> next[r] == topk[r])
  {
    var s := score(c.vec, trunks[i]);
    var h := DefaultGet(topk, i);
    assert RouteOk(topk, before, i, k);
    h := Offer(h, Entry(-s, c.callsign), k, before[i]);
    RouteUpdated(topk, before, after, i, h, k);
    next := topk[i := h];
  }

  /** Storing a top-k of route `i`'s extended offers moves the boundary between updated and pending routes past `i`. */
  lemma RouteUpdated(topk: map<int, seq<Entry>>, before: seq<seq<Entry>>, after: seq<seq<Entry>>,
                     i: nat, h: seq<Entry>, k: int)
    requires i < |before| == |after|
    requires RoutesHoldTopK(topk, after, 0, i, k) && RoutesHoldTopK(topk, before, i, |before|, k)
    requires IsHeap(h) && IsTopK(h, after[i], k)
    ensures RoutesHoldTopK(topk[i := h], after, 0, i + 1, k)
    ensures RoutesHoldTopK(topk[i := h], before, i + 1, |before|, k)
  {
    var next := topk[i := h];
    forall r | 0 <= r < i + 1
      ensures RouteOk(next, after, r, k)
    {
      if r < i {
        assert RouteOk(topk, after, r, k);
      }
    }
    forall r | i + 1 <= r < |before|
      ensures RouteOk(next, before, r, k)
    {
      assert RouteOk(topk, before, r, k);
    }
  }

  /** Lines 25-39 of `top_k_dtw`: the gate and the per-route heaps. */
  method ScanCandidates(trunks: seq<Matrix>, flights: seq<Candidate>, k: int, score: (Matrix, Matrix) -> real)
    returns (topk: map<int, seq<Entry>>)
    requires AllGateable(flights)
    ensures forall r :: r in topk <==> CountAccepted(flights) > 0 && 0 <= r < |trunks|
    ensures RoutesHoldTopK(topk, AllOffers(flights, trunks, score), 0, |trunks|, k)
  {
    topk := map[];
    for f := 0 to |flights|
      invariant Scanned(topk, trunks, flights, f, k, score)
    {
      topk := ScanCandidate(topk, trunks, flights, f, k, score);
    }
    assert flights[..|flights|] == flights;
  }

  /**
   * The state after the first `f` candidates: the routes are present once one of them was
   * accepted, and each holds a top-k of what it was offered so far.
   */
  ghost predicate Scanned(topk: map<int, seq<Entry>>, trunks: seq<Matrix>, flights: seq<Candidate>, f: nat, k: int,
                    score: (Matrix, Matrix) -> real)
    requires AllGateable(flights) && f <= |flights|
  {
    && (forall r :: r in topk <==> CountAccepted(flights[..f]) > 0 && 0 <= r < |trunks|)
    && RoutesHoldTopK(topk, AllOffers(flights[..f], trunks, score), 0, |trunks|, k)
  }

  /** One iteration of the loop over the candidates (lines 26-39 of `top_k_dtw`): the gate, then the routes. */
  method ScanCandidate(topk: map<int, seq<Entry>>, trunks: seq<Matrix>, flights: seq<Candidate>, f: nat, k: int,
                       score: (Matrix, Matrix) -> real)
    returns (next: map<int, seq<Entry>>)
    requires AllGateable(flights) && f < |flights| && Scanned(topk, trunks, flights, f, k, score)
    ensures Scanned(next, trunks, flights, f + 1, k, score)
    ensures !Accepted(flights[f].vec) ==> next == topk
  {
    var c := flights[f];
    var altStart := c.vec[0][5];
    var altEnd := c.vec[|c.vec| - 1][5];
    OffersStep(flights, f, trunks, score);
    if altStart >= 0.0 || altEnd >= 0.0 || !MovedEnough(c.vec, MIN_DISPLACEMENT_KM) {
      return topk;
    }
    if CountAccepted(flights[..f]) == 0 {
      NoOffersYet(flights[..f], trunks, score);
    }
    next := OfferToRoutes(topk, trunks, c, k, score, AllOffers(flights[..f], trunks, score));
  }

  /** Lines 41-42 of `top_k_dtw`: `topk[i].sort()` for every route present. */
  method SortRoutes(heaps: map<int, seq<Entry>>, n: nat) returns (topk: map<int, seq<Entry>>)
    requires forall r :: r in heaps ==> 0 <= r < n
    ensures topk.Keys == heaps.Keys
    ensures forall r :: r in topk ==> topk[r] == SortEntries(heaps[r])
  {
    topk := heaps;
    for i := 0 to n
      invariant topk.Keys == heaps.Keys
      invariant forall r :: r in topk && r < i ==> topk[r] == SortEntries(heaps[r])
      invariant forall r :: r in topk && r >= i ==> topk[r] == heaps[r]
    {
      if i in topk {
        topk := topk[i := SortEntries(topk[i])];
      }
    }
  }

  /**
   * `top_k_dtw(trunk_vectors, flight_vectors, k)`. A route gets a list as soon as some candidate
   * passes the gate (the `defaultdict` creates it on first access), and then every route does.
   * Each list ends up as the `k` lowest-scoring accepted candidates for that route, as tuples
   * `(-score, callsign)` in ascending order.
   */
  method TopKDtw(trunks: seq<Matrix>, flights: seq<Candidate>, k: int, score: (Matrix, Matrix) -> real)
    returns (topk: map<int, seq<Entry>>)
    requires AllGateable(flights)
    ensures forall i :: i in topk <==> CountAccepted(flights) > 0 && 0 <= i < |trunks|
    ensures forall i :: 0 <= i < |trunks| && i in topk ==>
      var offered := Offered(flights, trunks[i], score);
      && IsTopK(topk[i], offered, k)
      && IsSorted(topk[i])
      && |topk[i]| == Retained(k, CountAccepted(flights))
      && topk[i] == TopKSpec(offered, k)
  {
    var heaps := ScanCandidates(trunks, flights, k, score);
    topk := SortRoutes(heaps, |trunks|);
    forall i | 0 <= i < |trunks| && i in topk
      ensures var offered := Offered(flights, trunks[i], score);
        IsTopK(topk[i], offered, k) && IsSorted(topk[i]) && |topk[i]| == Retained(k, CountAccepted(flights))
        && topk[i] == TopKSpec(offered, k)
    {
      var offered := Offered(flights, trunks[i], score);
      assert offered == AllOffers(flights, trunks, score)[i];
      assert RouteOk(heaps, AllOffers(flights, trunks, score), i, k);
      SortedTopKIsSpec(heaps[i], offered, k);
      TopKSpecIsTopK(offered, k);
      OfferedLength(flights, trunks[i], score);
    }
  }

  /**
   * `top_k_dtw` exactly as written: `similarity.py` never imports `tqdm`, so evaluating the
   * header of the candidate loop raises `NameError` on every call, before any candidate is read.
   */
  function TopKDtwAsWritten(trunks: seq<Matrix>, flights: seq<Candidate>, k: int)
    : Py.Py<map<int, seq<Entry>>>
  {
    Py.Raises(Py.NameError)
  }

  /** Even with no candidates and no routes, where `TopKDtw` returns an empty mapping, the written code raises. */
  lemma TopKDtwAsWrittenRaisesOnEmptyInput()
    ensures TopKDtwAsWritten([], [], 5) == Py.Raises(Py.NameError)
  {
  }

  // ---------------------------------------------------------------------------
  // The result mapping

  /** `[f(x) for x in s]`. */
  function MapSeq<A, B>(s: seq<A>, f: A -> B): seq<B> {
    seq(|s|, j requires 0 <= j < |s| => f(s[j]))
  }

  lemma MapSeqConcat<A, B>(a: seq<A>, b: seq<A>, f: A -> B)
    ensures MapSeq(a + b, f) == MapSeq(a, f) + MapSeq(b, f)
  {
  }

  lemma MultisetCancel<A>(p: multiset<A>, q: multiset<A>, x: A)
    requires p + multiset{x} == q + multiset{x}
    ensures p == q
  {
    forall z
      ensures p[z] == q[z]
    {
      assert (p + multiset{x})[z] == (q + multiset{x})[z];
    }
  }

  /** A list comprehension maps a permutation to a permutation. */
  lemma {:induction false} MapSeqPermute<A, B>(a: seq<A>, b: seq<A>, f: A -> B)
    requires multiset(a) == multiset(b)
    ensures multiset(MapSeq(a, f)) == multiset(MapSeq(b, f))
    decreases |a|
  {
    if |a| > 0 {
      var init := a[..|a| - 1];
      var x := a[|a| - 1];
      assert a == init + [x];
      assert x in multiset(b);
      var i :| 0 <= i < |b| && b[i] == x;
      var left, right := b[..i], b[i + 1..];
      assert b == left + [x] + right;
      assert multiset(init) + multiset{x} == multiset(left + right) + multiset{x};
      MultisetCancel(multiset(init), multiset(left + right), x);
      MapSeqPermute(init, left + right, f);
      MapSeqConcat(init, [x], f);
      MapSeqConcat(left + [x], right, f);
      MapSeqConcat(left, [x], f);
      MapSeqConcat(left, right, f);
    }
  }

  /**
   * `serializable`: every route of the mapping keeps its index as key, and its list becomes
   * the records of `SerializeRoute`.
   */
  function Serialize(topk: map<int, seq<Entry>>): (out: map<int, seq<Record>>)
    ensures out.Keys == topk.Keys
    ensures forall i :: i in out ==> |out[i]| == |topk[i]|
  {
    map i | i in topk :: SerializeRoute(topk[i])
  }

  /**
   * On the sorted lists that `top_k_dtw` returns, the records of each route are its tuples,
   * one for one and in the same order, with the raw score restored.
   */
  lemma SerializeSortedRoutes(topk: map<int, seq<Entry>>)
    requires forall i :: i in topk ==> IsSorted(topk[i])
    ensures forall i :: i in topk ==> Serialize(topk)[i] == MapSeq(topk[i], ToRecord)
  {
    forall i | i in topk
      ensures Serialize(topk)[i] == MapSeq(topk[i], ToRecord)
    {
      SerializeSortedRoute(topk[i]);
    }
  }

  /** `{"callsign": callsign, "dtw_score": -score}` for a stored tuple `(score, callsign)`. */
  function ToRecord(e: Entry): Record {
    Record(e.callsign, -e.negScore)
  }

  /**
   * One route of `serializable`: a record for each tuple of `sorted(results)`, which puts the
   * largest raw score first.
   */
  function SerializeRoute(results: seq<Entry>): (out: seq<Record>)
    ensures |out| == |results|
  {
    MapSeq(SortEntries(results), ToRecord)
  }

  /** The records of a route are those of its tuples, with the score negated back to the raw score. */
  lemma SerializeRouteContents(results: seq<Entry>)
    ensures multiset(SerializeRoute(results)) == multiset(MapSeq(results, ToRecord))
  {
    SortEntriesSorted(results);
    MapSeqPermute(SortEntries(results), results, ToRecord);
  }

  /** `sorted` leaves the already sorted list of `top_k_dtw` as it is, so record j is tuple j. */
  lemma SerializeSortedRoute(results: seq<Entry>)
    requires IsSorted(results)
    ensures SerializeRoute(results) == MapSeq(results, ToRecord)
  {
    SortSortedIsIdentity(results);
  }

  /** As written, the records run from the largest raw score to the smallest: the least similar first. */
  lemma SerializeRouteDescending(results: seq<Entry>, j: nat, l: nat)
    requires j <= l < |results|
    ensures SerializeRoute(results)[j].dtwScore >= SerializeRoute(results)[l].dtwScore
  {
    var sorted := SortEntries(results);
    SortEntriesSorted(results);
    SortedPairwise(sorted, j, l);
    assert SerializeRoute(results)[j] == ToRecord(sorted[j]);
    assert SerializeRoute(results)[l] == ToRecord(sorted[l]);
  }

  /** Two retained candidates with raw scores 1.0 and 2.0: the 2.0 one, the less similar, is listed first. */
  lemma SerializeRouteWorstFirst()
    ensures SerializeRoute([Entry(-1.0, "ABC1"), Entry(-2.0, "ABC2")]) ==
      [Record("ABC2", 2.0), Record("ABC1", 1.0)]
  {
    var s := [Entry(-1.0, "ABC1"), Entry(-2.0, "ABC2")];
    assert s[..1] == [s[0]];
    assert SortEntries(s[..1]) == [s[0]];
    assert SortEntries(s) == [s[1], s[0]];
    assert SerializeRoute(s) == [ToRecord(s[1]), ToRecord(s[0])];
  }

  /** `(score, callsign)` with the raw score, whose tuple order is by raw score first. */
  function RawKey(e: Entry): Entry {
    Entry(-e.negScore, e.callsign)
  }

  /** The record of a `RawKey` tuple. */
  function RawRecord(e: Entry): Record {
    Record(e.callsign, e.negScore)
  }

  /** The records of a route with the most similar (lowest raw score) first, ties by callsign. */
  function SerializeAscending(results: seq<Entry>): (out: seq<Record>)
    ensures |out| == |results|
  {
    MapSeq(SortEntries(MapSeq(results, RawKey)), RawRecord)
  }

  /** The corrected order runs from the lowest raw score up. */
  lemma SerializeAscendingOrder(results: seq<Entry>, j: nat, l: nat)
    requires j <= l < |results|
    ensures SerializeAscending(results)[j].dtwScore <= SerializeAscending(results)[l].dtwScore
  {
    var raw := MapSeq(results, RawKey);
    var sorted := SortEntries(raw);
    SortEntriesSorted(raw);
    SortedPairwise(sorted, j, l);
    assert SerializeAscending(results)[j] == RawRecord(sorted[j]);
    assert SerializeAscending(results)[l] == RawRecord(sorted[l]);
  }

  /** The corrected order is a permutation of the written one: the same records. */
  lemma SerializeAscendingContents(results: seq<Entry>)
    ensures multiset(SerializeAscending(results)) == multiset(SerializeRoute(results))
  {
    var raw := MapSeq(results, RawKey);
    SortEntriesSorted(raw);
    MapSeqPermute(SortEntries(raw), raw, RawRecord);
    assert forall j :: 0 <= j < |results| ==> raw[j] == RawKey(results[j]);
    assert MapSeq(raw, RawRecord) == MapSeq(results, ToRecord);
    SerializeRouteContents(results);
  }
}
