/**
 * The entries kept per route by `top_k_dtw` in `src/similarity.py`, the order Python's
 * `<` puts on them, and the parts of the standard `heapq` module the route lists go
 * through (`heappush`, `heappushpop` and the `list.sort()` at the end).
 *
 * The heap routines follow CPython's `heapq`: `_siftdown` moves a new item towards the
 * root, `_siftup` first moves the hole at the root down to a leaf along the smaller
 * children and then sifts the item back up. A heap list is a `seq` value here, and
 * each routine returns the new contents of the list it updates in place.
 */
module Heapq {
  import opened PyStr

  /** The tuple `(-score, callsign)` pushed for one candidate. */
  datatype Entry = Entry(negScore: real, callsign: string)

  /** Python's `<` on the tuple: by the first component, then by the callsign. */
  predicate Lt(a: Entry, b: Entry) {
    a.negScore < b.negScore || (a.negScore == b.negScore && StrLt(a.callsign, b.callsign))
  }

  predicate Le(a: Entry, b: Entry) {
    a == b || Lt(a, b)
  }

  lemma LtTransitive(a: Entry, b: Entry, c: Entry)
    requires Lt(a, b) && Lt(b, c)
    ensures Lt(a, c)
  {
    if a.negScore == b.negScore == c.negScore {
      StrLtTransitive(a.callsign, b.callsign, c.callsign);
    }
  }

  lemma LeTransitive(a: Entry, b: Entry, c: Entry)
    requires Le(a, b) && Le(b, c)
    ensures Le(a, c)
  {
    if a != b && b != c {
      LtTransitive(a, b, c);
    }
  }

  /** The order is total: when `a < b` is false, `b <= a`. */
  lemma NotLtIsGe(a: Entry, b: Entry)
    ensures !Lt(a, b) ==> Le(b, a)
  {
    StrLtTotal(a.callsign, b.callsign);
  }

  lemma LeAntisymmetric(a: Entry, b: Entry)
    requires Le(a, b) && Le(b, a)
    ensures a == b
  {
    StrLtAsymmetric(a.callsign, b.callsign);
  }

  // ---------------------------------------------------------------------------
  // Heap shape

  /** `(pos - 1) >> 1`, the parent position in the list layout of a binary heap. */
  function Parent(i: nat): nat
    requires i > 0
  {
    (i - 1) / 2
  }

  /** The heap invariant `heap[k] <= heap[2*k+1]` and `heap[k] <= heap[2*k+2]`. */
  predicate IsHeap(h: seq<Entry>) {
    forall i :: 0 < i < |h| ==> Le(h[Parent(i)], h[i])
  }

  /** The heap invariant holds on every edge except the one into `pos`. */
  predicate HeapExceptInto(v: seq<Entry>, pos: nat) {
    forall i :: 0 < i < |v| && i != pos ==> Le(v[Parent(i)], v[i])
  }

  /** The parent of `pos` is no larger than the children of `pos`. */
  predicate Bridged(v: seq<Entry>, pos: nat)
    requires pos < |v|
  {
    pos > 0 ==> forall c :: 0 < c < |v| && Parent(c) == pos ==> Le(v[Parent(pos)], v[c])
  }

  /** The heap invariant holds on every edge that neither enters nor leaves `pos`. */
  predicate HeapAroundHole(v: seq<Entry>, pos: nat) {
    forall i :: 0 < i < |v| && i != pos && Parent(i) != pos ==> Le(v[Parent(i)], v[i])
  }

  /** Every element of a heap is at least its root. */
  lemma {:induction false} HeapRootLe(h: seq<Entry>, i: nat)
    requires IsHeap(h) && i < |h|
    ensures Le(h[0], h[i])
    decreases i
  {
    if i > 0 {
      HeapRootLe(h, Parent(i));
      LeTransitive(h[0], h[Parent(i)], h[i]);
    }
  }

  lemma HeapRootMin(h: seq<Entry>)
    requires IsHeap(h) && |h| > 0
    ensures forall x :: x in multiset(h) ==> Le(h[0], x)
  {
    forall x | x in multiset(h)
      ensures Le(h[0], x)
    {
      var i :| 0 <= i < |h| && h[i] == x;
      HeapRootLe(h, i);
    }
  }

  /** One step of `_siftdown`: the item at `p` is smaller than its parent and changes place with it. */
  lemma SwapUp(v: seq<Entry>, p: nat)
    requires 0 < p < |v|
    requires HeapExceptInto(v, p) && Bridged(v, p) && Lt(v[p], v[Parent(p)])
    ensures var w := v[p := v[Parent(p)]][Parent(p) := v[p]];
      HeapExceptInto(w, Parent(p)) && Bridged(w, Parent(p)) && multiset(w) == multiset(v)
  {
    var pp := Parent(p);
    var w := v[p := v[pp]][pp := v[p]];
    forall i | 0 < i < |w| && i != pp
      ensures Le(w[Parent(i)], w[i])
    {
      if i == p {
      } else if Parent(i) == p {
      } else if Parent(i) == pp {
        LeTransitive(v[p], v[pp], v[i]);
      } else {
        assert w[Parent(i)] == v[Parent(i)] && w[i] == v[i];
      }
    }
    if pp > 0 {
      forall c | 0 < c < |w| && Parent(c) == pp
        ensures Le(w[Parent(pp)], w[c])
      {
        assert w[Parent(pp)] == v[Parent(pp)];
        if c != p {
          assert Le(v[Parent(pp)], v[pp]);
          LeTransitive(v[Parent(pp)], v[pp], v[c]);
        }
      }
    }
  }

  /** When the item at `pos` is not below its parent (or is the root), the invariant holds everywhere. */
  lemma CloseHole(v: seq<Entry>, pos: nat)
    requires pos < |v| && HeapExceptInto(v, pos)
    requires pos > 0 ==> !Lt(v[pos], v[Parent(pos)])
    ensures IsHeap(v)
  {
    if pos > 0 {
      NotLtIsGe(v[pos], v[Parent(pos)]);
    }
  }

  /** `SwapUp` in the terms of `_siftdown`, where the item is held aside and `r[p]` is the hole. */
  lemma SiftDownStep(r: seq<Entry>, p: nat, x: Entry)
    requires 0 < p < |r|
    requires HeapExceptInto(r[p := x], p) && Bridged(r[p := x], p) && Lt(x, r[Parent(p)])
    ensures var r' := r[p := r[Parent(p)]][Parent(p) := x];
      HeapExceptInto(r', Parent(p)) && Bridged(r', Parent(p)) && multiset(r') == multiset(r[p := x])
  {
    var v := r[p := x];
    SwapUp(v, p);
    assert r[p := r[Parent(p)]][Parent(p) := x] == v[p := v[Parent(p)]][Parent(p) := v[p]];
  }

  /**
   * `_siftdown(heap, 0, pos)`: the item at `pos` moves towards the root past every larger parent.
   * The parents it passes move down one level each.
   */
  method SiftDown(heap: seq<Entry>, pos: nat) returns (r: seq<Entry>)
    requires pos < |heap| && HeapExceptInto(heap, pos) && Bridged(heap, pos)
    ensures IsHeap(r) && |r| == |heap| && multiset(r) == multiset(heap)
  {
    var newitem := heap[pos];
    r := heap;
    var p := pos;
    assert r[p := newitem] == heap;
    while p > 0
      invariant p < |r| == |heap|
      invariant multiset(r[p := newitem]) == multiset(heap)
      invariant HeapExceptInto(r[p := newitem], p) && Bridged(r[p := newitem], p)
      decreases p
    {
      var parentpos := (p - 1) / 2;
      var parent := r[parentpos];
      if Lt(newitem, parent) {
        SiftDownStep(r, p, newitem);
        r := r[p := parent];
        p := parentpos;
        continue;
      }
      CloseHole(r[p := newitem], p);
      r := r[p := newitem];
      return;
    }
    r := r[p := newitem];
    CloseHole(r, 0);
  }

  /** One step of `_siftup`: the hole at `p` takes the smaller child `c`, which leaves the hole at `c`. */
  lemma HoleDown(v: seq<Entry>, p: nat, c: nat)
    requires p < |v| && 0 < c < |v| && Parent(c) == p
    requires HeapAroundHole(v, p) && Bridged(v, p)
    requires forall s :: 0 < s < |v| && Parent(s) == p ==> Le(v[c], v[s])
    ensures var w := v[p := v[c]]; HeapAroundHole(w, c) && Bridged(w, c)
  {
    var w := v[p := v[c]];
    forall i | 0 < i < |w| && i != c && Parent(i) != c
      ensures Le(w[Parent(i)], w[i])
    {
      if i == p {
      } else if Parent(i) == p {
      } else {
        assert w[Parent(i)] == v[Parent(i)] && w[i] == v[i];
      }
    }
    forall g | 0 < g < |w| && Parent(g) == c
      ensures Le(w[Parent(c)], w[g])
    {
      assert g != p && Parent(g) != p;
    }
  }

  /** `HoleDown` in the terms of `_siftup`: `c` is the child that the comparison of the two children picks. */
  lemma SiftUpStep(r: seq<Entry>, p: nat, c: nat, x: Entry)
    requires p < |r| && 0 < c < |r| && HeapAroundHole(r, p) && Bridged(r, p)
    requires c == 2 * p + 1 || c == 2 * p + 2
    requires c == 2 * p + 1 ==> 2 * p + 2 >= |r| || Lt(r[2 * p + 1], r[2 * p + 2])
    requires c == 2 * p + 2 ==> !Lt(r[2 * p + 1], r[2 * p + 2])
    ensures var r' := r[p := r[c]]; HeapAroundHole(r', c) && Bridged(r', c)
    ensures multiset(r[p := r[c]][c := x]) == multiset(r[p := x])
  {
    PickedChildSmallest(r, p, c);
    HoleDown(r, p, c);
    SwapMultiset(r, p, c, x);
  }

  /** The child picked by the comparison is no larger than either child of `p`. */
  lemma PickedChildSmallest(r: seq<Entry>, p: nat, c: nat)
    requires 0 < c < |r|
    requires c == 2 * p + 1 || c == 2 * p + 2
    requires c == 2 * p + 1 ==> 2 * p + 2 >= |r| || Lt(r[2 * p + 1], r[2 * p + 2])
    requires c == 2 * p + 2 ==> !Lt(r[2 * p + 1], r[2 * p + 2])
    ensures forall s :: 0 < s < |r| && Parent(s) == p ==> Le(r[c], r[s])
  {
    if 2 * p + 2 < |r| {
      NotLtIsGe(r[2 * p + 1], r[2 * p + 2]);
    }
    forall s | 0 < s < |r| && Parent(s) == p
      ensures s == 2 * p + 1 || s == 2 * p + 2
    {
    }
  }

  /** Moving the hole from `p` to `c` keeps the elements, counting the item held aside. */
  lemma SwapMultiset(r: seq<Entry>, p: nat, c: nat, x: Entry)
    requires p < |r| && c < |r| && p != c
    ensures multiset(r[p := r[c]][c := x]) == multiset(r[p := x])
  {
    var v := r[p := x];
    assert r[p := r[c]][c := x] == v[p := v[c]][c := v[p]];
  }

  /** A hole at a leaf: putting any item there leaves only the edge into it unchecked. */
  lemma FillLeaf(v: seq<Entry>, p: nat, x: Entry)
    requires p < |v| && 2 * p + 1 >= |v| && HeapAroundHole(v, p)
    ensures HeapExceptInto(v[p := x], p) && Bridged(v[p := x], p)
  {
    var w := v[p := x];
    forall i | 0 < i < |w| && i != p
      ensures Le(w[Parent(i)], w[i])
    {
      assert Parent(i) != p;
      assert w[Parent(i)] == v[Parent(i)] && w[i] == v[i];
    }
  }

  /**
   * `_siftup(heap, 0)`: the root's item is set aside, the smaller child moves up into the
   * hole until the hole reaches a leaf, and the item is put there and sifted back up.
   * On a tie between the children the right one moves up (`not heap[left] < heap[right]`).
   */
  method SiftUp(heap: seq<Entry>) returns (r: seq<Entry>)
    requires |heap| > 0 && HeapAroundHole(heap, 0)
    ensures IsHeap(r) && |r| == |heap| && multiset(r) == multiset(heap)
  {
    var endpos := |heap|;
    var newitem := heap[0];
    r := heap;
    var p := 0;
    var childpos := 1;
    assert r[p := newitem] == heap;
    while childpos < endpos
      invariant childpos == 2 * p + 1 && p < |r| == |heap| == endpos
      invariant multiset(r[p := newitem]) == multiset(heap)
      invariant HeapAroundHole(r, p) && Bridged(r, p)
      decreases endpos - p
    {
      var rightpos := childpos + 1;
      if rightpos < endpos && !Lt(r[childpos], r[rightpos]) {
        childpos := rightpos;
      }
      SiftUpStep(r, p, childpos, newitem);
      r := r[p := r[childpos]];
      p := childpos;
      childpos := 2 * p + 1;
    }
    FillLeaf(r, p, newitem);
    r := r[p := newitem];
    r := SiftDown(r, p);
  }

  /** `heapq.heappush(heap, item)`: append the item and sift it up. */
  method HeapPush(heap: seq<Entry>, item: Entry) returns (r: seq<Entry>)
    requires IsHeap(heap)
    ensures IsHeap(r) && |r| == |heap| + 1
    ensures multiset(r) == multiset(heap) + multiset{item}
  {
    r := heap + [item];
    assert HeapExceptInto(r, |heap|) by {
      forall i | 0 < i < |r| && i != |heap|
        ensures Le(r[Parent(i)], r[i])
      {
        assert r[Parent(i)] == heap[Parent(i)] && r[i] == heap[i];
      }
    }
    r := SiftDown(r, |heap|);
  }

  /**
   * `heapq.heappushpop(heap, item)`: push the item and pop the smallest, in one step. The
   * item itself comes straight back when the heap is empty or its root is not below the item;
   * otherwise the root is returned and the item takes its place.
   */
  method HeapPushPop(heap: seq<Entry>, item: Entry) returns (r: seq<Entry>, popped: Entry)
    requires IsHeap(heap)
    ensures IsHeap(r) && |r| == |heap|
    ensures multiset(r) + multiset{popped} == multiset(heap) + multiset{item}
    ensures forall x :: x in multiset(r) ==> Le(popped, x)
    ensures Le(popped, item)
    ensures if |heap| > 0 && Lt(heap[0], item) then popped == heap[0] else popped == item && r == heap
  {
    if |heap| > 0 && Lt(heap[0], item) {
      popped := heap[0];
      HeapRootMin(heap);
      r := heap[0 := item];
      assert HeapAroundHole(r, 0) by {
        forall i | 0 < i < |r| && Parent(i) != 0
          ensures Le(r[Parent(i)], r[i])
        {
          assert r[Parent(i)] == heap[Parent(i)] && r[i] == heap[i];
        }
      }
      r := SiftUp(r);
      forall x | x in multiset(r)
        ensures Le(popped, x)
      {
        assert x in multiset(heap) || x == item;
      }
    } else {
      popped := item;
      r := heap;
      if |heap| > 0 {
        NotLtIsGe(heap[0], item);
        HeapRootMin(heap);
        forall x | x in multiset(r)
          ensures Le(popped, x)
        {
          LeTransitive(item, heap[0], x);
        }
      }
    }
  }

  // ---------------------------------------------------------------------------
  // Sorting (`list.sort()` and `sorted`)

  /** Ascending by the tuple order. */
  predicate IsSorted(s: seq<Entry>) {
    forall j :: 0 < j < |s| ==> Le(s[j - 1], s[j])
  }

  lemma {:induction false} SortedPairwise(s: seq<Entry>, i: nat, j: nat)
    requires IsSorted(s) && i <= j < |s|
    ensures Le(s[i], s[j])
    decreases j - i
  {
    if i < j {
      SortedPairwise(s, i + 1, j);
      LeTransitive(s[i], s[i + 1], s[j]);
    }
  }

  /** Inserts `x` before the first element it does not exceed. */
  function InsertEntry(s: seq<Entry>, x: Entry): (r: seq<Entry>)
    ensures |r| == |s| + 1
  {
    if |s| == 0 then [x]
    else if Le(x, s[0]) then [x] + s
    else [s[0]] + InsertEntry(s[1..], x)
  }

  /** The order `list.sort()` leaves a list in, stated as an insertion sort. */
  function SortEntries(s: seq<Entry>): (r: seq<Entry>)
    ensures |r| == |s|
  {
    if |s| == 0 then [] else InsertEntry(SortEntries(s[..|s| - 1]), s[|s| - 1])
  }

  lemma {:induction false} InsertEntryPermutes(s: seq<Entry>, x: Entry)
    ensures multiset(InsertEntry(s, x)) == multiset(s) + multiset{x}
  {
    if |s| > 0 && !Le(x, s[0]) {
      InsertEntryPermutes(s[1..], x);
      assert s == [s[0]] + s[1..];
    }
  }

  lemma {:induction false} InsertEntrySorted(s: seq<Entry>, x: Entry)
    requires IsSorted(s)
    ensures var r := InsertEntry(s, x); IsSorted(r) && (r[0] == x || r[0] == s[0])
  {
    if |s| > 0 && !Le(x, s[0]) {
      var t := InsertEntry(s[1..], x);
      InsertEntrySorted(s[1..], x);
      NotLtIsGe(x, s[0]);
      assert Le(s[0], t[0]) by {
        if t[0] != x {
          assert t[0] == s[1];
        }
      }
    }
  }

  /** `sort` yields an ascending permutation. */
  lemma SortEntriesSorted(s: seq<Entry>)
    ensures IsSorted(SortEntries(s)) && multiset(SortEntries(s)) == multiset(s)
  {
    SortEntriesAscending(s);
    SortEntriesPermutes(s);
  }

  lemma {:induction false} SortEntriesAscending(s: seq<Entry>)
    ensures IsSorted(SortEntries(s))
  {
    if |s| > 0 {
      SortEntriesAscending(s[..|s| - 1]);
      InsertEntrySorted(SortEntries(s[..|s| - 1]), s[|s| - 1]);
    }
  }

  lemma {:induction false} SortEntriesPermutes(s: seq<Entry>)
    ensures multiset(SortEntries(s)) == multiset(s)
  {
    if |s| > 0 {
      var init := s[..|s| - 1];
      SortEntriesPermutes(init);
      InsertEntryPermutes(SortEntries(init), s[|s| - 1]);
      assert s == init + [s[|s| - 1]];
    }
  }

  /** The head of an ascending list is its smallest element. */
  lemma SortedHeadMin(s: seq<Entry>)
    requires IsSorted(s) && |s| > 0
    ensures forall x :: x in multiset(s) ==> Le(s[0], x)
  {
    forall x | x in multiset(s)
      ensures Le(s[0], x)
    {
      var i :| 0 <= i < |s| && s[i] == x;
      SortedPairwise(s, 0, i);
    }
  }

  /** Two ascending lists with the same elements are the same list. */
  lemma {:induction false} SortedUnique(a: seq<Entry>, b: seq<Entry>)
    requires IsSorted(a) && IsSorted(b) && multiset(a) == multiset(b)
    ensures a == b
    decreases |a|
  {
    if |a| > 0 {
      SortedSameHead(a, b);
      TailMultiset(a);
      TailMultiset(b);
      assert multiset(a[1..]) == multiset(a) - multiset{a[0]} == multiset(b[1..]);
      SortedUnique(a[1..], b[1..]);
    } else {
      assert |b| == |multiset(b)| == 0;
    }
  }

  /** Two ascending lists with the same elements start with the same element. */
  lemma SortedSameHead(a: seq<Entry>, b: seq<Entry>)
    requires IsSorted(a) && IsSorted(b) && multiset(a) == multiset(b) && |a| > 0
    ensures |b| > 0 && a[0] == b[0]
  {
    assert a[0] in multiset(b);
    assert b[0] in multiset(a);
    SortedHeadMin(a);
    SortedHeadMin(b);
    LeAntisymmetric(a[0], b[0]);
  }

  lemma TailMultiset(a: seq<Entry>)
    requires |a| > 0
    ensures multiset(a) == multiset{a[0]} + multiset(a[1..])
  {
    assert a == [a[0]] + a[1..];
  }

  /** Sorting a list that is already ascending changes nothing. */
  lemma SortSortedIsIdentity(s: seq<Entry>)
    requires IsSorted(s)
    ensures SortEntries(s) == s
  {
    SortEntriesSorted(s);
    SortedUnique(SortEntries(s), s);
  }
}
