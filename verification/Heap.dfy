/** Binary heaps in a sequence, with the moves of Go's container/heap: the root is a least element. */
module Heap {

  ghost predicate WeakOrder<T(!new)>(less: (T, T) -> bool) {
    && (forall a, b :: less(a, b) ==> !less(b, a))
    && (forall a, b, c :: !less(a, b) && !less(b, c) ==> !less(a, c))
  }

  function Parent(k: int): int
    requires k > 0
  {
    (k - 1) / 2
  }

  /** No element of the first n, at an edge whose parent is at lo or beyond, is less than its parent. */
  ghost predicate OrderedFrom<T>(h: seq<T>, lo: int, n: int, less: (T, T) -> bool) {
    n <= |h| && forall k :: 0 < k < n && lo <= Parent(k) ==> !less(h[k], h[Parent(k)])
  }

  ghost predicate IsHeap<T>(h: seq<T>, less: (T, T) -> bool) {
    OrderedFrom(h, 0, |h|, less)
  }

  lemma {:induction false} RootIsLeast<T(!new)>(h: seq<T>, less: (T, T) -> bool, k: nat)
    requires WeakOrder(less) && IsHeap(h, less) && k < |h|
    ensures !less(h[k], h[0])
  {
    if k > 0 {
      RootIsLeast(h, less, Parent(k));
    }
  }

  lemma SwapKeepsContent<T>(h: seq<T>, i: nat, j: nat)
    requires i < |h| && j < |h|
    ensures multiset(h[i := h[j]][j := h[i]]) == multiset(h)
  {
  }

  /** Every edge among the first n with parent at lo or beyond is ordered, save those from i down; and what
      hangs below i is not less than what is above it. */
  ghost predicate SinkingAt<T>(h: seq<T>, lo: int, i: int, n: int, less: (T, T) -> bool) {
    && i < n <= |h|
    && (forall k :: 0 < k < n && lo <= Parent(k) && Parent(k) != i ==> !less(h[k], h[Parent(k)]))
    && (i > lo && i > 0 && Parent(i) >= lo ==>
          forall k :: 0 < k < n && Parent(k) == i ==> !less(h[k], h[Parent(i)]))
  }

  lemma Children(i: int, k: int)
    requires k > 0
    ensures Parent(k) == i <==> k == 2 * i + 1 || k == 2 * i + 2
  {
  }

  /** The smaller child of i among the first n, if there is one. */
  function SmallerChild<T>(h: seq<T>, i: nat, n: nat, less: (T, T) -> bool): (j: nat)
    requires n <= |h| && 2 * i + 1 < n
    ensures j < n && (j == 2 * i + 1 || j == 2 * i + 2)
  {
    if 2 * i + 2 < n && less(h[2 * i + 2], h[2 * i + 1]) then 2 * i + 2 else 2 * i + 1
  }

  lemma SmallerChildIsLeast<T(!new)>(h: seq<T>, i: nat, n: nat, less: (T, T) -> bool)
    requires WeakOrder(less) && n <= |h| && 2 * i + 1 < n
    ensures forall k :: 0 < k < n && Parent(k) == i ==> !less(h[k], h[SmallerChild(h, i, n, less)])
  {
    forall k | 0 < k < n && Parent(k) == i ensures !less(h[k], h[SmallerChild(h, i, n, less)]) {
      Children(i, k);
    }
  }

  /** Nothing below i is less than it: the sinking is over. */
  lemma SinkDone<T(!new)>(h: seq<T>, lo: nat, i: nat, n: nat, less: (T, T) -> bool)
    requires WeakOrder(less) && SinkingAt(h, lo, i, n, less)
    requires 2 * i + 1 >= n || !less(h[SmallerChild(h, i, n, less)], h[i])
    ensures OrderedFrom(h, lo, n, less)
  {
    forall k | 0 < k < n && lo <= Parent(k) ensures !less(h[k], h[Parent(k)]) {
      Children(i, k);
      if Parent(k) == i { SmallerChildIsLeast(h, i, n, less); }
    }
  }

  /** down: sinks the element at i0 among the first n. */
  method Down<T(!new)>(h: seq<T>, i0: nat, n: nat, less: (T, T) -> bool) returns (h': seq<T>)
    requires WeakOrder(less) && i0 < n <= |h| && OrderedFrom(h, i0 + 1, n, less)
    ensures OrderedFrom(h', i0, n, less)
    ensures |h'| == |h| && multiset(h') == multiset(h) && forall k :: n <= k < |h| ==> h'[k] == h[k]
  {
    h' := h;
    var i := i0;
    while 2 * i + 1 < n && less(h'[SmallerChild(h', i, n, less)], h'[i])
      invariant i0 <= i < n && |h'| == |h| && multiset(h') == multiset(h)
      invariant forall k :: n <= k < |h| ==> h'[k] == h[k]
      invariant i == i0 || Parent(i) >= i0
      invariant SinkingAt(h', i0, i, n, less)
      decreases n - i
    {
      var j := SmallerChild(h', i, n, less);
      SmallerChildIsLeast(h', i, n, less);
      SwapKeepsContent(h', i, j);
      SinkStep(h', i0, i, j, n, less);
      h' := h'[i := h'[j]][j := h'[i]];
      i := j;
    }
    SinkDone(h', i0, i, n, less);
  }

  lemma SinkStep<T(!new)>(h: seq<T>, lo: nat, i: nat, j: nat, n: nat, less: (T, T) -> bool)
    requires WeakOrder(less) && lo <= i < j < n <= |h| && (j == 2 * i + 1 || j == 2 * i + 2)
    requires i == lo || Parent(i) >= lo
    requires SinkingAt(h, lo, i, n, less) && less(h[j], h[i])
    requires forall k :: 0 < k < n && Parent(k) == i ==> !less(h[k], h[j])
    ensures SinkingAt(h[i := h[j]][j := h[i]], lo, j, n, less)
  {
    var g := h[i := h[j]][j := h[i]];
    forall k | 0 < k < n && lo <= Parent(k) && Parent(k) != j ensures !less(g[k], g[Parent(k)]) {
      if k == i {
        assert !less(h[j], h[Parent(i)]);
      } else if k == j {
      } else if Parent(k) == i {
      } else {
        assert !less(h[k], h[Parent(k)]);
      }
    }
    forall k | 0 < k < n && Parent(k) == j ensures !less(g[k], g[Parent(j)]) {
      assert !less(h[k], h[j]);
    }
  }

  /** Every edge is ordered save the one above j; what hangs below j is not less than what is above it. */
  ghost predicate RisingAt<T>(h: seq<T>, j: int, less: (T, T) -> bool) {
    && (forall k :: 0 < k < |h| && k != j ==> !less(h[k], h[Parent(k)]))
    && (j > 0 ==> forall k :: 0 < k < |h| && Parent(k) == j ==> !less(h[k], h[Parent(j)]))
  }

  /** heap.Push: appends and lifts. */
  method Push<T(!new)>(h: seq<T>, x: T, less: (T, T) -> bool) returns (h': seq<T>)
    requires WeakOrder(less) && IsHeap(h, less)
    ensures IsHeap(h', less) && multiset(h') == multiset(h) + multiset{x} && |h'| == |h| + 1
  {
    h' := h + [x];
    var j := |h|;
    while j > 0 && less(h'[j], h'[Parent(j)])
      invariant 0 <= j < |h'| == |h| + 1 && multiset(h') == multiset(h) + multiset{x}
      invariant RisingAt(h', j, less)
    {
      var i := Parent(j);
      SwapKeepsContent(h', i, j);
      RiseStep(h', j, less);
      h' := h'[i := h'[j]][j := h'[i]];
      j := i;
    }
  }

  lemma RiseStep<T(!new)>(h: seq<T>, j: nat, less: (T, T) -> bool)
    requires WeakOrder(less) && 0 < j < |h| && RisingAt(h, j, less) && less(h[j], h[Parent(j)])
    ensures RisingAt(h[Parent(j) := h[j]][j := h[Parent(j)]], Parent(j), less)
  {
    var i := Parent(j);
    var g := h[i := h[j]][j := h[i]];
    forall k | 0 < k < |h| && k != i ensures !less(g[k], g[Parent(k)]) {
      if k != j { assert !less(h[k], h[Parent(k)]); }
    }
    if i > 0 {
      assert !less(h[i], h[Parent(i)]);
      forall k | 0 < k < |h| && Parent(k) == i ensures !less(g[k], g[Parent(i)]) {
        if k != j { assert !less(h[k], h[i]); }
      }
    }
  }

  lemma LastOut<T>(g: seq<T>, h: seq<T>, less: (T, T) -> bool)
    requires g != [] && |g| == |h| && multiset(g) == multiset(h) && OrderedFrom(g, 0, |g| - 1, less)
    ensures multiset(g[..|g| - 1]) + multiset{g[|g| - 1]} == multiset(h) && IsHeap(g[..|g| - 1], less)
  {
    assert g == g[..|g| - 1] + [g[|g| - 1]];
  }

  lemma RootSwappedOut<T>(h: seq<T>, less: (T, T) -> bool)
    requires h != [] && IsHeap(h, less)
    ensures var n := |h| - 1; OrderedFrom(h[0 := h[n]][n := h[0]], 1, n, less)
  {
  }

  /** heap.Pop: removes the root. */
  method Pop<T(!new)>(h: seq<T>, less: (T, T) -> bool) returns (x: T, h': seq<T>)
    requires WeakOrder(less) && IsHeap(h, less) && h != []
    ensures x == h[0] && IsHeap(h', less) && multiset(h') + multiset{x} == multiset(h) && |h'| == |h| - 1
    ensures forall y :: y in h' ==> !less(y, x)
  {
    var n := |h| - 1;
    SwapKeepsContent(h, 0, n);
    RootSwappedOut(h, less);
    var g := h[0 := h[n]][n := h[0]];
    if n > 0 { g := Down(g, 0, n, less); }
    LastOut(g, h, less);
    x, h' := g[n], g[..n];
    RootIsLeastOf(h, h', less);
  }

  lemma RootIsLeastOf<T(!new)>(h: seq<T>, rest: seq<T>, less: (T, T) -> bool)
    requires WeakOrder(less) && IsHeap(h, less) && h != [] && multiset(rest) + multiset{h[0]} == multiset(h)
    ensures forall y :: y in rest ==> !less(y, h[0])
  {
    forall y | y in rest ensures !less(y, h[0]) {
      assert y in multiset(rest) && y in multiset(h);
      var k :| 0 <= k < |h| && h[k] == y;
      RootIsLeast(h, less, k);
    }
  }

  /** heap.Fix at the root, after it was replaced. */
  method FixRoot<T(!new)>(h: seq<T>, less: (T, T) -> bool) returns (h': seq<T>)
    requires WeakOrder(less) && h != [] && OrderedFrom(h, 1, |h|, less)
    ensures IsHeap(h', less) && multiset(h') == multiset(h) && |h'| == |h|
  {
    h' := Down(h, 0, |h|, less);
  }

  /** heap.Init. */
  method Init<T(!new)>(h: seq<T>, less: (T, T) -> bool) returns (h': seq<T>)
    requires WeakOrder(less)
    ensures IsHeap(h', less) && multiset(h') == multiset(h) && |h'| == |h|
  {
    h' := h;
    var i := |h| / 2;
    while i > 0
      invariant 0 <= i <= |h| / 2 && |h'| == |h| && multiset(h') == multiset(h) && OrderedFrom(h', i, |h|, less)
    {
      i := i - 1;
      h' := Down(h', i, |h|, less);
    }
  }
}
