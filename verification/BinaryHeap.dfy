/** Sift-up and sift-down on an array-shaped binary heap of lane numbers (l1/src/chain.ts). */
module BinaryHeap {
  type Order = (nat, nat) -> bool

  /** On the elements of `heap`, `before` is asymmetric and its complement is transitive. */
  ghost predicate Orders(before: Order, heap: seq<nat>) {
    && (forall x, y :: x in heap && y in heap ==> !(before(x, y) && before(y, x)))
    && (forall x, y, z {:trigger before(y, x), before(z, y)} ::
          x in heap && y in heap && z in heap && !before(y, x) && !before(z, y) ==> !before(z, x))
  }

  function Parent(i: nat): nat
    requires i > 0
  {
    (i - 1) / 2
  }

  ghost predicate Edge(before: Order, heap: seq<nat>, i: nat)
    requires i < |heap|
  {
    i == 0 || !before(heap[i], heap[Parent(i)])
  }

  ghost predicate HeapOrdered(before: Order, heap: seq<nat>) {
    forall i :: 0 <= i < |heap| ==> Edge(before, heap, i)
  }

  /** Every edge holds but the one above i, and i's children do not precede i's parent. */
  ghost predicate OrderedButAbove(before: Order, heap: seq<nat>, i: nat) {
    && (forall k :: 0 <= k < |heap| && k != i ==> Edge(before, heap, k))
    && (forall k :: 0 < k < |heap| && Parent(k) == i && i > 0 && i < |heap| ==> !before(heap[k], heap[Parent(i)]))
  }

  /** Every edge holds but those below i, and i's children do not precede i's parent. */
  ghost predicate OrderedButBelow(before: Order, heap: seq<nat>, i: nat) {
    && (forall k :: 0 < k < |heap| && Parent(k) != i ==> Edge(before, heap, k))
    && (forall k :: 0 < k < |heap| && Parent(k) == i && i > 0 && i < |heap| ==> !before(heap[k], heap[Parent(i)]))
  }

  function Swap(heap: seq<nat>, i: nat, j: nat): seq<nat>
    requires i < |heap| && j < |heap|
  {
    heap[i := heap[j]][j := heap[i]]
  }

  lemma SwapKeeps(heap: seq<nat>, i: nat, j: nat)
    requires i < |heap| && j < |heap|
    ensures multiset(Swap(heap, i, j)) == multiset(heap)
    ensures forall x :: x in Swap(heap, i, j) <==> x in heap
  {
    var s := Swap(heap, i, j);
    assert multiset(s) == multiset(heap);
    assert forall x :: x in s <==> x in multiset(s);
    assert forall x :: x in heap <==> x in multiset(heap);
  }

  method SiftUp(before: Order, heap: seq<nat>, start: nat) returns (out: seq<nat>)
    requires start < |heap| && Orders(before, heap) && OrderedButAbove(before, heap, start)
    ensures HeapOrdered(before, out) && multiset(out) == multiset(heap)
  {
    out := heap;
    var i := start;
    while i > 0
      invariant |out| == |heap| && 0 <= i < |out| && Orders(before, out)
      invariant OrderedButAbove(before, out, i) && multiset(out) == multiset(heap)
    {
      var parent := Parent(i);
      if !before(out[i], out[parent]) { return; }
      SwapUp(before, out, i);
      SwapKeeps(out, i, parent);
      out := Swap(out, i, parent);
      i := parent;
    }
  }

  lemma SwapUp(before: Order, heap: seq<nat>, i: nat)
    requires 0 < i < |heap| && Orders(before, heap) && OrderedButAbove(before, heap, i)
    requires before(heap[i], heap[Parent(i)])
    ensures OrderedButAbove(before, Swap(heap, i, Parent(i)), Parent(i))
  {
    var p := Parent(i);
    var s := Swap(heap, i, p);
    assert !before(heap[p], heap[i]);
    assert Edge(before, heap, p);
    forall k | 0 <= k < |s| && k != p ensures Edge(before, s, k) {
      if k > 0 && k != i {
        assert Edge(before, heap, k);
        if Parent(k) == i { assert !before(heap[k], heap[p]); }
      }
    }
    forall k | 0 < k < |s| && Parent(k) == p && p > 0 ensures !before(s[k], s[Parent(p)]) {
      if k != i { assert Edge(before, heap, k); }
    }
  }

  method SiftDown(before: Order, heap: seq<nat>) returns (out: seq<nat>)
    requires heap != [] && Orders(before, heap) && OrderedButBelow(before, heap, 0)
    ensures HeapOrdered(before, out) && multiset(out) == multiset(heap)
  {
    out := heap;
    var i := 0;
    while true
      invariant |out| == |heap| && 0 <= i < |out| && Orders(before, out)
      invariant OrderedButBelow(before, out, i) && multiset(out) == multiset(heap)
      decreases |out| - i
    {
      var best := BestChild(before, out, i);
      if best == i {
        SettledAt(before, out, i);
        return;
      }
      SwapDown(before, out, i, best);
      SwapKeeps(out, i, best);
      out := Swap(out, i, best);
      i := best;
    }
  }

  /** The least of an entry and its two children. */
  method BestChild(before: Order, heap: seq<nat>, i: nat) returns (best: nat)
    requires i < |heap| && Orders(before, heap)
    ensures best < |heap| && (best == i || best == 2 * i + 1 || best == 2 * i + 2)
    ensures best != i ==> before(heap[best], heap[i])
    ensures 2 * i + 1 < |heap| ==> !before(heap[2 * i + 1], heap[best])
    ensures 2 * i + 2 < |heap| ==> !before(heap[2 * i + 2], heap[best])
  {
    var l := 2 * i + 1;
    var r := l + 1;
    best := i;
    if l < |heap| && before(heap[l], heap[best]) { best := l; }
    if r < |heap| && before(heap[r], heap[best]) { best := r; }
  }

  lemma SettledAt(before: Order, heap: seq<nat>, i: nat)
    requires i < |heap| && OrderedButBelow(before, heap, i)
    requires 2 * i + 1 < |heap| ==> !before(heap[2 * i + 1], heap[i])
    requires 2 * i + 2 < |heap| ==> !before(heap[2 * i + 2], heap[i])
    ensures HeapOrdered(before, heap)
  {
    forall k | 0 <= k < |heap| ensures Edge(before, heap, k) {
      if k > 0 && Parent(k) == i { ChildOf(k, i); }
    }
  }

  lemma ChildOf(k: nat, i: nat)
    requires k > 0 && Parent(k) == i
    ensures k == 2 * i + 1 || k == 2 * i + 2
  {
  }

  lemma SwapDown(before: Order, heap: seq<nat>, i: nat, best: nat)
    requires i < best < |heap| && Orders(before, heap) && OrderedButBelow(before, heap, i)
    requires best == 2 * i + 1 || best == 2 * i + 2
    requires before(heap[best], heap[i])
    requires 2 * i + 1 < |heap| ==> !before(heap[2 * i + 1], heap[best])
    requires 2 * i + 2 < |heap| ==> !before(heap[2 * i + 2], heap[best])
    ensures OrderedButBelow(before, Swap(heap, i, best), best)
  {
    var s := Swap(heap, i, best);
    assert Parent(best) == i && s[i] == heap[best] && s[best] == heap[i];
    forall k | 0 < k < |s| && Parent(k) != best ensures Edge(before, s, k) {
      SwapDownEdge(before, heap, i, best, k);
    }
    forall k | 0 < k < |s| && Parent(k) == best ensures !before(s[k], s[Parent(best)]) {
      ChildOf(k, best);
      assert Edge(before, heap, k) && s[k] == heap[k];
    }
  }

  lemma SwapDownEdge(before: Order, heap: seq<nat>, i: nat, best: nat, k: nat)
    requires i < best < |heap| && 0 < k < |heap| && Parent(k) != best && Parent(best) == i
    requires Orders(before, heap) && OrderedButBelow(before, heap, i) && before(heap[best], heap[i])
    requires 2 * i + 1 < |heap| ==> !before(heap[2 * i + 1], heap[best])
    requires 2 * i + 2 < |heap| ==> !before(heap[2 * i + 2], heap[best])
    ensures Edge(before, Swap(heap, i, best), k)
  {
    if Parent(k) == i {
      ChildOf(k, i);
    } else {
      assert Edge(before, heap, k);
      if k == i { assert !before(heap[best], heap[Parent(i)]); }
    }
  }

  lemma {:induction false} RootIsLeast(before: Order, heap: seq<nat>, k: nat)
    requires k < |heap| && Orders(before, heap) && HeapOrdered(before, heap)
    ensures !before(heap[k], heap[0])
  {
    if k > 0 {
      RootIsLeast(before, heap, Parent(k));
      assert Edge(before, heap, k);
    }
  }
}
