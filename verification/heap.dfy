/** Binary heaps as the transaction lists use them: a slice kept in heap order by sifting
    one element up or down, generic in the ordering `less`. */
module BinaryHeap {

  /** `less` is a strict weak order: "not greater" is a total preorder. */
  ghost predicate WeakOrder<T(!new)>(less: (T, T) -> bool) {
    && (forall a, b :: less(a, b) ==> !less(b, a))
    && (forall a, b, c :: !less(b, a) && !less(c, b) ==> !less(c, a))
  }

  function Parent(k: nat): (p: nat)
    requires k > 0
    ensures p < k && (k == 2 * p + 1 || k == 2 * p + 2)
  {
    (k - 1) / 2
  }

  /** The edge from `k` to its parent is in order. */
  predicate EdgeOk<T>(less: (T, T) -> bool, h: seq<T>, k: nat)
    requires 0 < k < |h|
  {
    !less(h[k], h[Parent(k)])
  }

  /** Every edge whose parent is at `lo` or above is in order. */
  ghost predicate HeapFrom<T>(less: (T, T) -> bool, h: seq<T>, lo: nat) {
    forall k: nat :: 0 < k < |h| && lo <= Parent(k) ==> EdgeOk(less, h, k)
  }

  ghost predicate IsHeap<T>(less: (T, T) -> bool, h: seq<T>) {
    HeapFrom(less, h, 0)
  }

  /** The children of `i` are in order with the parent of `i`, where that edge is from `lo` on. */
  ghost predicate Bridged<T>(less: (T, T) -> bool, h: seq<T>, lo: nat, i: nat) {
    forall k: nat :: 0 < k < |h| && Parent(k) == i && 0 < i && lo <= Parent(i) ==> !less(h[k], h[Parent(i)])
  }

  /** In order from `lo` on, except perhaps below `i`. */
  ghost predicate BrokenBelow<T>(less: (T, T) -> bool, h: seq<T>, lo: nat, i: nat) {
    && (forall k: nat :: 0 < k < |h| && lo <= Parent(k) && Parent(k) != i ==> EdgeOk(less, h, k))
    && Bridged(less, h, lo, i)
  }

  /** In order, except perhaps above `i`. */
  ghost predicate BrokenAbove<T>(less: (T, T) -> bool, h: seq<T>, i: nat) {
    && (forall k: nat :: 0 < k < |h| && k != i ==> EdgeOk(less, h, k))
    && Bridged(less, h, 0, i)
  }

  function Swap<T>(h: seq<T>, i: nat, j: nat): (r: seq<T>)
    requires i < |h| && j < |h|
    ensures |r| == |h| && multiset(r) == multiset(h)
    ensures r[i] == h[j] && r[j] == h[i]
    ensures forall k :: 0 <= k < |h| && k != i && k != j ==> r[k] == h[k]
  {
    h[i := h[j]][j := h[i]]
  }

  function SmallerChild<T>(less: (T, T) -> bool, h: seq<T>, i: nat): (c: nat)
    requires 2 * i + 1 < |h|
    ensures c < |h| && (c == 2 * i + 1 || c == 2 * i + 2) && Parent(c) == i
  {
    if 2 * i + 2 < |h| && less(h[2 * i + 2], h[2 * i + 1]) then 2 * i + 2 else 2 * i + 1
  }

  /** Sifts the element at `i` down until neither child is smaller. */
  function Down<T(!new)>(less: (T, T) -> bool, h: seq<T>, ghost lo: nat, i: nat): (r: seq<T>)
    requires WeakOrder(less) && i < |h| && lo <= i
    requires BrokenBelow(less, h, lo, i)
    ensures |r| == |h| && multiset(r) == multiset(h) && HeapFrom(less, r, lo)
    decreases |h| - i
  {
    if 2 * i + 1 >= |h| then h
    else
      var c := SmallerChild(less, h, i);
      if !less(h[c], h[i]) then h
      else
        var s := Swap(h, i, c);
        SwapDownStaysBroken(less, h, lo, i);
        Down(less, s, lo, c)
  }

  lemma SwapDownStaysBroken<T(!new)>(less: (T, T) -> bool, h: seq<T>, lo: nat, i: nat)
    requires WeakOrder(less) && lo <= i && 2 * i + 1 < |h|
    requires BrokenBelow(less, h, lo, i)
    requires less(h[SmallerChild(less, h, i)], h[i])
    ensures var c := SmallerChild(less, h, i); BrokenBelow(less, Swap(h, i, c), lo, c)
  {
    var c := SmallerChild(less, h, i);
    var s := Swap(h, i, c);
    forall k: nat | 0 < k < |s| && lo <= Parent(k) && Parent(k) != c
      ensures EdgeOk(less, s, k)
    {
      if Parent(k) == i {
      } else if k == i {
        assert Parent(c) == i;
      } else {
        assert EdgeOk(less, h, k);
      }
    }
    forall k: nat | 0 < k < |s| && Parent(k) == c && lo <= Parent(c)
      ensures !less(s[k], s[Parent(c)])
    {
      assert EdgeOk(less, h, k);
    }
  }

  /** Sifts the element at `i` up until its parent is not larger. */
  function Up<T(!new)>(less: (T, T) -> bool, h: seq<T>, i: nat): (r: seq<T>)
    requires WeakOrder(less) && i < |h|
    requires BrokenAbove(less, h, i)
    ensures |r| == |h| && multiset(r) == multiset(h) && IsHeap(less, r)
    decreases i
  {
    if i == 0 then h
    else if !less(h[i], h[Parent(i)]) then assert EdgeOk(less, h, i); h
    else
      SwapUpStaysBroken(less, h, i);
      Up(less, Swap(h, i, Parent(i)), Parent(i))
  }

  lemma SwapUpStaysBroken<T(!new)>(less: (T, T) -> bool, h: seq<T>, i: nat)
    requires WeakOrder(less) && 0 < i < |h|
    requires BrokenAbove(less, h, i) && less(h[i], h[Parent(i)])
    ensures BrokenAbove(less, Swap(h, i, Parent(i)), Parent(i))
  {
    var p := Parent(i);
    var s := Swap(h, i, p);
    forall k: nat | 0 < k < |s| && k != p
      ensures EdgeOk(less, s, k)
    {
      if k != i { assert EdgeOk(less, h, k); }
    }
    forall k: nat | 0 < k < |s| && Parent(k) == p && 0 < p
      ensures !less(s[k], s[Parent(p)])
    {
      assert EdgeOk(less, h, p);
      if k != i { assert EdgeOk(less, h, k); }
    }
  }

  /** The root of a heap is not greater than any element. */
  lemma {:induction false} RootIsLeast<T(!new)>(less: (T, T) -> bool, h: seq<T>, k: nat)
    requires WeakOrder(less) && IsHeap(less, h) && k < |h|
    ensures !less(h[k], h[0])
  {
    if k > 0 {
      RootIsLeast(less, h, Parent(k));
      assert EdgeOk(less, h, k);
    }
  }

  /** heap.Push */
  function Push<T(!new)>(less: (T, T) -> bool, h: seq<T>, x: T): (r: seq<T>)
    requires WeakOrder(less) && IsHeap(less, h)
    ensures IsHeap(less, r) && multiset(r) == multiset(h) + multiset{x}
  {
    var s := h + [x];
    assert BrokenAbove(less, s, |h|) by {
      forall k: nat | 0 < k < |s| && k != |h| ensures EdgeOk(less, s, k) { assert EdgeOk(less, h, k); }
    }
    Up(less, s, |h|)
  }

  /** heap.Pop, without the removed root, which is `h[0]`. */
  function Pop<T(!new)>(less: (T, T) -> bool, h: seq<T>): (r: seq<T>)
    requires WeakOrder(less) && IsHeap(less, h) && |h| > 0
    ensures IsHeap(less, r) && multiset(r) == multiset(h) - multiset{h[0]} && |r| == |h| - 1
  {
    ReplacedIsBroken(less, h, 0);
    var s := Replaced(h, 0);
    if |s| == 0 then s else Down(less, s, 0, 0)
  }

  /** heap.Init: sifts down from the last inner node to the root. */
  function Heapify<T(!new)>(less: (T, T) -> bool, h: seq<T>, n: nat): (r: seq<T>)
    requires WeakOrder(less) && n <= |h| && HeapFrom(less, h, n)
    ensures multiset(r) == multiset(h) && IsHeap(less, r)
    decreases n
  {
    if n == 0 then h
    else Heapify(less, Down(less, h, n - 1, n - 1), n - 1)
  }

  function Init<T(!new)>(less: (T, T) -> bool, h: seq<T>): (r: seq<T>)
    requires WeakOrder(less)
    ensures multiset(r) == multiset(h) && IsHeap(less, r)
  {
    Heapify(less, h, |h| / 2)
  }

  /** The heap without its last slot, whose element has taken the place of the one at `i`. */
  function Replaced<T>(h: seq<T>, i: nat): (s: seq<T>)
    requires i < |h|
    ensures |s| == |h| - 1 && multiset(s) == multiset(h) - multiset{h[i]}
    ensures forall k :: 0 <= k < |s| && k != i ==> s[k] == h[k]
    ensures i < |s| ==> s[i] == h[|h| - 1]
  {
    var n := |h| - 1;
    assert Swap(h, i, n) == Swap(h, i, n)[..n] + [h[i]];
    Swap(h, i, n)[..n]
  }

  /** heap.Remove: the last element takes the place of the removed one and is sifted. */
  function Remove<T(!new)>(less: (T, T) -> bool, h: seq<T>, i: nat): (r: seq<T>)
    requires WeakOrder(less) && IsHeap(less, h) && i < |h|
    ensures IsHeap(less, r) && multiset(r) == multiset(h) - multiset{h[i]} && |r| == |h| - 1
  {
    ReplacedIsBroken(less, h, i);
    var s := Replaced(h, i);
    if i == |s| then s
    else if i == 0 || !less(s[i], s[Parent(i)]) then Down(less, s, 0, i)
    else Up(less, s, i)
  }

  /** Dropping the last element into slot `i` breaks the order on one side of `i` only. */
  lemma ReplacedIsBroken<T(!new)>(less: (T, T) -> bool, h: seq<T>, i: nat)
    requires WeakOrder(less) && IsHeap(less, h) && i < |h|
    ensures var s := Replaced(h, i);
            if i == |s| then IsHeap(less, s)
            else if i == 0 || !less(s[i], s[Parent(i)]) then BrokenBelow(less, s, 0, i)
            else BrokenAbove(less, s, i)
  {
    var s := Replaced(h, i);
    forall k: nat | 0 < k < |s| && k != i && Parent(k) != i
      ensures EdgeOk(less, s, k)
    {
      assert EdgeOk(less, h, k);
    }
    forall k: nat | 0 < k < |s| && Parent(k) == i && 0 < i
      ensures !less(s[k], s[Parent(i)])
    {
      assert EdgeOk(less, h, k) && EdgeOk(less, h, i);
    }
    if 0 < i < |s| && less(s[i], s[Parent(i)]) {
      forall k: nat | 0 < k < |s| && Parent(k) == i
        ensures EdgeOk(less, s, k)
      {
        assert EdgeOk(less, h, k) && EdgeOk(less, h, i);
      }
    }
  }
}
