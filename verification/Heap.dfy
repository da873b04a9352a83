/** The binary heap that the transaction lists keep in a slice: sift up, sift down,
    push, pop, remove at an index, and re-heapify, for any strict weak order. */
module Heap {

  /** `less` orders T, possibly leaving distinct elements tied. */
  ghost predicate StrictWeakOrder<T(!new)>(less: (T, T) -> bool) {
    && (forall x, y :: less(x, y) ==> !less(y, x))
    && (forall x, y, z :: !less(y, x) && !less(z, y) ==> !less(z, x))
  }

  function Parent(j: int): (p: int)
    requires j >= 1
    ensures 0 <= p < j && (j == 2 * p + 1 || j == 2 * p + 2)
  {
    (j - 1) / 2
  }

  /** No element of h sorts before its parent. */
  ghost predicate Ordered<T>(h: seq<T>, less: (T, T) -> bool) {
    forall j :: 1 <= j < |h| ==> !less(h[j], h[Parent(j)])
  }

  /** Among the first n slots, every edge at or below `from` is in order, except the one up from `top`. */
  ghost predicate OrderedBut<T>(h: seq<T>, less: (T, T) -> bool, from: int, n: int, top: int)
    requires n <= |h|
  {
    forall k :: 1 <= k < n && Parent(k) >= from && k != top ==> !less(h[k], h[Parent(k)])
  }

  function Swap<T>(h: seq<T>, i: int, j: int): (r: seq<T>)
    requires 0 <= i < |h| && 0 <= j < |h|
    ensures |r| == |h| && r[i] == h[j] && r[j] == h[i]
    ensures forall k :: 0 <= k < |h| && k != i && k != j ==> r[k] == h[k]
    ensures multiset(r) == multiset(h)
  {
    h[i := h[j]][j := h[i]]
  }

  /** The root of a heap is minimal. */
  lemma {:induction false} RootIsMinimal<T(!new)>(h: seq<T>, less: (T, T) -> bool, i: int)
    requires StrictWeakOrder(less) && Ordered(h, less) && 0 <= i < |h|
    ensures !less(h[i], h[0])
  {
    if i > 0 {
      RootIsMinimal(h, less, Parent(i));
    }
  }

  lemma {:induction false} RootIsMinimalForAll<T(!new)>(h: seq<T>, less: (T, T) -> bool)
    requires StrictWeakOrder(less) && Ordered(h, less) && |h| > 0
    ensures forall x :: x in h ==> !less(x, h[0])
  {
    forall x | x in h ensures !less(x, h[0]) {
      var i :| 0 <= i < |h| && h[i] == x;
      RootIsMinimal(h, less, i);
    }
  }

  /** Everything is in order except possibly between j and its parent. */
  ghost predicate OrderedExceptAt<T>(h: seq<T>, less: (T, T) -> bool, j: int) {
    && (forall k :: 1 <= k < |h| && k != j ==> !less(h[k], h[Parent(k)]))
    && (forall k :: 1 <= k < |h| && Parent(k) == j && j >= 1 ==> !less(h[k], h[Parent(j)]))
  }

  lemma {:induction false} RiseStep<T(!new)>(h: seq<T>, less: (T, T) -> bool, j: int)
    requires StrictWeakOrder(less) && 1 <= j < |h| && OrderedExceptAt(h, less, j) && less(h[j], h[Parent(j)])
    ensures OrderedExceptAt(Swap(h, Parent(j), j), less, Parent(j))
  {
  }

  lemma {:induction false} RiseDone<T>(h: seq<T>, less: (T, T) -> bool, j: int)
    requires 0 <= j < |h| && OrderedExceptAt(h, less, j) && (j == 0 || !less(h[j], h[Parent(j)]))
    ensures Ordered(h, less)
  {
  }

  method Up<T(!new)>(h0: seq<T>, j0: nat, less: (T, T) -> bool) returns (h: seq<T>)
    requires StrictWeakOrder(less) && j0 < |h0|
    requires OrderedExceptAt(h0, less, j0)
    ensures Ordered(h, less) && multiset(h) == multiset(h0) && |h| == |h0|
  {
    hide OrderedExceptAt, Ordered, StrictWeakOrder;
    h := h0;
    var j := j0;
    while j >= 1 && less(h[j], h[Parent(j)])
      invariant 0 <= j < |h| == |h0|
      invariant OrderedExceptAt(h, less, j)
      invariant multiset(h) == multiset(h0)
    {
      RiseStep(h, less, j);
      h := Swap(h, Parent(j), j);
      j := Parent(j);
    }
    RiseDone(h, less, j);
  }

  /** Among the first n slots, at or below `from`, every edge is in order except those from i to its
      children and, while `top` is set, the one from i0 to its parent; and the children of i would be in order
      below the parent of i. */
  ghost predicate OrderedAround<T>(h: seq<T>, less: (T, T) -> bool, from: int, i0: int, i: int, top: bool, n: int)
    requires 0 <= i && n <= |h|
  {
    && (forall k :: 1 <= k < n && Parent(k) >= from && Parent(k) != i && !(top && k == i0) ==>
                      !less(h[k], h[Parent(k)]))
    && (forall k :: 1 <= k < n && Parent(k) == i && i >= 1 && Parent(i) >= from ==> !less(h[k], h[Parent(i)]))
  }

  lemma {:induction false} SiftStep<T(!new)>(h: seq<T>, less: (T, T) -> bool, from: int, i0: int, i: int, top: bool,
                                      n: int, j: int)
    requires StrictWeakOrder(less) && 0 <= from <= i0 <= i && n <= |h| && (top <==> i == i0)
    requires OrderedAround(h, less, from, i0, i, top, n)
    requires 1 <= j < n && Parent(j) == i && less(h[j], h[i]) && LeastChild(h, less, i, n, j)
    ensures OrderedAround(Swap(h, i, j), less, from, i0, j, false, n)
  {
    var r := Swap(h, i, j);
    forall k | 1 <= k < n && Parent(k) >= from && Parent(k) != j
      ensures !less(r[k], r[Parent(k)])
    {
      if k != i && Parent(k) != i {
        assert !less(h[k], h[Parent(k)]);
      }
    }
    forall k | 1 <= k < n && Parent(k) == j && j >= 1 && Parent(j) >= from
      ensures !less(r[k], r[Parent(j)])
    {
      assert !less(h[k], h[Parent(k)]);
    }
  }

  /** None of the children of i among the first n slots sorts before slot j. */
  ghost predicate LeastChild<T>(h: seq<T>, less: (T, T) -> bool, i: int, n: int, j: int)
    requires n <= |h| && 0 <= j < |h|
  {
    forall k :: 1 <= k < n && Parent(k) == i ==> !less(h[k], h[j])
  }

  lemma {:induction false} PickChild<T(!new)>(h: seq<T>, less: (T, T) -> bool, i: nat, n: nat, j: nat)
    requires StrictWeakOrder(less) && 2 * i + 1 < n <= |h|
    requires j == if 2 * i + 2 < n && less(h[2 * i + 2], h[2 * i + 1]) then 2 * i + 2 else 2 * i + 1
    ensures Parent(j) == i && LeastChild(h, less, i, n, j)
    ensures !less(h[j], h[i]) ==> LeastChild(h, less, i, n, i)
  {
  }

  /** Once no child of i sorts before it, at most the edge up from i0 is left to mend. */
  lemma {:induction false} SiftDone<T>(h: seq<T>, less: (T, T) -> bool, from: int, i0: nat, i: nat, n: nat)
    requires i0 <= i && n <= |h| && OrderedAround(h, less, from, i0, i, i == i0, n)
    requires 2 * i + 1 >= n || (i < |h| && LeastChild(h, less, i, n, i))
    ensures OrderedBut(h, less, from, n, if i > i0 then 0 else i0)
  {
  }

  /** Sifts h[i0] down among the first n slots. */
  method Down<T(!new)>(h0: seq<T>, i0: nat, n: nat, less: (T, T) -> bool, ghost from: nat)
    returns (h: seq<T>, moved: bool)
    requires StrictWeakOrder(less) && from <= i0 && n <= |h0|
    requires OrderedAround(h0, less, from, i0, i0, true, n)
    ensures |h| == |h0| && multiset(h) == multiset(h0)
    ensures OrderedBut(h, less, from, n, if moved then 0 else i0)
    ensures forall k :: n <= k < |h| ==> h[k] == h0[k]
    ensures !moved ==> h == h0
  {
    hide OrderedAround, OrderedBut, LeastChild, StrictWeakOrder;
    h := h0;
    var i := i0;
    while true
      invariant i0 <= i && |h| == |h0|
      invariant OrderedAround(h, less, from, i0, i, i == i0, n)
      invariant multiset(h) == multiset(h0)
      invariant forall k :: n <= k < |h| ==> h[k] == h0[k]
      invariant i == i0 ==> h == h0
      decreases n - i
    {
      var j := 2 * i + 1;
      if j >= n { break; }
      if j + 1 < n && less(h[j + 1], h[j]) {
        j := j + 1;
      }
      PickChild(h, less, i, n, j);
      if !less(h[j], h[i]) { break; }
      SiftStep(h, less, from, i0, i, i == i0, n, j);
      h := Swap(h, i, j);
      i := j;
    }
    moved := i > i0;
    SiftDone(h, less, from, i0, i, n);
  }

  method Push<T(!new)>(h0: seq<T>, x: T, less: (T, T) -> bool) returns (h: seq<T>)
    requires StrictWeakOrder(less) && Ordered(h0, less)
    ensures Ordered(h, less) && multiset(h) == multiset(h0) + multiset{x} && |h| == |h0| + 1
  {
    h := Up(h0 + [x], |h0|, less);
  }

  /** Removes the slot at i: swaps it with the last, then restores the order around i. */
  method Remove<T(!new)>(h0: seq<T>, i: nat, less: (T, T) -> bool) returns (h: seq<T>, x: T)
    requires StrictWeakOrder(less) && Ordered(h0, less) && i < |h0|
    ensures x == h0[i] && Ordered(h, less) && |h| == |h0| - 1
    ensures multiset(h0) == multiset(h) + multiset{x}
  {
    var n := |h0| - 1;
    x := h0[i];
    if n != i {
      h := Refill(h0, i, less);
    } else {
      DropLast(h0);
      h := h0[..n];
    }
  }

  /** Removes an inner slot by moving the last element into it. */
  method Refill<T(!new)>(h0: seq<T>, i: nat, less: (T, T) -> bool) returns (h: seq<T>)
    requires StrictWeakOrder(less) && Ordered(h0, less) && i < |h0| - 1
    ensures Ordered(h, less) && |h| == |h0| - 1
    ensures multiset(h0) == multiset(h) + multiset{h0[i]}
  {
    hide OrderedAround, OrderedBut, OrderedExceptAt, Ordered, StrictWeakOrder;
    var n := |h0| - 1;
    GrandparentOrder(h0, less, i);
    var swapped := Swap(h0, i, n);
    var sifted, moved := Down(swapped, i, n, less, 0);
    DropLast(sifted);
    h := sifted[..n];
    if !moved {
      OnlyTopEdgeLeft(swapped, less, i, n);
      h := Up(h, i, less);
    } else {
      AllEdgesInOrder(sifted, less, n);
    }
  }

  lemma {:induction false} OnlyTopEdgeLeft<T>(h: seq<T>, less: (T, T) -> bool, i: nat, n: nat)
    requires i < n <= |h| && OrderedAround(h, less, 0, i, i, true, n)
    requires OrderedBut(h, less, 0, n, i)
    ensures OrderedExceptAt(h[..n], less, i)
  {
  }

  lemma {:induction false} AllEdgesInOrder<T>(h: seq<T>, less: (T, T) -> bool, n: nat)
    requires n <= |h| && OrderedBut(h, less, 0, n, 0)
    ensures Ordered(h[..n], less)
  {
  }

  lemma {:induction false} DropLast<T>(h: seq<T>)
    requires |h| > 0
    ensures multiset(h) == multiset(h[..|h| - 1]) + multiset{h[|h| - 1]}
  {
    assert h == h[..|h| - 1] + [h[|h| - 1]];
  }

  lemma {:induction false} GrandparentOrder<T(!new)>(h: seq<T>, less: (T, T) -> bool, i: nat)
    requires StrictWeakOrder(less) && Ordered(h, less) && i < |h| - 1
    ensures OrderedAround(Swap(h, i, |h| - 1), less, 0, i, i, true, |h| - 1)
  {
    forall k | 1 <= k < |h| - 1 && Parent(k) == i && i >= 1
      ensures !less(h[k], h[Parent(i)])
    {
      assert !less(h[k], h[i]) && !less(h[i], h[Parent(i)]);
    }
  }

  /** Takes the minimal element off the heap. */
  method Pop<T(!new)>(h0: seq<T>, less: (T, T) -> bool) returns (h: seq<T>, x: T)
    requires StrictWeakOrder(less) && Ordered(h0, less) && |h0| > 0
    ensures x == h0[0] && Ordered(h, less) && |h| == |h0| - 1
    ensures multiset(h0) == multiset(h) + multiset{x}
    ensures forall y :: y in h0 ==> !less(y, x)
  {
    RootIsMinimalForAll(h0, less);
    var n := |h0| - 1;
    x := h0[0];
    var moved;
    h, moved := Down(Swap(h0, 0, n), 0, n, less, 0);
    DropLast(h);
    h := h[..n];
  }

  lemma {:induction false} RootReplaced<T>(h: seq<T>, x: T, less: (T, T) -> bool)
    requires Ordered(h, less) && |h| > 0
    ensures OrderedAround(h[0 := x], less, 0, 0, 0, true, |h|)
    ensures multiset(h[0 := x]) == multiset(h) - multiset{h[0]} + multiset{x}
  {
  }

  /** Puts another element in the place of the root and restores the order. */
  method FixRoot<T(!new)>(h0: seq<T>, x: T, less: (T, T) -> bool) returns (h: seq<T>)
    requires StrictWeakOrder(less) && Ordered(h0, less) && |h0| > 0
    ensures Ordered(h, less) && |h| == |h0|
    ensures multiset(h) == multiset(h0) - multiset{h0[0]} + multiset{x}
  {
    hide OrderedAround, OrderedBut, Ordered, StrictWeakOrder;
    RootReplaced(h0, x, less);
    var moved;
    h, moved := Down(h0[0 := x], 0, |h0|, less, 0);
    AllEdgesInOrder(h, less, |h|);
    assert h[..|h|] == h;
  }

  /** Turns any slice into a heap of the same elements. */
  method Init<T(!new)>(h0: seq<T>, less: (T, T) -> bool) returns (h: seq<T>)
    requires StrictWeakOrder(less)
    ensures Ordered(h, less) && multiset(h) == multiset(h0) && |h| == |h0|
  {
    h := h0;
    var i := |h| / 2;
    while i > 0
      invariant 0 <= i <= |h| == |h0|
      invariant OrderedBut(h, less, i, |h|, 0)
      invariant multiset(h) == multiset(h0)
    {
      i := i - 1;
      var moved;
      h, moved := Down(h, i, |h|, less, i);
    }
  }

  ghost predicate Sorted<T>(s: seq<T>, less: (T, T) -> bool) {
    forall i, j :: 0 <= i < j < |s| ==> !less(s[j], s[i])
  }

  /** A sort: pops a heap until it is empty. */
  method Sort<T(!new)>(s: seq<T>, less: (T, T) -> bool) returns (r: seq<T>)
    requires StrictWeakOrder(less)
    ensures Sorted(r, less) && multiset(r) == multiset(s) && |r| == |s|
  {
    var h := Init(s, less);
    r := [];
    while |h| > 0
      invariant |r| + |h| == |s|
      invariant Ordered(h, less) && Sorted(r, less)
      invariant multiset(r) + multiset(h) == multiset(s)
      invariant forall x, y :: x in r && y in h ==> !less(y, x)
    {
      ghost var before := h;
      var x;
      h, x := Pop(h, less);
      SameElements(before, h, x);
      r := r + [x];
    }
  }

  lemma {:induction false} SameElements<T>(before: seq<T>, after: seq<T>, x: T)
    requires multiset(before) == multiset(after) + multiset{x}
    ensures x in before && forall y :: y in after ==> y in before
  {
    assert x in multiset(before);
    forall y | y in after ensures y in before {
      assert y in multiset(after);
      assert y in multiset(before);
    }
  }
}
