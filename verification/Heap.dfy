/**
 Binary heaps kept in a growing list, ordered by an integer key: smallest first.
 */
module Heaps {

  function Parent(i: nat): nat
    requires i > 0
  {
    (i - 1) / 2
  }

  /** The edge from slot `i` to its parent is in order. */
  ghost predicate EdgeOk<T>(h: seq<T>, key: T -> int, i: nat)
    requires 0 < i < |h|
  {
    key(h[Parent(i)]) <= key(h[i])
  }

  ghost predicate IsHeap<T>(h: seq<T>, key: T -> int) {
    HeapFrom(h, key, 0)
  }

  /** In order at every slot whose parent is at `lo` or later. */
  ghost predicate HeapFrom<T>(h: seq<T>, key: T -> int, lo: nat) {
    forall i | 0 < i < |h| && Parent(i) >= lo :: EdgeOk(h, key, i)
  }

  /** In order except around slot `at`, whose children are still in order with its parent. */
  ghost predicate HeapAround<T>(h: seq<T>, key: T -> int, lo: nat, at: nat)
    requires at < |h|
  {
    && (forall i | 0 < i < |h| && Parent(i) >= lo && i != at && Parent(i) != at :: EdgeOk(h, key, i))
    && (at > 0 && Parent(at) >= lo ==>
          forall i | 0 < i < |h| && Parent(i) == at :: key(h[Parent(at)]) <= key(h[i]))
  }

  ghost predicate ChildrenOk<T>(h: seq<T>, key: T -> int, at: nat) {
    forall i | 0 < i < |h| && Parent(i) == at :: EdgeOk(h, key, i)
  }

  /** The smallest key is at the front. */
  lemma {:induction false} FrontIsLeast<T>(h: seq<T>, key: T -> int, i: nat)
    requires IsHeap(h, key) && i < |h|
    ensures key(h[0]) <= key(h[i])
    decreases i
  {
    if i > 0 {
      FrontIsLeast(h, key, Parent(i));
      assert EdgeOk(h, key, i);
    }
  }

  lemma SwapKeepsElements<T>(h: seq<T>, i: nat, j: nat)
    requires i < |h| && j < |h|
    ensures multiset(h[i := h[j]][j := h[i]]) == multiset(h)
  {
  }

  /** Moves an element up until its parent is no larger. */
  method Up<T>(h: seq<T>, key: T -> int, j: nat) returns (r: seq<T>)
    requires j < |h| && HeapAround(h, key, 0, j) && ChildrenOk(h, key, j)
    ensures |r| == |h| && multiset(r) == multiset(h) && IsHeap(r, key)
  {
    r := h;
    var i: nat := j;
    while i > 0 && key(r[i]) < key(r[Parent(i)])
      invariant i < |r| == |h| && multiset(r) == multiset(h)
      invariant HeapAround(r, key, 0, i) && ChildrenOk(r, key, i)
      decreases i
    {
      UpStep(r, key, i);
      r, i := r[i := r[Parent(i)]][Parent(i) := r[i]], Parent(i);
    }
    assert forall k | 0 < k < |r| && Parent(k) >= 0 :: EdgeOk(r, key, k);
  }

  lemma UpStep<T>(h: seq<T>, key: T -> int, i: nat)
    requires 0 < i < |h| && HeapAround(h, key, 0, i) && ChildrenOk(h, key, i) && key(h[i]) < key(h[Parent(i)])
    ensures var r := h[i := h[Parent(i)]][Parent(i) := h[i]];
            HeapAround(r, key, 0, Parent(i)) && ChildrenOk(r, key, Parent(i)) && multiset(r) == multiset(h)
  {
    var p := Parent(i);
    var r := h[i := h[p]][p := h[i]];
    SwapKeepsElements(h, i, p);
    forall k | 0 < k < |r| && k != p && Parent(k) != p ensures EdgeOk(r, key, k) {
      assert EdgeOk(h, key, k);
    }
    forall k | 0 < k < |r| && Parent(k) == p ensures EdgeOk(r, key, k) {
      if k != i {
        assert EdgeOk(h, key, k);
      }
    }
    if p > 0 {
      assert EdgeOk(h, key, p);
      forall k | 0 < k < |r| && Parent(k) == p ensures key(r[Parent(p)]) <= key(r[k]) {
        if k != i {
          assert EdgeOk(h, key, k);
        }
      }
    }
  }

  /** The smaller of a slot's children; the right one only when strictly smaller. */
  function SmallerChild<T>(h: seq<T>, key: T -> int, i: nat): (j: nat)
    requires 2 * i + 1 < |h|
    ensures j < |h| && 0 < j && Parent(j) == i
    ensures forall k | 0 < k < |h| && Parent(k) == i :: key(h[j]) <= key(h[k])
  {
    if 2 * i + 2 < |h| && key(h[2 * i + 2]) < key(h[2 * i + 1]) then 2 * i + 2 else 2 * i + 1
  }

  /** Moves an element down until no child is smaller; says whether it moved. */
  method Down<T>(h: seq<T>, key: T -> int, lo: nat, i0: nat) returns (r: seq<T>, moved: bool)
    requires lo <= i0 < |h| && HeapAround(h, key, lo, i0)
    ensures |r| == |h| && multiset(r) == multiset(h)
    ensures moved ==> HeapFrom(r, key, lo)
    ensures !moved ==> r == h && ChildrenOk(h, key, i0)
  {
    r := h;
    var i: nat := i0;
    while 2 * i + 1 < |r| && key(r[SmallerChild(r, key, i)]) < key(r[i])
      invariant i0 <= i < |r| == |h| && multiset(r) == multiset(h)
      invariant HeapAround(r, key, lo, i)
      invariant i == i0 ==> r == h
      invariant i > i0 ==> i > 0 && Parent(i) >= lo && EdgeOk(r, key, i)
      decreases |r| - i
    {
      var j := SmallerChild(r, key, i);
      DownStep(r, key, lo, i);
      r, i := r[i := r[j]][j := r[i]], j;
    }
    moved := i > i0;
  }

  lemma DownStep<T>(h: seq<T>, key: T -> int, lo: nat, i: nat)
    requires lo <= i && 2 * i + 1 < |h| && HeapAround(h, key, lo, i)
    requires key(h[SmallerChild(h, key, i)]) < key(h[i])
    ensures var j := SmallerChild(h, key, i);
            var r := h[i := h[j]][j := h[i]];
            HeapAround(r, key, lo, j) && EdgeOk(r, key, j) && multiset(r) == multiset(h)
  {
    var j := SmallerChild(h, key, i);
    var r := h[i := h[j]][j := h[i]];
    SwapKeepsElements(h, i, j);
    forall k | 0 < k < |r| && Parent(k) >= lo && k != j && Parent(k) != j ensures EdgeOk(r, key, k) {
      if Parent(k) != i && k != i {
        assert EdgeOk(h, key, k);
      }
    }
    forall k | 0 < k < |r| && Parent(k) == j ensures key(r[Parent(j)]) <= key(r[k]) {
      assert EdgeOk(h, key, k);
    }
  }

  /** Adds an element. */
  method Push<T>(h: seq<T>, key: T -> int, x: T) returns (r: seq<T>)
    requires IsHeap(h, key)
    ensures IsHeap(r, key) && multiset(r) == multiset(h) + multiset{x} && |r| == |h| + 1
  {
    var longer := h + [x];
    forall i | 0 < i < |h| ensures EdgeOk(longer, key, i) {
      assert EdgeOk(h, key, i);
    }
    r := Up(longer, key, |h|);
  }

  /** Removes the element at a slot: the last one takes its place and is moved down or up. */
  method Remove<T>(h: seq<T>, key: T -> int, i: nat) returns (r: seq<T>)
    requires IsHeap(h, key) && i < |h|
    ensures IsHeap(r, key) && multiset(r) + multiset{h[i]} == multiset(h) && |r| == |h| - 1
  {
    var n := |h| - 1;
    assert h == h[..n] + [h[n]];
    if i == n {
      forall k | 0 < k < n ensures EdgeOk(h[..n], key, k) {
        assert EdgeOk(h, key, k);
      }
      return h[..n];
    }
    RemoveStart(h, key, i);
    var start := h[i := h[n]][..n];
    var moved;
    r, moved := Down(start, key, 0, i);
    if !moved {
      r := Up(r, key, i);
    }
  }

  lemma ReplaceByLast<T>(h: seq<T>, i: nat)
    requires i < |h| - 1
    ensures multiset(h[i := h[|h| - 1]][..|h| - 1]) + multiset{h[i]} == multiset(h)
  {
    var n := |h| - 1;
    var swapped := h[i := h[n]][n := h[i]];
    SwapKeepsElements(h, i, n);
    assert swapped == h[i := h[n]][..n] + [h[i]];
  }

  lemma RemoveStart<T>(h: seq<T>, key: T -> int, i: nat)
    requires IsHeap(h, key) && i < |h| - 1
    ensures var start := h[i := h[|h| - 1]][..|h| - 1];
            HeapAround(start, key, 0, i) && multiset(start) + multiset{h[i]} == multiset(h)
  {
    var n := |h| - 1;
    var start := h[i := h[n]][..n];
    ReplaceByLast(h, i);
    forall k | 0 < k < n && k != i && Parent(k) != i ensures EdgeOk(start, key, k) {
      assert EdgeOk(h, key, k);
    }
    if i > 0 {
      assert EdgeOk(h, key, i);
      forall k | 0 < k < n && Parent(k) == i ensures key(start[Parent(i)]) <= key(start[k]) {
        assert EdgeOk(h, key, k);
      }
    }
  }

  /** Removes the front element, the smallest. */
  method Pop<T>(h: seq<T>, key: T -> int) returns (x: T, r: seq<T>)
    requires IsHeap(h, key) && |h| > 0
    ensures x == h[0] && IsHeap(r, key) && multiset(r) + multiset{x} == multiset(h) && |r| == |h| - 1
    ensures forall y | y in h :: key(x) <= key(y)
  {
    forall y | y in h ensures key(h[0]) <= key(y) {
      var i: nat :| i < |h| && h[i] == y;
      FrontIsLeast(h, key, i);
    }
    x := h[0];
    r := Remove(h, key, 0);
  }

  /** Orders an arbitrary list. */
  method Init<T>(h: seq<T>, key: T -> int) returns (r: seq<T>)
    ensures IsHeap(r, key) && multiset(r) == multiset(h) && |r| == |h|
  {
    r := h;
    var i := |h| / 2;
    while i > 0
      invariant 0 <= i <= |h| / 2 && |r| == |h| && multiset(r) == multiset(h)
      invariant HeapFrom(r, key, i)
      decreases i
    {
      i := i - 1;
      var before := r;
      var moved;
      r, moved := Down(before, key, i, i);
      if !moved {
        forall k | 0 < k < |r| && Parent(k) >= i ensures EdgeOk(r, key, k) {
          if Parent(k) > i {
            assert EdgeOk(before, key, k);
          }
        }
      }
    }
  }

  ghost predicate SortedBy<T>(s: seq<T>, key: T -> int) {
    forall i, j | 0 <= i < j < |s| :: key(s[i]) <= key(s[j])
  }

  /** The same elements in ascending key order. */
  method Sort<T>(s: seq<T>, key: T -> int) returns (r: seq<T>)
    ensures SortedBy(r, key) && multiset(r) == multiset(s) && |r| == |s|
  {
    var h := Init(s, key);
    r := [];
    while h != []
      invariant IsHeap(h, key) && SortedBy(r, key)
      invariant multiset(r) + multiset(h) == multiset(s) && |r| + |h| == |s|
      invariant forall x, y | x in r && y in h :: key(x) <= key(y)
      decreases |h|
    {
      var x, rest := Pop(h, key);
      forall y | y in rest ensures y in h {
        assert multiset(h)[y] >= multiset(rest)[y] > 0;
      }
      r, h := r + [x], rest;
    }
  }
}
