/**
 * The binary heap of `chre/util/heap.h` and the priority queue built on it, with the element that has the
 * smallest key on top.
 */
module Heap {

  function Parent(i: nat): nat
    requires i > 0
  {
    (i - 1) / 2
  }

  /** `std::greater` on the keys, which is the comparison the heap is built with. */
  predicate After<T>(key: T -> int, a: T, b: T) { key(a) > key(b) }

  function Swap<T>(s: seq<T>, i: nat, j: nat): (r: seq<T>)
    requires i < |s| && j < |s|
    ensures |r| == |s| && multiset(r) == multiset(s)
  {
    s[i := s[j]][j := s[i]]
  }

  // ----------------------------------------------------------------------------------------
  // What the loops compute

  function SiftedUp<T>(key: T -> int, s: seq<T>, current: nat): (r: seq<T>)
    requires current < |s|
    ensures |r| == |s| && multiset(r) == multiset(s)
    ensures forall k :: current < k < |s| ==> r[k] == s[k]
    decreases current
  {
    if current > 0 && After(key, s[Parent(current)], s[current]) then
      SiftedUp(key, Swap(s, Parent(current), current), Parent(current))
    else s
  }

  /** The child of `i` that expires first; only positions below `n` belong to the heap. */
  function DominantChild<T>(key: T -> int, s: seq<T>, n: nat, i: nat): nat
    requires n <= |s|
  {
    var child := 2 * i + 1;
    if child + 1 < n && After(key, s[child], s[child + 1]) then child + 1 else child
  }

  predicate Sinks<T>(key: T -> int, s: seq<T>, n: nat, i: nat)
    requires i < n <= |s|
  {
    DominantChild(key, s, n, i) < n && After(key, s[i], s[DominantChild(key, s, n, i)])
  }

  function SiftedDown<T>(key: T -> int, s: seq<T>, n: nat, current: nat): (r: seq<T>)
    requires current < n <= |s|
    ensures |r| == |s| && multiset(r) == multiset(s)
    ensures forall k :: 0 <= k < |s| && (k < current || n <= k) ==> r[k] == s[k]
    decreases n - current
  {
    if Sinks(key, s, n, current) then
      var child := DominantChild(key, s, n, current);
      SiftedDown(key, Swap(s, current, child), n, child)
    else s
  }

  lemma SiftedDownStep<T>(key: T -> int, s: seq<T>, n: nat, i: nat)
    requires i < n <= |s|
    ensures SiftedDown(key, s, n, i)
         == if Sinks(key, s, n, i)
            then SiftedDown(key, Swap(s, i, DominantChild(key, s, n, i)), n, DominantChild(key, s, n, i))
            else s
  {}

  function Pushed<T>(key: T -> int, s: seq<T>, x: T): (r: seq<T>) {
    SiftedUp(key, s + [x], |s|)
  }

  /** The container after `remove_heap`, whose last element is the removed one. */
  function RemovedHeap<T>(key: T -> int, s: seq<T>, index: nat): (r: seq<T>)
    requires index < |s|
    ensures |r| == |s|
  {
    var n := |s| - 1;
    var t := Swap(s, index, n);
    if index > 0 && After(key, t[Parent(index)], t[index]) then SiftedUp(key, t, index)
    else if index < n then SiftedDown(key, t, n, index)
    else t
  }

  function Removed<T>(key: T -> int, s: seq<T>, index: nat): (r: seq<T>)
    requires index < |s|
    ensures |r| == |s| - 1
  {
    RemovedHeap(key, s, index)[..|s| - 1]
  }

  // ----------------------------------------------------------------------------------------
  // The heap order

  predicate Ordered<T>(key: T -> int, s: seq<T>, i: nat)
    requires i < |s|
  {
    i > 0 ==> !After(key, s[Parent(i)], s[i])
  }

  predicate IsHeap<T>(key: T -> int, s: seq<T>, n: nat)
    requires n <= |s|
  {
    forall i :: 0 <= i < n ==> Ordered(key, s, i)
  }

  /** Children of `hole` are in order with its parent. */
  predicate Bridged<T>(key: T -> int, s: seq<T>, i: nat, hole: nat)
    requires i < |s| && hole < |s|
  {
    i > 0 && Parent(i) == hole && hole > 0 ==> !After(key, s[Parent(hole)], s[i])
  }

  /** A heap but for the element at `hole`, which may be too small for its place. */
  predicate HeapBelow<T>(key: T -> int, s: seq<T>, n: nat, hole: nat)
    requires hole < n <= |s|
  {
    && (forall i :: 0 <= i < n && i != hole ==> Ordered(key, s, i))
    && (forall i :: 0 <= i < n ==> Bridged(key, s, i, hole))
  }

  /** A heap but for the element at `hole`, which may be too large for its place. */
  predicate HeapAbove<T>(key: T -> int, s: seq<T>, n: nat, hole: nat)
    requires hole < n <= |s|
  {
    && (forall i :: 0 <= i < n && (i > 0 ==> Parent(i) != hole) ==> Ordered(key, s, i))
    && (forall i :: 0 <= i < n ==> Bridged(key, s, i, hole))
  }

  lemma {:induction false} TopIsFirst<T>(key: T -> int, s: seq<T>, n: nat, i: nat)
    requires i < n <= |s| && IsHeap(key, s, n)
    ensures key(s[0]) <= key(s[i])
  {
    assert Ordered(key, s, i);
    if i > 0 {
      TopIsFirst(key, s, n, Parent(i));
    }
  }

  lemma {:induction false} SiftUpRestores<T>(key: T -> int, s: seq<T>, n: nat, current: nat)
    requires current < n <= |s| && HeapBelow(key, s, n, current)
    ensures IsHeap(key, SiftedUp(key, s, current), n)
    decreases current
  {
    if current > 0 && After(key, s[Parent(current)], s[current]) {
      SiftUpStep(key, s, n, current);
      SiftUpRestores(key, Swap(s, Parent(current), current), n, Parent(current));
    } else {
      assert Ordered(key, s, current);
    }
  }

  lemma SiftUpStep<T>(key: T -> int, s: seq<T>, n: nat, current: nat)
    requires 0 < current < n <= |s| && HeapBelow(key, s, n, current) && After(key, s[Parent(current)], s[current])
    ensures HeapBelow(key, Swap(s, Parent(current), current), n, Parent(current))
  {
    var p := Parent(current);
    var t := Swap(s, p, current);
    forall i | 0 <= i < n
      ensures i != p ==> Ordered(key, t, i)
      ensures Bridged(key, t, i, p)
    {
      assert i != current ==> Ordered(key, s, i);
      assert Bridged(key, s, i, current);
      assert Ordered(key, s, p);
    }
  }

  lemma {:induction false} SiftDownRestores<T>(key: T -> int, s: seq<T>, n: nat, current: nat)
    requires current < n <= |s| && HeapAbove(key, s, n, current)
    ensures IsHeap(key, SiftedDown(key, s, n, current), n)
    decreases n - current
  {
    var child := DominantChild(key, s, n, current);
    if Sinks(key, s, n, current) {
      SiftDownStep(key, s, n, current);
      SiftDownRestores(key, Swap(s, current, child), n, child);
    } else {
      forall i | 0 <= i < n
        ensures Ordered(key, s, i)
      {
        if i > 0 && Parent(i) == current {
          assert i == 2 * current + 1 || i == 2 * current + 2;
        }
      }
    }
  }

  lemma SiftDownStep<T>(key: T -> int, s: seq<T>, n: nat, current: nat)
    requires current < n <= |s| && HeapAbove(key, s, n, current) && Sinks(key, s, n, current)
    ensures HeapAbove(key, Swap(s, current, DominantChild(key, s, n, current)), n, DominantChild(key, s, n, current))
  {
    var child := DominantChild(key, s, n, current);
    var t := Swap(s, current, child);
    assert Parent(child) == current;
    assert Bridged(key, s, child, current);
    forall i | 0 <= i < n
      ensures (i > 0 ==> Parent(i) != child) ==> Ordered(key, t, i)
      ensures Bridged(key, t, i, child)
    {
      assert (i > 0 ==> Parent(i) != current) ==> Ordered(key, s, i);
      assert Bridged(key, s, i, current);
      assert i > 0 && Parent(i) == current ==> i == 2 * current + 1 || i == 2 * current + 2;
    }
  }

  // ----------------------------------------------------------------------------------------
  // The queue operations keep the heap and change exactly one request

  lemma PushKeepsHeap<T>(key: T -> int, s: seq<T>, x: T)
    requires IsHeap(key, s, |s|)
    ensures IsHeap(key, Pushed(key, s, x), |s| + 1)
    ensures multiset(Pushed(key, s, x)) == multiset(s) + multiset{x}
  {
    var t := s + [x];
    forall i | 0 <= i < |t|
      ensures i != |s| ==> Ordered(key, t, i)
      ensures Bridged(key, t, i, |s|)
    {
      assert i < |s| ==> Ordered(key, s, i);
    }
    SiftUpRestores(key, t, |t|, |s|);
  }

  lemma RemoveKeepsHeap<T>(key: T -> int, s: seq<T>, index: nat)
    requires index < |s| && IsHeap(key, s, |s|)
    ensures IsHeap(key, Removed(key, s, index), |s| - 1)
    ensures RemovedHeap(key, s, index)[|s| - 1] == s[index]
    ensures multiset(s) == multiset(Removed(key, s, index)) + multiset{s[index]}
  {
    var n := |s| - 1;
    var r := RemovedHeap(key, s, index);
    RemovedHeapIsHeap(key, s, index);
    assert r == r[..n] + [r[n]];
    forall i | 0 <= i < n
      ensures Ordered(key, r[..n], i)
    {
      assert Ordered(key, r, i);
    }
  }

  lemma RemovedIsHeap<T>(key: T -> int, s: seq<T>, index: nat)
    requires index < |s| && IsHeap(key, s, |s|)
    ensures IsHeap(key, Removed(key, s, index), |Removed(key, s, index)|)
  {
    RemoveKeepsHeap(key, s, index);
  }

  lemma RemovedHeapIsHeap<T>(key: T -> int, s: seq<T>, index: nat)
    requires index < |s| && IsHeap(key, s, |s|)
    ensures IsHeap(key, RemovedHeap(key, s, index), |s| - 1)
    ensures RemovedHeap(key, s, index)[|s| - 1] == s[index]
    ensures multiset(RemovedHeap(key, s, index)) == multiset(s)
  {
    hide SiftedUp, SiftedDown;
    var n := |s| - 1;
    var t := Swap(s, index, n);
    if index == n {
      assert t == s;
      assert Ordered(key, s, n);
      assert forall i :: 0 <= i < n ==> Ordered(key, s, i);
    } else if index > 0 && After(key, t[Parent(index)], t[index]) {
      SwappedBelow(key, s, index);
      SiftUpRestores(key, t, n, index);
    } else {
      SwappedAbove(key, s, index);
      SiftDownRestores(key, t, n, index);
    }
  }

  lemma SwappedBelow<T>(key: T -> int, s: seq<T>, index: nat)
    requires index < |s| - 1 && IsHeap(key, s, |s|)
    requires index > 0 && After(key, Swap(s, index, |s| - 1)[Parent(index)], Swap(s, index, |s| - 1)[index])
    ensures HeapBelow(key, Swap(s, index, |s| - 1), |s| - 1, index)
  {
    var n := |s| - 1;
    var t := Swap(s, index, n);
    forall i | 0 <= i < n
      ensures i != index ==> Ordered(key, t, i)
      ensures Bridged(key, t, i, index)
    {
      assert Ordered(key, s, i);
      assert Ordered(key, s, index);
    }
  }

  lemma SwappedAbove<T>(key: T -> int, s: seq<T>, index: nat)
    requires index < |s| - 1 && IsHeap(key, s, |s|)
    requires !(index > 0 && After(key, Swap(s, index, |s| - 1)[Parent(index)], Swap(s, index, |s| - 1)[index]))
    ensures HeapAbove(key, Swap(s, index, |s| - 1), |s| - 1, index)
  {
    var n := |s| - 1;
    var t := Swap(s, index, n);
    forall i | 0 <= i < n
      ensures (i > 0 ==> Parent(i) != index) ==> Ordered(key, t, i)
      ensures Bridged(key, t, i, index)
    {
      assert Ordered(key, s, i);
      assert Ordered(key, s, index);
    }
  }

  // ----------------------------------------------------------------------------------------
  // Totals over the queue do not depend on how the heap is laid out

  function Total<T>(s: seq<T>, weight: T -> nat): nat {
    if s == [] then 0 else Total(s[..|s| - 1], weight) + weight(s[|s| - 1])
  }

  lemma {:induction false} TotalRemove<T>(s: seq<T>, weight: T -> nat, i: nat)
    requires i < |s|
    ensures Total(s, weight) == Total(s[..i] + s[i + 1..], weight) + weight(s[i])
  {
    var n := |s| - 1;
    var rest := s[..i] + s[i + 1..];
    if i < n {
      TotalRemove(s[..n], weight, i);
      assert rest[..n - 1] == s[..n][..i] + s[..n][i + 1..];
      assert rest[n - 1] == s[n];
    } else {
      assert rest == s[..n];
    }
  }

  lemma WithoutOne<T>(a: seq<T>, x: T, t: seq<T>, i: nat)
    requires i < |t| && t[i] == x && multiset(a + [x]) == multiset(t)
    ensures multiset(a) == multiset(t[..i] + t[i + 1..])
  {
    var rest := t[..i] + t[i + 1..];
    assert t == t[..i] + [x] + t[i + 1..];
    calc {
      multiset(a) + multiset{x};
      multiset(a + [x]);
      multiset(t);
      multiset(t[..i]) + multiset{x} + multiset(t[i + 1..]);
      multiset(rest) + multiset{x};
    }
    assert multiset(a) == multiset(a) + multiset{x} - multiset{x};
    assert multiset(rest) == multiset(rest) + multiset{x} - multiset{x};
  }

  lemma {:induction false} TotalPermuted<T>(s: seq<T>, t: seq<T>, weight: T -> nat)
    requires multiset(s) == multiset(t)
    ensures Total(s, weight) == Total(t, weight) && |s| == |t|
  {
    assert |multiset(s)| == |s| && |multiset(t)| == |t|;
    if s != [] {
      var n := |s| - 1;
      var x := s[n];
      assert s == s[..n] + [x];
      assert x in multiset(s);
      assert x in t;
      var i :| 0 <= i < |t| && t[i] == x;
      WithoutOne(s[..n], x, t, i);
      TotalRemove(t, weight, i);
      TotalPermuted(s[..n], t[..i] + t[i + 1..], weight);
    }
  }

  lemma TotalPushed<T>(key: T -> int, s: seq<T>, x: T, weight: T -> nat)
    ensures Total(Pushed(key, s, x), weight) == Total(s, weight) + weight(x)
  {
    TotalPermuted(Pushed(key, s, x), s + [x], weight);
    assert (s + [x])[..|s|] == s;
  }

  lemma TotalRemoved<T>(key: T -> int, s: seq<T>, index: nat, weight: T -> nat)
    requires index < |s| && IsHeap(key, s, |s|)
    ensures Total(Removed(key, s, index), weight) + weight(s[index]) == Total(s, weight)
  {
    var r := Removed(key, s, index);
    RemoveKeepsHeap(key, s, index);
    TotalPermuted(s, r + [s[index]], weight);
    assert (r + [s[index]])[..|r|] == r;
  }

  // ----------------------------------------------------------------------------------------

  class PriorityQueue<T> {
    const key: T -> int
    var data: seq<T>

    constructor (key: T -> int)
      ensures data == [] && this.key == key
    {
      this.key := key;
      data := [];
    }

    method SiftUp(index: nat)
      requires index < |data|
      modifies this
      ensures data == SiftedUp(key, old(data), index)
    {
      var current: nat := index;
      while current > 0
        invariant current < |data|
        invariant SiftedUp(key, data, current) == SiftedUp(key, old(data), index)
      {
        var parent := (current - 1) / 2;
        if key(data[parent]) > key(data[current]) {
          data := Swap(data, parent, current);
          current := parent;
        } else {
          break;
        }
      }
    }

    /** Sifts within all but the last element, which is about to go. */
    method SiftDown(index: nat)
      requires index < |data|
      modifies this
      ensures data == if index < |old(data)| - 1 then SiftedDown(key, old(data), |old(data)| - 1, index) else old(data)
    {
      hide SiftedDown, Swap;
      var current: nat := index;
      var n := |data| - 1;
      while index < n
        invariant |data| == n + 1 && index <= current && (index < n ==> current < n)
        invariant index < n ==> SiftedDown(key, data, n, current) == SiftedDown(key, old(data), n, index)
        invariant index == n ==> data == old(data)
        decreases n - current
      {
        var child := 2 * current + 1;
        if child + 1 < n && key(data[child]) > key(data[child + 1]) {
          child := child + 1;
        }
        assert child == DominantChild(key, data, n, current);
        SiftedDownStep(key, data, n, current);
        if child < n && key(data[current]) > key(data[child]) {
          data := Swap(data, current, child);
          current := child;
        } else {
          break;
        }
      }
    }

    method Push(element: T, memory: bool) returns (success: bool)
      modifies this
      ensures success == memory
      ensures data == if success then Pushed(key, old(data), element) else old(data)
    {
      success := memory;
      if success {
        data := data + [element];
        SiftUp(|data| - 1);
      }
    }

    method Pop()
      modifies this
      ensures data == if old(data) == [] then [] else Removed(key, old(data), 0)
    {
      if |data| > 0 {
        hide SiftedUp, SiftedDown;
        data := Swap(data, 0, |data| - 1);
        SiftDown(0);
        data := data[..|data| - 1];
      }
    }

    method Remove(index: nat)
      requires index < |data|
      modifies this
      ensures data == Removed(key, old(data), index)
    {
      hide SiftedUp, SiftedDown;
      data := Swap(data, index, |data| - 1);
      if index > 0 && key(data[(index - 1) / 2]) > key(data[index]) {
        SiftUp(index);
      } else {
        SiftDown(index);
      }
      data := data[..|data| - 1];
    }
  }
}
