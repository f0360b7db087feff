/**
  Binary heaps in a sequence, as the source's expiry heap, price heap and reservoir
  use them.  The element comparison is a parameter; so is the choice between two
  equal children, in which the reservoir differs from the standard library.
 */
module Heaps {

  /** A strict weak order, and a child choice that never prefers a larger child. */
  ghost predicate Ordering<T(!new)>(less: (T, T) -> bool, right: (T, T) -> bool) {
    && (forall a, b :: less(a, b) ==> !less(b, a))
    && (forall a, b, c :: !less(a, b) && !less(b, c) ==> !less(a, c))
    && (forall a, b :: if right(a, b) then !less(a, b) else !less(b, a))
  }

  function Parent(i: nat): nat
    requires i > 0
  {
    (i - 1) / 2
  }

  function Swap<T>(s: seq<T>, i: nat, j: nat): (r: seq<T>)
    requires i < |s| && j < |s|
    ensures |r| == |s|
    ensures forall k :: 0 <= k < |s| ==> r[k] == if k == i then s[j] else if k == j then s[i] else s[k]
  {
    s[i := s[j]][j := s[i]]
  }

  /** No element precedes its parent, for parents from `lo` on, among the first n. */
  ghost predicate HeapFrom<T>(less: (T, T) -> bool, s: seq<T>, lo: nat, n: nat)
    requires n <= |s|
  {
    forall k: nat {:trigger Settled(less, s, k)} :: 0 < k < n && Parent(k) >= lo ==> Settled(less, s, k)
  }

  /** The element at k does not precede its parent. */
  ghost predicate Settled<T>(less: (T, T) -> bool, s: seq<T>, k: nat)
    requires 0 < k < |s|
  {
    !less(s[k], s[Parent(k)])
  }

  ghost predicate Heap<T>(less: (T, T) -> bool, s: seq<T>) {
    HeapFrom(less, s, 0, |s|)
  }

  /** Move the element at j up to its place. */
  function Up<T>(less: (T, T) -> bool, s: seq<T>, j: nat): (r: seq<T>)
    requires j < |s|
    ensures |r| == |s|
    decreases j
  {
    if j == 0 || !less(s[j], s[Parent(j)]) then s
    else Up(less, Swap(s, Parent(j), j), Parent(j))
  }

  /** The child to compare with, among the first n elements. */
  function Child<T>(right: (T, T) -> bool, s: seq<T>, i: nat, n: nat): (c: nat)
    requires n <= |s| && 2 * i + 1 < n
    ensures i < c < n && Parent(c) == i
  {
    if 2 * i + 2 < n && right(s[2 * i + 1], s[2 * i + 2]) then 2 * i + 2 else 2 * i + 1
  }

  /** Move the element at i down to its place, among the first n elements. */
  function Down<T>(less: (T, T) -> bool, right: (T, T) -> bool, s: seq<T>, i: nat, n: nat): (r: seq<T>)
    requires n <= |s|
    ensures |r| == |s|
    decreases n - i
  {
    if 2 * i + 1 >= n then s
    else
      var c := Child(right, s, i, n);
      if !less(s[c], s[i]) then s else Down(less, right, Swap(s, i, c), c, n)
  }

  lemma SwapPermutes<T>(s: seq<T>, i: nat, j: nat)
    requires i < |s| && j < |s|
    ensures multiset(Swap(s, i, j)) == multiset(s)
  {
  }

  /** Everything is in order except that j may precede its parent. */
  ghost predicate HeapButUp<T>(less: (T, T) -> bool, s: seq<T>, j: nat)
  {
    && j < |s|
    && (forall k: nat {:trigger Settled(less, s, k)} :: 0 < k < |s| && k != j ==> Settled(less, s, k))
    && (forall k :: 0 < k < |s| && j > 0 && Parent(k) == j ==> !less(s[k], s[Parent(j)]))
  }

  lemma UpStep<T(!new)>(less: (T, T) -> bool, right: (T, T) -> bool, s: seq<T>, j: nat)
    requires Ordering(less, right) && HeapButUp(less, s, j)
    requires j > 0 && less(s[j], s[Parent(j)])
    ensures HeapButUp(less, Swap(s, Parent(j), j), Parent(j))
  {
    var p, t := Parent(j), Swap(s, Parent(j), j);
    forall k: nat {:trigger Settled(less, t, k)} | 0 < k < |s| && k != p ensures Settled(less, t, k) {
      if k != j { assert Settled(less, s, k); }
    }
    forall k: nat | 0 < k < |s| && p > 0 && Parent(k) == p ensures !less(t[k], t[Parent(p)]) {
      assert Settled(less, s, p);
      if k != j { assert Settled(less, s, k); }
    }
  }

  lemma {:induction false} UpRestores<T(!new)>(less: (T, T) -> bool, right: (T, T) -> bool, s: seq<T>, j: nat)
    requires Ordering(less, right) && HeapButUp(less, s, j)
    ensures Heap(less, Up(less, s, j)) && multiset(Up(less, s, j)) == multiset(s)
    decreases j
  {
    if j > 0 && less(s[j], s[Parent(j)]) {
      SwapPermutes(s, Parent(j), j);
      UpStep(less, right, s, j);
      UpRestores(less, right, Swap(s, Parent(j), j), Parent(j));
    }
  }

  /** Everything below `lo` is in order except that i may follow its children. */
  ghost predicate HeapButDown<T>(less: (T, T) -> bool, s: seq<T>, lo: nat, i: nat, n: nat)
  {
    && n <= |s| && lo <= i
    && (forall k: nat {:trigger Settled(less, s, k)} :: 0 < k < n && Parent(k) >= lo && Parent(k) != i ==> Settled(less, s, k))
    && (forall k :: 0 < k < n && Parent(k) == i && i > 0 && Parent(i) >= lo ==> !less(s[k], s[Parent(i)]))
  }

  lemma DownStep<T(!new)>(less: (T, T) -> bool, right: (T, T) -> bool, s: seq<T>, lo: nat, i: nat, n: nat)
    requires Ordering(less, right) && HeapButDown(less, s, lo, i, n) && 2 * i + 1 < n
    requires less(s[Child(right, s, i, n)], s[i])
    ensures HeapButDown(less, Swap(s, i, Child(right, s, i, n)), lo, Child(right, s, i, n), n)
  {
    var c := Child(right, s, i, n);
    var t := Swap(s, i, c);
    forall k: nat {:trigger Settled(less, t, k)} | 0 < k < n && Parent(k) >= lo && Parent(k) != c ensures Settled(less, t, k) {
      if Parent(k) != i { assert Settled(less, s, k); }
    }
    forall k: nat | 0 < k < n && Parent(k) == c ensures !less(t[k], t[Parent(c)]) {
      assert Settled(less, s, k);
    }
  }

  lemma {:induction false} DownRestores<T(!new)>(less: (T, T) -> bool, right: (T, T) -> bool, s: seq<T>, lo: nat, i: nat, n: nat)
    requires Ordering(less, right) && HeapButDown(less, s, lo, i, n)
    ensures HeapFrom(less, Down(less, right, s, i, n), lo, n)
    ensures multiset(Down(less, right, s, i, n)) == multiset(s)
    ensures forall k :: n <= k < |s| ==> Down(less, right, s, i, n)[k] == s[k]
    decreases n - i
  {
    if 2 * i + 1 < n {
      var c := Child(right, s, i, n);
      if less(s[c], s[i]) {
        SwapPermutes(s, i, c);
        DownStep(less, right, s, lo, i, n);
        DownRestores(less, right, Swap(s, i, c), lo, c, n);
      }
    }
  }

  /** The root of a heap is never beaten. */
  lemma {:induction false} RootIsFirst<T(!new)>(less: (T, T) -> bool, right: (T, T) -> bool, s: seq<T>, i: nat)
    requires Ordering(less, right) && Heap(less, s) && i < |s|
    ensures !less(s[i], s[0])
    decreases i
  {
    if i > 0 {
      assert Settled(less, s, i);
      RootIsFirst(less, right, s, Parent(i));
    }
  }

  function Push<T>(less: (T, T) -> bool, s: seq<T>, x: T): seq<T> {
    Up(less, s + [x], |s|)
  }

  lemma PushKeepsHeap<T(!new)>(less: (T, T) -> bool, right: (T, T) -> bool, s: seq<T>, x: T)
    requires Ordering(less, right) && Heap(less, s)
    ensures Heap(less, Push(less, s, x)) && multiset(Push(less, s, x)) == multiset(s) + multiset{x}
  {
    forall k: nat {:trigger Settled(less, s + [x], k)} | 0 < k < |s| ensures Settled(less, s + [x], k) {
      assert Settled(less, s, k);
    }
    UpRestores(less, right, s + [x], |s|);
  }

  /** Swap the root to the end, repair the rest; the last element is what is popped. */
  function Sunk<T>(less: (T, T) -> bool, right: (T, T) -> bool, s: seq<T>): (r: seq<T>)
    requires |s| > 0
    ensures |r| == |s|
  {
    Down(less, right, Swap(s, 0, |s| - 1), 0, |s| - 1)
  }

  /** What is left after popping the root. */
  function Pop<T>(less: (T, T) -> bool, right: (T, T) -> bool, s: seq<T>): (r: seq<T>)
    requires |s| > 0
    ensures |r| == |s| - 1
  {
    Sunk(less, right, s)[..|s| - 1]
  }

  lemma SunkKeepsHeap<T(!new)>(less: (T, T) -> bool, right: (T, T) -> bool, s: seq<T>)
    requires Ordering(less, right) && Heap(less, s) && |s| > 0
    ensures Sunk(less, right, s)[|s| - 1] == s[0]
    ensures HeapFrom(less, Sunk(less, right, s), 0, |s| - 1) && multiset(Sunk(less, right, s)) == multiset(s)
  {
    var n, t := |s| - 1, Swap(s, 0, |s| - 1);
    SwapPermutes(s, 0, n);
    forall k: nat {:trigger Settled(less, t, k)} | 0 < k < n && Parent(k) != 0 ensures Settled(less, t, k) {
      assert Settled(less, s, k) && t[k] == s[k] && t[Parent(k)] == s[Parent(k)];
    }
    DownRestores(less, right, t, 0, 0, n);
  }

  lemma PopKeepsHeap<T(!new)>(less: (T, T) -> bool, right: (T, T) -> bool, s: seq<T>)
    requires Ordering(less, right) && Heap(less, s) && |s| > 0
    ensures Sunk(less, right, s)[|s| - 1] == s[0]
    ensures Heap(less, Pop(less, right, s)) && multiset(Pop(less, right, s)) + multiset{s[0]} == multiset(s)
  {
    SunkKeepsHeap(less, right, s);
    var n, d := |s| - 1, Sunk(less, right, s);
    assert d == d[..n] + [d[n]];
    forall k: nat {:trigger Settled(less, d[..n], k)} | 0 < k < n ensures Settled(less, d[..n], k) {
      assert Settled(less, d, k);
    }
  }

  /** Replace the root and repair. */
  function ReplaceRoot<T>(less: (T, T) -> bool, right: (T, T) -> bool, s: seq<T>, x: T): (r: seq<T>)
    requires |s| > 0
    ensures |r| == |s|
  {
    Down(less, right, s[0 := x], 0, |s|)
  }

  lemma ReplaceRootKeepsHeap<T(!new)>(less: (T, T) -> bool, right: (T, T) -> bool, s: seq<T>, x: T)
    requires Ordering(less, right) && Heap(less, s) && |s| > 0
    ensures Heap(less, ReplaceRoot(less, right, s, x))
    ensures multiset(ReplaceRoot(less, right, s, x)) + multiset{s[0]} == multiset(s) + multiset{x}
  {
    var t := s[0 := x];
    assert HeapButDown(less, t, 0, 0, |s|) by {
      forall k: nat {:trigger Settled(less, t, k)} | 0 < k < |s| && Parent(k) != 0 ensures Settled(less, t, k) {
        assert Settled(less, s, k) && t[k] == s[k] && t[Parent(k)] == s[Parent(k)];
      }
    }
    DownRestores(less, right, t, 0, 0, |s|);
    assert s == [s[0]] + s[1..] && t == [x] + s[1..];
  }

  /** Sift down the roots i - 1, ..., 0. */
  function InitFrom<T>(less: (T, T) -> bool, right: (T, T) -> bool, s: seq<T>, i: nat): (r: seq<T>)
    ensures |r| == |s|
    decreases i
  {
    if i == 0 then s else InitFrom(less, right, Down(less, right, s, i - 1, |s|), i - 1)
  }

  function Init<T>(less: (T, T) -> bool, right: (T, T) -> bool, s: seq<T>): (r: seq<T>)
    ensures |r| == |s|
  {
    InitFrom(less, right, s, |s| / 2)
  }

  lemma {:induction false} InitFromMakesHeap<T(!new)>(less: (T, T) -> bool, right: (T, T) -> bool, s: seq<T>, i: nat)
    requires Ordering(less, right) && HeapFrom(less, s, i, |s|)
    ensures Heap(less, InitFrom(less, right, s, i)) && multiset(InitFrom(less, right, s, i)) == multiset(s)
    decreases i
  {
    if i > 0 {
      DownRestores(less, right, s, i - 1, i - 1, |s|);
      InitFromMakesHeap(less, right, Down(less, right, s, i - 1, |s|), i - 1);
    }
  }

  lemma InitMakesHeap<T(!new)>(less: (T, T) -> bool, right: (T, T) -> bool, s: seq<T>)
    requires Ordering(less, right)
    ensures Heap(less, Init(less, right, s)) && multiset(Init(less, right, s)) == multiset(s)
  {
    InitFromMakesHeap(less, right, s, |s| / 2);
  }
}
