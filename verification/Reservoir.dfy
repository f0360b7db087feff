/**
  The exponentially decaying sample: a fixed-size reservoir kept as a min-heap of
  weighted values in one backing array, rescaled in place once an hour.
 */
module Reservoir {
  import opened Heaps
  import opened Sequences

  datatype Sample = Sample(k: real, v: int)

  predicate Lighter(a: Sample, b: Sample) { a.k < b.k }

  /** The reservoir's heap takes the right child on ties. */
  predicate RightChild(a: Sample, b: Sample) { !(a.k < b.k) }

  const RESCALE_THRESHOLD: real := 3600.0

  lemma SampleOrdering()
    ensures Ordering(Lighter, RightChild)
  {
  }

  /** Push a list of samples one by one. */
  function PushAll(heap: seq<Sample>, samples: seq<Sample>): seq<Sample>
    decreases |samples|
  {
    if samples == [] then heap
    else
      var k := |samples| - 1;
      Push(Lighter, PushAll(heap, samples[..k]), samples[k])
  }

  function Scale(x: Sample, factor: real): Sample {
    Sample(x.k * factor, x.v)
  }

  function Scaled(samples: seq<Sample>, factor: real): (r: seq<Sample>)
    ensures |r| == |samples|
    ensures forall i :: 0 <= i < |samples| ==> r[i] == Scale(samples[i], factor)
  {
    seq(|samples|, i requires 0 <= i < |samples| => Scale(samples[i], factor))
  }

  /** The reservoir after one more sample: a full one first loses its root. */
  function Inserted(heap: seq<Sample>, capacity: nat, x: Sample): seq<Sample>
    requires |heap| == capacity ==> capacity > 0
  {
    Push(Lighter, if |heap| == capacity then Pop(Lighter, RightChild, heap) else heap, x)
  }

  /** A full update drops exactly one lightest sample and adds the new one. */
  lemma InsertedDropsLightest(heap: seq<Sample>, capacity: nat, x: Sample)
    requires Heap(Lighter, heap) && |heap| <= capacity && capacity > 0
    ensures Heap(Lighter, Inserted(heap, capacity, x)) && |Inserted(heap, capacity, x)| <= capacity
    ensures |heap| < capacity ==> multiset(Inserted(heap, capacity, x)) == multiset(heap) + multiset{x}
    ensures |heap| == capacity ==>
              && multiset(Inserted(heap, capacity, x)) + multiset{heap[0]} == multiset(heap) + multiset{x}
              && forall y :: y in heap ==> heap[0].k <= y.k
  {
    SampleOrdering();
    if |heap| == capacity {
      PopKeepsHeap(Lighter, RightChild, heap);
      PushKeepsHeap(Lighter, RightChild, Pop(Lighter, RightChild, heap), x);
      forall i | 0 <= i < |heap| ensures heap[0].k <= heap[i].k { RootIsFirst(Lighter, RightChild, heap, i); }
    } else {
      PushKeepsHeap(Lighter, RightChild, heap, x);
    }
  }

  /** Pushing a list makes a heap of exactly its samples. */
  lemma {:induction false} PushAllIsHeap(samples: seq<Sample>)
    ensures Heap(Lighter, PushAll([], samples)) && multiset(PushAll([], samples)) == multiset(samples)
    ensures |PushAll([], samples)| == |samples|
    decreases |samples|
  {
    if samples != [] {
      var k := |samples| - 1;
      PushAllIsHeap(samples[..k]);
      SampleOrdering();
      PushKeepsHeap(Lighter, RightChild, PushAll([], samples[..k]), samples[k]);
      assert samples == samples[..k] + [samples[k]];
    }
  }

  function Values(samples: seq<Sample>): (r: seq<int>)
    ensures |r| == |samples|
  {
    if samples == [] then [] else [samples[0].v] + Values(samples[1..])
  }

  /** Scaling changes every weight once and no value. */
  lemma {:induction false} ScaledKeepsValues(samples: seq<Sample>, factor: real)
    ensures Values(Scaled(samples, factor)) == Values(samples)
  {
    if samples != [] {
      var rest := Scaled(samples[1..], factor);
      assert forall i :: 0 <= i < |rest| ==> rest[i] == Scale(samples[1..][i], factor) == Scaled(samples, factor)[1..][i];
      assert Scaled(samples, factor)[1..] == rest;
      ScaledKeepsValues(samples[1..], factor);
    }
  }

  lemma {:induction false} ValuesWithout(a: seq<Sample>, i: nat)
    requires i < |a|
    ensures Values(a)[i] == a[i].v && Values(Delete(a, i)) == Delete(Values(a), i)
  {
    if i == 0 {
      assert Delete(a, 0) == a[1..];
    } else {
      ValuesWithout(a[1..], i - 1);
      assert Delete(a, i)[1..] == Delete(a[1..], i - 1);
    }
  }

  /** The values of a permutation are a permutation of the values. */
  lemma {:induction false} ValuesPermute(a: seq<Sample>, b: seq<Sample>)
    requires multiset(a) == multiset(b)
    ensures multiset(Values(a)) == multiset(Values(b))
    decreases |a|
  {
    if a == [] {
      assert |multiset(b)| == 0;
    } else {
      assert a[0] in multiset(a);
      assert a[0] in b;
      var i :| 0 <= i < |b| && b[i] == a[0];
      DeleteRemoves(a, 0);
      DeleteRemoves(b, i);
      ValuesPermute(Delete(a, 0), Delete(b, i));
      ValuesWithout(a, 0);
      ValuesWithout(b, i);
      DeleteRemoves(Values(a), 0);
      DeleteRemoves(Values(b), i);
    }
  }

  /** The heap: the first `len` elements of a backing array that never moves. */
  /** One pass of the sift-down loop. */
  lemma SinkStep(now: seq<Sample>, i: nat, n: nat, j: nat)
    requires 2 * i + 1 < n <= |now| && j == Child(RightChild, now, i, n)
    ensures Down(Lighter, RightChild, now, i, n) ==
            if now[j].k < now[i].k then Down(Lighter, RightChild, Swap(now, i, j), j, n) else now
  {
  }

  class SampleHeap {
    const buf: array<Sample>
    var len: nat

    constructor (capacity: nat)
      ensures Valid() && fresh(buf) && buf.Length == capacity && Contents() == []
    {
      buf := new Sample[capacity](_ => Sample(0.0, 0));
      len := 0;
    }

    ghost predicate Valid()
      reads this
    {
      len <= buf.Length
    }

    ghost function Contents(): seq<Sample>
      requires Valid()
      reads this, buf
    {
      buf[..len]
    }

    method Exchange(i: nat, j: nat)
      requires Valid() && i < len && j < len
      modifies buf
      ensures buf[..len] == Swap(old(buf[..len]), i, j) && buf[len..] == old(buf[len..])
    {
      buf[i], buf[j] := buf[j], buf[i];
    }

    method MoveUp(start: nat)
      requires Valid() && start < len
      modifies buf
      ensures Contents() == Up(Lighter, old(Contents()), start)
      ensures buf[len..] == old(buf[len..])
    {
      var j: nat := start;
      while j != 0 && buf[j].k < buf[Parent(j)].k
        invariant j < len && buf[len..] == old(buf[len..])
        invariant Up(Lighter, buf[..len], j) == Up(Lighter, old(buf[..len]), start)
        decreases j
      {
        Exchange(Parent(j), j);
        j := Parent(j);
      }
    }

    /** The child to compare with: the right one on ties. */
    method LighterChild(i: nat, n: nat) returns (j: nat)
      requires Valid() && 2 * i + 1 < n <= len
      ensures j == Child(RightChild, buf[..len], i, n)
    {
      ghost var now := buf[..len];
      j := 2 * i + 1;
      if j + 1 < n && !(buf[j].k < buf[j + 1].k) {
        assert RightChild(now[j], now[j + 1]);
        j := j + 1;
      } else {
        assert j + 1 < n ==> !RightChild(now[j], now[j + 1]);
      }
    }

    method MoveDown(start: nat, n: nat)
      requires Valid() && n <= len
      modifies buf
      ensures Contents() == Down(Lighter, RightChild, old(Contents()), start, n)
      ensures buf[len..] == old(buf[len..])
    {
      var i: nat := start;
      while 2 * i + 1 < n
        invariant buf[len..] == old(buf[len..])
        invariant Down(Lighter, RightChild, buf[..len], i, n) == Down(Lighter, RightChild, old(buf[..len]), start, n)
        decreases n - i
      {
        var j := LighterChild(i, n);
        SinkStep(buf[..len], i, n, j);
        if !(buf[j].k < buf[i].k) {
          return;
        }
        Exchange(i, j);
        i := j;
      }
    }

    method Push(s: Sample)
      requires Valid() && len < buf.Length
      modifies this, buf
      ensures Valid() && Contents() == Heaps.Push(Lighter, old(Contents()), s)
      ensures buf[len..] == old(buf[len + 1..])
    {
      ghost var before, rest := Contents(), buf[len + 1..];
      buf[len] := s;
      len := len + 1;
      assert buf[..len] == before + [s] && buf[len..] == rest;
      MoveUp(len - 1);
    }

    method Pop() returns (s: Sample)
      requires Valid() && len > 0
      modifies this, buf
      ensures Valid() && Contents() == Heaps.Pop(Lighter, RightChild, old(Contents()))
      ensures s == Sunk(Lighter, RightChild, old(Contents()))[old(len) - 1]
    {
      ghost var before := Contents();
      var n := len - 1;
      buf[0], buf[n] := buf[n], buf[0];
      assert Contents() == Swap(before, 0, n);
      MoveDown(0, n);
      assert Contents() == Sunk(Lighter, RightChild, before);
      s := buf[n];
      len := n;
      assert buf[..len] == Sunk(Lighter, RightChild, before)[..n];
    }

    /** Clear the heap and push every old sample again with its weight scaled, reading
        them from the very array the pushes write to. */
    method Rescale(factor: real)
      requires Valid()
      modifies this, buf
      ensures Valid() && Contents() == PushAll([], Scaled(old(Contents()), factor))
    {
      var n := len;
      ghost var was := buf[..];
      ghost var scaled := Scaled(was[..n], factor);
      assert was[..n] == Contents();
      len := 0;
      for i := 0 to n
        invariant Valid() && len == i && n <= buf.Length
        invariant Contents() == PushAll([], scaled[..i])
        invariant buf[i..] == was[i..]
      {
        var v := buf[i];
        assert v == buf[i..][0] == was[i];
        assert buf[i + 1..] == buf[i..][1..];
        assert scaled[..i + 1][..i] == scaled[..i];
        Push(Scale(v, factor));
      }
      assert scaled[..n] == scaled;
    }
  }

  /** One observation: when, what, and the random number drawn for its weight. */
  datatype Observation = Observation(t: real, v: int, random: real)

  function Product(a: real, b: real): real { a * b }

  /** An observation's sample: its weight grows with the time since the landmark. */
  function Weighted(exp: real -> real, alpha: real, t0: real, o: Observation): Sample
    requires o.random > 0.0
  {
    Sample(exp(Product(o.t - t0, alpha)) / o.random, o.v)
  }

  /** The factor that carries weights over to a new landmark. */
  function Decay(exp: real -> real, alpha: real, t0: real, t: real): real {
    exp(Product(-alpha, t - t0))
  }

  /** What makes a function an exponential one: it turns sums into products. */
  ghost predicate Exponential(exp: real -> real) {
    forall a, b {:trigger Multiplies(exp, a, b)} :: Multiplies(exp, a, b)
  }

  ghost predicate Multiplies(exp: real -> real, a: real, b: real) { exp(a + b) == exp(a) * exp(b) }

  lemma LandmarkMoves(alpha: real, t0: real, t: real, at: real)
    ensures Product(at - t0, alpha) + Product(-alpha, t - t0) == Product(at - t, alpha)
  {
  }

  lemma QuotientTimes(x: real, y: real, r: real)
    requires r > 0.0
    ensures x / r * y == x * y / r
  {
  }

  /** Rescaling loses nothing: a rescaled sample is the one that would have been drawn with the new landmark. */
  lemma RescaledAsDrawn(exp: real -> real, alpha: real, t0: real, t: real, o: Observation)
    requires Exponential(exp) && o.random > 0.0
    ensures Scale(Weighted(exp, alpha, t0, o), Decay(exp, alpha, t0, t)) == Weighted(exp, alpha, t, o)
  {
    var x, y := Product(o.t - t0, alpha), Product(-alpha, t - t0);
    LandmarkMoves(alpha, t0, t, o.t);
    assert Multiplies(exp, x, y);
    QuotientTimes(exp(x), exp(y), o.random);
  }

  /** The reservoir after one update, rescaled if the landmark is over an hour old. */
  function Updated(heap: seq<Sample>, capacity: nat, x: Sample, rescale: bool, factor: real): seq<Sample>
    requires |heap| == capacity ==> capacity > 0
  {
    var more := Inserted(heap, capacity, x);
    if rescale then PushAll([], Scaled(more, factor)) else more
  }

  /** An update, rescaled or not, leaves a heap of the right size with every weight scaled once. */
  lemma UpdateKeepsHeap(heap: seq<Sample>, capacity: nat, x: Sample, rescale: bool, factor: real)
    requires Heap(Lighter, heap) && |heap| <= capacity && capacity > 0
    ensures var after, more := Updated(heap, capacity, x, rescale, factor), Inserted(heap, capacity, x);
            && Heap(Lighter, after) && |after| == (if |heap| < capacity then |heap| + 1 else capacity)
            && multiset(after) == multiset(if rescale then Scaled(more, factor) else more)
  {
    InsertedDropsLightest(heap, capacity, x);
    PushAllIsHeap(Scaled(Inserted(heap, capacity, x), factor));
  }

  /** And it keeps the values: whatever the rescale does, they are those of the samples kept and the new one. */
  lemma UpdateEffect(heap: seq<Sample>, capacity: nat, x: Sample, rescale: bool, factor: real)
    requires Heap(Lighter, heap) && |heap| <= capacity && capacity > 0
    ensures var after, more := Updated(heap, capacity, x, rescale, factor), Inserted(heap, capacity, x);
            && Heap(Lighter, after) && |after| == (if |heap| < capacity then |heap| + 1 else capacity)
            && multiset(after) == multiset(if rescale then Scaled(more, factor) else more)
            && Values(if rescale then Scaled(more, factor) else more) == Values(more)
            && multiset(Values(after)) == multiset(Values(more))
  {
    var after, more := Updated(heap, capacity, x, rescale, factor), Inserted(heap, capacity, x);
    UpdateKeepsHeap(heap, capacity, x, rescale, factor);
    ScaledKeepsValues(more, factor);
    ValuesPermute(after, if rescale then Scaled(more, factor) else more);
  }

  /** The sample is an observation's, weighted by its age at the landmark. */
  ghost predicate IsDrawn(x: Sample, exp: real -> real, alpha: real, t0: real, seen: seq<Observation>) {
    exists i :: 0 <= i < |seen| && x.v == seen[i].v && seen[i].random > 0.0 && x.k * seen[i].random == exp(Product(seen[i].t - t0, alpha))
  }

  ghost predicate AllDrawn(samples: seq<Sample>, exp: real -> real, alpha: real, t0: real, seen: seq<Observation>) {
    forall x {:trigger IsDrawn(x, exp, alpha, t0, seen)} :: x in multiset(samples) ==> IsDrawn(x, exp, alpha, t0, seen)
  }

  lemma QuotientIs(x: real, y: real, r: real)
    requires r > 0.0
    ensures x == y / r <==> x * r == y
  {
  }

  /** A sample drawn stays one when more is seen, and when it is carried over to a new landmark. */
  lemma DrawnCarriesOver(x: Sample, exp: real -> real, alpha: real, t0: real, seen: seq<Observation>, o: Observation, t: real)
    requires IsDrawn(x, exp, alpha, t0, seen) && Exponential(exp)
    ensures IsDrawn(x, exp, alpha, t0, seen + [o]) && IsDrawn(Scale(x, Decay(exp, alpha, t0, t)), exp, alpha, t, seen + [o])
  {
    var i :| 0 <= i < |seen| && x.v == seen[i].v && seen[i].random > 0.0 && x.k * seen[i].random == exp(Product(seen[i].t - t0, alpha));
    assert (seen + [o])[i] == seen[i];
    QuotientIs(x.k, exp(Product(seen[i].t - t0, alpha)), seen[i].random);
    RescaledAsDrawn(exp, alpha, t0, t, seen[i]);
    QuotientIs(Weighted(exp, alpha, t, seen[i]).k, exp(Product(seen[i].t - t, alpha)), seen[i].random);
  }

  lemma WeightedIsDrawn(exp: real -> real, alpha: real, t0: real, seen: seq<Observation>, o: Observation)
    requires o.random > 0.0
    ensures IsDrawn(Weighted(exp, alpha, t0, o), exp, alpha, t0, seen + [o])
  {
    assert (seen + [o])[|seen|] == o;
    QuotientIs(Weighted(exp, alpha, t0, o).k, exp(Product(o.t - t0, alpha)), o.random);
  }

  /** Every sample left by an update is an observation's, weighted by its age at the current landmark. */
  lemma UpdateKeepsDrawn(heap: seq<Sample>, capacity: nat, exp: real -> real, alpha: real, t0: real, seen: seq<Observation>, o: Observation,
    rescale: bool)
    requires Heap(Lighter, heap) && |heap| <= capacity && capacity > 0 && o.random > 0.0 && Exponential(exp)
    requires AllDrawn(heap, exp, alpha, t0, seen)
    ensures AllDrawn(Updated(heap, capacity, Weighted(exp, alpha, t0, o), rescale, Decay(exp, alpha, t0, o.t)), exp, alpha,
                     if rescale then o.t else t0, seen + [o])
  {
    var x, factor, now := Weighted(exp, alpha, t0, o), Decay(exp, alpha, t0, o.t), if rescale then o.t else t0;
    var more, after := Inserted(heap, capacity, x), Updated(heap, capacity, x, rescale, factor);
    UpdateKeepsHeap(heap, capacity, x, rescale, factor);
    InsertedDropsLightest(heap, capacity, x);
    forall y {:trigger IsDrawn(y, exp, alpha, now, seen + [o])} | y in multiset(after) ensures IsDrawn(y, exp, alpha, now, seen + [o]) {
      var kept := KeptAs(heap, capacity, x, rescale, factor, y);
      if kept in multiset(heap) {
        assert IsDrawn(kept, exp, alpha, t0, seen);
        DrawnCarriesOver(kept, exp, alpha, t0, seen, o, o.t);
      } else if rescale {
        RescaledAsDrawn(exp, alpha, t0, o.t, o);
        WeightedIsDrawn(exp, alpha, o.t, seen, o);
      } else {
        WeightedIsDrawn(exp, alpha, t0, seen, o);
      }
    }
  }

  /** What a sample left by an update was before it: one of those kept, or the new one. */
  lemma KeptAs(heap: seq<Sample>, capacity: nat, x: Sample, rescale: bool, factor: real, y: Sample) returns (kept: Sample)
    requires Heap(Lighter, heap) && |heap| <= capacity && capacity > 0
    requires y in multiset(Updated(heap, capacity, x, rescale, factor))
    ensures kept in multiset(heap) || kept == x
    ensures y == if rescale then Scale(kept, factor) else kept
  {
    var more := Inserted(heap, capacity, x);
    UpdateKeepsHeap(heap, capacity, x, rescale, factor);
    InsertedDropsLightest(heap, capacity, x);
    kept := y;
    if rescale {
      assert y in Scaled(more, factor);
      var i :| 0 <= i < |more| && Scaled(more, factor)[i] == y;
      kept := more[i];
    }
    assert kept in multiset(more);
    assert kept in multiset(heap) + multiset{x};
  }

  class ExpDecaySample {
    const alpha: real
    const reservoirSize: nat
    const values: SampleHeap
    var count: nat
    var t0: real
    var t1: real

    constructor (reservoirSize: nat, alpha: real, now: real)
      requires reservoirSize > 0
      ensures Valid() && fresh(values) && fresh(values.buf) && values.Contents() == [] && count == 0
    {
      this.reservoirSize, this.alpha, count := reservoirSize, alpha, 0;
      t0, t1 := now, now + RESCALE_THRESHOLD;
      values := new SampleHeap(reservoirSize);
    }

    ghost predicate Valid()
      reads this, values, values.buf
    {
      && reservoirSize > 0 && values.Valid() && values.buf.Length == reservoirSize
      && Heap(Lighter, values.Contents())
      && values.len == if count < reservoirSize then count else reservoirSize
    }

    method Update(o: Observation, exp: real -> real)
      requires Valid() && o.random > 0.0
      modifies this, values, values.buf
      ensures Valid() && count == old(count) + 1
      ensures values.Contents() == Updated(old(values.Contents()), reservoirSize,
                Weighted(exp, alpha, old(t0), o), o.t > old(t1), Decay(exp, alpha, old(t0), o.t))
      ensures if o.t > old(t1) then t0 == o.t && t1 == o.t + RESCALE_THRESHOLD else t0 == old(t0) && t1 == old(t1)
    {
      var x, factor := Weighted(exp, alpha, t0, o), Decay(exp, alpha, t0, o.t);
      UpdateKeepsHeap(values.Contents(), reservoirSize, x, o.t > t1, factor);
      count := count + 1;
      if values.len == reservoirSize {
        var _ := values.Pop();
      }
      values.Push(x);
      if o.t > t1 {
        t0 := o.t;
        t1 := t0 + RESCALE_THRESHOLD;
        values.Rescale(factor);
      }
    }

    /** The same, and if the samples were drawn from what has been seen, they still are. */
    method UpdateDrawn(o: Observation, exp: real -> real, ghost seen: seq<Observation>)
      requires Valid() && o.random > 0.0
      modifies this, values, values.buf
      ensures Valid() && count == old(count) + 1
      ensures Exponential(exp) && AllDrawn(old(values.Contents()), exp, alpha, old(t0), seen) ==>
                AllDrawn(values.Contents(), exp, alpha, t0, seen + [o])
    {
      ghost var heap, landmark, rescale := values.Contents(), t0, o.t > t1;
      Update(o, exp);
      if Exponential(exp) && AllDrawn(heap, exp, alpha, landmark, seen) {
        UpdateKeepsDrawn(heap, reservoirSize, exp, alpha, landmark, seen, o, rescale);
      }
    }

    /** Any sequence of updates keeps a min-heap within the reservoir size, whose samples are observations weighted
        by their age at the current landmark. */
    method Run(observations: seq<Observation>, exp: real -> real, ghost seen: seq<Observation>)
      requires Valid() && forall i :: 0 <= i < |observations| ==> observations[i].random > 0.0
      modifies this, values, values.buf
      ensures Valid() && count == old(count) + |observations|
      ensures Exponential(exp) && AllDrawn(old(values.Contents()), exp, alpha, old(t0), seen) ==>
                AllDrawn(values.Contents(), exp, alpha, t0, seen + observations)
    {
      ghost var drawn := Exponential(exp) && AllDrawn(values.Contents(), exp, alpha, t0, seen);
      assert seen + observations[..0] == seen;
      for i := 0 to |observations|
        invariant Valid() && count == old(count) + i
        invariant drawn ==> AllDrawn(values.Contents(), exp, alpha, t0, seen + observations[..i])
      {
        UpdateDrawn(observations[i], exp, seen + observations[..i]);
        assert seen + observations[..i] + [observations[i]] == seen + observations[..i + 1];
      }
      assert observations[..|observations|] == observations;
    }
  }
}
