/**
  The header chain: switching the canonical header line in one batch, importing
  header segments, and rewinding to a block or a time.
 */
module HeaderChain {
  import opened ChainStore
  import Rewinding = HeaderRewind

  /** A stored run of headers, each the parent of the next. */
  ghost predicate LinkedSegment(s: Store, hashes: seq<Hash>) {
    && (forall i :: 0 <= i < |hashes| ==> hashes[i] in s)
    && (forall i :: 0 < i < |hashes| ==> LinksTo(s, hashes[i], hashes[i - 1]))
  }

  ghost predicate LinksTo(s: Store, child: Hash, parent: Hash)
    requires child in s && parent in s
  {
    s[child].parent == parent && s[child].number == s[parent].number + 1
  }

  /** The headers of a linked segment lie on the line of its last one. */
  lemma {:induction false} SegmentOnLine(s: Store, hashes: seq<Hash>, i: nat)
    requires LinkedSegment(s, hashes) && i < |hashes|
    ensures var last := hashes[|hashes| - 1];
            && s[hashes[i]].number == s[last].number - (|hashes| - 1 - i)
            && s[hashes[i]].number in Line(s, last) && Line(s, last)[s[hashes[i]].number] == hashes[i]
    decreases |hashes| - i
  {
    if i < |hashes| - 1 {
      SegmentOnLine(s, hashes, i + 1);
      assert LinksTo(s, hashes[i + 1], hashes[i]);
      LineStep(s, hashes[|hashes| - 1], s[hashes[i + 1]].number);
    }
  }

  /** The walk back from the first header of an import to the cross link with the
      canonical index.  `pending` collects the writes; all reads see `canon`. */
  method CrossLink(s: Store, canon: Index, pending: Index, first: Hash) returns (linked: bool, result: Index)
    requires first in s && ZERO_HASH !in s
    requires forall n :: n in canon ==> Has(s, canon[n], n)
    ensures linked <==> Rooted(s, first) || exists n :: n in canon && n in Line(s, first) && canon[n] == Line(s, first)[n]
    ensures linked ==> exists c: int :: IsCrossLink(s, canon, pending, first, c, result)
  {
    result := pending;
    var header := first;
    ghost var line := Line(s, first);
    while ReadCanonical(canon, s[header].number) != header
      invariant header in s && s[header].number in line && line[s[header].number] == header
      invariant forall n :: n in canon && n in line && n > s[header].number ==> canon[n] != line[n]
      invariant Overwritten(pending, line, s[header].number, s[first].number, result)
      decreases s[header].number
    {
      result := result[s[header].number := header];
      LineStep(s, first, s[header].number);
      if s[header].number == 0 {
        assert IsCrossLink(s, canon, pending, first, -1, result);
        return true, result;
      }
      if !Has(s, s[header].parent, s[header].number - 1) {
        forall n | n in line && n < s[header].number ensures false { LineContiguous(s, first, n, s[header].number - 1); }
        return false, result;
      }
      header := s[header].parent;
    }
    assert IsCrossLink(s, canon, pending, first, s[header].number, result);
    linked := true;
  }

  /** `result` is `pending` with the line's entries above c, up to `top`. */
  ghost predicate Overwritten(pending: Index, line: Index, c: int, top: nat, result: Index) {
    forall n :: if c < n <= top
      then n in line && n in result && result[n] == line[n]
      else (n in result <==> n in pending) && (n in pending ==> result[n] == pending[n])
  }

  /** The walk stopped at c: there the line meets the index, or it is exhausted. */
  ghost predicate IsCrossLink(s: Store, canon: Index, pending: Index, first: Hash, c: int, result: Index)
    requires first in s
  {
    && Overwritten(pending, Line(s, first), c, s[first].number, result)
    && -1 <= c <= s[first].number
    && (c >= 0 ==> c in canon && c in Line(s, first) && canon[c] == Line(s, first)[c])
  }

  /** The canonical entries of a segment, written first to last. */
  function WriteSegment(pending: Index, s: Store, hashes: seq<Hash>): Index
    requires forall i :: 0 <= i < |hashes| ==> hashes[i] in s
  {
    if hashes == [] then pending
    else
      var k := |hashes| - 1;
      WriteSegment(pending, s, hashes[..k])[s[hashes[k]].number := hashes[k]]
  }

  lemma {:induction false} SegmentEntries(pending: Index, s: Store, hashes: seq<Hash>, n: nat)
    requires LinkedSegment(s, hashes) && hashes != []
    ensures var result, lo := WriteSegment(pending, s, hashes), s[hashes[0]].number;
            if lo <= n < lo + |hashes| then n in result && result[n] == hashes[n - lo]
            else (n in result <==> n in pending) && (n in pending ==> result[n] == pending[n])
  {
    var k := |hashes| - 1;
    SegmentOnLine(s, hashes, 0);
    if k > 0 {
      SegmentEntries(pending, s, hashes[..k], n);
    }
  }

  /** Entries below the segment agree with its line and none lies above: then
      writing the segment gives exactly the line of its last header. */
  lemma SegmentCompletes(base: Index, s: Store, hashes: seq<Hash>)
    requires LinkedSegment(s, hashes) && hashes != []
    requires forall n :: n < s[hashes[0]].number ==>
               (n in base <==> n in Line(s, hashes[0])) && (n in base ==> base[n] == Line(s, hashes[0])[n])
    requires forall n :: n in base ==> n <= s[hashes[|hashes| - 1]].number
    ensures WriteSegment(base, s, hashes) == Line(s, hashes[|hashes| - 1])
  {
    var last, lo := hashes[|hashes| - 1], s[hashes[0]].number;
    var line := Line(s, last);
    SegmentOnLine(s, hashes, 0);
    LineOfElement(s, last, lo);
    forall n: nat
      ensures n in WriteSegment(base, s, hashes) <==> n in line
      ensures n in line ==> WriteSegment(base, s, hashes)[n] == line[n]
    {
      SegmentEntries(base, s, hashes, n);
      if n < lo {
        assert n in Line(s, hashes[0]) <==> n in Prefix(line, lo);
        if n in line {
          assert Line(s, hashes[0])[n] == Prefix(line, lo)[n];
        }
      } else if n < lo + |hashes| {
        SegmentOnLine(s, hashes, n - lo);
      }
    }
  }

  /** After the walk back, the entries below the first header are its line's. */
  lemma CrossLinked(s: Store, cur: Hash, first: Hash, top: nat, c: int, result: Index)
    requires cur in s && first in s && s[first].number <= top
    requires IsCrossLink(s, Line(s, cur), Prefix(Line(s, cur), top), first, c, result)
    ensures forall n :: n < s[first].number ==>
              (n in result <==> n in Line(s, first)) && (n in result ==> result[n] == Line(s, first)[n])
    ensures forall n :: n in result ==> n <= top
  {
    if c >= 0 {
      LineOfElement(s, cur, c);
      LineOfElement(s, first, c);
      assert Prefix(Line(s, cur), c) == Prefix(Line(s, first), c);
      forall n: nat | n <= c
        ensures n in Line(s, cur) <==> n in Line(s, first)
        ensures n in Line(s, cur) ==> Line(s, cur)[n] == Line(s, first)[n]
      {
        assert n in Prefix(Line(s, cur), c) <==> n in Prefix(Line(s, first), c);
        if n in Line(s, cur) {
          assert Prefix(Line(s, cur), c)[n] == Prefix(Line(s, first), c)[n];
        }
      }
    }
  }

  /** A header's number is one above that of its parent, if that is known. */
  predicate NumberFollows(s: Store, h: Hash)
    requires h in s
  {
    s[h].parent in s ==> s[h].number == s[s[h].parent].number + 1
  }

  /** Content addressing: every hash names one header, and validated headers count
      up from their parents. */
  ghost predicate World(world: Store) {
    ZERO_HASH !in world && forall h {:trigger NumberFollows(world, h)} :: h in world ==> NumberFollows(world, h)
  }

  ghost predicate Within(s: Store, world: Store) {
    forall h :: h in s ==> h in world && s[h] == world[h]
  }

  /** The store with the headers of these names added. */
  function Merge(s: Store, world: Store, hashes: seq<Hash>): (t: Store)
    requires forall i :: 0 <= i < |hashes| ==> hashes[i] in world
    ensures forall h :: h in t <==> h in s || h in hashes
    ensures forall h :: h in s && h !in hashes ==> t[h] == s[h]
    ensures forall h :: h in hashes ==> t[h] == world[h]
  {
    if hashes == [] then s
    else
      var k := |hashes| - 1;
      Merge(s, world, hashes[..k])[hashes[k] := world[hashes[k]]]
  }

  /** How many leading headers of a segment are already stored. */
  function KnownPrefix(s: Store, hashes: seq<Hash>): (k: nat)
    ensures k <= |hashes|
    ensures forall i :: 0 <= i < k ==> hashes[i] in s
    ensures k < |hashes| ==> hashes[k] !in s
  {
    if hashes == [] || hashes[0] !in s then 0 else 1 + KnownPrefix(s, hashes[1..])
  }

  /** What a sync does: import a segment, perhaps interrupted, or rewind. */
  datatype Step = Import(hashes: seq<Hash>, interrupted: bool) | Rewind(aim: Rewinding.Target, update: Rewinding.UpdateFn)

  ghost predicate OneGenesis(s: Store, genesis: Hash) {
    genesis in s && s[genesis].number == 0 && forall h :: h in s && s[h].number == 0 ==> h == genesis
  }

  /** The segment continues a stored header. */
  predicate Attaches(s: Store, world: Store, hashes: seq<Hash>) {
    hashes != [] && hashes[0] in world && world[hashes[0]].number > 0 && Has(s, world[hashes[0]].parent, world[hashes[0]].number - 1)
  }

  /** Adding a segment that continues a stored header leaves no parent missing. */
  lemma MergeComplete(s: Store, world: Store, hashes: seq<Hash>, genesis: Hash)
    requires Within(s, world) && LinkedSegment(world, hashes) && Attaches(s, world, hashes)
    requires ParentClosed(s) && OneGenesis(s, genesis)
    ensures ParentClosed(Merge(s, world, hashes)) && OneGenesis(Merge(s, world, hashes), genesis)
  {
    var t := Merge(s, world, hashes);
    forall i: nat | i < |hashes| ensures world[hashes[i]].number > 0 && Has(t, world[hashes[i]].parent, world[hashes[i]].number - 1) {
      if i > 0 {
        assert LinksTo(world, hashes[i], hashes[i - 1]);
        assert hashes[i - 1] in hashes;
      }
    }
    forall h {:trigger ParentStored(t, h)} | h in t ensures ParentStored(t, h) {
      if h in hashes {
        var i :| 0 <= i < |hashes| && hashes[i] == h;
      } else {
        assert ParentStored(s, h);
      }
    }
    assert forall h :: h in hashes ==> t[h].number > 0;
  }

  datatype ImportOutcome = Aborted | MissingParent | AlreadyCanonical | Canonical

  class HeaderChain {
    const world: Store
    var headers: Store
    var canon: Index
    var current: Hash

    constructor (world: Store, genesis: Hash)
      requires World(world) && genesis in world && world[genesis].number == 0
      ensures Exact() && this.world == world && headers == map[genesis := world[genesis]] && current == genesis
    {
      this.world := world;
      headers, canon, current := map[genesis := world[genesis]], map[0 := genesis], genesis;
    }

    /** The index holds exactly the current header's ancestors, down to block 0. */
    ghost predicate Exact()
      reads this
    {
      && World(world) && Within(headers, world)
      && Rooted(headers, current) && canon == Line(headers, current)
    }

    /** Succeeds exactly when the segment's line reaches block 0 in the store, and
        then the index is exactly the last header's line; otherwise nothing changes. */
    method Reorg(hashes: seq<Hash>) returns (ok: bool)
      requires Exact() && LinkedSegment(headers, hashes)
      modifies `canon, `current
      ensures Exact()
      ensures ok == (hashes == [] || Rooted(headers, hashes[0]))
      ensures current == if ok && hashes != [] then hashes[|hashes| - 1] else old(current)
    {
      if |hashes| == 0 {
        return true;
      }
      var first, last := hashes[0], hashes[|hashes| - 1];
      SegmentOnLine(headers, hashes, 0);
      assert headers[first].parent == current ==> NumberFollows(world, first);
      var base;
      ok, base := Backtrack(headers, canon, current, first, headers[last].number);
      if ok {
        SegmentCompletes(base, headers, hashes);
        SegmentRooted(headers, hashes);
        canon := PileUp(headers, base, hashes);
        current := last;
      }
    }

    /** Stores the headers from the first unknown one on, in one batch that an
        interrupt drops; the canonical line is not touched. */
    method WriteHeaders(hashes: seq<Hash>, interrupted: bool) returns (ok: bool, inserted: nat)
      requires Exact() && LinkedSegment(world, hashes)
      modifies `headers
      ensures Exact() && ok == (hashes == [] || !interrupted)
      ensures headers == if ok then Merge(old(headers), world, hashes) else old(headers)
      ensures inserted == if ok then |hashes| - KnownPrefix(old(headers), hashes) else 0
    {
      if |hashes| == 0 {
        return true, 0;
      }
      var pending;
      pending, inserted := HeaderBatch(headers, world, hashes);
      if interrupted {
        return false, 0;
      }
      LineOfLarger(headers, pending, current);
      headers := pending;
      ok := true;
    }

    /** Import a segment and make its last header current, unless it already is
        canonical.  Whatever the outcome, the index stays exact. */
    method WriteHeadersAndSetHead(hashes: seq<Hash>, interrupted: bool) returns (outcome: ImportOutcome)
      requires Exact() && LinkedSegment(world, hashes) && hashes != []
      modifies `headers, `canon, `current
      ensures Exact() && outcome.Aborted? == interrupted
      ensures headers == if interrupted then old(headers) else Merge(old(headers), world, hashes)
      ensures current == if outcome.Canonical? then hashes[|hashes| - 1] else old(current)
      ensures !outcome.Canonical? ==> canon == old(canon)
      ensures outcome.Canonical? || outcome.AlreadyCanonical? ==>
                var last := hashes[|hashes| - 1]; last in headers && ReadCanonical(canon, headers[last].number) == last
      ensures !interrupted ==> (outcome.MissingParent? <==> !Rooted(headers, hashes[0]))
    {
      var ok, inserted := WriteHeaders(hashes, interrupted);
      if !ok {
        return Aborted;
      }
      var last := hashes[|hashes| - 1];
      assert LinkedSegment(headers, hashes) by { StoredSegment(old(headers), world, hashes); }
      if ReadCanonical(canon, headers[last].number) == last && headers[last].number <= headers[current].number {
        SegmentBelowRooted(headers, hashes, current);
        return AlreadyCanonical;
      }
      ok := Reorg(hashes);
      return if ok then Canonical else MissingParent;
    }

    /** Rewind to a block or a time.  The index stays exact; headers and entries above
        the new head are gone, and if the target was already met nothing changes. */
    method SetHead(genesis: Hash, aim: Rewinding.Target, update: Rewinding.UpdateFn)
      returns (target: Rewinding.Target, ghost answers: seq<(Header, bool)>, ghost first: nat)
      requires Exact() && ParentClosed(headers)
      requires genesis in headers && headers[genesis].number == 0
      requires forall h :: h in headers && headers[h].number == 0 ==> h == genesis
      requires aim.time > 0 ==> headers[genesis].time <= aim.time
      modifies `headers, `canon, `current
      ensures Exact() && ParentClosed(headers)
      ensures current in old(headers) && Rewinding.Done(headers[current], target)
      ensures |answers| == old(headers)[old(current)].number - headers[current].number
      ensures Rewinding.Asked(old(headers), old(canon), old(headers)[old(current)].number, update, answers)
      ensures Rewinding.Retargeted(aim, target, answers, first)
      ensures aim.time == 0 ==>
                && headers[current].number <= aim.block
                && forall i :: 0 <= i < |answers| && answers[i].1 ==> headers[current].number <= answers[i].0.number
      ensures aim.time > 0 && first == |answers| ==> headers[current].time <= aim.time
      ensures aim.time > 0 ==> forall i :: first <= i < |answers| && answers[i].1 ==> headers[current].number <= answers[i].0.number
      ensures canon == Prefix(old(canon), headers[current].number) && ReadCanonical(old(canon), headers[current].number) == current
      ensures headers == if Rewinding.Done(old(headers)[old(current)], aim) then old(headers)
                         else Rewinding.UpTo(old(headers), headers[current].number)
    {
      var s, index, head;
      s, index, head, target, answers, first := Rewinding.Rewind(headers, canon, current, genesis, aim, update);
      LineOfElement(headers, current, headers[head].number);
      ClosedIsRooted(s, head);
      LineOfLarger(s, headers, head);
      assert Prefix(canon, headers[current].number) == canon;
      headers, canon, current := s, index, head;
    }

    /** An exact index over a store with every parent and one block 0. */
    ghost predicate Complete(genesis: Hash)
      reads this
    {
      Exact() && ParentClosed(headers) && OneGenesis(headers, genesis)
    }

    /** Any run of imports whose first parent is stored, and rewinds, to a block or a time, with any callback. */
    method Sync(genesis: Hash, steps: seq<Step>)
      requires Complete(genesis)
      requires forall i :: 0 <= i < |steps| && steps[i].Import? ==> LinkedSegment(world, steps[i].hashes)
      modifies `headers, `canon, `current
      ensures Complete(genesis)
    {
      for i := 0 to |steps|
        invariant Complete(genesis)
      {
        match steps[i]
        case Import(hashes, interrupted) =>
          if Attaches(headers, world, hashes) {
            MergeComplete(headers, world, hashes, genesis);
            var _ := WriteHeadersAndSetHead(hashes, interrupted);
          }
        case Rewind(aim, update) =>
          if aim.time == 0 || headers[genesis].time <= aim.time {
            var _, _, _ := SetHead(genesis, aim, update);
          }
      }
    }

    /** Any run of header imports, interrupted or not. */
    method Run(imports: seq<(seq<Hash>, bool)>)
      requires Exact()
      requires forall i :: 0 <= i < |imports| ==> imports[i].0 != [] && LinkedSegment(world, imports[i].0)
      modifies `headers, `canon, `current
      ensures Exact()
    {
      for i := 0 to |imports|
        invariant Exact()
      {
        var _ := WriteHeadersAndSetHead(imports[i].0, imports[i].1);
      }
    }
  }

  lemma StoredSegment(s: Store, world: Store, hashes: seq<Hash>)
    requires LinkedSegment(world, hashes)
    ensures LinkedSegment(Merge(s, world, hashes), hashes)
  {
    var t := Merge(s, world, hashes);
    forall i | 0 < i < |hashes|
      ensures LinksTo(t, hashes[i], hashes[i - 1])
    {
      assert LinksTo(world, hashes[i], hashes[i - 1]);
    }
  }

  /** A segment that ends on a rooted line is itself rooted. */
  lemma SegmentBelowRooted(s: Store, hashes: seq<Hash>, cur: Hash)
    requires LinkedSegment(s, hashes) && hashes != [] && Rooted(s, cur)
    requires var last := hashes[|hashes| - 1]; s[last].number in Line(s, cur) && Line(s, cur)[s[last].number] == last
    ensures Rooted(s, hashes[0])
  {
    var last := hashes[|hashes| - 1];
    SegmentOnLine(s, hashes, 0);
    LineOfElement(s, cur, s[last].number);
    assert 0 in Prefix(Line(s, cur), s[last].number);
    LineOfElement(s, last, s[hashes[0]].number);
    assert 0 in Prefix(Line(s, last), s[hashes[0]].number);
  }

  /** The index under the new segment: stale entries above it deleted, entries
      below replaced back to the cross link, unless it extends the current header. */
  method Backtrack(s: Store, canon: Index, cur: Hash, first: Hash, top: nat) returns (ok: bool, base: Index)
    requires Rooted(s, cur) && canon == Line(s, cur) && first in s && ZERO_HASH !in s && s[first].number <= top
    requires s[first].parent == cur ==> s[first].number == s[cur].number + 1
    ensures ok == Rooted(s, first)
    ensures ok ==> forall n :: n < s[first].number ==>
              (n in base <==> n in Line(s, first)) && (n in base ==> base[n] == Line(s, first)[n])
    ensures ok ==> forall n :: n in base ==> n <= top
  {
    if s[first].parent == cur {
      return true, canon;
    }
    forall n, m: nat | n in canon && top < m <= n ensures m in canon { LineContiguous(s, cur, 0, m); }
    ghost var gap;
    base, gap := DeleteAbove(canon, top);
    ok, base := CrossLink(s, canon, base, first);
    CrossLinkIsRooted(s, cur, first);
    if ok {
      ghost var c :| IsCrossLink(s, canon, Prefix(canon, top), first, c, base);
      CrossLinked(s, cur, first, top, c, base);
    }
  }

  /** Adding a header that is stored already changes nothing. */
  lemma MergeKnown(s: Store, world: Store, hashes: seq<Hash>, hash: Hash)
    requires Within(s, world) && forall i :: 0 <= i < |hashes| ==> hashes[i] in world
    requires hash in s
    ensures Merge(s, world, hashes)[hash := world[hash]] == Merge(s, world, hashes)
  {
  }

  /** The batch of `WriteHeaders`: from the first unknown header on, all are written. */
  method HeaderBatch(s: Store, world: Store, hashes: seq<Hash>) returns (pending: Store, inserted: nat)
    requires Within(s, world) && forall i :: 0 <= i < |hashes| ==> hashes[i] in world
    ensures pending == Merge(s, world, hashes) && inserted == |hashes| - KnownPrefix(s, hashes)
  {
    var parentKnown := true;
    pending, inserted := s, 0;
    ghost var k := KnownPrefix(s, hashes);
    for i := 0 to |hashes|
      invariant pending == Merge(s, world, hashes[..i])
      invariant parentKnown == (i <= k)
      invariant inserted == if i <= k then 0 else i - k
    {
      var hash := hashes[i];
      assert hashes[..i + 1][..i] == hashes[..i];
      var alreadyKnown := parentKnown && Has(s, hash, world[hash].number);
      if !alreadyKnown {
        pending := pending[hash := world[hash]];
        inserted := inserted + 1;
      } else {
        MergeKnown(s, world, hashes[..i], hash);
      }
      parentKnown := alreadyKnown;
    }
    assert hashes[..|hashes|] == hashes;
  }

  method PileUp(s: Store, base: Index, hashes: seq<Hash>) returns (pending: Index)
    requires forall i :: 0 <= i < |hashes| ==> hashes[i] in s
    ensures pending == WriteSegment(base, s, hashes)
  {
    pending := base;
    for i := 0 to |hashes|
      invariant pending == WriteSegment(base, s, hashes[..i])
    {
      assert hashes[..i + 1][..i] == hashes[..i];
      pending := pending[s[hashes[i]].number := hashes[i]];
    }
    assert hashes[..|hashes|] == hashes;
  }

  lemma SegmentRooted(s: Store, hashes: seq<Hash>)
    requires LinkedSegment(s, hashes) && hashes != [] && Rooted(s, hashes[0])
    ensures Rooted(s, hashes[|hashes| - 1])
  {
    var last := hashes[|hashes| - 1];
    SegmentOnLine(s, hashes, 0);
    LineOfElement(s, last, s[hashes[0]].number);
    assert 0 in Prefix(Line(s, last), s[hashes[0]].number);
  }

  /** A line that meets a rooted line is rooted itself. */
  lemma CrossLinkIsRooted(s: Store, cur: Hash, first: Hash)
    requires Rooted(s, cur) && first in s
    ensures (exists n :: n in Line(s, cur) && n in Line(s, first) && Line(s, cur)[n] == Line(s, first)[n]) ==> Rooted(s, first)
  {
    if n :| n in Line(s, cur) && n in Line(s, first) && Line(s, cur)[n] == Line(s, first)[n] {
      LineOfElement(s, cur, n);
      LineOfElement(s, first, n);
      assert 0 in Prefix(Line(s, cur), n);
    }
  }
}
