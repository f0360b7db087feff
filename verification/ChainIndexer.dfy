/**
  The chain indexer: a background worker indexes the canonical chain in sections
  of equal size.  It releases its lock while it reads a section, so reorganisation
  notices, queries and changes of the chain itself may fall between any two reads.
 */
module ChainIndexer {
  import opened ChainStore

  function Min(a: int, b: int): int { if a < b then a else b }

  function Max(a: int, b: int): int { if a > b then a else b }

  /** `base` is the n-th parent of h. */
  ghost predicate Descends(world: Store, base: Hash, h: Hash, n: nat)
    decreases n
  {
    if n == 0 then h == base else h in world && Descends(world, base, world[h].parent, n - 1)
  }

  /** The canonical entry at n is a header whose parent is the entry below. */
  predicate LinkedAt(world: Store, canon: Index, n: nat)
    requires n in canon
  {
    Has(world, canon[n], n) && (n > 0 ==> n - 1 in canon && world[canon[n]].parent == canon[n - 1])
  }

  /** The index is the line of some header: what it is between two chain updates. */
  ghost predicate LinkedIndex(world: Store, canon: Index) {
    forall n {:trigger LinkedAt(world, canon, n)} :: n in canon ==> LinkedAt(world, canon, n)
  }

  /** Going down from a canonical header stays canonical. */
  lemma {:induction false} DescendsCanonically(world: Store, canon: Index, base: Hash, n: nat, d: nat)
    requires LinkedIndex(world, canon) && n in canon && d <= n && Descends(world, base, canon[n], d)
    ensures n - d in canon && canon[n - d] == base
    decreases d
  {
    if d > 0 {
      assert LinkedAt(world, canon, n);
      DescendsCanonically(world, canon, base, n - 1, d - 1);
    }
  }

  /** What the worker is doing; the lock is held only inside its first and last step. */
  datatype Worker =
    | Idle
    | Reading(section: nat, oldHead: Hash, next: nat, lastHead: Hash)
    | Finished(section: nat, oldHead: Hash, newHead: Hash)
    | Failed(section: nat)

  /** The last block of a section. */
  function SectionEnd(size: nat, section: nat): int {
    (section + 1) * size - 1
  }

  /** Section heads exist exactly below the count, each the last block of its
      section and exactly one section above the one before. */
  ghost predicate Chained(world: Store, size: nat, heads: map<nat, Hash>, count: nat) {
    && (forall i: nat :: i in heads <==> i < count)
    && (forall i {:trigger IsSection(world, size, heads, i)} :: i in heads ==> IsSection(world, size, heads, i))
  }

  /** The head before a section: the zero hash before the first one. */
  ghost function Before(heads: map<nat, Hash>, i: nat): Hash
    requires i > 0 ==> i - 1 in heads
  {
    if i == 0 then ZERO_HASH else heads[i - 1]
  }

  ghost predicate IsSection(world: Store, size: nat, heads: map<nat, Hash>, i: nat) {
    && i in heads && (i > 0 ==> i - 1 in heads)
    && Has(world, heads[i], SectionEnd(size, i))
    && Descends(world, Before(heads, i), heads[i], size)
  }

  /** The worker's private view is consistent whatever happened meanwhile. */
  ghost predicate WorkerOk(world: Store, size: nat, count: nat, w: Worker) {
    match w
    case Idle => true
    case Failed(section) => count <= section
    case Reading(section, oldHead, next, lastHead) =>
      && count <= section && StartsAt(world, size, section, oldHead)
      && section * size <= next <= (section + 1) * size
      && Descends(world, oldHead, lastHead, next - section * size)
      && (next > section * size ==> Has(world, lastHead, next - 1))
    case Finished(section, oldHead, newHead) =>
      && count <= section && StartsAt(world, size, section, oldHead)
      && Has(world, newHead, SectionEnd(size, section)) && Descends(world, oldHead, newHead, size)
  }

  /** The head the section is built on: none for the first section. */
  ghost predicate StartsAt(world: Store, size: nat, section: nat, oldHead: Hash) {
    if section == 0 then oldHead == ZERO_HASH else oldHead in world
  }

  class ChainIndexer {
    const world: Store
    const sectionSize: nat
    const confirmsReq: nat

    var canon: Index
    var present: set<Hash>
    var storedSections: nat
    var knownSections: nat
    var heads: map<nat, Hash>
    var worker: Worker

    constructor (world: Store, sectionSize: nat, confirmsReq: nat)
      requires ZERO_HASH !in world && sectionSize > 0
      ensures Valid()
    {
      this.world, this.sectionSize, this.confirmsReq := world, sectionSize, confirmsReq;
      canon, present, storedSections, knownSections, heads, worker := map[], {}, 0, 0, map[], Idle;
    }

    ghost predicate Valid()
      reads this
    {
      && ZERO_HASH !in world && sectionSize > 0
      && Chained(world, sectionSize, heads, storedSections)
      && WorkerOk(world, sectionSize, storedSections, worker)
    }

    function SectionHead(section: int): Hash
      reads this
    {
      if section in heads then heads[section] else ZERO_HASH
    }

    /** The canonical header at a number is there and continues the given hash. */
    predicate Continues(number: nat, lastHead: Hash)
      reads this
    {
      && number in canon && canon[number] in present && Has(world, canon[number], number)
      && world[canon[number]].parent == lastHead
    }

    /** Drop the sections from a count on. */
    method SetValidSections(sections: nat)
      requires Valid() && sections <= storedSections
      modifies `storedSections, `heads
      ensures Valid() && storedSections == sections
      ensures Truncated(old(heads), sections, heads)
    {
      ghost var was := heads;
      while storedSections > sections
        invariant sections <= storedSections <= old(storedSections)
        invariant Truncated(was, storedSections, heads)
      {
        storedSections := storedSections - 1;
        heads := heads - {storedSections};
      }
      TruncatedChain(world, sectionSize, was, old(storedSections), sections, heads);
    }

    /** Roll back to the largest count whose last head is canonical.  On a linked
        index every remaining head is then canonical. */
    method VerifyLastHead()
      requires Valid()
      modifies `storedSections, `heads
      ensures Valid() && storedSections <= old(storedSections) && Truncated(old(heads), storedSections, heads)
      ensures storedSections > 0 ==> heads[storedSections - 1] == ReadCanonical(canon, SectionEnd(sectionSize, storedSections - 1))
      ensures forall k :: storedSections <= k < old(storedSections) ==>
                k in old(heads) && old(heads)[k] != ReadCanonical(canon, SectionEnd(sectionSize, k))
      ensures LinkedIndex(world, canon) ==> AllCanonical(sectionSize, heads, canon)
    {
      while storedSections > 0
        invariant Valid() && storedSections <= old(storedSections) && Truncated(old(heads), storedSections, heads)
        invariant forall k :: storedSections <= k < old(storedSections) ==>
                    k in old(heads) && old(heads)[k] != ReadCanonical(canon, SectionEnd(sectionSize, k))
        decreases storedSections
      {
        if SectionHead(storedSections - 1) == ReadCanonical(canon, SectionEnd(sectionSize, storedSections - 1)) {
          if LinkedIndex(world, canon) {
            CanonicalFromLast(world, sectionSize, heads, storedSections, canon);
          }
          return;
        }
        SetValidSections(storedSections - 1);
      }
    }

    /** A new head, or the common ancestor after a reorganisation. */
    method NewHead(head: nat, reorg: bool)
      requires Valid()
      modifies `storedSections, `knownSections, `heads
      ensures Valid() && storedSections <= old(storedSections) && Truncated(old(heads), storedSections, heads)
      ensures reorg ==> storedSections == Min(old(storedSections), (head + 1) / sectionSize)
      ensures reorg ==> forall i :: i in old(heads) && SectionEnd(sectionSize, i) <= head ==> i in heads
      ensures reorg ==> knownSections == Min(old(knownSections), (head + 1) / sectionSize)
      ensures !reorg ==> heads == old(heads) && storedSections == old(storedSections)
      ensures !reorg ==> knownSections == if head < confirmsReq then old(knownSections)
                                          else Max(old(knownSections), (head + 1 - confirmsReq) / sectionSize)
    {
      if reorg {
        var known := (head + 1) / sectionSize;
        if known < knownSections {
          knownSections := known;
        }
        if known < storedSections {
          SetValidSections(known);
        }
        forall i: nat | SectionEnd(sectionSize, i) <= head ensures i < known { SectionBelow(sectionSize, i, head); }
        return;
      }
      if head >= confirmsReq {
        var sections := (head + 1 - confirmsReq) / sectionSize;
        if sections > knownSections {
          knownSections := sections;
        }
      }
    }

    /** The query: the count, the last indexed block (which wraps around when nothing
        is indexed) and its hash. */
    method Sections() returns (count: nat, last: nat, head: Hash)
      requires Valid()
      modifies `storedSections, `heads
      ensures Valid() && count == storedSections && storedSections <= old(storedSections)
      ensures count > 0 ==> last == SectionEnd(sectionSize, count - 1) && head == heads[count - 1] && head == ReadCanonical(canon, last)
      ensures count == 0 ==> last == 0xFFFF_FFFF_FFFF_FFFF && head == ZERO_HASH
      ensures LinkedIndex(world, canon) ==> AllCanonical(sectionSize, heads, canon)
    {
      VerifyLastHead();
      count := storedSections;
      last := if count == 0 then 0xFFFF_FFFF_FFFF_FFFF else count * sectionSize - 1;
      head := SectionHead(count - 1);
    }

    /** Worker, lock held: pick the next section and the head it must continue. */
    method Begin()
      requires Valid()
      modifies `storedSections, `heads, `worker
      ensures Valid() && storedSections <= old(storedSections) && Truncated(old(heads), storedSections, heads)
      ensures if old(worker).Idle? && knownSections > old(storedSections)
              then worker == Reading(storedSections, Before(heads, storedSections), storedSections * sectionSize, Before(heads, storedSections))
                && (LinkedIndex(world, canon) ==> AllCanonical(sectionSize, heads, canon))
              else worker == old(worker) && heads == old(heads)
      ensures old(worker).Idle? && AllCanonical(sectionSize, old(heads), canon) ==> heads == old(heads)
    {
      if worker.Idle? && knownSections > storedSections {
        VerifyLastHead();
        NothingDropped(world, sectionSize, old(heads), old(storedSections), storedSections, heads, canon);
        var section := storedSections;
        var oldHead := if section > 0 then SectionHead(section - 1) else ZERO_HASH;
        if section > 0 {
          assert IsSection(world, sectionSize, heads, section - 1);
        }
        worker := Reading(section, oldHead, section * sectionSize, oldHead);
      }
    }

    /** Worker, unlocked: the backend refuses to start, everything is dropped. */
    method ResetFails()
      requires Valid()
      modifies `storedSections, `heads, `worker
      ensures Valid()
      ensures if old(worker).Reading? then worker == Failed(old(worker).section) && storedSections == 0 && heads == map[]
              else worker == old(worker) && storedSections == old(storedSections) && heads == old(heads)
    {
      if worker.Reading? {
        SetValidSections(0);
        worker := Failed(worker.section);
      }
    }

    /** Worker, unlocked: read one header of the chain as it is now. */
    method ReadNext(processed: bool)
      requires Valid()
      modifies `worker
      ensures Valid()
      ensures worker == if !old(worker).Reading? || old(worker).next == (old(worker).section + 1) * sectionSize then old(worker)
                        else if processed && Continues(old(worker).next, old(worker).lastHead)
                        then old(worker).(next := old(worker).next + 1, lastHead := canon[old(worker).next])
                        else Failed(old(worker).section)
    {
      if worker.Reading? && worker.next < (worker.section + 1) * sectionSize {
        var hash := ReadCanonical(canon, worker.next);
        if hash == ZERO_HASH || hash !in present || !Has(world, hash, worker.next)
           || world[hash].parent != worker.lastHead || !processed {
          worker := Failed(worker.section);
        } else {
          DescendsOneMore(world, worker.oldHead, hash, worker.next - worker.section * sectionSize);
          worker := worker.(next := worker.next + 1, lastHead := hash);
        }
      }
    }

    /** Worker, unlocked: the whole section is read and the backend commits, or not. */
    method Commit(committed: bool)
      requires Valid()
      modifies `worker
      ensures Valid()
      ensures worker == if !old(worker).Reading? || old(worker).next < (old(worker).section + 1) * sectionSize then old(worker)
                        else if committed then Finished(old(worker).section, old(worker).oldHead, old(worker).lastHead)
                        else Failed(old(worker).section)
    {
      if worker.Reading? && worker.next == (worker.section + 1) * sectionSize {
        FullSection(sectionSize, worker.section);
        worker := if committed then Finished(worker.section, worker.oldHead, worker.lastHead) else Failed(worker.section);
      }
    }

    /** Worker, lock held again: store the section if its base is still in place. */
    method Finish()
      requires Valid()
      modifies `storedSections, `knownSections, `heads, `worker
      ensures Valid()
      ensures worker == if old(worker).Reading? then old(worker) else Idle
      ensures old(worker).Finished? && (old(worker).section == 0 || old(worker).oldHead == old(SectionHead(worker.section - 1))) ==>
                && old(storedSections) == old(worker).section && storedSections == old(worker).section + 1
                && heads == old(heads)[old(worker).section := old(worker).newHead] && knownSections == old(knownSections)
      ensures old(worker).Failed? || (old(worker).Finished? && old(worker).section > 0 && old(worker).oldHead != old(SectionHead(worker.section - 1))) ==>
                && knownSections == storedSections <= old(storedSections) && Truncated(old(heads), storedSections, heads)
                && (LinkedIndex(world, canon) ==> AllCanonical(sectionSize, heads, canon))
    {
      if worker.Finished? && (worker.section == 0 || worker.oldHead == SectionHead(worker.section - 1)) {
        NextSection(world, sectionSize, heads, storedSections, worker.section, worker.oldHead, worker.newHead);
        heads := heads[worker.section := worker.newHead];
        storedSections := worker.section + 1;
        worker := Idle;
      } else if worker.Finished? || worker.Failed? {
        VerifyLastHead();
        knownSections := storedSections;
        worker := Idle;
      }
    }

    /** The reading loop when nothing interferes and the chain is complete. */
    method ReadSection()
      requires Valid() && worker.Reading? && LinkedIndex(world, canon) && worker.next == worker.section * sectionSize
      requires forall n: nat :: n < (worker.section + 1) * sectionSize ==> n in canon && canon[n] in present
      requires worker.lastHead == if worker.next == 0 then ZERO_HASH else canon[worker.next - 1]
      requires canon[0] in world && world[canon[0]].parent == ZERO_HASH
      modifies `worker
      ensures Valid() && worker.Reading? && worker.section == old(worker).section && worker.oldHead == old(worker).oldHead
      ensures worker.next == (worker.section + 1) * sectionSize && worker.lastHead == canon[worker.next - 1]
    {
      var end := (worker.section + 1) * sectionSize;
      while worker.next < end
        invariant Valid() && worker.Reading? && worker.section == old(worker).section && worker.oldHead == old(worker).oldHead
        invariant worker.next <= end && worker.lastHead == if worker.next == 0 then ZERO_HASH else canon[worker.next - 1]
        decreases end - worker.next
      {
        assert LinkedAt(world, canon, worker.next);
        ReadNext(true);
      }
    }

    /** When nothing interferes and the chain is complete, one round of the worker
        indexes one more section, and all sections are canonical. */
    method IndexUndisturbed()
      requires Valid() && worker == Idle && knownSections > storedSections
      requires LinkedIndex(world, canon) && AllCanonical(sectionSize, heads, canon)
      requires forall n: nat :: n < (storedSections + 1) * sectionSize ==> n in canon && canon[n] in present
      requires 0 in canon && canon[0] in world && world[canon[0]].parent == ZERO_HASH
      modifies `storedSections, `knownSections, `heads, `worker
      ensures Valid() && worker == Idle && storedSections == old(storedSections) + 1
      ensures heads == old(heads)[old(storedSections) := canon[SectionEnd(sectionSize, old(storedSections))]]
      ensures AllCanonical(sectionSize, heads, canon)
    {
      ghost var section := storedSections;
      LastHeadIsCanonical(world, sectionSize, heads, section, canon);
      Begin();
      ReadSection();
      Commit(true);
      Finish();
    }

    /** The chain itself, changed by others at any moment. */
    method ChangeChain(canon: Index, present: set<Hash>)
      requires Valid()
      modifies `canon, `present
      ensures Valid() && this.canon == canon && this.present == present
    {
      this.canon, this.present := canon, present;
    }

    /** Every interleaving of these steps keeps the section heads chained. */
    method Run(steps: seq<Step>)
      requires Valid()
      modifies this
      ensures Valid()
    {
      for i := 0 to |steps|
        invariant Valid()
      {
        match steps[i]
        case Notify(head, reorg) => NewHead(head, reorg);
        case Query => var _, _, _ := Sections();
        case ChainMoves(canon, present) => ChangeChain(canon, present);
        case BeginSection => Begin();
        case BackendRefuses => ResetFails();
        case ReadHeader(processed) => ReadNext(processed);
        case CommitSection(committed) => Commit(committed);
        case FinishSection => Finish();
      }
    }
  }

  datatype Step =
    | Notify(head: nat, reorg: bool)
    | Query
    | ChainMoves(canon: Index, present: set<Hash>)
    | BeginSection
    | BackendRefuses
    | ReadHeader(processed: bool)
    | CommitSection(committed: bool)
    | FinishSection

  /** Every stored head is the canonical hash at its section's end. */
  ghost predicate AllCanonical(size: nat, heads: map<nat, Hash>, canon: Index)
    requires size > 0
  {
    forall i :: i in heads ==> SectionEnd(size, i) >= 0 && heads[i] == ReadCanonical(canon, SectionEnd(size, i))
  }

  lemma SectionBelow(size: nat, i: nat, head: nat)
    requires size > 0 && SectionEnd(size, i) <= head
    ensures i < (head + 1) / size
  {
    assert (i + 1) * size <= head + 1;
  }

  lemma FullSection(size: nat, section: nat)
    ensures (section + 1) * size - section * size == size
  {
  }

  lemma DescendsOneMore(world: Store, base: Hash, h: Hash, n: nat)
    requires h in world && Descends(world, base, world[h].parent, n)
    ensures Descends(world, base, h, n + 1)
  {
  }

  /** If the last head is canonical, so are all below: each is one section down. */
  lemma {:induction false} CanonicalFromLast(world: Store, size: nat, heads: map<nat, Hash>, count: nat, canon: Index)
    requires ZERO_HASH !in world && size > 0 && Chained(world, size, heads, count) && LinkedIndex(world, canon) && count > 0
    requires heads[count - 1] == ReadCanonical(canon, SectionEnd(size, count - 1))
    ensures AllCanonical(size, heads, canon)
  {
    forall i | i in heads
      ensures SectionEnd(size, i) >= 0 && heads[i] == ReadCanonical(canon, SectionEnd(size, i))
    {
      CanonicalBelow(world, size, heads, count, canon, count - 1, i);
    }
  }

  lemma {:induction false} CanonicalBelow(world: Store, size: nat, heads: map<nat, Hash>, count: nat, canon: Index, k: nat, i: nat)
    requires ZERO_HASH !in world && size > 0 && Chained(world, size, heads, count) && LinkedIndex(world, canon)
    requires i <= k < count && heads[k] == ReadCanonical(canon, SectionEnd(size, k))
    ensures SectionEnd(size, i) >= 0 && heads[i] == ReadCanonical(canon, SectionEnd(size, i))
    decreases k
  {
    if i < k {
      assert IsSection(world, size, heads, k);
      assert SectionEnd(size, k) - size == SectionEnd(size, k - 1);
      DescendsCanonically(world, canon, heads[k - 1], SectionEnd(size, k), size);
      CanonicalBelow(world, size, heads, count, canon, k - 1, i);
    }
  }

  /** The recheck after processing: if the base head is unchanged the new section is
      the next one, even though the lock was released. */
  lemma NextSection(world: Store, size: nat, heads: map<nat, Hash>, count: nat, section: nat, oldHead: Hash, newHead: Hash)
    requires ZERO_HASH !in world && Chained(world, size, heads, count)
    requires WorkerOk(world, size, count, Finished(section, oldHead, newHead))
    requires section > 0 ==> oldHead == if section - 1 in heads then heads[section - 1] else ZERO_HASH
    ensures section == count && Chained(world, size, heads[section := newHead], count + 1)
  {
    var more := heads[section := newHead];
    forall i {:trigger IsSection(world, size, more, i)} | i in more
      ensures IsSection(world, size, more, i)
    {
      if i != section {
        assert IsSection(world, size, heads, i);
      }
    }
  }

  /** `fewer` holds the entries of `heads` below a count. */
  ghost predicate Truncated(heads: map<nat, Hash>, count: nat, fewer: map<nat, Hash>) {
    && (forall i :: i in fewer <==> i in heads && i < count)
    && (forall i :: i in fewer ==> fewer[i] == heads[i])
  }

  /** Verification drops nothing from an index that is canonical throughout. */
  lemma NothingDropped(world: Store, size: nat, was: map<nat, Hash>, count: nat, left: nat, heads: map<nat, Hash>, canon: Index)
    requires size > 0 && Chained(world, size, was, count) && left <= count && Truncated(was, left, heads)
    requires forall k :: left <= k < count ==> k in was && was[k] != ReadCanonical(canon, SectionEnd(size, k))
    ensures AllCanonical(size, was, canon) ==> heads == was && left == count
  {
    if AllCanonical(size, was, canon) {
      assert left < count ==> left in was;
      assert heads == was;
    }
  }

  /** The head before the next section is the canonical block just below it. */
  lemma LastHeadIsCanonical(world: Store, size: nat, heads: map<nat, Hash>, count: nat, canon: Index)
    requires size > 0 && Chained(world, size, heads, count) && AllCanonical(size, heads, canon)
    requires forall n: nat :: n < (count + 1) * size ==> n in canon
    ensures Before(heads, count) == if count * size == 0 then ZERO_HASH else canon[count * size - 1]
  {
    if count > 0 {
      assert count - 1 in heads;
      assert SectionEnd(size, count - 1) == count * size - 1;
      assert count * size <= (count + 1) * size;
    }
  }

  lemma TruncatedChain(world: Store, size: nat, heads: map<nat, Hash>, count: nat, sections: nat, fewer: map<nat, Hash>)
    requires Chained(world, size, heads, count) && sections <= count && Truncated(heads, sections, fewer)
    ensures Chained(world, size, fewer, sections)
  {
    forall i {:trigger IsSection(world, size, fewer, i)} | i in fewer
      ensures IsSection(world, size, fewer, i)
    {
      assert IsSection(world, size, heads, i);
    }
  }
}
