/**
  Canonical chain maintenance of the block chain: reorganisation to a new head,
  the number-to-hash index, the transaction lookup table and the head markers.
 */
module CanonicalChain {
  import opened ChainStore
  import opened Wrappers

  type Tx = nat

  type Bodies = map<Hash, seq<Tx>>

  type Lookup = map<Tx, nat>

  datatype ReorgError = HeadMissing | InvalidOldChain | InvalidNewChain

  datatype Fork =
    | Forked(common: Hash, oldChain: seq<Hash>, newChain: seq<Hash>)
    | NoFork(error: ReorgError)

  /** The two lines carry the same block at this number. */
  ghost predicate Shared(s: Store, a: Hash, b: Hash, n: nat)
    requires a in s && b in s
  {
    n in Line(s, a) && n in Line(s, b) && Line(s, a)[n] == Line(s, b)[n]
  }

  /** The block of h's line at a number. */
  ghost predicate At(s: Store, h: Hash, b: Hash, n: int)
    requires h in s
  {
    n in Line(s, h) && b == Line(s, h)[n]
  }

  /** `chain` lists, head first, the blocks of h's line strictly above `base`. */
  ghost predicate Segment(s: Store, h: Hash, chain: seq<Hash>, base: Hash) {
    && h in s && base in s
    && s[h].number == s[base].number + |chain|
    && s[base].number in Line(s, h) && Line(s, h)[s[base].number] == base
    && forall i {:trigger chain[i]} :: 0 <= i < |chain| ==> At(s, h, chain[i], s[h].number - i)
  }

  lemma SegmentDown(s: Store, h: Hash, chain: seq<Hash>, base: Hash)
    requires Segment(s, h, chain, base)
    ensures Has(s, s[base].parent, s[base].number - 1) ==> Segment(s, h, chain + [base], s[base].parent)
    ensures !Has(s, s[base].parent, s[base].number - 1) ==> forall n :: n in Line(s, h) ==> n >= s[base].number
  {
    LineStep(s, h, s[base].number);
    if Has(s, s[base].parent, s[base].number - 1) {
      var longer := chain + [base];
      forall i | 0 <= i < |longer|
        ensures At(s, h, longer[i], s[h].number - i)
      {
        if i < |chain| {
          assert longer[i] == chain[i];
        } else {
          assert longer[i] == base && s[h].number - i == s[base].number;
        }
      }
      assert Segment(s, h, longer, s[base].parent);
    } else {
      forall n | n in Line(s, h) && n < s[base].number
        ensures false
      {
        LineContiguous(s, h, n, s[base].number - 1);
      }
    }
  }

  /** The walk of `reorg` down to the common ancestor: it succeeds exactly when
      the stored lines of the two heads meet, and then stops at the highest
      block they share. */
  method FindFork(s: Store, oldHead: Hash, newHead: Hash) returns (r: Fork)
    requires newHead in s
    ensures r == NoFork(HeadMissing) <==> oldHead !in s
    ensures r.Forked? <==> oldHead in s && exists n: nat :: Shared(s, oldHead, newHead, n)
    ensures r.Forked? ==>
              && Segment(s, oldHead, r.oldChain, r.common)
              && Segment(s, newHead, r.newChain, r.common)
              && forall n: nat :: Shared(s, oldHead, newHead, n) ==> n <= s[r.common].number
  {
    if oldHead !in s {
      return NoFork(HeadMissing);
    }
    var oldBlock, newBlock := oldHead, newHead;
    var oldChain, newChain := [], [];
    if s[oldBlock].number > s[newBlock].number {
      while s[oldBlock].number != s[newBlock].number
        invariant Segment(s, oldHead, oldChain, oldBlock) && s[oldBlock].number >= s[newBlock].number
        decreases s[oldBlock].number
      {
        SegmentDown(s, oldHead, oldChain, oldBlock);
        if !Has(s, s[oldBlock].parent, s[oldBlock].number - 1) {
          return NoFork(InvalidOldChain);
        }
        oldChain := oldChain + [oldBlock];
        oldBlock := s[oldBlock].parent;
      }
    } else {
      while s[newBlock].number != s[oldBlock].number
        invariant Segment(s, newHead, newChain, newBlock) && s[newBlock].number >= s[oldBlock].number
        decreases s[newBlock].number
      {
        SegmentDown(s, newHead, newChain, newBlock);
        if !Has(s, s[newBlock].parent, s[newBlock].number - 1) {
          return NoFork(InvalidNewChain);
        }
        newChain := newChain + [newBlock];
        newBlock := s[newBlock].parent;
      }
    }
    while oldBlock != newBlock
      invariant Segment(s, oldHead, oldChain, oldBlock) && Segment(s, newHead, newChain, newBlock)
      invariant s[oldBlock].number == s[newBlock].number
      invariant forall n: nat :: Shared(s, oldHead, newHead, n) ==> n <= s[oldBlock].number
      decreases s[oldBlock].number
    {
      SegmentDown(s, oldHead, oldChain, oldBlock);
      SegmentDown(s, newHead, newChain, newBlock);
      if !Has(s, s[oldBlock].parent, s[oldBlock].number - 1) {
        return NoFork(InvalidOldChain);
      }
      if !Has(s, s[newBlock].parent, s[newBlock].number - 1) {
        return NoFork(InvalidNewChain);
      }
      oldChain, newChain := oldChain + [oldBlock], newChain + [newBlock];
      oldBlock, newBlock := s[oldBlock].parent, s[newBlock].parent;
    }
    assert Shared(s, oldHead, newHead, s[oldBlock].number);
    r := Forked(oldBlock, oldChain, newChain);
  }

  /** `WriteTxLookupEntriesByBlock`: point every transaction of a block at it. */
  function IndexTxs(lookup: Lookup, txs: seq<Tx>, number: nat): Lookup {
    lookup + map tx | tx in txs :: number
  }

  /** Every block of the line has its body stored. */
  predicate Covered(bodies: Bodies, line: Index) {
    forall n | n in line :: line[n] in bodies
  }

  /** No transaction lies in two different blocks of one line. */
  predicate NoRepeats(bodies: Bodies, line: Index)
    requires Covered(bodies, line)
  {
    forall n, tx | n in line && tx in bodies[line[n]] ::
      forall m | m in line && tx in bodies[line[m]] :: m == n
  }

  /** The lookup table maps a transaction to n exactly when it lies in block n. */
  ghost predicate Indexes(lookup: Lookup, bodies: Bodies, line: Index)
    requires Covered(bodies, line)
  {
    && (forall n, tx :: n in line && tx in bodies[line[n]] ==> tx in lookup && lookup[tx] == n)
    && (forall tx :: tx in lookup ==> lookup[tx] in line && tx in bodies[line[lookup[tx]]])
  }

  /** The database tables that say what is canonical. */
  datatype Tables = Tables(canon: Index, lookup: Lookup)

  /** All of these blocks are stored, with their bodies. */
  predicate Stored(s: Store, bodies: Bodies, chain: seq<Hash>) {
    forall i | 0 <= i < |chain| :: chain[i] in s && chain[i] in bodies
  }

  /** The batch of `writeHeadBlock`. */
  function WriteBlock(db: Tables, s: Store, bodies: Bodies, b: Hash): Tables
    requires b in s && b in bodies
  {
    Tables(db.canon[s[b].number := b], IndexTxs(db.lookup, bodies[b], s[b].number))
  }

  /** `writeHeadBlock` for a head-first list of blocks, last one first. */
  function WriteBlocks(db: Tables, s: Store, bodies: Bodies, chain: seq<Hash>): Tables
    requires Stored(s, bodies, chain)
  {
    if chain == [] then db else WriteBlock(WriteBlocks(db, s, bodies, chain[1..]), s, bodies, chain[0])
  }

  /** The transactions of a list of blocks. */
  function TxsOf(bodies: Bodies, chain: seq<Hash>): (txs: set<Tx>)
    requires forall i :: 0 <= i < |chain| ==> chain[i] in bodies
    ensures forall tx :: tx in txs <==> exists i :: 0 <= i < |chain| && tx in bodies[chain[i]]
  {
    if chain == [] then {} else
      var rest := TxsOf(bodies, chain[1..]);
      assert forall i :: 0 < i < |chain| ==> chain[i] == chain[1..][i - 1];
      (set tx | tx in bodies[chain[0]]) + rest
  }

  lemma {:induction false} WrittenCanon(db: Tables, s: Store, bodies: Bodies, chain: seq<Hash>, c: nat, n: nat)
    requires Stored(s, bodies, chain)
    requires forall i :: 0 <= i < |chain| ==> s[chain[i]].number == c + |chain| - i
    ensures n in WriteBlocks(db, s, bodies, chain).canon <==> n in db.canon || c < n <= c + |chain|
    ensures n in WriteBlocks(db, s, bodies, chain).canon ==>
              WriteBlocks(db, s, bodies, chain).canon[n] == if c < n <= c + |chain| then chain[c + |chain| - n] else db.canon[n]
  {
    if chain != [] {
      WrittenCanon(db, s, bodies, chain[1..], c, n);
    }
  }

  lemma {:induction false} WrittenElsewhere(db: Tables, s: Store, bodies: Bodies, chain: seq<Hash>, tx: Tx)
    requires Stored(s, bodies, chain)
    requires forall i :: 0 <= i < |chain| ==> tx !in bodies[chain[i]]
    ensures tx in WriteBlocks(db, s, bodies, chain).lookup <==> tx in db.lookup
    ensures tx in db.lookup ==> WriteBlocks(db, s, bodies, chain).lookup[tx] == db.lookup[tx]
  {
    if chain != [] {
      assert tx !in bodies[chain[0]];
      WrittenElsewhere(db, s, bodies, chain[1..], tx);
    }
  }

  lemma {:induction false} WrittenOnce(db: Tables, s: Store, bodies: Bodies, chain: seq<Hash>, tx: Tx, k: nat)
    requires Stored(s, bodies, chain)
    requires k < |chain| && tx in bodies[chain[k]]
    requires forall i :: 0 <= i < |chain| && i != k ==> tx !in bodies[chain[i]]
    ensures tx in WriteBlocks(db, s, bodies, chain).lookup
    ensures WriteBlocks(db, s, bodies, chain).lookup[tx] == s[chain[k]].number
  {
    if k > 0 {
      assert tx !in bodies[chain[0]];
      WrittenOnce(db, s, bodies, chain[1..], tx, k - 1);
    }
  }

  /** The blocks `reorg` itself adopts: all but the new head. */
  function Adopted(newChain: seq<Hash>): seq<Hash> {
    if newChain == [] then [] else newChain[1..]
  }

  /** Where the stale index entries start: just below the new head, unless the
      new head is already on the old line. */
  function KeepUpTo(s: Store, f: Fork): nat
    requires f.Forked? && f.common in s
    requires forall i :: 0 <= i < |f.newChain| ==> f.newChain[i] in s
  {
    if |f.newChain| > 1 then s[f.newChain[1]].number else s[f.common].number
  }

  ghost predicate IsFork(s: Store, oldHead: Hash, newHead: Hash, f: Fork) {
    f.Forked? && Segment(s, oldHead, f.oldChain, f.common) && Segment(s, newHead, f.newChain, f.common)
  }

  lemma AdoptedNumbers(s: Store, bodies: Bodies, oldHead: Hash, newHead: Hash, f: Fork)
    requires IsFork(s, oldHead, newHead, f) && bodies.Keys == s.Keys
    ensures Stored(s, bodies, f.oldChain) && Stored(s, bodies, Adopted(f.newChain))
    ensures forall i :: 0 <= i < |Adopted(f.newChain)| ==> Adopted(f.newChain)[i] == f.newChain[i + 1]
    ensures var chain := Adopted(f.newChain);
            forall i :: 0 <= i < |chain| ==> s[chain[i]].number == s[f.common].number + |chain| - i
    ensures KeepUpTo(s, f) == s[f.common].number + |Adopted(f.newChain)|
  {
  }

  lemma AdoptedOnLine(s: Store, bodies: Bodies, oldHead: Hash, newHead: Hash, f: Fork)
    requires IsFork(s, oldHead, newHead, f) && bodies.Keys == s.Keys
    ensures var chain, line := Adopted(f.newChain), Line(s, newHead);
            && (forall i :: 0 <= i < |chain| ==>
                  chain[i] in s && s[chain[i]].number in line && line[s[chain[i]].number] == chain[i])
            && (forall n :: s[f.common].number < n < s[newHead].number ==>
                  n in line && line[n] == chain[s[newHead].number - 1 - n])
  {
    forall n | s[f.common].number < n < s[newHead].number
      ensures n in Line(s, newHead) && Line(s, newHead)[n] == Adopted(f.newChain)[s[newHead].number - 1 - n]
    {
      LineContiguous(s, newHead, s[f.common].number, n);
      assert f.newChain[s[newHead].number - n] == Line(s, newHead)[n];
    }
  }

  /** Lines that fork at a block agree up to it. */
  lemma AgreeBelowFork(s: Store, oldHead: Hash, newHead: Hash, f: Fork, n: nat)
    requires IsFork(s, oldHead, newHead, f) && n <= s[f.common].number
    ensures n in Line(s, oldHead) <==> n in Line(s, newHead)
    ensures n in Line(s, oldHead) ==> Line(s, oldHead)[n] == Line(s, newHead)[n]
  {
    var c := s[f.common].number;
    LineOfElement(s, oldHead, c);
    LineOfElement(s, newHead, c);
    assert n in Prefix(Line(s, oldHead), c) <==> n in Prefix(Line(s, newHead), c);
    if n in Line(s, oldHead) {
      assert Prefix(Line(s, oldHead), c)[n] == Prefix(Line(s, newHead), c)[n];
    }
  }

  /** After adopting blocks the index still has no gap where deletion starts, so
      the gap-terminated loop removes every stale entry; with the head write the
      index is exactly the new head's line. */
  lemma CanonAfterReorg(db: Tables, s: Store, bodies: Bodies, oldHead: Hash, newHead: Hash, f: Fork, n: nat)
    requires IsFork(s, oldHead, newHead, f) && bodies.Keys == s.Keys
    requires Stored(s, bodies, Adopted(f.newChain)) && db.canon == Line(s, oldHead)
    ensures var canon := WriteBlocks(db, s, bodies, Adopted(f.newChain)).canon;
            && (n in canon ==> forall m :: KeepUpTo(s, f) < m <= n ==> m in canon)
            && var after := Prefix(canon, KeepUpTo(s, f))[s[newHead].number := newHead];
               && (n in after <==> n in Line(s, newHead))
               && (n in after ==> after[n] == Line(s, newHead)[n])
  {
    AdoptedNumbers(s, bodies, oldHead, newHead, f);
    NoGapAboveFork(db, s, bodies, oldHead, newHead, f, n);
    if n <= KeepUpTo(s, f) {
      CanonUpTo(db, s, bodies, oldHead, newHead, f, n);
    }
  }

  /** Up to where the index is kept, adopting blocks has made it the new head's line. */
  lemma CanonUpTo(db: Tables, s: Store, bodies: Bodies, oldHead: Hash, newHead: Hash, f: Fork, n: nat)
    requires IsFork(s, oldHead, newHead, f) && bodies.Keys == s.Keys
    requires Stored(s, bodies, Adopted(f.newChain)) && db.canon == Line(s, oldHead) && n <= KeepUpTo(s, f)
    ensures var canon := WriteBlocks(db, s, bodies, Adopted(f.newChain)).canon;
            && (n in canon <==> n in Line(s, newHead))
            && (n in canon ==> canon[n] == Line(s, newHead)[n])
  {
    AdoptedNumbers(s, bodies, oldHead, newHead, f);
    var c := s[f.common].number;
    WrittenCanon(db, s, bodies, Adopted(f.newChain), c, n);
    if n <= c {
      AgreeBelowFork(s, oldHead, newHead, f, n);
    } else {
      assert At(s, newHead, f.newChain[s[newHead].number - n], n);
    }
  }

  lemma NoGapAboveFork(db: Tables, s: Store, bodies: Bodies, oldHead: Hash, newHead: Hash, f: Fork, n: nat)
    requires IsFork(s, oldHead, newHead, f) && bodies.Keys == s.Keys
    requires Stored(s, bodies, Adopted(f.newChain)) && db.canon == Line(s, oldHead)
    ensures var canon := WriteBlocks(db, s, bodies, Adopted(f.newChain)).canon;
            n in canon ==> forall m :: KeepUpTo(s, f) < m <= n ==> m in canon
  {
    AdoptedNumbers(s, bodies, oldHead, newHead, f);
    var chain, c := Adopted(f.newChain), s[f.common].number;
    WrittenCanon(db, s, bodies, chain, c, n);
    if n in WriteBlocks(db, s, bodies, chain).canon {
      forall m | KeepUpTo(s, f) < m <= n
        ensures m in WriteBlocks(db, s, bodies, chain).canon
      {
        WrittenCanon(db, s, bodies, chain, c, m);
        LineContiguous(s, oldHead, c, m);
      }
    }
  }

  /** The tables after `reorg`: blocks adopted, dropped transactions that were not
      re-added forgotten, index entries above deleted. */
  function Reorganised(db: Tables, s: Store, bodies: Bodies, f: Fork): Tables
    requires f.Forked? && f.common in s && Stored(s, bodies, f.oldChain) && Stored(s, bodies, f.newChain)
  {
    var w := WriteBlocks(db, s, bodies, Adopted(f.newChain));
    Tables(Prefix(w.canon, KeepUpTo(s, f)), w.lookup - (TxsOf(bodies, f.oldChain) - TxsOf(bodies, Adopted(f.newChain))))
  }

  /** What every lemma on the table after a reorganisation starts from. */
  ghost predicate ReorgCase(db: Tables, s: Store, bodies: Bodies, oldHead: Hash, newHead: Hash, f: Fork) {
    && IsFork(s, oldHead, newHead, f)
    && bodies.Keys == s.Keys && Stored(s, bodies, f.oldChain) && Stored(s, bodies, f.newChain)
    && db.canon == Line(s, oldHead) && Indexes(db.lookup, bodies, Line(s, oldHead))
    && NoRepeats(bodies, Line(s, newHead))
  }

  /** The dropped transactions are the ones the table places above the fork. */
  lemma DroppedTx(db: Tables, s: Store, bodies: Bodies, oldHead: Hash, newHead: Hash, f: Fork, tx: Tx)
    requires ReorgCase(db, s, bodies, oldHead, newHead, f)
    ensures tx in TxsOf(bodies, f.oldChain) <==> tx in db.lookup && db.lookup[tx] > s[f.common].number
  {
    var line, top := Line(s, oldHead), s[oldHead].number;
    if tx in TxsOf(bodies, f.oldChain) {
      var i :| 0 <= i < |f.oldChain| && tx in bodies[f.oldChain[i]];
      assert line[top - i] == f.oldChain[i];
    }
    if tx in db.lookup && db.lookup[tx] > s[f.common].number {
      assert f.oldChain[top - db.lookup[tx]] == line[db.lookup[tx]];
    }
  }

  /** The transaction lies in a block of the line strictly between two numbers. */
  ghost predicate InBlocks(bodies: Bodies, line: Index, c: int, top: int, tx: Tx)
    requires Covered(bodies, line)
  {
    exists n :: n in line && c < n < top && tx in bodies[line[n]]
  }

  /** The adopted transactions lie between the fork and the head, and their table
      entries say where; all others keep their entry. */
  lemma AdoptedTx(db: Tables, s: Store, bodies: Bodies, oldHead: Hash, newHead: Hash, f: Fork, tx: Tx)
    requires ReorgCase(db, s, bodies, oldHead, newHead, f)
    ensures tx in TxsOf(bodies, Adopted(f.newChain))
       <==> InBlocks(bodies, Line(s, newHead), s[f.common].number, s[newHead].number, tx)
    ensures var w := WriteBlocks(db, s, bodies, Adopted(f.newChain));
            if tx in TxsOf(bodies, Adopted(f.newChain))
            then tx in w.lookup && s[f.common].number < w.lookup[tx] < s[newHead].number
              && w.lookup[tx] in Line(s, newHead) && tx in bodies[Line(s, newHead)[w.lookup[tx]]]
            else (tx in w.lookup <==> tx in db.lookup) && (tx in db.lookup ==> w.lookup[tx] == db.lookup[tx])
  {
    var line, c, top, chain := Line(s, newHead), s[f.common].number, s[newHead].number, Adopted(f.newChain);
    AdoptedNumbers(s, bodies, oldHead, newHead, f);
    AdoptedOnLine(s, bodies, oldHead, newHead, f);
    if tx in TxsOf(bodies, chain) {
      var k :| 0 <= k < |chain| && tx in bodies[chain[k]];
      assert tx in bodies[line[s[chain[k]].number]];
      forall i | 0 <= i < |chain| && i != k
        ensures tx !in bodies[chain[i]]
      {
        assert line[s[chain[i]].number] == chain[i];
      }
      WrittenOnce(db, s, bodies, chain, tx, k);
    } else {
      WrittenElsewhere(db, s, bodies, chain, tx);
    }
  }

  /** The table entry of one transaction after the head write, from what the
      tables say about it before: `w` is the table once blocks are adopted. */
  lemma TableEntry(lookup: Lookup, w: Lookup, bodies: Bodies, oldLine: Index, newLine: Index, c: nat, top: nat,
                   dropped: set<Tx>, added: set<Tx>, tx: Tx)
    requires Covered(bodies, oldLine) && Indexes(lookup, bodies, oldLine)
    requires Covered(bodies, newLine) && NoRepeats(bodies, newLine)
    requires top in newLine && c <= top && forall n :: n in newLine ==> n <= top
    requires forall n :: n <= c ==> (n in oldLine <==> n in newLine) && (n in oldLine ==> oldLine[n] == newLine[n])
    requires tx in dropped <==> tx in lookup && lookup[tx] > c
    requires tx in added <==> InBlocks(bodies, newLine, c, top, tx)
    requires if tx in added then tx in w && c < w[tx] < top && w[tx] in newLine && tx in bodies[newLine[w[tx]]]
             else (tx in w <==> tx in lookup) && (tx in lookup ==> w[tx] == lookup[tx])
    ensures var after := IndexTxs(w - (dropped - added), bodies[newLine[top]], top);
            && (forall n :: n in newLine && tx in bodies[newLine[n]] ==> tx in after && after[tx] == n)
            && (tx in after ==> after[tx] in newLine && tx in bodies[newLine[after[tx]]])
  {
    var after := IndexTxs(w - (dropped - added), bodies[newLine[top]], top);
    forall n | n in newLine && tx in bodies[newLine[n]]
      ensures tx in after && after[tx] == n
    {
      if n <= c {
        assert oldLine[n] == newLine[n];
      }
    }
  }

  /** Why leaving the new head out of the added transactions is harmless: the
      head write that follows restores its entries. */
  lemma LookupAfterReorg(db: Tables, s: Store, bodies: Bodies, oldHead: Hash, newHead: Hash, f: Fork, tx: Tx)
    requires ReorgCase(db, s, bodies, oldHead, newHead, f)
    ensures var after := WriteBlock(Reorganised(db, s, bodies, f), s, bodies, newHead).lookup;
            && (forall n :: n in Line(s, newHead) && tx in bodies[Line(s, newHead)[n]] ==> tx in after && after[tx] == n)
            && (tx in after ==> after[tx] in Line(s, newHead) && tx in bodies[Line(s, newHead)[after[tx]]])
  {
    DroppedTx(db, s, bodies, oldHead, newHead, f, tx);
    AdoptedTx(db, s, bodies, oldHead, newHead, f, tx);
    forall n: nat | n <= s[f.common].number {
      AgreeBelowFork(s, oldHead, newHead, f, n);
    }
    TableEntry(db.lookup, WriteBlocks(db, s, bodies, Adopted(f.newChain)).lookup, bodies, Line(s, oldHead), Line(s, newHead),
               s[f.common].number, s[newHead].number, TxsOf(bodies, f.oldChain), TxsOf(bodies, Adopted(f.newChain)), tx);
  }

  /** Both tables after `reorg` and the head write that follows it. */
  lemma ReorgIsExact(db: Tables, s: Store, bodies: Bodies, oldHead: Hash, newHead: Hash, f: Fork)
    requires ReorgCase(db, s, bodies, oldHead, newHead, f)
    ensures var after := WriteBlock(Reorganised(db, s, bodies, f), s, bodies, newHead);
            after.canon == Line(s, newHead) && Indexes(after.lookup, bodies, Line(s, newHead))
    ensures GapFreeAbove(WriteBlocks(db, s, bodies, Adopted(f.newChain)).canon, KeepUpTo(s, f))
  {
    var after := WriteBlock(Reorganised(db, s, bodies, f), s, bodies, newHead);
    forall n: nat {
      CanonAfterReorg(db, s, bodies, oldHead, newHead, f, n);
    }
    forall tx {
      LookupAfterReorg(db, s, bodies, oldHead, newHead, f, tx);
    }
  }

  /** A new block may be imported: its parent is stored, it is no second version
      of a stored block, and it repeats no transaction of its line. */
  predicate Importable(s: Store, bodies: Bodies, b: Hash, header: Header, txs: seq<Tx>) {
    && b != ZERO_HASH && header.number > 0
    && (b in s ==> s[b] == header && b in bodies && bodies[b] == txs)
    && Has(s, header.parent, header.number - 1)
    && Covered(bodies, Line(s, header.parent))
    && forall n, tx | n in Line(s, header.parent) && tx in bodies[Line(s, header.parent)[n]] :: tx !in txs
  }

  datatype Op =
    | InsertOnly(b: Hash, header: Header, txs: seq<Tx>)
    | WriteAndSetHead(b: Hash, header: Header, txs: seq<Tx>)
    | WriteKnown(b: Hash)
    | SetCanonical(b: Hash, recovered: bool)

  predicate CleanLine(s: Store, bodies: Bodies, h: Hash)
    requires h in s
  {
    Covered(bodies, Line(s, h)) && NoRepeats(bodies, Line(s, h))
  }

  /** The store is a tree over one genesis block and no line repeats a transaction. */
  ghost predicate Tree(s: Store, bodies: Bodies, genesis: Hash) {
    && bodies.Keys == s.Keys && ParentClosed(s) && ZERO_HASH !in s
    && (forall h :: h in s && s[h].number == 0 ==> h == genesis && s[h].parent == ZERO_HASH)
    && (forall h {:trigger CleanLine(s, bodies, h)} :: h in s ==> CleanLine(s, bodies, h))
  }

  lemma NoRepeatsExtended(bodies: Bodies, up: Index, n: nat, b: Hash, txs: seq<Tx>)
    requires Covered(bodies, up) && NoRepeats(bodies, up) && n !in up
    requires b in bodies ==> bodies[b] == txs
    requires forall m, tx :: m in up && tx in bodies[up[m]] ==> tx !in txs
    ensures Covered(bodies[b := txs], up[n := b]) && NoRepeats(bodies[b := txs], up[n := b])
  {
  }

  lemma IndexesExtended(lookup: Lookup, bodies: Bodies, up: Index, n: nat, b: Hash)
    requires Covered(bodies, up) && Indexes(lookup, bodies, up) && n !in up && b in bodies
    requires forall m, tx :: m in up && tx in bodies[up[m]] ==> tx !in bodies[b]
    ensures Indexes(IndexTxs(lookup, bodies[b], n), bodies, up[n := b])
  {
    var after, line := IndexTxs(lookup, bodies[b], n), up[n := b];
    forall m, tx | m in line && tx in bodies[line[m]]
      ensures tx in after && after[tx] == m
    {
      if m != n {
        assert tx in bodies[up[m]];
      }
    }
    forall tx | tx in after
      ensures after[tx] in line && tx in bodies[line[after[tx]]]
    {
      if tx !in bodies[b] {
        assert lookup[tx] in up;
      }
    }
  }

  lemma NoRepeatsKept(bodies: Bodies, line: Index, b: Hash, txs: seq<Tx>)
    requires Covered(bodies, line) && NoRepeats(bodies, line)
    requires b in bodies ==> bodies[b] == txs
    ensures Covered(bodies[b := txs], line) && NoRepeats(bodies[b := txs], line)
  {
    assert forall n :: n in line ==> bodies[b := txs][line[n]] == bodies[line[n]];
  }

  lemma IndexesKept(lookup: Lookup, bodies: Bodies, line: Index, b: Hash, txs: seq<Tx>)
    requires Covered(bodies, line) && Indexes(lookup, bodies, line)
    requires b in bodies ==> bodies[b] == txs
    ensures Covered(bodies[b := txs], line) && Indexes(lookup, bodies[b := txs], line)
  {
    assert forall n :: n in line ==> bodies[b := txs][line[n]] == bodies[line[n]];
  }

  lemma CleanGrows(s: Store, bodies: Bodies, genesis: Hash, b: Hash, header: Header, txs: seq<Tx>, h: Hash)
    requires Tree(s, bodies, genesis) && Importable(s, bodies, b, header, txs)
    requires h in s || h == b
    ensures CleanLine(s[b := header], bodies[b := txs], h) && ParentStored(s[b := header], h)
    ensures h in s ==> Line(s[b := header], h) == Line(s, h)
    decreases h !in s
  {
    var t := s[b := header];
    if h in s {
      assert CleanLine(s, bodies, h) && ParentStored(s, h);
      ClosedIsRooted(s, h);
      LineOfLarger(s, t, h);
      NoRepeatsKept(bodies, Line(s, h), b, txs);
    } else {
      CleanGrows(s, bodies, genesis, b, header, txs, header.parent);
      assert CleanLine(s, bodies, header.parent);
      NoRepeatsExtended(bodies, Line(s, header.parent), header.number, b, txs);
      assert Line(t, b) == Line(s, header.parent)[header.number := b];
    }
  }

  /** Importing a block keeps the tree, and every line that was there. */
  lemma TreeGrows(s: Store, bodies: Bodies, genesis: Hash, b: Hash, header: Header, txs: seq<Tx>)
    requires Tree(s, bodies, genesis) && Importable(s, bodies, b, header, txs)
    ensures Tree(s[b := header], bodies[b := txs], genesis)
  {
    forall h {:trigger CleanLine(s[b := header], bodies[b := txs], h)} {:trigger ParentStored(s[b := header], h)}
      | h in s[b := header]
      ensures CleanLine(s[b := header], bodies[b := txs], h) && ParentStored(s[b := header], h)
    {
      CleanGrows(s, bodies, genesis, b, header, txs, h);
    }
  }

  /** The head write alone is exact when the block extends the head. */
  lemma ExtendIsExact(db: Tables, s: Store, bodies: Bodies, head: Hash, b: Hash)
    requires head in s && b in s && s[b].parent == head && s[b].number == s[head].number + 1
    requires Covered(bodies, Line(s, head)) && b in bodies && CleanLine(s, bodies, b)
    requires db.canon == Line(s, head) && Indexes(db.lookup, bodies, db.canon)
    ensures var after := WriteBlock(db, s, bodies, b);
            after.canon == Line(s, b) && Indexes(after.lookup, bodies, after.canon)
  {
    var up, n := Line(s, head), s[b].number;
    assert Line(s, b) == up[n := b];
    forall m, tx | m in up && tx in bodies[up[m]]
      ensures tx !in bodies[b]
    {
      assert up[n := b][m] == up[m] && up[n := b][n] == b;
    }
    IndexesExtended(db.lookup, bodies, up, n, b);
  }

  /** In a tree any two lines share the genesis block. */
  lemma TreeLinesMeet(s: Store, bodies: Bodies, genesis: Hash, a: Hash, b: Hash)
    requires Tree(s, bodies, genesis) && a in s && b in s
    ensures Shared(s, a, b, 0)
  {
    ClosedIsRooted(s, a);
    ClosedIsRooted(s, b);
  }

  /** The block chain's store, database tables and head markers. */
  class BlockChain {
    const genesis: Hash
    var headers: Store
    var bodies: Bodies
    var db: Tables
    var currentBlock: Hash
    var currentHeader: Hash
    var currentSnapBlock: Hash

    constructor (genesis: Hash, header: Header, txs: seq<Tx>)
      requires genesis != ZERO_HASH && header.number == 0 && header.parent == ZERO_HASH
      ensures Valid() && this.genesis == genesis
      ensures headers == map[genesis := header] && bodies == map[genesis := txs] && currentBlock == genesis
    {
      this.genesis := genesis;
      headers, bodies := map[genesis := header], map[genesis := txs];
      db := Tables(map[0 := genesis], IndexTxs(map[], txs, 0));
      currentBlock, currentHeader, currentSnapBlock := genesis, genesis, genesis;
    }

    /** The index is exactly the head's line and the lookup table exactly its
        transactions; all three head markers agree. */
    ghost predicate Indexed()
      reads this
    {
      && bodies.Keys == headers.Keys
      && currentBlock in headers && currentHeader == currentBlock && currentSnapBlock == currentBlock
      && db.canon == Line(headers, currentBlock)
      && Indexes(db.lookup, bodies, db.canon)
    }

    /** What block imports start from and keep. */
    ghost predicate Valid()
      reads this
    {
      Indexed() && Tree(headers, bodies, genesis)
    }

    method WriteHeadBlock(b: Hash)
      requires b in headers && b in bodies
      modifies `db, `currentBlock, `currentHeader, `currentSnapBlock
      ensures db == WriteBlock(old(db), headers, bodies, b)
      ensures currentBlock == b && currentHeader == b && currentSnapBlock == b
    {
      db := WriteBlock(db, headers, bodies, b);
      currentHeader := b;
      currentSnapBlock := b;
      currentBlock := b;
    }

    /** Write the adopted blocks except the head, lowest first. */
    method AdoptBlocks(newChain: seq<Hash>)
      requires Stored(headers, bodies, newChain)
      modifies `db, `currentBlock, `currentHeader, `currentSnapBlock
      ensures db == WriteBlocks(old(db), headers, bodies, Adopted(newChain))
    {
      var i := |newChain| - 1;
      while i >= 1
        invariant 0 < |newChain| ==> 0 <= i < |newChain|
        invariant db == WriteBlocks(old(db), headers, bodies, if i < 0 then [] else newChain[i + 1..])
      {
        assert newChain[i..][1..] == newChain[i + 1..];
        WriteHeadBlock(newChain[i]);
        i := i - 1;
      }
    }

    /** Fails exactly when the stored lines do not meet, and then changes nothing.
        Otherwise the head write that every caller performs next completes both
        tables for the new head. */
    method Reorg(newHead: Hash) returns (error: Option<ReorgError>)
      requires Indexed() && newHead in headers && NoRepeats(bodies, Line(headers, newHead))
      modifies `db, `currentBlock, `currentHeader, `currentSnapBlock
      ensures error.None? <==> exists n: nat :: Shared(headers, old(currentBlock), newHead, n)
      ensures error.Some? ==> Indexed() && db == old(db) && currentBlock == old(currentBlock)
      ensures error.None? ==>
                var after := WriteBlock(db, headers, bodies, newHead);
                after.canon == Line(headers, newHead) && Indexes(after.lookup, bodies, after.canon)
    {
      var f := FindFork(headers, currentBlock, newHead);
      if f.NoFork? {
        return Some(f.error);
      }
      ghost var before := db;
      assert ReorgCase(db, headers, bodies, currentBlock, newHead, f);
      ReorgIsExact(db, headers, bodies, currentBlock, newHead, f);
      AdoptBlocks(f.newChain);
      var dropped, added := TxsOf(bodies, f.oldChain), TxsOf(bodies, Adopted(f.newChain));
      var canon, _ := DeleteAbove(db.canon, KeepUpTo(headers, f));
      db := Tables(canon, db.lookup - (dropped - added));
      assert db == Reorganised(before, headers, bodies, f);
      return None;
    }

    /** `writeKnownBlock`: make a stored block the head. */
    method WriteKnownBlock(b: Hash) returns (error: Option<ReorgError>)
      requires Valid() && b in headers
      modifies `db, `currentBlock, `currentHeader, `currentSnapBlock
      ensures Valid() && currentBlock == b && error.None?
    {
      assert ParentStored(headers, b) && CleanLine(headers, bodies, b);
      if headers[b].parent != currentBlock {
        TreeLinesMeet(headers, bodies, genesis, currentBlock, b);
        error := Reorg(b);
        if error.Some? {
          return;
        }
      } else {
        ExtendIsExact(db, headers, bodies, currentBlock, b);
      }
      WriteHeadBlock(b);
      return None;
    }

    /** `writeBlockWithState`: store a block, whatever its canonical status.  The
        header checks of the import refuse a block that is not importable. */
    method InsertBlockWithoutSetHead(b: Hash, header: Header, txs: seq<Tx>) returns (ok: bool)
      requires Valid()
      modifies `headers, `bodies
      ensures Valid() && ok == Importable(old(headers), old(bodies), b, header, txs)
      ensures headers == if ok then old(headers)[b := header] else old(headers)
      ensures bodies == if ok then old(bodies)[b := txs] else old(bodies)
    {
      ok := Importable(headers, bodies, b, header, txs);
      if ok {
        TreeGrows(headers, bodies, genesis, b, header, txs);
        CleanGrows(headers, bodies, genesis, b, header, txs, currentBlock);
        IndexesKept(db.lookup, bodies, db.canon, b, txs);
        headers, bodies := headers[b := header], bodies[b := txs];
      }
    }

    method WriteBlockAndSetHead(b: Hash, header: Header, txs: seq<Tx>) returns (ok: bool)
      requires Valid()
      modifies `headers, `bodies, `db, `currentBlock, `currentHeader, `currentSnapBlock
      ensures Valid() && ok == Importable(old(headers), old(bodies), b, header, txs)
      ensures headers == if ok then old(headers)[b := header] else old(headers)
      ensures bodies == if ok then old(bodies)[b := txs] else old(bodies)
      ensures currentBlock == if ok then b else old(currentBlock)
    {
      ok := InsertBlockWithoutSetHead(b, header, txs);
      if ok {
        var error := WriteKnownBlock(b);
        assert error.None?;
      }
    }

    /** `recovered` says whether the head's state is there or could be recovered by
        re-executing its ancestors; if not, nothing changes. */
    method SetCanonical(b: Hash, recovered: bool) returns (ok: bool)
      requires Valid() && b in headers
      modifies `db, `currentBlock, `currentHeader, `currentSnapBlock
      ensures Valid() && ok == recovered
      ensures currentBlock == if ok then b else old(currentBlock)
      ensures !ok ==> db == old(db)
    {
      if !recovered {
        return false;
      }
      var error := WriteKnownBlock(b);
      return error.None?;
    }

    /** Any run of imports and head changes keeps the index equal to the head's
        line and the lookup table equal to its transactions. */
    method Run(ops: seq<Op>)
      requires Valid()
      modifies `headers, `bodies, `db, `currentBlock, `currentHeader, `currentSnapBlock
      ensures Valid()
    {
      for i := 0 to |ops|
        invariant Valid()
      {
        match ops[i]
        case InsertOnly(b, header, txs) =>
          var _ := InsertBlockWithoutSetHead(b, header, txs);
        case WriteAndSetHead(b, header, txs) =>
          var _ := WriteBlockAndSetHead(b, header, txs);
        case WriteKnown(b) =>
          if b in headers {
            var _ := WriteKnownBlock(b);
          }
        case SetCanonical(b, recovered) =>
          if b in headers {
            var _ := SetCanonical(b, recovered);
          }
      }
    }
  }

  /** What an exact index says number by number: an entry for every block from
      genesis to the head, each the parent of the next, and nothing above. */
  lemma ExactIndex(s: Store, bodies: Bodies, genesis: Hash, head: Hash, n: nat)
    requires Tree(s, bodies, genesis) && head in s
    ensures n in Line(s, head) <==> n <= s[head].number
    ensures Line(s, head)[s[head].number] == head
    ensures 0 in Line(s, head) && Line(s, head)[0] == genesis
    ensures 0 < n <= s[head].number ==> n - 1 in Line(s, head) && s[Line(s, head)[n]].parent == Line(s, head)[n - 1]
  {
    ClosedIsRooted(s, head);
    if n <= s[head].number {
      LineContiguous(s, head, 0, n);
      LineStep(s, head, n);
      if n > 0 {
        LineContiguous(s, head, 0, n - 1);
      }
    }
  }
}
