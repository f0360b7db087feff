/**
  Fast ancestor lookups: the header chain's jump along the canonical index and the
  growing cache behind BLOCKHASH.  Both are compared with the plain parent walk.
 */
module AncestorLookup {
  import opened ChainStore
  import opened Wrappers

  /** The n-th parent of a hash, header by header; the last hash reached need not
      be stored. */
  function Walk(s: Store, hash: Hash, number: nat, n: nat): Option<Hash>
    decreases n
  {
    if n == 0 then Some(hash)
    else if number == 0 || !Has(s, hash, number) then None
    else Walk(s, s[hash].parent, number - 1, n - 1)
  }

  /** Only a block 0 has the zero hash as its parent. */
  ghost predicate ParentsNamed(s: Store) {
    ZERO_HASH !in s && forall h :: h in s && s[h].number > 0 ==> s[h].parent != ZERO_HASH
  }

  lemma {:induction false} WalkFurther(s: Store, hash: Hash, number: nat, n: nat)
    requires n < number
    ensures var here := Walk(s, hash, number, n);
            Walk(s, hash, number, n + 1) ==
              if here.Some? && Has(s, here.value, number - n) then Some(s[here.value].parent) else None
    decreases n
  {
    if n > 0 && Has(s, hash, number) {
      WalkFurther(s, s[hash].parent, number - 1, n - 1);
    }
  }

  /** Walking from a line's element stays on the line. */
  lemma {:induction false} WalkOnLine(s: Store, head: Hash, number: nat, n: nat)
    requires Rooted(s, head) && number in Line(s, head) && n <= number
    ensures number - n in Line(s, head)
    ensures Walk(s, Line(s, head)[number], number, n) == Some(Line(s, head)[number - n])
    decreases n
  {
    if n > 0 {
      LineContiguous(s, head, 0, number - 1);
      LineStep(s, head, number);
      WalkOnLine(s, head, number - 1, n - 1);
    }
  }

  /** How many headers the lookup reads before it meets the canonical index, the
      requested depth or a missing header. */
  function Detour(s: Store, canon: Index, hash: Hash, number: nat, n: nat): nat
    decreases n
  {
    if n == 0 || ReadCanonical(canon, number) == hash then 0
    else if number == 0 || !Has(s, hash, number) then 1
    else 1 + Detour(s, canon, s[hash].parent, number - 1, n - 1)
  }

  /** The lookup answers the true ancestor, or the zero hash exactly for a request
      deeper than block 0, a missing header, or a detour over the budget.  The zero
      hash itself, asked for above the head, is taken for a canonical block, because
      that is also what a missing index entry reads as. */
  method GetAncestor(s: Store, canon: Index, ghost head: Hash, hash: Hash, number: nat, ancestor: nat, maxNonCanonical: nat)
    returns (h: Hash, n: nat, left: nat)
    requires Rooted(s, head) && canon == Line(s, head) && ParentsNamed(s)
    ensures if hash == ZERO_HASH && number !in canon && 1 < ancestor <= number
            then h == ReadCanonical(canon, number - ancestor) && n == number - ancestor
            else if ancestor <= number && Walk(s, hash, number, ancestor).Some?
               && (ancestor == 1 || Detour(s, canon, hash, number, ancestor) <= maxNonCanonical)
            then Walk(s, hash, number, ancestor) == Some(h) && n == number - ancestor
            else h == ZERO_HASH && n == 0
    ensures left == if ancestor > number || ancestor == 1 then maxNonCanonical
                    else if Detour(s, canon, hash, number, ancestor) > maxNonCanonical then 0
                    else maxNonCanonical - Detour(s, canon, hash, number, ancestor)
  {
    left := maxNonCanonical;
    if ancestor > number {
      return ZERO_HASH, 0, left;
    }
    if ancestor == 1 {
      if Has(s, hash, number) {
        return s[hash].parent, number - 1, left;
      }
      return ZERO_HASH, 0, left;
    }
    h, n := hash, number;
    var depth: nat := ancestor;
    while depth != 0
      invariant depth <= n && number - ancestor == n - depth
      invariant h != ZERO_HASH || (h == hash && n == number && depth == ancestor)
      invariant Walk(s, hash, number, ancestor) == Walk(s, h, n, depth)
      invariant maxNonCanonical - left + Detour(s, canon, h, n, depth) == Detour(s, canon, hash, number, ancestor)
      invariant left <= maxNonCanonical
      decreases depth
    {
      if ReadCanonical(canon, n) == h {
        if n in canon {
          WalkOnLine(s, head, n, depth);
        }
        return ReadCanonical(canon, n - depth), n - depth, left;
      }
      if left == 0 {
        return ZERO_HASH, 0, left;
      }
      left := left - 1;
      if !Has(s, h, n) {
        return ZERO_HASH, 0, left;
      }
      h, n, depth := s[h].parent, n - 1, depth - 1;
    }
  }

  /** An instance of the exception: asked for the fifth ancestor of the zero hash at number 5, the lookup
      answers block 0, although no walk starts at the zero hash. */
  method ZeroHashAnswered() returns (h: Hash, n: nat, left: nat)
    ensures h == 1 && n == 0 && left == 0 && Walk(map[1 := Header(0, 0, 0, 10)], ZERO_HASH, 5, 5).None?
  {
    var s: Store := map[1 := Header(0, 0, 0, 10)];
    assert Line(s, 1) == map[0 := 1];
    h, n, left := GetAncestor(s, map[0 := 1], 1, ZERO_HASH, 5, 5, 0);
  }

  /** The hash at a number below the reference header, by a fresh parent walk. */
  function Uncached(s: Store, ref: Header, n: nat): Hash {
    if ref.number <= n then ZERO_HASH
    else match Walk(s, ref.parent, ref.number - 1, ref.number - 1 - n)
         case Some(h) => h
         case None => ZERO_HASH
  }

  /** With every parent stored, that is the hash on the parent's line. */
  lemma UncachedOnLine(s: Store, ref: Header, n: nat)
    requires n < ref.number && Rooted(s, ref.parent) && s[ref.parent].number == ref.number - 1
    ensures n in Line(s, ref.parent) && Uncached(s, ref, n) == Line(s, ref.parent)[n]
  {
    WalkOnLine(s, ref.parent, ref.number - 1, ref.number - 1 - n);
  }

  /** The closure returned by `GetHashFn`, with its captured cache. */
  class HashFn {
    const s: Store
    const ref: Header
    var cache: seq<Hash>

    constructor (s: Store, ref: Header)
      ensures Valid() && this.s == s && this.ref == ref
    {
      this.s, this.ref, cache := s, ref, [];
    }

    /** The cache holds the reference header's first ancestors. */
    ghost predicate Valid()
      reads this
    {
      && |cache| <= ref.number
      && forall i :: 0 <= i < |cache| ==> Walk(s, ref.parent, ref.number - 1, i) == Some(cache[i])
    }

    method Get(n: nat) returns (h: Hash)
      requires Valid()
      modifies this
      ensures Valid() && h == Uncached(s, ref, n)
      ensures old(cache) <= cache
    {
      if ref.number <= n {
        return ZERO_HASH;
      }
      if |cache| == 0 {
        cache := [ref.parent];
      }
      var idx := ref.number - n - 1;
      if idx < |cache| {
        return cache[idx];
      }
      var lastHash, lastNumber := cache[|cache| - 1], ref.number - |cache|;
      while true
        invariant Valid() && 0 < |cache| <= idx && old(cache) <= cache
        invariant lastHash == cache[|cache| - 1] && lastNumber == ref.number - |cache| && n < lastNumber
        decreases lastNumber
      {
        WalkFurther(s, ref.parent, ref.number - 1, |cache| - 1);
        if !Has(s, lastHash, lastNumber) {
          break;
        }
        cache := cache + [s[lastHash].parent];
        lastHash, lastNumber := s[lastHash].parent, s[lastHash].number - 1;
        if n == lastNumber {
          return lastHash;
        }
      }
      WalkStuck(s, ref.parent, ref.number - 1, |cache|, idx);
      return ZERO_HASH;
    }

    /** Every sequence of queries is answered as uncached walks would. */
    method Answers(ns: seq<nat>) returns (hs: seq<Hash>)
      requires Valid()
      modifies this
      ensures Valid() && |hs| == |ns| && forall i :: 0 <= i < |ns| ==> hs[i] == Uncached(s, ref, ns[i])
      ensures ref.number > 0 && Rooted(s, ref.parent) && s[ref.parent].number == ref.number - 1 ==>
                forall i :: 0 <= i < |ns| && ns[i] < ref.number ==> ns[i] in Line(s, ref.parent) && hs[i] == Line(s, ref.parent)[ns[i]]
    {
      hs := [];
      for i := 0 to |ns|
        invariant Valid() && |hs| == i && forall j :: 0 <= j < i ==> hs[j] == Uncached(s, ref, ns[j])
      {
        var h := Get(ns[i]);
        hs := hs + [h];
      }
      if ref.number > 0 && Rooted(s, ref.parent) && s[ref.parent].number == ref.number - 1 {
        forall i | 0 <= i < |ns| && ns[i] < ref.number ensures ns[i] in Line(s, ref.parent) && hs[i] == Line(s, ref.parent)[ns[i]] {
          UncachedOnLine(s, ref, ns[i]);
        }
      }
    }
  }

  /** A walk that got stuck stays stuck. */
  lemma {:induction false} WalkStuck(s: Store, hash: Hash, number: nat, n: nat, m: nat)
    requires n <= m <= number && Walk(s, hash, number, n) == None
    ensures Walk(s, hash, number, m) == None
    decreases m
  {
    if n < m {
      WalkStuck(s, hash, number, n, m - 1);
      WalkFurther(s, hash, number, m - 1);
    }
  }
}
