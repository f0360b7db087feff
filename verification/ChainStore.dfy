/**
  The header store shared by the chain components, and the notion every index is
  compared with: the line of stored ancestors of a header.

  A hash is a name; 0 is the zero hash, which the database also answers when a
  key is missing.  The database is keyed by (number, hash), so a lookup with the
  wrong number finds nothing.
 */
module ChainStore {
  type Hash = nat

  const ZERO_HASH: Hash := 0

  datatype Header = Header(parent: Hash, number: nat, time: nat, root: Hash)

  type Store = map<Hash, Header>

  type Index = map<nat, Hash>

  /** Is there a header under this (hash, number) key?  The number is an integer
      because callers ask for `number - 1`; at genesis that names no block. */
  predicate Has(s: Store, hash: Hash, number: int) {
    hash in s && s[hash].number == number
  }

  /** The canonical hash at a number, the zero hash if there is none. */
  function ReadCanonical(canon: Index, number: nat): Hash {
    if number in canon then canon[number] else ZERO_HASH
  }

  /** Number to hash, for a header and all ancestors reachable in the store. */
  function Line(s: Store, h: Hash): (line: Index)
    requires h in s
    ensures s[h].number in line && line[s[h].number] == h
    ensures forall n :: n in line ==> n <= s[h].number && Has(s, line[n], n)
    decreases s[h].number
  {
    if s[h].number > 0 && Has(s, s[h].parent, s[h].number - 1)
    then Line(s, s[h].parent)[s[h].number := h]
    else map[s[h].number := h]
  }

  /** A line that reaches block 0. */
  predicate Rooted(s: Store, h: Hash) {
    h in s && 0 in Line(s, h)
  }

  predicate ParentStored(s: Store, h: Hash)
    requires h in s
  {
    s[h].number > 0 ==> Has(s, s[h].parent, s[h].number - 1)
  }

  ghost predicate ParentClosed(s: Store) {
    forall h {:trigger ParentStored(s, h)} :: h in s ==> ParentStored(s, h)
  }

  /** The part of an index up to and including a number. */
  function Prefix(canon: Index, top: int): Index {
    map n | n in canon && n <= top :: canon[n]
  }

  /** Lines are contiguous downwards, and each element's parent is the next one. */
  lemma {:induction false} LineStep(s: Store, h: Hash, n: nat)
    requires h in s && n in Line(s, h)
    ensures n - 1 in Line(s, h) <==> n > 0 && Has(s, s[Line(s, h)[n]].parent, n - 1)
    ensures n - 1 in Line(s, h) ==> Line(s, h)[n - 1] == s[Line(s, h)[n]].parent
    decreases s[h].number
  {
    if n != s[h].number {
      LineStep(s, s[h].parent, n);
    } else if n > 0 && Has(s, s[h].parent, n - 1) {
      assert Line(s, h) == Line(s, s[h].parent)[n := h];
    }
  }

  /** No gaps between an element of a line and its head. */
  lemma {:induction false} LineContiguous(s: Store, h: Hash, n: nat, m: nat)
    requires h in s && n in Line(s, h) && n <= m <= s[h].number
    ensures m in Line(s, h)
    decreases s[h].number
  {
    if m < s[h].number {
      LineContiguous(s, s[h].parent, n, m);
    }
  }

  /** The line of a line's element is the part of the line up to it: two lines
      that share a hash share everything below it. */
  lemma {:induction false} LineOfElement(s: Store, h: Hash, n: nat)
    requires h in s && n in Line(s, h)
    ensures Line(s, Line(s, h)[n]) == Prefix(Line(s, h), n)
    decreases s[h].number
  {
    if n < s[h].number {
      LineOfElement(s, s[h].parent, n);
      assert Prefix(Line(s, h), n) == Prefix(Line(s, s[h].parent), n);
    } else {
      assert Prefix(Line(s, h), n) == Line(s, h);
    }
  }

  /** In a parent-closed store every line reaches block 0. */
  lemma {:induction false} ClosedIsRooted(s: Store, h: Hash)
    requires ParentClosed(s) && h in s
    ensures Rooted(s, h)
    decreases s[h].number
  {
    assert ParentStored(s, h);
    if s[h].number > 0 {
      ClosedIsRooted(s, s[h].parent);
    }
  }

  /** Adding headers does not change a line that already reaches block 0. */
  lemma {:induction false} LineOfLarger(s: Store, t: Store, h: Hash)
    requires forall k :: k in s ==> k in t && t[k] == s[k]
    requires Rooted(s, h)
    ensures Line(t, h) == Line(s, h)
    decreases s[h].number
  {
    if s[h].number > 0 {
      assert Has(s, s[h].parent, s[h].number - 1);
      LineOfLarger(s, t, s[h].parent);
    }
  }

  /** No missing number between `number` and any larger key of the index. */
  ghost predicate GapFreeAbove(canon: Index, number: int) {
    forall n, m: nat :: n in canon && number < m <= n ==> m in canon
  }

  /** The deletion loop of both reorganisations: read upwards until the first
      missing entry, collecting deletions in a batch the reads do not see. */
  method DeleteAbove(canon: Index, number: nat) returns (pending: Index, ghost gap: nat)
    ensures number < gap && gap !in canon && forall n :: number < n < gap ==> n in canon
    ensures pending == map n | n in canon && !(number < n < gap) :: canon[n]
    ensures pending == Prefix(canon, number) <==> GapFreeAbove(canon, number)
  {
    pending := canon;
    var i := number + 1;
    while i in canon
      invariant i > number && forall n :: number < n < i ==> n in canon
      invariant pending == map n | n in canon && !(number < n < i) :: canon[n]
      decreases pending.Keys
    {
      assert i in pending;
      pending := pending - {i};
      i := i + 1;
    }
    gap := i;
    if pending == Prefix(canon, number) {
      forall n, m: nat | n in canon && number < m <= n ensures m in canon {
        assert n !in pending;
      }
    }
  }
}
