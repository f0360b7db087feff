/** Deleting one element of a sequence. */
module Sequences {

  function Delete<T>(s: seq<T>, index: nat): (r: seq<T>)
    requires index < |s|
    ensures |r| == |s| - 1
  {
    s[..index] + s[index + 1..]
  }

  lemma DeleteRemoves<T>(s: seq<T>, index: nat)
    requires index < |s|
    ensures multiset(Delete(s, index)) + multiset{s[index]} == multiset(s)
    ensures multiset(Delete(s, index)) == multiset(s) - multiset{s[index]}
  {
    assert s == s[..index] + [s[index]] + s[index + 1..];
  }

  /** Deleting in the first part leaves the second part alone. */
  lemma DeleteBelow<T>(s: seq<T>, index: nat, n: nat)
    requires index < n <= |s|
    ensures Delete(s, index)[..n - 1] == Delete(s[..n], index) && Delete(s, index)[n - 1..] == s[n..]
  {
    assert s[index + 1..] == s[index + 1..n] + s[n..];
  }

  /** Deleting in the second part leaves the first part alone. */
  lemma DeleteBeyond<T>(s: seq<T>, index: nat, n: nat)
    requires n <= index < |s|
    ensures Delete(s, index)[..n] == s[..n] && Delete(s, index)[n..] == Delete(s[n..], index - n)
  {
    assert s[..index] == s[..n] + s[n..index];
  }
}
