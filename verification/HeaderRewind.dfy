/**
  Rewinding the header chain to a block number or a time: every header above the
  new head, on any fork, is deleted together with its index entries.
 */
module HeaderRewind {
  import opened ChainStore
  import opened Wrappers

  /** What the rewind aims for: a time if it is positive, a block number otherwise. */
  datatype Target = Target(block: nat, time: nat)

  predicate Done(header: Header, target: Target) {
    if target.time > 0 then header.time <= target.time else header.number <= target.block
  }

  /** The callback's answer on each call: the head block it settled on, and whether
      the rewind must be forced down to it. */
  type UpdateFn = (nat, Header) -> (Header, bool)

  function Retarget(target: Target, answer: (Header, bool)): Target {
    var (newHead, force) := answer;
    if force && (if target.time > 0 then newHead.time < target.time else newHead.number < target.block)
    then Target(newHead.number, 0)
    else target
  }

  /** The number is the least among the limit, if there is one, and the numbers of the forced answers from `first` on. */
  ghost predicate Least(n: nat, limit: Option<nat>, answers: seq<(Header, bool)>, first: nat) {
    && (limit.Some? ==> n <= limit.value)
    && (forall i :: first <= i < |answers| && answers[i].1 ==> n <= answers[i].0.number)
    && (limit == Some(n) || exists i :: first <= i < |answers| && answers[i].1 && answers[i].0.number == n)
  }

  /** The answer forces the rewind to a head before the time. */
  predicate ForcesBefore(answer: (Header, bool), time: nat) { answer.1 && answer.0.time < time }

  /**
    What the answers make of the target.  A block target is lowered to the least number of a forced answer.  A time
    target stays until an answer forces the rewind past it; from that answer on, the first such one, the target is the
    least number of a forced answer.
   */
  ghost predicate Retargeted(aim: Target, target: Target, answers: seq<(Header, bool)>, first: nat) {
    if aim.time == 0 then
      target.time == 0 && Least(target.block, Some(aim.block), answers, 0)
    else
      && first <= |answers| && (forall i :: 0 <= i < first ==> !ForcesBefore(answers[i], aim.time))
      && if first == |answers| then target == aim
         else ForcesBefore(answers[first], aim.time) && target.time == 0 && Least(target.block, None, answers, first)
  }

  /** One more answer. */
  lemma LeastStep(n: nat, limit: Option<nat>, answers: seq<(Header, bool)>, first: nat, answer: (Header, bool))
    requires Least(n, limit, answers, first) && first <= |answers|
    ensures Least(if answer.1 && answer.0.number < n then answer.0.number else n, limit, answers + [answer], first)
  {
    var more := answers + [answer];
    assert more[|answers|] == answer;
    if limit != Some(n) {
      var i :| first <= i < |answers| && answers[i].1 && answers[i].0.number == n;
      assert more[i] == answers[i];
    }
  }

  lemma RetargetStep(aim: Target, target: Target, answers: seq<(Header, bool)>, first: nat, answer: (Header, bool)) returns (first': nat)
    requires Retargeted(aim, target, answers, first)
    ensures Retargeted(aim, Retarget(target, answer), answers + [answer], first')
  {
    var more := answers + [answer];
    assert more[|answers|] == answer;
    first' := first;
    if aim.time == 0 {
      LeastStep(target.block, Some(aim.block), answers, 0, answer);
    } else if first < |answers| {
      LeastStep(target.block, None, answers, first, answer);
    } else if !ForcesBefore(answer, aim.time) {
      first' := first + 1;
    }
  }

  /** The callback was asked about one header after the other, down the line from the current one. */
  ghost predicate Asked(s: Store, line: Index, top: nat, update: UpdateFn, answers: seq<(Header, bool)>) {
    |answers| <= top && forall i: nat {:trigger AskedAt(s, line, top, update, answers, i)} :: i < |answers| ==>
      AskedAt(s, line, top, update, answers, i)
  }

  ghost predicate AskedAt(s: Store, line: Index, top: nat, update: UpdateFn, answers: seq<(Header, bool)>, i: nat)
    requires i < |answers| <= top
  {
    var n := top - 1 - i;
    n in line && line[n] in s && answers[i] == update(i, s[line[n]])
  }

  /** Between the current header and `head` the callback was asked about every header, and the target is what the
      answers make of it. */
  ghost predicate Consulted(s: Store, cur: Hash, head: Hash, aim: Target, target: Target, update: UpdateFn,
    answers: seq<(Header, bool)>, first: nat)
    requires cur in s && head in s
  {
    && |answers| == s[cur].number - s[head].number
    && Asked(s, Line(s, cur), s[cur].number, update, answers) && Retargeted(aim, target, answers, first)
  }

  lemma ConsultStep(s: Store, cur: Hash, head: Hash, parent: Hash, aim: Target, target: Target, update: UpdateFn,
    answers: seq<(Header, bool)>, first: nat)
    returns (first': nat)
    requires cur in s && head in s && Consulted(s, cur, head, aim, target, update, answers, first)
    requires parent in s && s[parent].number == s[head].number - 1
    requires s[parent].number in Line(s, cur) && Line(s, cur)[s[parent].number] == parent
    ensures var answer := update(|answers|, s[parent]);
            Consulted(s, cur, parent, aim, Retarget(target, answer), update, answers + [answer], first')
  {
    var line, top, more := Line(s, cur), s[cur].number, answers + [update(|answers|, s[parent])];
    first' := RetargetStep(aim, target, answers, first, update(|answers|, s[parent]));
    forall i: nat {:trigger AskedAt(s, line, top, update, more, i)} | i < |more| ensures AskedAt(s, line, top, update, more, i) {
      assert i < |answers| ==> AskedAt(s, line, top, update, answers, i);
    }
  }

  /** All headers stored at a number, on every fork. */
  function AllHashes(s: Store, number: nat): set<Hash> {
    set h | h in s && s[h].number == number
  }

  /** The store without the headers above a number. */
  function UpTo(s: Store, top: nat): Store {
    map h | h in s && s[h].number <= top :: s[h]
  }

  /** In a parent-closed store every number below a header's carries a header. */
  lemma NoGapBelow(s: Store, h: Hash, n: nat)
    requires ParentClosed(s) && h in s && n <= s[h].number
    ensures AllHashes(s, n) != {}
  {
    ClosedIsRooted(s, h);
    LineContiguous(s, h, 0, n);
    assert Line(s, h)[n] in AllHashes(s, n);
  }

  lemma UpToClosed(s: Store, top: nat)
    requires ParentClosed(s)
    ensures ParentClosed(UpTo(s, top))
  {
    forall h {:trigger ParentStored(UpTo(s, top), h)} | h in UpTo(s, top)
      ensures ParentStored(UpTo(s, top), h)
    {
      assert ParentStored(s, h);
    }
  }

  ghost function NotBelow(s: Store, n: nat): set<Hash> {
    set h | h in s && s[h].number >= n
  }

  /** The leftovers above the head, highest first, found by reading upwards until
      the first number without headers. */
  method Leftovers(s: Store, num: nat) returns (nums: seq<nat>, ghost gap: nat)
    ensures num < gap && AllHashes(s, gap) == {} && forall n :: num < n < gap ==> AllHashes(s, n) != {}
    ensures forall n :: n in nums <==> num < n < gap
    ensures ParentClosed(s) ==> forall n :: n in nums <==> n > num && AllHashes(s, n) != {}
  {
    nums := [];
    var n := num + 1;
    while AllHashes(s, n) != {}
      invariant n > num
      invariant forall m :: m in nums <==> num < m < n
      invariant forall m :: num < m < n ==> AllHashes(s, m) != {}
      decreases NotBelow(s, n)
    {
      ghost var h :| h in AllHashes(s, n);
      assert h in NotBelow(s, n) && h !in NotBelow(s, n + 1);
      nums := [n] + nums;
      n := n + 1;
    }
    gap := n;
    if ParentClosed(s) {
      forall m | m >= n ensures AllHashes(s, m) == {} {
        if h :| h in AllHashes(s, m) { NoGapBelow(s, h, n); }
      }
    }
  }

  /** The deletions collected so far: all headers above a number, and the index
      entries of the numbers they carry. */
  ghost predicate Collected(s: Store, top: nat, dead: set<Hash>, deadNums: set<nat>) {
    && (forall h :: h in dead <==> h in s && s[h].number > top)
    && (forall n :: n in deadNums <==> n > top && AllHashes(s, n) != {})
  }

  /** Delete the headers of some numbers on all forks. */
  method Wipe(s: Store, hdr: Hash, nums: seq<nat>) returns (dead: set<Hash>, deadNums: set<nat>)
    requires forall n :: n in nums ==> AllHashes(s, n) != {}
    ensures forall h :: h in dead <==> h in s && s[h].number in nums
    ensures forall n :: n in deadNums <==> n in nums
  {
    dead, deadNums := {}, {};
    for i := 0 to |nums|
      invariant forall h :: h in dead <==> h in s && s[h].number in nums[..i]
      invariant forall n :: n in deadNums <==> n in nums[..i]
    {
      assert nums[..i + 1] == nums[..i] + [nums[i]];
      var hashes := AllHashes(s, nums[i]);
      if hashes == {} {
        hashes := {hdr};
      }
      dead, deadNums := dead + hashes, deadNums + {nums[i]};
    }
    assert nums[..|nums|] == nums;
  }

  /** The rewind loop.  All reads see the store as it was; the deletions are written
      at the end.  `update` may lower the target on any step. */
  method Rewind(s: Store, canon: Index, cur: Hash, genesis: Hash, aim: Target, update: UpdateFn)
    returns (s': Store, canon': Index, head: Hash, target: Target, ghost answers: seq<(Header, bool)>, ghost first: nat)
    requires ParentClosed(s) && cur in s && genesis in s && s[genesis].number == 0
    requires forall h :: h in s && s[h].number == 0 ==> h == genesis
    requires aim.time > 0 ==> s[genesis].time <= aim.time
    requires forall n :: n in canon ==> Has(s, canon[n], n)
    ensures head in s && s[head].number in Line(s, cur) && Line(s, cur)[s[head].number] == head
    ensures Done(s[head], target)
    ensures Consulted(s, cur, head, aim, target, update, answers, first)
    ensures head == cur ==> s' == s && canon' == canon && Done(s[cur], aim) && target == aim
    ensures head != cur ==> s' == UpTo(s, s[head].number) && canon' == Prefix(canon, s[head].number) && !Done(s[cur], aim)
    ensures ParentClosed(s')
    ensures aim.time == 0 ==> target.time == 0 && target.block <= aim.block && (head != cur ==> s[head].number == target.block)
    ensures target.time > 0 ==> target == aim && forall n :: n in Line(s, cur) && n > s[head].number ==> s[Line(s, cur)[n]].time > aim.time
  {
    head, target, answers, first := cur, aim, [], 0;
    var origin, dead, deadNums, calls := true, {}, {}, 0;
    ghost var line := Line(s, cur);
    while !Done(s[head], target)
      invariant head in s && s[head].number in line && line[s[head].number] == head
      invariant origin == (head == cur)
      invariant if origin then dead == {} && deadNums == {} && target == aim
                else Collected(s, s[head].number, dead, deadNums) && !Done(s[cur], aim) && s[head].number < s[cur].number
      invariant calls == |answers| && Consulted(s, cur, head, aim, target, update, answers, first)
      invariant target.time > 0 ==> target == aim
      invariant target.time > 0 ==> forall n :: n in line && n > s[head].number ==> s[line[n]].time > aim.time
      invariant aim.time == 0 ==> target.time == 0 && target.block <= aim.block && (origin || target.block <= s[head].number)
      decreases s[head].number
    {
      var num := s[head].number;
      assert ParentStored(s, head);
      LineStep(s, cur, num);
      var parent := if Has(s, s[head].parent, num - 1) then s[head].parent else genesis;
      var answer := update(calls, s[parent]);
      first := ConsultStep(s, cur, head, parent, aim, target, update, answers, first);
      target, answers, calls := Retarget(target, answer), answers + [answer], calls + 1;
      dead, deadNums := Collect(s, head, origin, dead, deadNums);
      origin, head := false, parent;
    }
    s', canon' := s - dead, canon - deadNums;
    if !origin {
      UpToClosed(s, s[head].number);
      Flushed(s, canon, s[head].number, dead, deadNums);
    }
  }

  /** One step's deletions: the head's number, and on the first step all above. */
  method Collect(s: Store, head: Hash, origin: bool, dead: set<Hash>, deadNums: set<nat>)
    returns (dead': set<Hash>, deadNums': set<nat>)
    requires ParentClosed(s) && head in s && s[head].number > 0
    requires if origin then dead == {} && deadNums == {} else Collected(s, s[head].number, dead, deadNums)
    ensures Collected(s, s[head].number - 1, dead', deadNums')
  {
    var num, nums := s[head].number, [];
    if origin {
      ghost var gap;
      nums, gap := Leftovers(s, num);
    }
    assert head in AllHashes(s, num);
    var more, moreNums := Wipe(s, head, nums + [num]);
    dead', deadNums' := dead + more, deadNums + moreNums;
    assert forall h :: h in s ==> h in AllHashes(s, s[h].number);
  }

  lemma Flushed(s: Store, canon: Index, top: nat, dead: set<Hash>, deadNums: set<nat>)
    requires Collected(s, top, dead, deadNums)
    requires forall n :: n in canon ==> Has(s, canon[n], n)
    ensures s - dead == UpTo(s, top) && canon - deadNums == Prefix(canon, top)
  {
    assert forall n :: n in canon ==> canon[n] in AllHashes(s, n);
  }
}
