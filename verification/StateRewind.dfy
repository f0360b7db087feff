/**
  The state-seeking rewind: from a target block, walk back to one whose state is
  present or recoverable and that lies at or below a block carrying a given root.
 */
module StateRewind {
  import opened ChainStore
  import opened Wrappers

  /** What the walk consults besides the stored blocks: the roots whose state is
      present or recoverable, the root to pass (zero for none), the sync pivot. */
  datatype Env = Env(genesis: Hash, present: set<Hash>, recoverable: set<Hash>, root: Hash, pivot: Option<nat>)

  /** Where the head ends up and the number of the block carrying the requested
      root, or a crash on the missing parent of a block that has its state. */
  datatype Outcome = Head(block: Hash, rootNumber: nat) | Crash

  predicate Usable(env: Env, header: Header) {
    header.root in env.present || header.root in env.recoverable
  }

  /** Some block of the line from n up to the target carries the requested root. */
  ghost predicate PassedRoot(env: Env, s: Store, line: Index, n: nat)
    requires forall m :: m in line ==> line[m] in s
  {
    env.root == ZERO_HASH || exists m :: m in line && n <= m && s[line[m]].root == env.root
  }

  /** The walk settles on this block. */
  ghost predicate Settles(env: Env, s: Store, line: Index, n: nat)
    requires n in line && forall m :: m in line ==> line[m] in s
  {
    Usable(env, s[line[n]]) && (n == 0 || PassedRoot(env, s, line, n))
  }

  /** The walk gives up and aims for genesis: no state here, and either the pivot is
      passed or the parent is missing. */
  ghost predicate GivesUp(env: Env, s: Store, line: Index, n: nat)
    requires n in line && line[n] in s
  {
    !Usable(env, s[line[n]]) && ((env.pivot.Some? && n <= env.pivot.value) || n - 1 !in line)
  }

  /** The state is there, the root is not passed, and the parent is missing. */
  ghost predicate FallsOff(env: Env, s: Store, line: Index, n: nat)
    requires n in line && forall m :: m in line ==> line[m] in s
  {
    Usable(env, s[line[n]]) && n > 0 && !PassedRoot(env, s, line, n) && n - 1 !in line
  }

  /** The walk ends at the first such block on its way. */
  ghost predicate Decides(env: Env, s: Store, line: Index, n: nat)
    requires n in line && forall m :: m in line ==> line[m] in s
  {
    Settles(env, s, line, n) || GivesUp(env, s, line, n) || FallsOff(env, s, line, n)
  }

  ghost predicate EndsAt(env: Env, s: Store, line: Index, n: nat)
    requires forall m :: m in line ==> line[m] in s
  {
    n in line && Decides(env, s, line, n) && UndecidedAbove(env, s, line, n)
  }

  ghost predicate UndecidedAbove(env: Env, s: Store, line: Index, n: nat)
    requires forall m :: m in line ==> line[m] in s
  {
    forall m {:trigger Decides(env, s, line, m)} :: m in line && m > n ==> !Decides(env, s, line, m)
  }

  /** What the outcome must be when the walk ends here. */
  ghost predicate Dictates(env: Env, s: Store, line: Index, n: nat, r: Outcome)
    requires n in line && forall m :: m in line ==> line[m] in s
  {
    && (FallsOff(env, s, line, n) <==> r == Crash)
    && (r.Head? ==> IsRootNumber(env, s, line, n, r.rootNumber))
    && (r.Head? ==> r.block == if Settles(env, s, line, n) then line[n] else env.genesis)
  }

  /** The number of the lowest stored block of a line. */
  function Lowest(s: Store, h: Hash): (n: nat)
    requires h in s
    ensures n in Line(s, h)
    decreases s[h].number
  {
    if s[h].number > 0 && Has(s, s[h].parent, s[h].number - 1) then Lowest(s, s[h].parent) else s[h].number
  }

  /** A line is contiguous from its lowest block to its head. */
  lemma {:induction false} LineRange(s: Store, h: Hash, n: nat)
    requires h in s
    ensures n in Line(s, h) <==> Lowest(s, h) <= n <= s[h].number
    decreases s[h].number
  {
    if s[h].number > 0 && Has(s, s[h].parent, s[h].number - 1) {
      LineRange(s, s[h].parent, n);
    }
  }

  /** A line's numbers, as a range. */
  ghost predicate Spans(s: Store, line: Index, low: nat, top: nat) {
    && (forall m :: m in line ==> line[m] in s)
    && (forall m: nat {:trigger m in line} :: m in line <==> low <= m <= top)
  }

  lemma LineSpans(s: Store, h: Hash)
    requires h in s
    ensures Spans(s, Line(s, h), Lowest(s, h), s[h].number)
  {
    forall m: nat ensures m in Line(s, h) <==> Lowest(s, h) <= m <= s[h].number {
      LineRange(s, h, m);
    }
  }

  /** What makes the walk crash, before it starts: a root is requested that no stored ancestor carries, the
      lowest stored ancestor is not block 0 but has its state, and so have all at or below the pivot. */
  ghost predicate WillCrash(env: Env, s: Store, line: Index, low: nat)
    requires low in line && forall m :: m in line ==> line[m] in s
  {
    && env.root != ZERO_HASH && (forall n :: n in line ==> s[line[n]].root != env.root)
    && low > 0 && Usable(env, s[line[low]])
    && (forall n :: n in line && env.pivot.Some? && n <= env.pivot.value ==> Usable(env, s[line[n]]))
  }

  lemma CrashNeeds(env: Env, s: Store, line: Index, low: nat, top: nat, n: nat)
    requires Spans(s, line, low, top) && low <= top && EndsAt(env, s, line, n) && FallsOff(env, s, line, n)
    ensures WillCrash(env, s, line, low)
  {
    assert n == low;
    forall m | m in line && env.pivot.Some? && m <= env.pivot.value ensures Usable(env, s[line[m]]) {
      assert m > n ==> !Decides(env, s, line, m);
    }
  }

  /** The crash condition is exact. */
  lemma CrashesExactly(env: Env, s: Store, line: Index, low: nat, top: nat, n: nat)
    requires Spans(s, line, low, top) && low <= top && EndsAt(env, s, line, n)
    ensures FallsOff(env, s, line, n) <==> WillCrash(env, s, line, low)
  {
    if FallsOff(env, s, line, n) {
      CrashNeeds(env, s, line, low, top, n);
    }
  }

  /** The walk settles on a block exactly when that block qualifies, no block above it does, and every
      block above it without state lies above the pivot. */
  lemma SettlesExactly(env: Env, s: Store, line: Index, low: nat, top: nat, n: nat)
    requires Spans(s, line, low, top) && n in line && Settles(env, s, line, n)
    ensures EndsAt(env, s, line, n) <==>
              forall m :: m in line && m > n ==>
                if s[line[m]].root in env.present + env.recoverable then !PassedRoot(env, s, line, m)
                else env.pivot.None? || m > env.pivot.value
  {
    if EndsAt(env, s, line, n) {
      forall m | m in line && m > n
        ensures if s[line[m]].root in env.present + env.recoverable then !PassedRoot(env, s, line, m)
                else env.pivot.None? || m > env.pivot.value
      {
        assert !Decides(env, s, line, m);
      }
    }
  }

  /** The walk ends at the highest deciding block, with the outcome it dictates. */
  method Rewind(env: Env, s: Store, target: Hash) returns (r: Outcome, ghost at: nat)
    requires env.genesis in s && s[env.genesis].number == 0 && target in s
    ensures EndsAt(env, s, Line(s, target), at) && Dictates(env, s, Line(s, target), at, r)
    ensures r == Crash <==> WillCrash(env, s, Line(s, target), Lowest(s, target))
  {
    ghost var line := Line(s, target);
    LineSpans(s, target);
    var block, beyondRoot := target, env.root == ZERO_HASH;
    var rootNumber: nat := 0;
    while true
      invariant block in s && s[block].number in line && line[s[block].number] == block
      invariant UndecidedAbove(env, s, line, s[block].number)
      invariant beyondRoot == PassedRoot(env, s, line, s[block].number + 1)
      invariant IsRootNumber(env, s, line, s[block].number + 1, rootNumber)
      decreases s[block].number
    {
      var n := s[block].number;
      LineStep(s, target, n);
      if env.root != ZERO_HASH && !beyondRoot && s[block].root == env.root {
        beyondRoot, rootNumber := true, n;
      }
      RootStep(env, s, line, n, rootNumber);
      if !Usable(env, s[block]) {
        if (env.pivot.None? || n > env.pivot.value) && Has(s, s[block].parent, n - 1) {
          StepOver(env, s, line, n);
          block := s[block].parent;
          continue;
        }
        CrashesExactly(env, s, line, Lowest(s, target), s[target].number, n);
        return Head(env.genesis, rootNumber), n;
      }
      if beyondRoot || n == 0 {
        CrashesExactly(env, s, line, Lowest(s, target), s[target].number, n);
        return Head(block, rootNumber), n;
      }
      if !Has(s, s[block].parent, n - 1) {
        CrashesExactly(env, s, line, Lowest(s, target), s[target].number, n);
        return Crash, n;
      }
      StepOver(env, s, line, n);
      block := s[block].parent;
    }
  }

  lemma StepOver(env: Env, s: Store, line: Index, n: nat)
    requires (forall m :: m in line ==> line[m] in s) && UndecidedAbove(env, s, line, n)
    requires n > 0 && n in line && n - 1 in line
    requires if Usable(env, s[line[n]]) then !PassedRoot(env, s, line, n) else env.pivot.None? || n > env.pivot.value
    ensures UndecidedAbove(env, s, line, n - 1)
  {
    assert !Decides(env, s, line, n);
  }

  /** The reported number: of the highest block carrying the requested root that
      the walk met, 0 if it met none. */
  ghost predicate IsRootNumber(env: Env, s: Store, line: Index, n: nat, rootNumber: nat)
    requires forall m :: m in line ==> line[m] in s
  {
    if env.root != ZERO_HASH && PassedRoot(env, s, line, n)
    then rootNumber in line && n <= rootNumber && s[line[rootNumber]].root == env.root
      && forall m :: m in line && m > rootNumber ==> s[line[m]].root != env.root
    else rootNumber == 0
  }

  lemma RootStep(env: Env, s: Store, line: Index, n: nat, rootNumber: nat)
    requires n in line && forall m :: m in line ==> line[m] in s
    requires if env.root != ZERO_HASH && !PassedRoot(env, s, line, n + 1) && s[line[n]].root == env.root then rootNumber == n
             else IsRootNumber(env, s, line, n + 1, rootNumber)
    ensures PassedRoot(env, s, line, n) <==> PassedRoot(env, s, line, n + 1) || s[line[n]].root == env.root
    ensures IsRootNumber(env, s, line, n, rootNumber)
  {
  }

  /** The walk ends at one place only, so the outcome is determined. */
  lemma EndsOnce(env: Env, s: Store, target: Hash, n: nat, m: nat)
    requires target in s && EndsAt(env, s, Line(s, target), n) && EndsAt(env, s, Line(s, target), m)
    ensures n == m
  {
  }

  /** The crash needs a missing parent: never in a store whose line reaches block 0. */
  lemma RootedNeverFallsOff(env: Env, s: Store, target: Hash, n: nat)
    requires Rooted(s, target) && n in Line(s, target)
    ensures !FallsOff(env, s, Line(s, target), n)
  {
    if n > 0 {
      LineContiguous(s, target, 0, n - 1);
    }
  }

  /** It does happen otherwise: block 5 has its state, its parent is not stored, and
      the requested root lies further down. */
  lemma MissingParentCrashes()
    ensures var s: Store := map[1 := Header(0, 0, 0, 10), 2 := Header(3, 5, 50, 20)];
            var env := Env(1, {10, 20}, {}, 30, None);
            EndsAt(env, s, Line(s, 2), 5) && FallsOff(env, s, Line(s, 2), 5)
  {
    var s: Store := map[1 := Header(0, 0, 0, 10), 2 := Header(3, 5, 50, 20)];
    assert Line(s, 2) == map[5 := 2];
  }

  /** The callback as a whole: nothing to do above the current head block, genesis if
      the target block is gone, else the walk.  With every parent stored it always
      ends on a block, which is genesis or has its state. */
  method UpdateHead(env: Env, s: Store, current: Hash, target: Hash, number: nat) returns (r: Outcome, ghost at: nat)
    requires env.genesis in s && s[env.genesis].number == 0 && current in s
    ensures number > s[current].number ==> r == Head(current, 0)
    ensures number <= s[current].number && !Has(s, target, number) ==> r == Head(env.genesis, 0)
    ensures number <= s[current].number && Has(s, target, number) ==>
              EndsAt(env, s, Line(s, target), at) && Dictates(env, s, Line(s, target), at, r)
    ensures r == Crash <==> number <= s[current].number && Has(s, target, number) &&
                              WillCrash(env, s, Line(s, target), Lowest(s, target))
    ensures number <= s[current].number && ParentClosed(s) ==>
              r.Head? && r.block in s && (r.block == env.genesis || s[r.block].root in env.present + env.recoverable)
  {
    at := 0;
    if number > s[current].number {
      return Head(current, 0), at;
    }
    if !Has(s, target, number) {
      return Head(env.genesis, 0), at;
    }
    r, at := Rewind(env, s, target);
    if ParentClosed(s) {
      ClosedIsRooted(s, target);
      RootedNeverFallsOff(env, s, target, at);
    }
  }
}
