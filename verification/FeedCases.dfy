/**
  Accounts of the event feed.  A select case carries nothing but its channel, so all is
  counted by channel: cases, subscriptions that hold the channel, and values sent on it.
 */
module FeedCases {
  import opened Sequences

  type Chan = nat

  /** Live, then past the inbox check of `remove`, then removed. */
  datatype SubState = Live | Pending | Removed

  /** A subscription holds its channel until it is removed. */
  datatype Sub = Sub(ch: Chan, state: SubState)

  /** How often a channel occurs in a list of cases. */
  function Count(cases: seq<Chan>, ch: Chan): nat { multiset(cases)[ch] }

  /** The index of the first case with this channel, the length if there is none. */
  method FindCase(cases: seq<Chan>, ch: Chan) returns (index: nat)
    ensures index <= |cases|
    ensures index < |cases| ==> First(cases, ch, index)
    ensures index < |cases| <==> Count(cases, ch) > 0
  {
    index := 0;
    while index < |cases| && cases[index] != ch
      invariant index <= |cases| && forall i :: 0 <= i < index ==> cases[i] != ch
    {
      index := index + 1;
    }
    assert index < |cases| ==> cases[index] in multiset(cases);
    assert ch in multiset(cases) ==> ch in cases;
  }

  /** The first case with the channel. */
  ghost predicate First(cases: seq<Chan>, ch: Chan, index: nat) {
    index < |cases| && cases[index] == ch && forall i :: 0 <= i < index ==> cases[i] != ch
  }

  /** Swap a case to the end of the active prefix. */
  function Deactivate(cases: seq<Chan>, active: nat, index: nat): (r: seq<Chan>)
    requires index < active <= |cases|
    ensures |r| == |cases|
  {
    cases[index := cases[active - 1]][active - 1 := cases[index]]
  }

  lemma DeactivatePermutes(cases: seq<Chan>, active: nat, index: nat)
    requires index < active <= |cases|
    ensures multiset(Deactivate(cases, active, index)) == multiset(cases)
  {
  }

  lemma DeactivateMoves(cases: seq<Chan>, active: nat, index: nat)
    requires index < active <= |cases|
    ensures var r := Deactivate(cases, active, index);
            && multiset(r[..active - 1]) + multiset{cases[index]} == multiset(cases[..active])
            && r[active - 1..] == [cases[index]] + cases[active..]
  {
    var r, p := Deactivate(cases, active, index), cases[..active];
    DeactivatePermutes(p, active, index);
    var q := Deactivate(p, active, index);
    assert q == r[..active - 1] + [cases[index]];
  }

  /** How many of the first n subscriptions hold a channel. */
  function HeldTo(subs: seq<Sub>, n: nat, ch: Chan): nat
    requires n <= |subs|
  {
    if n == 0 then 0 else HeldTo(subs, n - 1, ch) + if subs[n - 1].ch == ch && !subs[n - 1].state.Removed? then 1 else 0
  }

  /** How many of the first n subscriptions wait to be removed from the send cases. */
  function WaitTo(subs: seq<Sub>, n: nat, ch: Chan): nat
    requires n <= |subs|
  {
    if n == 0 then 0 else WaitTo(subs, n - 1, ch) + if subs[n - 1].ch == ch && subs[n - 1].state.Pending? then 1 else 0
  }

  /** How many subscriptions hold a channel. */
  function Held(subs: seq<Sub>, ch: Chan): nat { HeldTo(subs, |subs|, ch) }

  function Waiting(subs: seq<Sub>, ch: Chan): nat { WaitTo(subs, |subs|, ch) }

  /** One subscription in another state. */
  function Changed(subs: seq<Sub>, k: nat, state: SubState): seq<Sub>
    requires k < |subs|
  {
    subs[k := subs[k].(state := state)]
  }

  lemma {:induction false} CountsChange(subs: seq<Sub>, n: nat, k: nat, state: SubState, ch: Chan)
    requires n <= |subs| && k < |subs|
    ensures var after, mine := Changed(subs, k, state), k < n && subs[k].ch == ch;
            && HeldTo(after, n, ch) + (if mine && !subs[k].state.Removed? then 1 else 0)
               == HeldTo(subs, n, ch) + (if mine && !state.Removed? then 1 else 0)
            && WaitTo(after, n, ch) + (if mine && subs[k].state.Pending? then 1 else 0)
               == WaitTo(subs, n, ch) + (if mine && state.Pending? then 1 else 0)
  {
    if n > 0 {
      CountsChange(subs, n - 1, k, state, ch);
    }
  }

  lemma {:induction false} CountsPrefix(subs: seq<Sub>, x: Sub, n: nat, ch: Chan)
    requires n <= |subs|
    ensures HeldTo(subs + [x], n, ch) == HeldTo(subs, n, ch) && WaitTo(subs + [x], n, ch) == WaitTo(subs, n, ch)
  {
    if n > 0 {
      CountsPrefix(subs, x, n - 1, ch);
    }
  }

  lemma CountsAppend(subs: seq<Sub>, x: Sub, ch: Chan)
    requires x.state == Live
    ensures Held(subs + [x], ch) == Held(subs, ch) + (if x.ch == ch then 1 else 0) && Waiting(subs + [x], ch) == Waiting(subs, ch)
  {
    CountsPrefix(subs, x, |subs|, ch);
  }

  /** Between two places there are at least as many holders as waiting ones; one more if a live one is there. */
  lemma {:induction false} CountsGrow(subs: seq<Sub>, n: nat, m: nat, ch: Chan)
    requires n <= m <= |subs|
    ensures 0 <= WaitTo(subs, m, ch) - WaitTo(subs, n, ch) <= HeldTo(subs, m, ch) - HeldTo(subs, n, ch)
    decreases m - n
  {
    if n < m {
      CountsGrow(subs, n, m - 1, ch);
    }
  }

  lemma {:induction false} HolderCounts(subs: seq<Sub>, n: nat, m: nat, k: nat)
    requires n <= k < m <= |subs| && !subs[k].state.Removed?
    ensures HeldTo(subs, m, subs[k].ch) > HeldTo(subs, n, subs[k].ch)
    ensures subs[k].state.Pending? ==> WaitTo(subs, m, subs[k].ch) > WaitTo(subs, n, subs[k].ch)
    ensures subs[k].state.Live? ==>
              HeldTo(subs, m, subs[k].ch) - HeldTo(subs, n, subs[k].ch) > WaitTo(subs, m, subs[k].ch) - WaitTo(subs, n, subs[k].ch)
    decreases m
  {
    if k == m - 1 {
      CountsGrow(subs, n, m - 1, subs[k].ch);
    } else {
      HolderCounts(subs, n, m - 1, k);
    }
  }

  /** Each channel has a case for every subscription that holds it, and every one that waits for removal
      has a case among the send cases. */
  ghost predicate Accounted(sendCases: seq<Chan>, inbox: seq<Chan>, subs: seq<Sub>) {
    forall ch {:trigger Level(sendCases, inbox, subs, ch)} :: Level(sendCases, inbox, subs, ch)
  }

  ghost predicate Level(sendCases: seq<Chan>, inbox: seq<Chan>, subs: seq<Sub>, ch: Chan) {
    Count(sendCases, ch) + Count(inbox, ch) == Held(subs, ch) && Waiting(subs, ch) <= Count(sendCases, ch)
  }

  /** A send in progress that started with the first n subscriptions.  `crossed` counts the unsubscriptions of
      those that were answered by a later subscription's case in the inbox, less the later ones that were then
      answered by a send case: beyond it, the send cases are exactly the holders from the start. */
  ghost predicate Shared(sendCases: seq<Chan>, subs: seq<Sub>, n: nat, crossed: multiset<Chan>) {
    n <= |subs| && forall ch {:trigger SharedOn(sendCases, subs, n, crossed, ch)} :: SharedOn(sendCases, subs, n, crossed, ch)
  }

  ghost predicate SharedOn(sendCases: seq<Chan>, subs: seq<Sub>, n: nat, crossed: multiset<Chan>, ch: Chan)
    requires n <= |subs|
  {
    && Count(sendCases, ch) == HeldTo(subs, n, ch) + crossed[ch]
    && Waiting(subs, ch) - WaitTo(subs, n, ch) <= crossed[ch]
  }

  /** What a send in progress keeps about its cases: on every channel, those it started with are still active,
      were served, or were dropped while active; served cases sit behind the active ones. */
  ghost predicate Balanced(sendCases: seq<Chan>, active: nat, start: multiset<Chan>, served: multiset<Chan>, dropped: multiset<Chan>) {
    && active <= |sendCases|
    && forall ch {:trigger Tally(sendCases, active, start, served, dropped, ch)} :: Tally(sendCases, active, start, served, dropped, ch)
  }

  ghost predicate Tally(sendCases: seq<Chan>, active: nat, start: multiset<Chan>, served: multiset<Chan>, dropped: multiset<Chan>, ch: Chan)
    requires active <= |sendCases|
  {
    && Count(sendCases[..active], ch) + served[ch] + dropped[ch] == start[ch]
    && Count(sendCases[active..], ch) <= served[ch]
  }

  lemma SubscribeAccounts(sendCases: seq<Chan>, inbox: seq<Chan>, subs: seq<Sub>, ch: Chan)
    requires Accounted(sendCases, inbox, subs)
    ensures Accounted(sendCases, inbox + [ch], subs + [Sub(ch, Live)])
  {
    var more, after := inbox + [ch], subs + [Sub(ch, Live)];
    forall c {:trigger Level(sendCases, more, after, c)} ensures Level(sendCases, more, after, c) {
      assert Level(sendCases, inbox, subs, c);
      CountsAppend(subs, Sub(ch, Live), c);
    }
  }

  /** A live subscription is answered by a case in the inbox. */
  lemma InboxRemovalAccounts(sendCases: seq<Chan>, inbox: seq<Chan>, subs: seq<Sub>, k: nat, index: nat)
    requires Accounted(sendCases, inbox, subs)
    requires k < |subs| && subs[k].state == Live && index < |inbox| && inbox[index] == subs[k].ch
    ensures Accounted(sendCases, Delete(inbox, index), Changed(subs, k, Removed))
  {
    var fewer, after := Delete(inbox, index), Changed(subs, k, Removed);
    DeleteRemoves(inbox, index);
    forall c {:trigger Level(sendCases, fewer, after, c)} ensures Level(sendCases, fewer, after, c) {
      assert Level(sendCases, inbox, subs, c);
      CountsChange(subs, |subs|, k, Removed, c);
      assert (multiset(fewer) + multiset{inbox[index]})[c] == multiset(inbox)[c];
    }
  }

  /** Not in the inbox: then the channel is among the send cases, and stays there for as long as the
      subscription waits. */
  lemma WaitingAccounts(sendCases: seq<Chan>, inbox: seq<Chan>, subs: seq<Sub>, k: nat)
    requires Accounted(sendCases, inbox, subs)
    requires k < |subs| && subs[k].state == Live && Count(inbox, subs[k].ch) == 0
    ensures Accounted(sendCases, inbox, Changed(subs, k, Pending))
  {
    var after := Changed(subs, k, Pending);
    forall c {:trigger Level(sendCases, inbox, after, c)} ensures Level(sendCases, inbox, after, c) {
      assert Level(sendCases, inbox, subs, c);
      CountsChange(subs, |subs|, k, Pending, c);
      HolderCounts(subs, 0, |subs|, k);
    }
  }

  lemma WaitingIsFound(sendCases: seq<Chan>, inbox: seq<Chan>, subs: seq<Sub>, k: nat)
    requires Accounted(sendCases, inbox, subs) && k < |subs| && subs[k].state == Pending
    ensures Count(sendCases, subs[k].ch) > 0
  {
    assert Level(sendCases, inbox, subs, subs[k].ch);
    HolderCounts(subs, 0, |subs|, k);
  }

  /** A waiting subscription is answered by a send case. */
  lemma CaseRemovalAccounts(sendCases: seq<Chan>, inbox: seq<Chan>, subs: seq<Sub>, k: nat, index: nat)
    requires Accounted(sendCases, inbox, subs)
    requires k < |subs| && subs[k].state == Pending && index < |sendCases| && sendCases[index] == subs[k].ch
    ensures Accounted(Delete(sendCases, index), inbox, Changed(subs, k, Removed))
  {
    var fewer, after := Delete(sendCases, index), Changed(subs, k, Removed);
    DeleteRemoves(sendCases, index);
    forall c {:trigger Level(fewer, inbox, after, c)} ensures Level(fewer, inbox, after, c) {
      assert Level(sendCases, inbox, subs, c);
      CountsChange(subs, |subs|, k, Removed, c);
      assert (multiset(fewer) + multiset{sendCases[index]})[c] == multiset(sendCases)[c];
    }
  }

  /** The inbox joins the send cases. */
  lemma MergeAccounts(sendCases: seq<Chan>, inbox: seq<Chan>, subs: seq<Sub>)
    requires Accounted(sendCases, inbox, subs)
    ensures Accounted(sendCases + inbox, [], subs)
    ensures Shared(sendCases + inbox, subs, |subs|, multiset{})
    ensures forall ch {:trigger Held(subs, ch)} :: multiset(sendCases + inbox)[ch] == Held(subs, ch)
  {
    var all, none: seq<Chan>, zero: multiset<Chan> := sendCases + inbox, [], multiset{};
    assert multiset(all) == multiset(sendCases) + multiset(inbox);
    forall c {:trigger Level(all, none, subs, c)} ensures Level(all, none, subs, c) {
      assert Level(sendCases, inbox, subs, c);
    }
    forall c {:trigger Held(subs, c)} ensures multiset(all)[c] == Held(subs, c) {
      assert Level(sendCases, inbox, subs, c);
    }
    forall c {:trigger SharedOn(all, subs, |subs|, zero, c)} ensures SharedOn(all, subs, |subs|, zero, c) {
      assert Level(all, none, subs, c);
    }
  }

  lemma PermutedAccounts(sendCases: seq<Chan>, after: seq<Chan>, inbox: seq<Chan>, subs: seq<Sub>)
    requires Accounted(sendCases, inbox, subs) && multiset(after) == multiset(sendCases)
    ensures Accounted(after, inbox, subs)
  {
    forall c {:trigger Level(after, inbox, subs, c)} ensures Level(after, inbox, subs, c) {
      assert Level(sendCases, inbox, subs, c);
    }
  }

  lemma PermutedShared(sendCases: seq<Chan>, after: seq<Chan>, subs: seq<Sub>, n: nat, crossed: multiset<Chan>)
    requires Shared(sendCases, subs, n, crossed) && multiset(after) == multiset(sendCases)
    ensures Shared(after, subs, n, crossed)
  {
    forall c {:trigger SharedOn(after, subs, n, crossed, c)} ensures SharedOn(after, subs, n, crossed, c) {
      assert SharedOn(sendCases, subs, n, crossed, c);
    }
  }

  lemma SubscribeShared(sendCases: seq<Chan>, subs: seq<Sub>, n: nat, crossed: multiset<Chan>, ch: Chan)
    requires Shared(sendCases, subs, n, crossed)
    ensures Shared(sendCases, subs + [Sub(ch, Live)], n, crossed)
  {
    var after := subs + [Sub(ch, Live)];
    forall c {:trigger SharedOn(sendCases, after, n, crossed, c)} ensures SharedOn(sendCases, after, n, crossed, c) {
      assert SharedOn(sendCases, subs, n, crossed, c);
      CountsPrefix(subs, Sub(ch, Live), n, c);
      CountsAppend(subs, Sub(ch, Live), c);
    }
  }

  /** The count of crossings after an unsubscription was answered from the inbox. */
  ghost function Crossing(crossed: multiset<Chan>, n: nat, k: nat, ch: Chan): multiset<Chan> {
    if k < n then crossed + multiset{ch} else crossed
  }

  lemma InboxRemovalShared(sendCases: seq<Chan>, subs: seq<Sub>, n: nat, crossed: multiset<Chan>, k: nat)
    requires Shared(sendCases, subs, n, crossed) && k < |subs| && subs[k].state == Live
    ensures Shared(sendCases, Changed(subs, k, Removed), n, Crossing(crossed, n, k, subs[k].ch))
  {
    var after, more := Changed(subs, k, Removed), Crossing(crossed, n, k, subs[k].ch);
    forall c {:trigger SharedOn(sendCases, after, n, more, c)} ensures SharedOn(sendCases, after, n, more, c) {
      assert SharedOn(sendCases, subs, n, crossed, c);
      CountsChange(subs, n, k, Removed, c);
      CountsChange(subs, |subs|, k, Removed, c);
    }
  }

  lemma WaitingShared(sendCases: seq<Chan>, inbox: seq<Chan>, subs: seq<Sub>, n: nat, crossed: multiset<Chan>, k: nat)
    requires Accounted(sendCases, inbox, subs) && Shared(sendCases, subs, n, crossed)
    requires k < |subs| && subs[k].state == Live && Count(inbox, subs[k].ch) == 0
    ensures Shared(sendCases, Changed(subs, k, Pending), n, crossed)
  {
    var after := Changed(subs, k, Pending);
    forall c {:trigger SharedOn(sendCases, after, n, crossed, c)} ensures SharedOn(sendCases, after, n, crossed, c) {
      assert SharedOn(sendCases, subs, n, crossed, c) && Level(sendCases, inbox, subs, c);
      CountsChange(subs, n, k, Pending, c);
      CountsChange(subs, |subs|, k, Pending, c);
      if k >= n {
        HolderCounts(subs, n, |subs|, k);
      }
    }
  }

  /** The count of crossings after an unsubscription was answered from the send cases. */
  ghost function Uncrossing(crossed: multiset<Chan>, n: nat, k: nat, ch: Chan): multiset<Chan> {
    if k < n then crossed else crossed - multiset{ch}
  }

  lemma CaseRemovalShared(sendCases: seq<Chan>, subs: seq<Sub>, n: nat, crossed: multiset<Chan>, k: nat, index: nat)
    requires Shared(sendCases, subs, n, crossed)
    requires k < |subs| && subs[k].state == Pending && index < |sendCases| && sendCases[index] == subs[k].ch
    ensures Shared(Delete(sendCases, index), Changed(subs, k, Removed), n, Uncrossing(crossed, n, k, subs[k].ch))
  {
    var fewer, after, less := Delete(sendCases, index), Changed(subs, k, Removed), Uncrossing(crossed, n, k, subs[k].ch);
    DeleteRemoves(sendCases, index);
    assert SharedOn(sendCases, subs, n, crossed, subs[k].ch);
    if k >= n {
      HolderCounts(subs, n, |subs|, k);
    }
    forall c {:trigger SharedOn(fewer, after, n, less, c)} ensures SharedOn(fewer, after, n, less, c) {
      assert SharedOn(sendCases, subs, n, crossed, c);
      CountsChange(subs, n, k, Removed, c);
      CountsChange(subs, |subs|, k, Removed, c);
      assert (multiset(fewer) + multiset{sendCases[index]})[c] == multiset(sendCases)[c];
    }
  }

  /** When exactly a send has cases of a channel left but no holder from its start: when each of these cases
      stands for an unsubscription that was answered from the inbox. */
  lemma NoHolderLeft(sendCases: seq<Chan>, subs: seq<Sub>, n: nat, crossed: multiset<Chan>, ch: Chan)
    requires Shared(sendCases, subs, n, crossed)
    ensures HeldTo(subs, n, ch) == 0 <==> Count(sendCases, ch) == crossed[ch]
  {
    assert SharedOn(sendCases, subs, n, crossed, ch);
  }

  /** Serving an active case, in the fast path or in the select. */
  lemma ServeBalances(cases: seq<Chan>, active: nat, index: nat, start: multiset<Chan>, served: multiset<Chan>, dropped: multiset<Chan>)
    requires Balanced(cases, active, start, served, dropped) && index < active
    ensures Balanced(Deactivate(cases, active, index), active - 1, start, served + multiset{cases[index]}, dropped)
  {
    DeactivateMoves(cases, active, index);
    var r, more := Deactivate(cases, active, index), served + multiset{cases[index]};
    forall c {:trigger Tally(r, active - 1, start, more, dropped, c)}
      ensures Tally(r, active - 1, start, more, dropped, c)
    {
      assert Tally(cases, active, start, served, dropped, c);
      assert (multiset(r[..active - 1]) + multiset{cases[index]})[c] == multiset(cases[..active])[c];
    }
  }

  /** Deleting a case that is still active: the active prefix shrinks with it. */
  lemma ActiveRemovalBalances(cases: seq<Chan>, active: nat, index: nat, start: multiset<Chan>, served: multiset<Chan>, dropped: multiset<Chan>)
    requires Balanced(cases, active, start, served, dropped) && index < active
    ensures Balanced(Delete(cases, index), active - 1, start, served, dropped + multiset{cases[index]})
  {
    var r, more := Delete(cases, index), dropped + multiset{cases[index]};
    DeleteBelow(cases, index, active);
    DeleteRemoves(cases[..active], index);
    forall c {:trigger Tally(r, active - 1, start, served, more, c)}
      ensures Tally(r, active - 1, start, served, more, c)
    {
      assert Tally(cases, active, start, served, dropped, c);
      assert (multiset(r[..active - 1]) + multiset{cases[index]})[c] == multiset(cases[..active])[c];
    }
  }

  lemma ServedRemovalCounts(cases: seq<Chan>, active: nat, index: nat, ch: Chan)
    requires active <= index < |cases|
    ensures Count(Delete(cases, index)[..active], ch) == Count(cases[..active], ch)
    ensures Count(Delete(cases, index)[active..], ch) <= Count(cases[active..], ch)
  {
    DeleteBeyond(cases, index, active);
    CountDelete(cases[active..], index - active, ch);
  }

  lemma CountDelete(cases: seq<Chan>, index: nat, ch: Chan)
    requires index < |cases|
    ensures Count(Delete(cases, index), ch) <= Count(cases, ch)
  {
    DeleteRemoves(cases, index);
    var fewer, all := multiset(Delete(cases, index)), multiset(cases);
    assert (fewer + multiset{cases[index]})[ch] == all[ch];
  }

  /** Deleting a case that was served: the active prefix is not touched. */
  lemma ServedRemovalBalances(cases: seq<Chan>, active: nat, index: nat, start: multiset<Chan>, served: multiset<Chan>, dropped: multiset<Chan>)
    requires Balanced(cases, active, start, served, dropped) && active <= index < |cases|
    ensures Balanced(Delete(cases, index), active, start, served, dropped)
  {
    var r := Delete(cases, index);
    forall c {:trigger Tally(r, active, start, served, dropped, c)}
      ensures Tally(r, active, start, served, dropped, c)
    {
      assert Tally(cases, active, start, served, dropped, c);
      ServedRemovalCounts(cases, active, index, c);
    }
  }

  /** The active count after deleting a case: one less if the case was active. */
  function StillActive(active: nat, index: nat): nat {
    if index < active then active - 1 else active
  }

  ghost function StillDropped(cases: seq<Chan>, active: nat, index: nat, dropped: multiset<Chan>): multiset<Chan>
    requires index < |cases|
  {
    if index < active then dropped + multiset{cases[index]} else dropped
  }

  lemma RemovalBalances(cases: seq<Chan>, active: nat, index: nat, start: multiset<Chan>, served: multiset<Chan>, dropped: multiset<Chan>)
    requires Balanced(cases, active, start, served, dropped) && index < |cases|
    ensures Balanced(Delete(cases, index), StillActive(active, index), start, served, StillDropped(cases, active, index, dropped))
  {
    if index < active {
      ActiveRemovalBalances(cases, active, index, start, served, dropped);
    } else {
      ServedRemovalBalances(cases, active, index, start, served, dropped);
    }
  }

  lemma AllActive(cases: seq<Chan>)
    ensures Balanced(cases, |cases|, multiset(cases), multiset{}, multiset{})
  {
    assert cases[..|cases|] == cases && cases[|cases|..] == [];
  }

  /**
    The books of one send.  `unwanted` counts the values sent when no holder from the start was left on their
    channel, `crossings` are the channels on which an unsubscription from the start was answered from the inbox,
    `doubled` those held twice at once at some time since the start, and `received` says for each subscription
    how many values were sent on its channel while it held it.
   */
  datatype Books = Books(initial: seq<Sub>, start: multiset<Chan>, served: multiset<Chan>, dropped: multiset<Chan>,
                         unwanted: multiset<Chan>, crossed: multiset<Chan>, crossings: set<Chan>, doubled: set<Chan>,
                         received: seq<nat>)

  /** Which channels may be marked how. */
  ghost predicate Marked(subs: seq<Sub>, b: Books) {
    b.crossings <= b.doubled && forall ch {:trigger MarkedOn(subs, b, ch)} :: MarkedOn(subs, b, ch)
  }

  ghost predicate MarkedOn(subs: seq<Sub>, b: Books, ch: Chan) {
    && (Held(subs, ch) > 1 || Held(b.initial, ch) > 1 ==> ch in b.doubled)
    && (ch in b.crossed || ch in b.unwanted ==> ch in b.crossings)
    && b.start[ch] == Held(b.initial, ch)
  }

  /** What each subscription has heard of the send. */
  ghost predicate Informed(subs: seq<Sub>, b: Books) {
    |b.received| == |subs| >= |b.initial| && forall k: nat {:trigger Heard(subs, b, k)} :: k < |subs| ==> Heard(subs, b, k)
  }

  ghost predicate Heard(subs: seq<Sub>, b: Books, k: nat)
    requires k < |subs| == |b.received|
  {
    && b.received[k] <= b.served[subs[k].ch]
    && (k < |b.initial| && !subs[k].state.Removed? ==> b.received[k] == b.served[subs[k].ch])
    && (k < |b.initial| ==> subs[k].ch == b.initial[k].ch)
    && (k < |b.initial| && b.initial[k].state.Removed? ==> subs[k].state.Removed? && b.received[k] == 0)
    && (k >= |b.initial| && subs[k].ch !in b.doubled ==> b.received[k] == 0)
  }

  /** All that a send in progress keeps. */
  ghost predicate Sending(sendCases: seq<Chan>, active: nat, subs: seq<Sub>, nsent: nat, b: Books) {
    && Shared(sendCases, subs, |b.initial|, b.crossed)
    && Balanced(sendCases, active, b.start, b.served, b.dropped) && nsent == |b.served|
    && Marked(subs, b) && Informed(subs, b)
  }

  /** The books when a send takes the lock. */
  ghost function Opened(all: seq<Chan>, subs: seq<Sub>): Books {
    Books(subs, multiset(all), multiset{}, multiset{}, multiset{}, multiset{}, {},
          set s | s in subs && Held(subs, s.ch) > 1 :: s.ch, seq(|subs|, _ => 0))
  }

  lemma {:induction false} HeldBySomeone(subs: seq<Sub>, n: nat, ch: Chan)
    requires n <= |subs| && HeldTo(subs, n, ch) > 0
    ensures exists s :: s in subs && s.ch == ch
  {
    if subs[n - 1].ch == ch {
      assert subs[n - 1] in subs;
    } else {
      HeldBySomeone(subs, n - 1, ch);
    }
  }

  lemma OpenedSending(sendCases: seq<Chan>, inbox: seq<Chan>, subs: seq<Sub>)
    requires Accounted(sendCases, inbox, subs)
    ensures var all := sendCases + inbox; Sending(all, |all|, subs, 0, Opened(all, subs)) && Accounted(all, [], subs)
  {
    var all := sendCases + inbox;
    var b := Opened(all, subs);
    MergeAccounts(sendCases, inbox, subs);
    AllActive(all);
    forall ch {:trigger MarkedOn(subs, b, ch)} ensures MarkedOn(subs, b, ch) {
      if Held(subs, ch) > 1 {
        HeldBySomeone(subs, |subs|, ch);
      }
    }
  }

  /** The books after one more subscription. */
  ghost function Joined(b: Books, subs: seq<Sub>, ch: Chan): Books {
    b.(doubled := if Held(subs, ch) > 0 then b.doubled + {ch} else b.doubled, received := b.received + [0])
  }

  lemma JoinedSending(sendCases: seq<Chan>, active: nat, subs: seq<Sub>, nsent: nat, b: Books, ch: Chan)
    requires Sending(sendCases, active, subs, nsent, b)
    ensures Sending(sendCases, active, subs + [Sub(ch, Live)], nsent, Joined(b, subs, ch))
  {
    var after, c := subs + [Sub(ch, Live)], Joined(b, subs, ch);
    SubscribeShared(sendCases, subs, |b.initial|, b.crossed, ch);
    forall d {:trigger MarkedOn(after, c, d)} ensures MarkedOn(after, c, d) {
      assert MarkedOn(subs, b, d);
      CountsAppend(subs, Sub(ch, Live), d);
    }
    forall k: nat {:trigger Heard(after, c, k)} | k < |after| ensures Heard(after, c, k) {
      if k < |subs| { assert Heard(subs, b, k); }
    }
  }

  /** A change of one subscription's state that does not give a removed one its channel back. */
  lemma ChangeInforms(subs: seq<Sub>, b: Books, k: nat, state: SubState)
    requires Informed(subs, b) && k < |subs| && !subs[k].state.Removed?
    ensures Informed(Changed(subs, k, state), b)
  {
    var after := Changed(subs, k, state);
    forall j: nat {:trigger Heard(after, b, j)} | j < |after| ensures Heard(after, b, j) {
      assert Heard(subs, b, j);
    }
  }

  lemma ChangeMarks(subs: seq<Sub>, b: Books, k: nat, state: SubState)
    requires Marked(subs, b) && k < |subs| && !subs[k].state.Removed?
    ensures Marked(Changed(subs, k, state), b)
  {
    var after := Changed(subs, k, state);
    forall d {:trigger MarkedOn(after, b, d)} ensures MarkedOn(after, b, d) {
      assert MarkedOn(subs, b, d);
      CountsChange(subs, |subs|, k, state, d);
    }
  }

  lemma WaitingSending(sendCases: seq<Chan>, inbox: seq<Chan>, active: nat, subs: seq<Sub>, nsent: nat, b: Books, k: nat)
    requires Accounted(sendCases, inbox, subs) && Sending(sendCases, active, subs, nsent, b)
    requires k < |subs| && subs[k].state == Live && Count(inbox, subs[k].ch) == 0
    ensures Sending(sendCases, active, Changed(subs, k, Pending), nsent, b)
  {
    WaitingShared(sendCases, inbox, subs, |b.initial|, b.crossed, k);
    ChangeInforms(subs, b, k, Pending);
    ChangeMarks(subs, b, k, Pending);
  }

  /** The books after an unsubscription was answered from the inbox. */
  ghost function InboxLeft(b: Books, k: nat, ch: Chan): Books {
    b.(crossed := Crossing(b.crossed, |b.initial|, k, ch), crossings := if k < |b.initial| then b.crossings + {ch} else b.crossings)
  }

  /** An unsubscription from the start finds its channel in the inbox only if the channel is held twice. */
  lemma CrossingNeedsTwo(sendCases: seq<Chan>, inbox: seq<Chan>, subs: seq<Sub>, n: nat, crossed: multiset<Chan>, k: nat)
    requires Accounted(sendCases, inbox, subs) && Shared(sendCases, subs, n, crossed)
    requires k < n && !subs[k].state.Removed? && Count(inbox, subs[k].ch) > 0
    ensures Held(subs, subs[k].ch) > 1
  {
    assert Level(sendCases, inbox, subs, subs[k].ch) && SharedOn(sendCases, subs, n, crossed, subs[k].ch);
    HolderCounts(subs, 0, n, k);
  }

  lemma InboxLeftSending(sendCases: seq<Chan>, inbox: seq<Chan>, active: nat, subs: seq<Sub>, nsent: nat, b: Books, k: nat)
    requires Accounted(sendCases, inbox, subs) && Sending(sendCases, active, subs, nsent, b)
    requires k < |subs| && subs[k].state == Live && Count(inbox, subs[k].ch) > 0
    ensures Sending(sendCases, active, Changed(subs, k, Removed), nsent, InboxLeft(b, k, subs[k].ch))
  {
    var c := InboxLeft(b, k, subs[k].ch);
    if k < |b.initial| {
      CrossingNeedsTwo(sendCases, inbox, subs, |b.initial|, b.crossed, k);
    }
    assert MarkedOn(subs, b, subs[k].ch);
    forall d {:trigger MarkedOn(subs, c, d)} ensures MarkedOn(subs, c, d) {
      assert MarkedOn(subs, b, d);
    }
    forall j: nat {:trigger Heard(subs, c, j)} | j < |subs| ensures Heard(subs, c, j) {
      assert Heard(subs, b, j);
    }
    InboxRemovalShared(sendCases, subs, |b.initial|, b.crossed, k);
    ChangeInforms(subs, c, k, Removed);
    ChangeMarks(subs, c, k, Removed);
  }

  /** The books after an unsubscription was answered from the send cases. */
  ghost function CaseLeft(b: Books, k: nat, cases: seq<Chan>, active: nat, index: nat): Books
    requires index < |cases|
  {
    b.(crossed := Uncrossing(b.crossed, |b.initial|, k, cases[index]), dropped := StillDropped(cases, active, index, b.dropped))
  }

  lemma CaseLeftSending(sendCases: seq<Chan>, active: nat, subs: seq<Sub>, nsent: nat, b: Books, k: nat, index: nat)
    requires Sending(sendCases, active, subs, nsent, b)
    requires k < |subs| && subs[k].state == Pending && index < |sendCases| && sendCases[index] == subs[k].ch
    ensures Sending(Delete(sendCases, index), StillActive(active, index), Changed(subs, k, Removed), nsent,
                    CaseLeft(b, k, sendCases, active, index))
  {
    var c := CaseLeft(b, k, sendCases, active, index);
    forall d {:trigger MarkedOn(subs, c, d)} ensures MarkedOn(subs, c, d) {
      assert MarkedOn(subs, b, d);
    }
    forall j: nat {:trigger Heard(subs, c, j)} | j < |subs| ensures Heard(subs, c, j) {
      assert Heard(subs, b, j);
    }
    CaseRemovalShared(sendCases, subs, |b.initial|, b.crossed, k, index);
    RemovalBalances(sendCases, active, index, b.start, b.served, b.dropped);
    ChangeInforms(subs, c, k, Removed);
    ChangeMarks(subs, c, k, Removed);
  }

  /** Who holds the channel hears of the value. */
  ghost function Told(subs: seq<Sub>, received: seq<nat>, ch: Chan): seq<nat>
    requires |received| == |subs|
  {
    seq(|subs|, k requires 0 <= k < |subs| => received[k] + if subs[k].ch == ch && !subs[k].state.Removed? then 1 else 0)
  }

  /** The books after a value was sent on a channel. */
  ghost function Sent(b: Books, subs: seq<Sub>, ch: Chan): Books
    requires |b.initial| <= |subs| == |b.received|
  {
    b.(served := b.served + multiset{ch}, received := Told(subs, b.received, ch),
       unwanted := if HeldTo(subs, |b.initial|, ch) == 0 then b.unwanted + multiset{ch} else b.unwanted)
  }

  /** A value that is sent on a channel held once at a time goes out while a holder from the start is left, so
      that no later subscription hears of it. */
  lemma LaterNotTold(sendCases: seq<Chan>, active: nat, subs: seq<Sub>, nsent: nat, b: Books, index: nat, k: nat)
    requires Sending(sendCases, active, subs, nsent, b) && index < active && |b.initial| <= k < |subs|
    requires subs[k].ch == sendCases[index] && subs[k].ch !in b.doubled
    ensures subs[k].state.Removed?
  {
    var ch := sendCases[index];
    assert ch in multiset(sendCases);
    assert SharedOn(sendCases, subs, |b.initial|, b.crossed, ch) && MarkedOn(subs, b, ch);
    if !subs[k].state.Removed? {
      HolderCounts(subs, |b.initial|, |subs|, k);
    }
  }

  lemma SentSending(sendCases: seq<Chan>, active: nat, subs: seq<Sub>, nsent: nat, b: Books, index: nat)
    requires Sending(sendCases, active, subs, nsent, b) && index < active
    ensures index < |sendCases| && |b.initial| <= |subs| == |b.received|
    ensures Sending(Deactivate(sendCases, active, index), active - 1, subs, nsent + 1, Sent(b, subs, sendCases[index]))
  {
    var ch := sendCases[index];
    var c := Sent(b, subs, ch);
    DeactivatePermutes(sendCases, active, index);
    ServeBalances(sendCases, active, index, b.start, b.served, b.dropped);
    PermutedShared(sendCases, Deactivate(sendCases, active, index), subs, |b.initial|, b.crossed);
    assert ch in multiset(sendCases) && SharedOn(sendCases, subs, |b.initial|, b.crossed, ch);
    forall d {:trigger MarkedOn(subs, c, d)} ensures MarkedOn(subs, c, d) {
      assert MarkedOn(subs, b, d);
    }
    forall k: nat {:trigger Heard(subs, c, k)} | k < |subs| ensures Heard(subs, c, k) {
      assert Heard(subs, b, k);
      if k >= |b.initial| && subs[k].ch == ch && ch !in b.doubled {
        LaterNotTold(sendCases, active, subs, nsent, b, index, k);
      }
    }
  }

  /** What a finished send has done, and the subscriptions at its end. */
  datatype Report = Report(final: seq<Sub>, nsent: nat, books: Books)

  /** The subscription was there when the send took the lock. */
  ghost predicate Present(b: Books, k: nat) { k < |b.initial| && !b.initial[k].state.Removed? }

  /**
    The promise by channel, however often the channel is held: at least one value for each subscription that was
    there from the start to the end, and one value or one dropped case for each that was there at the start.
    Every value goes out while a holder from the start is left, unless an unsubscription was answered from the inbox.
   */
  ghost predicate DeliveredOn(r: Report, ch: Chan)
    requires |r.books.initial| <= |r.final|
  {
    && HeldTo(r.final, |r.books.initial|, ch) <= r.books.served[ch]
    && r.books.served[ch] + r.books.dropped[ch] == Held(r.books.initial, ch)
    && (ch !in r.books.crossings ==> ch !in r.books.unwanted)
  }

  /**
    The promise by subscription.  One that was there from the start to the end hears of every value on its
    channel, at least one.  If the channel was held once at a time during the send, that is exactly one; one that
    left hears of at most one; one that came later of none.
   */
  ghost predicate DeliveredTo(r: Report, k: nat)
    requires k < |r.final| == |r.books.received|
  {
    var heard, ch := r.books.received[k], r.final[k].ch;
    && (Present(r.books, k) && !r.final[k].state.Removed? ==> heard == r.books.served[ch] >= 1)
    && (ch !in r.books.doubled && Present(r.books, k) ==> heard <= 1 && r.books.served[ch] + r.books.dropped[ch] == 1)
    && (ch !in r.books.doubled && !Present(r.books, k) ==> heard == 0)
  }

  ghost predicate Delivered(r: Report) {
    && |r.books.initial| <= |r.final| == |r.books.received|
    && r.nsent == |r.books.served| && r.books.crossings <= r.books.doubled
    && (forall ch {:trigger DeliveredOn(r, ch)} :: DeliveredOn(r, ch))
    && (forall k: nat {:trigger DeliveredTo(r, k)} :: k < |r.final| ==> DeliveredTo(r, k))
  }

  lemma SendDelivers(cases: seq<Chan>, r: Report)
    requires Sending(cases, 0, r.final, r.nsent, r.books)
    ensures Delivered(r)
  {
    var n := |r.books.initial|;
    assert cases[0..] == cases;
    forall ch {:trigger DeliveredOn(r, ch)} ensures DeliveredOn(r, ch) {
      assert Tally(cases, 0, r.books.start, r.books.served, r.books.dropped, ch);
      assert SharedOn(cases, r.final, n, r.books.crossed, ch) && MarkedOn(r.final, r.books, ch);
    }
    forall k: nat {:trigger DeliveredTo(r, k)} | k < |r.final| ensures DeliveredTo(r, k) {
      assert Heard(r.final, r.books, k) && DeliveredOn(r, r.final[k].ch) && MarkedOn(r.final, r.books, r.final[k].ch);
      if Present(r.books, k) {
        HolderCounts(r.books.initial, 0, n, k);
        if !r.final[k].state.Removed? {
          HolderCounts(r.final, 0, n, k);
        }
      }
    }
  }
}
