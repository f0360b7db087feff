/**
  The event feed: one sender at a time delivers a value to all subscribed channels
  while others subscribe and unsubscribe.  The select cases of a send live in one
  list whose still active part is a shrinking prefix.

  The list here leaves out slot 0 of the original, the case that receives removal
  requests; a step of `SelectRemove` is that case being chosen.
 */
module EventFeed {
  import opened FeedCases
  import opened Sequences

  /** No send in progress; trying case i without blocking; blocked in the select. */
  datatype Phase = Unlocked | Trying(i: nat) | Selecting

  class Feed {
    var sendCases: seq<Chan>
    var inbox: seq<Chan>
    var subs: seq<Sub>
    var phase: Phase
    var active: nat
    var nsent: nat

    ghost var books: Books
    ghost var reports: seq<Report>

    constructor ()
      ensures Valid() && phase == Unlocked && sendCases == [] && inbox == [] && subs == [] && reports == []
    {
      sendCases, inbox, subs, phase, active, nsent, reports := [], [], [], Unlocked, 0, 0, [];
      books := Opened([], []);
    }

    /** The accounts are right, and every send that is finished has kept its promise. */
    ghost predicate Valid()
      reads this
    {
      && Accounts() && Kept()
      && (phase != Unlocked ==> Progress() && (phase.Trying? ==> phase.i <= active))
    }

    ghost predicate Accounts()
      reads `sendCases, `inbox, `subs
    {
      Accounted(sendCases, inbox, subs)
    }

    ghost predicate Progress()
      reads `sendCases, `active, `subs, `nsent, `books
    {
      Sending(sendCases, active, subs, nsent, books)
    }

    ghost predicate Kept()
      reads `reports
    {
      forall i :: 0 <= i < |reports| ==> Delivered(reports[i])
    }

    method Subscribe(ch: Chan) returns (sub: nat)
      requires Valid()
      modifies `inbox, `subs, `books
      ensures Valid() && sub == |old(subs)| && subs == old(subs) + [Sub(ch, Live)] && inbox == old(inbox) + [ch]
      ensures books == Joined(old(books), old(subs), ch)
    {
      SubscribeAccounts(sendCases, inbox, subs, ch);
      if phase != Unlocked {
        JoinedSending(sendCases, active, subs, nsent, books, ch);
      }
      books := Joined(books, subs, ch);
      sub := |subs|;
      inbox, subs := inbox + [ch], subs + [Sub(ch, Live)];
    }

    /** First half of `remove`, under the inbox lock.  The first case of the channel answers it, whichever
        subscription put it there. */
    method RemoveFromInbox(sub: nat) returns (index: nat)
      requires Valid() && sub < |subs| && subs[sub].state == Live
      modifies `inbox, `subs, `books
      ensures Valid()
      ensures if Count(old(inbox), old(subs)[sub].ch) > 0
              then subs == Changed(old(subs), sub, Removed) && First(old(inbox), old(subs)[sub].ch, index)
                && inbox == Delete(old(inbox), index) && books == InboxLeft(old(books), sub, old(subs)[sub].ch)
              else subs == Changed(old(subs), sub, Pending) && inbox == old(inbox) && books == old(books)
    {
      index := FindCase(inbox, subs[sub].ch);
      if index < |inbox| {
        TakeFromInbox(sub, index);
      } else {
        WaitingAccounts(sendCases, inbox, subs, sub);
        if phase != Unlocked {
          WaitingSending(sendCases, inbox, active, subs, nsent, books, sub);
        }
        subs := Changed(subs, sub, Pending);
      }
    }

    method TakeFromInbox(sub: nat, index: nat)
      requires Valid() && sub < |subs| && subs[sub].state == Live && index < |inbox| && inbox[index] == subs[sub].ch
      requires Count(inbox, subs[sub].ch) > 0
      modifies `inbox, `subs, `books
      ensures Valid() && subs == Changed(old(subs), sub, Removed) && inbox == Delete(old(inbox), index)
      ensures books == InboxLeft(old(books), sub, old(subs)[sub].ch)
    {
      InboxRemovalAccounts(sendCases, inbox, subs, sub, index);
      if phase != Unlocked {
        InboxLeftSending(sendCases, inbox, active, subs, nsent, books, sub);
      }
      books := InboxLeft(books, sub, subs[sub].ch);
      inbox, subs := Delete(inbox, index), Changed(subs, sub, Removed);
    }

    /** Second half of `remove` when no send is in progress.  The lookup cannot miss. */
    method RemoveUnlocked(sub: nat) returns (index: nat)
      requires Valid() && phase == Unlocked && sub < |subs| && subs[sub].state == Pending
      modifies `sendCases, `subs
      ensures Valid() && subs == Changed(old(subs), sub, Removed)
      ensures First(old(sendCases), old(subs)[sub].ch, index) && sendCases == Delete(old(sendCases), index)
    {
      WaitingIsFound(sendCases, inbox, subs, sub);
      index := FindCase(sendCases, subs[sub].ch);
      CaseRemovalAccounts(sendCases, inbox, subs, sub, index);
      sendCases, subs := Delete(sendCases, index), Changed(subs, sub, Removed);
    }

    /** Second half of `remove` while a send is blocked in its select.  The lookup cannot miss. */
    method SelectRemove(sub: nat) returns (index: nat)
      requires Valid() && phase == Selecting && sub < |subs| && subs[sub].state == Pending
      modifies `sendCases, `subs, `active, `phase, `books
      ensures Valid() && phase == Trying(0) && subs == Changed(old(subs), sub, Removed)
      ensures First(old(sendCases), old(subs)[sub].ch, index) && sendCases == Delete(old(sendCases), index)
      ensures active == StillActive(old(active), index) && books == CaseLeft(old(books), sub, old(sendCases), old(active), index)
    {
      WaitingIsFound(sendCases, inbox, subs, sub);
      index := FindCase(sendCases, subs[sub].ch);
      CaseRemovalAccounts(sendCases, inbox, subs, sub, index);
      CaseLeftSending(sendCases, active, subs, nsent, books, sub, index);
      books := CaseLeft(books, sub, sendCases, active, index);
      active := StillActive(active, index);
      sendCases, subs, phase := Delete(sendCases, index), Changed(subs, sub, Removed), Trying(0);
    }

    /** `Send` has the lock: the inbox joins the cases, and all are active. */
    method BeginSend()
      requires Valid() && phase == Unlocked
      modifies `sendCases, `inbox, `active, `nsent, `phase, `books
      ensures Valid() && phase == Trying(0) && sendCases == old(sendCases) + old(inbox) && inbox == []
      ensures active == |sendCases| && nsent == 0 && books == Opened(sendCases, subs)
    {
      OpenedSending(sendCases, inbox, subs);
      sendCases, inbox := sendCases + inbox, [];
      active, nsent, phase, books := |sendCases|, 0, Trying(0), Opened(sendCases, subs);
    }

    /** Fast path: offer the value to the case at hand without blocking. */
    method TrySend(accepted: bool)
      requires Valid() && phase.Trying? && phase.i < active
      modifies `sendCases, `active, `nsent, `phase, `books
      ensures Valid()
      ensures accepted ==> Served(old(phase).i, old(sendCases), old(active), old(nsent), old(books)) && phase == old(phase)
      ensures !accepted ==>
                && phase == Trying(old(phase).i + 1) && sendCases == old(sendCases) && active == old(active)
                && nsent == old(nsent) && books == old(books)
    {
      if accepted {
        Serve(phase.i);
      } else {
        phase := Trying(phase.i + 1);
      }
    }

    /** The fast path reached the end of the active cases: done, or block in the select.
        A send that is done has kept its promise and is reported. */
    method EndPass() returns (done: bool)
      requires Valid() && phase == Trying(active)
      modifies `phase, `reports
      ensures Valid() && done == (active == 0) && phase == if done then Unlocked else Selecting
      ensures reports == if done then old(reports) + [Report(subs, nsent, books)] else old(reports)
      ensures done ==> Delivered(Report(subs, nsent, books))
    {
      done := active == 0;
      if done {
        SendDelivers(sendCases, Report(subs, nsent, books));
        reports := reports + [Report(subs, nsent, books)];
      }
      phase := if done then Unlocked else Selecting;
    }

    /** A blocked receiver became ready. */
    method SelectSend(chosen: nat)
      requires Valid() && phase == Selecting && chosen < active
      modifies `sendCases, `active, `nsent, `phase, `books
      ensures Valid() && phase == Trying(0)
      ensures Served(chosen, old(sendCases), old(active), old(nsent), old(books))
    {
      Serve(chosen);
      phase := Trying(0);
    }

    /** One case was served: it moved behind the active ones and was counted. */
    ghost predicate Served(index: nat, cases: seq<Chan>, wasActive: nat, wasSent: nat, was: Books)
      reads this
    {
      && index < wasActive <= |cases| && sendCases == Deactivate(cases, wasActive, index) && active == wasActive - 1
      && nsent == wasSent + 1 && |was.initial| <= |subs| == |was.received| && books == Sent(was, subs, cases[index])
    }

    method Serve(index: nat)
      requires Valid() && phase != Unlocked && index < active && (phase.Trying? ==> phase.i < active)
      modifies `sendCases, `active, `nsent, `books
      ensures Valid() && Served(index, old(sendCases), old(active), old(nsent), old(books))
    {
      SentSending(sendCases, active, subs, nsent, books, index);
      DeactivatePermutes(sendCases, active, index);
      PermutedAccounts(sendCases, Deactivate(sendCases, active, index), inbox, subs);
      books := Sent(books, subs, sendCases[index]);
      sendCases, active, nsent := Deactivate(sendCases, active, index), active - 1, nsent + 1;
    }

    /** Every interleaving of senders, subscribers and unsubscribers: the reports, one for each send that
        finished, all say that the promise was kept. */
    method Run(steps: seq<Step>) returns (finished: nat)
      requires Valid()
      modifies this
      ensures Valid() && |reports| == |old(reports)| + finished
      ensures forall i :: 0 <= i < |reports| ==> Delivered(reports[i])
    {
      finished := 0;
      for i := 0 to |steps|
        invariant Valid() && |reports| == |old(reports)| + finished
      {
        var done := Perform(steps[i]);
        if done {
          finished := finished + 1;
        }
      }
    }

    /** One step, if it is possible now; says whether it finished a send. */
    method Perform(step: Step) returns (done: bool)
      requires Valid()
      modifies this
      ensures Valid() && (done ==> old(phase) == Trying(0) && phase == Unlocked)
      ensures reports == if done then old(reports) + [Report(subs, nsent, books)] else old(reports)
    {
      done := false;
      match step
      case DoSubscribe(ch) =>
        var _ := Subscribe(ch);
      case DoUnsubscribe(sub) =>
        if sub < |subs| && subs[sub].state == Live {
          var _ := RemoveFromInbox(sub);
        } else if sub < |subs| && subs[sub].state == Pending && phase == Unlocked {
          var _ := RemoveUnlocked(sub);
        } else if sub < |subs| && subs[sub].state == Pending && phase == Selecting {
          var _ := SelectRemove(sub);
        }
      case DoSend(choice, accepted) =>
        if phase == Unlocked {
          BeginSend();
        } else if phase == Selecting {
          if choice < active {
            SelectSend(choice);
          }
        } else if phase.i < active {
          TrySend(accepted);
        } else {
          done := EndPass();
        }
    }
  }

  /**
    What crossing can lead to.  From any state in which a send waits for the only holder of a channel from its
    start, one more subscription of the channel, the unsubscription of the holder and a ready receiver lead to a
    value that is sent when only the later subscription holds the channel.
   */
  method ServedAfterRemoval(feed: Feed, k: nat, c: nat)
    requires feed.Valid() && feed.phase == Selecting && k < |feed.books.initial| <= |feed.subs| && feed.subs[k].state == Live
    requires c < feed.active <= |feed.sendCases| && feed.sendCases[c] == feed.subs[k].ch
    requires HeldTo(feed.subs, |feed.books.initial|, feed.subs[k].ch) == 1
    modifies feed
    ensures feed.Valid() && feed.subs == Changed(old(feed.subs) + [Sub(old(feed.subs[k].ch), Live)], k, Removed)
    ensures feed.books.initial == old(feed.books.initial) && feed.nsent == old(feed.nsent) + 1
    ensures feed.books.unwanted == old(feed.books.unwanted) + multiset{old(feed.subs[k].ch)}
    ensures HeldTo(feed.subs, |feed.books.initial|, old(feed.subs[k].ch)) == 0
  {
    var ch := feed.subs[k].ch;
    ghost var n := |feed.books.initial|;
    CountsPrefix(feed.subs, Sub(ch, Live), n, ch);
    CountsChange(feed.subs + [Sub(ch, Live)], n, k, Removed, ch);
    var _ := feed.Subscribe(ch);
    assert ch in feed.inbox;
    var _ := feed.RemoveFromInbox(k);
    feed.SelectSend(c);
  }

  /** A concrete run that gets there: channel 7, one holder from the start, one later. */
  method LateHolderServed() returns (feed: Feed)
    ensures fresh(feed) && feed.Valid() && feed.nsent == 1 && feed.books.unwanted == multiset{7}
    ensures feed.books.initial == [Sub(7, Live)] && feed.subs == [Sub(7, Removed), Sub(7, Live)]
  {
    feed := new Feed();
    var _ := feed.Subscribe(7);
    feed.BeginSend();
    assert feed.sendCases == [7];
    feed.TrySend(false);
    var _ := feed.EndPass();
    assert HeldTo([Sub(7, Live)], 1, 7) == 1;
    ServedAfterRemoval(feed, 0, 0);
  }

  datatype Step =
    | DoSubscribe(ch: Chan)
    | DoUnsubscribe(sub: nat)
    | DoSend(choice: nat, accepted: bool)
}
