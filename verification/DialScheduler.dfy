/**
  The dial scheduler: one event loop that starts outbound dials, static ones from a
  pool with back links and dynamic ones from discovery, and keeps a history that
  blocks a node from being dialed again too soon.
 */
module DialScheduler {
  import opened Heaps
  import opened Wrappers

  type ID = nat

  /** Where a node can be reached: its address, if known, and TCP port (0 for none). */
  datatype Endpoint = Endpoint(ip: Option<nat>, tcp: nat)

  /** An entry of the dial history. */
  datatype ExpItem = ExpItem(item: ID, exp: int)

  datatype DialError = IsSelf | NoPort | AlreadyDialing | AlreadyConnected | NotAllowed | RecentlyDialed

  /** The inbound throttle of 30 seconds plus 5. */
  const DIAL_HISTORY_EXPIRATION: int := 35

  const DEFAULT_MAX_PENDING_PEERS := 50

  predicate Sooner(a: ExpItem, b: ExpItem) { a.exp < b.exp }

  predicate RightSooner(a: ExpItem, b: ExpItem) { b.exp < a.exp }

  lemma HistoryOrdering()
    ensures Ordering(Sooner, RightSooner)
  {
  }

  /** The nodes with an entry in the history. */
  function Ids(history: seq<ExpItem>): set<ID> {
    if history == [] then {} else {history[0].item} + Ids(history[1..])
  }

  lemma {:induction false} IdsAt(history: seq<ExpItem>, id: ID) returns (i: int)
    ensures id in Ids(history) ==> 0 <= i < |history| && history[i].item == id
  {
    i := 0;
    if history != [] && history[0].item != id {
      i := IdsAt(history[1..], id);
      i := i + 1;
    }
  }

  lemma {:induction false} IdsHas(history: seq<ExpItem>, i: nat)
    requires i < |history|
    ensures history[i].item in Ids(history)
  {
    if i > 0 {
      IdsHas(history[1..], i - 1);
    }
  }

  /** Entries that all come from another history, or for one more node, name no other nodes. */
  lemma IdsWithin(history: seq<ExpItem>, other: seq<ExpItem>, more: set<ID>)
    requires forall x :: x in multiset(history) ==> x in multiset(other) || x.item in more
    ensures Ids(history) <= Ids(other) + more
  {
    forall id | id in Ids(history) ensures id in Ids(other) + more {
      var i := IdsAt(history, id);
      assert history[i] in multiset(history);
      if history[i] in multiset(other) { IdsMember(other, history[i]); }
    }
  }

  lemma IdsMember(history: seq<ExpItem>, x: ExpItem)
    requires x in multiset(history)
    ensures x.item in Ids(history)
  {
    assert x in history;
    var i :| 0 <= i < |history| && history[i] == x;
    IdsHas(history, i);
  }

  /** A started dial, for the log: the node and its endpoint, the time, what the scheduler saw then, and how many
      events it had received. */
  datatype Start = Start(id: ID, endpoint: Endpoint, at: int, dialing: set<ID>, peers: set<ID>, free: int, seen: nat)

  /** Any two starts of one node are more than the expiration apart. */
  ghost predicate Spaced(starts: seq<Start>) {
    forall i, j :: 0 <= i < j < |starts| && starts[i].id == starts[j].id ==>
      starts[j].at > starts[i].at + DIAL_HISTORY_EXPIRATION
  }

  /** No start targets this node, a connected node or one being dialed, nor exceeds the free slots. */
  ghost predicate Proper(starts: seq<Start>, self: ID) {
    forall i :: 0 <= i < |starts| ==>
      starts[i].id != self && starts[i].id !in starts[i].dialing && starts[i].id !in starts[i].peers && starts[i].free > 0
  }

  function Entry(s: Start): ExpItem { ExpItem(s.id, s.at + DIAL_HISTORY_EXPIRATION) }

  /** The history remembers every start until it has expired. */
  ghost predicate Remembers(history: seq<ExpItem>, starts: seq<Start>, now: int) {
    forall s {:trigger Remembered(history, s, now)} :: s in starts ==> Remembered(history, s, now)
  }

  ghost predicate Remembered(history: seq<ExpItem>, s: Start, now: int) {
    s.at <= now && (Entry(s).exp < now || Entry(s) in multiset(history))
  }

  method Add(history: seq<ExpItem>, x: ExpItem) returns (after: seq<ExpItem>)
    requires Heap(Sooner, history)
    ensures Heap(Sooner, after) && multiset(after) == multiset(history) + multiset{x}
  {
    HistoryOrdering();
    PushKeepsHeap(Sooner, RightSooner, history, x);
    after := Push(Sooner, history, x);
  }

  /** Takes out the entry that expires first. */
  method TakeFirst(history: seq<ExpItem>) returns (first: ExpItem, after: seq<ExpItem>)
    requires Heap(Sooner, history) && history != []
    ensures first == history[0] && first in history && forall x :: x in history ==> first.exp <= x.exp
    ensures Heap(Sooner, after) && multiset(after) + multiset{first} == multiset(history)
  {
    HistoryOrdering();
    PopKeepsHeap(Sooner, RightSooner, history);
    FirstExpiresFirst(history);
    first, after := history[0], Pop(Sooner, RightSooner, history);
  }

  lemma AddedIds(history: seq<ExpItem>, after: seq<ExpItem>, x: ExpItem)
    requires multiset(after) == multiset(history) + multiset{x}
    ensures Ids(after) == Ids(history) + {x.item}
  {
    IdsWithin(after, history, {x.item});
    IdsWithin(history, after, {});
    IdsMember(after, x);
  }

  lemma TakenIds(history: seq<ExpItem>, after: seq<ExpItem>, x: ExpItem)
    requires multiset(after) + multiset{x} == multiset(history)
    ensures Ids(after) <= Ids(history) <= Ids(after) + {x.item}
  {
    IdsWithin(after, history, {});
    IdsWithin(history, after, {x.item});
  }

  /** A node that is not in the history may be dialed: its last start has expired. */
  lemma StartKeepsSpacing(history: seq<ExpItem>, starts: seq<Start>, now: int, s: Start)
    requires Remembers(history, starts, now) && Spaced(starts)
    requires s.at == now && s.id !in Ids(history)
    ensures Spaced(starts + [s])
  {
    forall i | 0 <= i < |starts| && starts[i].id == s.id
      ensures now > starts[i].at + DIAL_HISTORY_EXPIRATION
    {
      assert Remembered(history, starts[i], now);
      if Entry(starts[i]) in multiset(history) { IdsMember(history, Entry(starts[i])); }
    }
  }

  ghost predicate Logged(history: seq<ExpItem>, starts: seq<Start>, now: int, self: ID) {
    Heap(Sooner, history) && Remembers(history, starts, now) && Lapses(history, now) && Spaced(starts) && Proper(starts, self)
  }

  /** No entry blocks its node for longer than the expiration from now. */
  ghost predicate Lapses(history: seq<ExpItem>, now: int) {
    forall x {:trigger Lapsing(x, now)} :: x in multiset(history) ==> Lapsing(x, now)
  }

  ghost predicate Lapsing(x: ExpItem, now: int) { x.exp <= now + DIAL_HISTORY_EXPIRATION }

  /** Adds a start to the history. */
  method Record(history: seq<ExpItem>, now: int, id: ID, ghost self: ID, ghost starts: seq<Start>, ghost s: Start)
    returns (after: seq<ExpItem>)
    requires Logged(history, starts, now, self)
    requires s.id == id && s.at == now && id !in Ids(history)
    requires id != self && id !in s.dialing && id !in s.peers && s.free > 0
    ensures Logged(after, starts + [s], now, self)
    ensures Ids(after) == Ids(history) + {id}
  {
    after := Add(history, ExpItem(id, now + DIAL_HISTORY_EXPIRATION));
    AddedIds(history, after, Entry(s));
    StartKeepsSpacing(history, starts, now, s);
    forall r {:trigger Remembered(after, r, now)} | r in starts + [s] ensures Remembered(after, r, now) {
      assert r in starts ==> Remembered(history, r, now);
    }
    forall x {:trigger Lapsing(x, now)} | x in multiset(after) ensures Lapsing(x, now) {
      assert x in multiset(history) || x == Entry(s);
    }
  }

  /** Entries may have gone, but only expired ones. */
  ghost predicate Trimmed(before: seq<ExpItem>, after: seq<ExpItem>, now: int) {
    forall x {:trigger Stays(before, after, now, x)} :: Stays(before, after, now, x)
  }

  ghost predicate Stays(before: seq<ExpItem>, after: seq<ExpItem>, now: int, x: ExpItem) {
    && multiset(after)[x] <= multiset(before)[x]
    && (x.exp >= now ==> multiset(after)[x] == multiset(before)[x])
  }

  lemma TrimmedTwice(first: seq<ExpItem>, second: seq<ExpItem>, third: seq<ExpItem>, now: int)
    requires Trimmed(first, second, now) && Trimmed(second, third, now)
    ensures Trimmed(first, third, now)
  {
    forall x {:trigger Stays(first, third, now, x)} ensures Stays(first, third, now, x) {
      assert Stays(first, second, now, x) && Stays(second, third, now, x);
    }
  }

  /** Takes the first entry out of the history if it has expired. */
  method Expire(history: seq<ExpItem>, now: int, ghost self: ID, ghost starts: seq<Start>)
    returns (id: ID, after: seq<ExpItem>)
    requires Logged(history, starts, now, self) && history != [] && history[0].exp < now
    ensures Logged(after, starts, now, self) && |after| < |history|
    ensures id == history[0].item && Ids(after) <= Ids(history) <= Ids(after) + {id}
    ensures Trimmed(history, after, now)
  {
    var x;
    x, after := TakeFirst(history);
    id := x.item;
    TakenIds(history, after, x);
    assert |multiset(after)| == |multiset(history)| - 1;
    forall y {:trigger Stays(history, after, now, y)} ensures Stays(history, after, now, y) {
      assert (multiset(after) + multiset{x})[y] == multiset(history)[y];
    }
    forall s {:trigger Remembered(after, s, now)} | s in starts ensures Remembered(after, s, now) {
      assert Remembered(history, s, now);
    }
    forall x {:trigger Lapsing(x, now)} | x in multiset(after) ensures Lapsing(x, now) {
      assert x in multiset(history);
    }
  }

  lemma TimePasses(history: seq<ExpItem>, starts: seq<Start>, now: int, self: ID, later: int)
    requires Logged(history, starts, now, self) && now <= later
    ensures Logged(history, starts, later, self)
  {
    forall s {:trigger Remembered(history, s, later)} | s in starts ensures Remembered(history, s, later) {
      assert Remembered(history, s, now);
    }
    forall x {:trigger Lapsing(x, later)} | x in multiset(history) ensures Lapsing(x, later) {
      assert Lapsing(x, now);
    }
  }

  /** There are as many running tasks as recorded dials. */
  lemma {:induction false} RunningCount(dialing: map<ID, DialTask>, running: set<DialTask>)
    requires Recorded(dialing, running)
    ensures |running| == |dialing|
    decreases |dialing|
  {
    if |dialing| > 0 {
      var id :| id in dialing;
      DoneIsRecorded(dialing, running, id);
      RunningCount(dialing - {id}, running - {dialing[id]});
      assert dialing[id] in running;
    } else {
      assert dialing == map[];
    }
  }

  /** Why a node should not be dialed, if anything speaks against it. */
  function Check(id: ID, e: Endpoint, self: ID, netRestrict: Option<set<nat>>,
    dialing: set<ID>, peers: set<ID>, recent: set<ID>): Option<DialError>
  {
    if id == self then Some(IsSelf)
    else if e.ip.Some? && e.tcp == 0 then Some(NoPort)
    else if id in dialing then Some(AlreadyDialing)
    else if id in peers then Some(AlreadyConnected)
    else if netRestrict.Some? && !(e.ip.Some? && e.ip.value in netRestrict.value) then Some(NotAllowed)
    else if id in recent then Some(RecentlyDialed)
    else None
  }

  /** Starting one dial blocks that node and no other. */
  lemma CheckAfterStart(id: ID, e: Endpoint, self: ID, netRestrict: Option<set<nat>>,
    dialing: set<ID>, peers: set<ID>, recent: set<ID>, started: ID)
    ensures var after := Check(id, e, self, netRestrict, dialing + {started}, peers, recent + {started});
            if id == started then after.Some? else after == Check(id, e, self, netRestrict, dialing, peers, recent)
  {
  }

  /** A check depends on the three sets only through the node checked. */
  lemma CheckUnaffected(id: ID, e: Endpoint, self: ID, netRestrict: Option<set<nat>>,
    dialing: set<ID>, peers: set<ID>, recent: set<ID>, dialing': set<ID>, peers': set<ID>, recent': set<ID>)
    requires (id in dialing <==> id in dialing') && (id in peers <==> id in peers') && (id in recent <==> id in recent')
    ensures Check(id, e, self, netRestrict, dialing, peers, recent) == Check(id, e, self, netRestrict, dialing', peers', recent')
  {
  }

  /** Fills the slot with the last element and drops the last slot. */
  function SwapRemove<T>(s: seq<T>, i: nat): seq<T>
    requires i < |s|
  {
    s[i := s[|s| - 1]][..|s| - 1]
  }

  class DialTask {
    const id: ID
    var endpoint: Endpoint
    var staticPoolIndex: int

    constructor (id: ID, endpoint: Endpoint)
      ensures this.id == id && this.endpoint == endpoint && staticPoolIndex == -1
    {
      this.id, this.endpoint, staticPoolIndex := id, endpoint, -1;
    }
  }

  lemma FirstExpiresFirst(history: seq<ExpItem>)
    requires Heap(Sooner, history)
    ensures forall x :: x in history ==> history[0].exp <= x.exp
  {
    HistoryOrdering();
    forall i: nat | i < |history| ensures history[0].exp <= history[i].exp {
      RootIsFirst(Sooner, RightSooner, history, i);
    }
  }

  /** The running tasks are the recorded ones, each under its own node. */
  ghost predicate Recorded(dialing: map<ID, DialTask>, running: set<DialTask>) {
    (forall id :: id in dialing ==> dialing[id].id == id) && running == dialing.Values
  }

  lemma StartIsRecorded(dialing: map<ID, DialTask>, running: set<DialTask>, task: DialTask)
    requires Recorded(dialing, running) && task.id !in dialing
    ensures Recorded(dialing[task.id := task], running + {task})
    ensures |dialing[task.id := task]| == |dialing| + 1
  {
    var after := dialing[task.id := task];
    assert task.id in after;
    forall t | t in dialing.Values ensures t in after.Values {
      assert t.id in dialing && after[t.id] == t;
    }
  }

  lemma DoneIsRecorded(dialing: map<ID, DialTask>, running: set<DialTask>, id: ID)
    requires Recorded(dialing, running) && id in dialing
    ensures Recorded(dialing - {id}, running - {dialing[id]})
    ensures |dialing - {id}| == |dialing| - 1
  {
    var after := dialing - {id};
    assert after.Keys == dialing.Keys - {id};
    forall t | t in running - {dialing[id]} ensures t in after.Values {
      assert t.id in after && after[t.id] == t;
    }
  }

  /** What the select statement of the event loop can receive. */
  datatype Event =
    | NodeFound(id: ID, endpoint: Endpoint)
    | TaskDone(id: ID)
    | Resolved(id: ID, endpoint: Endpoint)
    | PeerAdded(id: ID, dialed: bool)
    | PeerRemoved(id: ID, dialed: bool)
    | AddStatic(id: ID, endpoint: Endpoint)
    | RemoveStatic(id: ID)
    | HistoryTimer

  /** According to the events, a node is connected: it has been since the last time it was added. */
  ghost predicate Connected(events: seq<Event>, id: ID) {
    exists i :: 0 <= i < |events| && events[i].PeerAdded? && events[i].id == id && StaysConnected(events, id, i)
  }

  ghost predicate StaysConnected(events: seq<Event>, id: ID, since: int) {
    forall j :: since < j < |events| && 0 <= j && events[j].PeerRemoved? ==> events[j].id != id
  }

  /** According to the events, a node is a static one. */
  ghost predicate Static(events: seq<Event>, id: ID) {
    exists i :: 0 <= i < |events| && events[i].AddStatic? && events[i].id == id && StaysStatic(events, id, i)
  }

  ghost predicate StaysStatic(events: seq<Event>, id: ID, since: int) {
    forall j :: since < j < |events| && 0 <= j && events[j].RemoveStatic? ==> events[j].id != id
  }

  /** The outbound connections according to the events: those added, less those removed. */
  ghost function Outbound(events: seq<Event>): int {
    if events == [] then 0
    else
      var last := events[|events| - 1];
      Outbound(events[..|events| - 1])
      + (if last.PeerAdded? && last.dialed then 1 else 0) - (if last.PeerRemoved? && last.dialed then 1 else 0)
  }

  lemma ConnectedStep(events: seq<Event>, e: Event, id: ID)
    ensures Connected(events + [e], id) <==>
            (e.PeerAdded? && e.id == id) || (Connected(events, id) && !(e.PeerRemoved? && e.id == id))
  {
    var more := events + [e];
    if Connected(more, id) {
      var i :| 0 <= i < |more| && more[i].PeerAdded? && more[i].id == id && StaysConnected(more, id, i);
      if i < |events| {
        assert more[|events|] == e;
        assert StaysConnected(events, id, i) by {
          assert forall j :: 0 <= j < |events| ==> more[j] == events[j];
        }
        assert events[i] == more[i];
      }
    }
    if e.PeerAdded? && e.id == id {
      assert more[|events|] == e && StaysConnected(more, id, |events|);
    } else if Connected(events, id) && !(e.PeerRemoved? && e.id == id) {
      var i :| 0 <= i < |events| && events[i].PeerAdded? && events[i].id == id && StaysConnected(events, id, i);
      assert more[i] == events[i] && StaysConnected(more, id, i);
    }
  }

  lemma StaticStep(events: seq<Event>, e: Event, id: ID)
    ensures Static(events + [e], id) <==>
            (e.AddStatic? && e.id == id) || (Static(events, id) && !(e.RemoveStatic? && e.id == id))
  {
    var more := events + [e];
    if Static(more, id) {
      var i :| 0 <= i < |more| && more[i].AddStatic? && more[i].id == id && StaysStatic(more, id, i);
      if i < |events| {
        assert more[|events|] == e;
        assert StaysStatic(events, id, i) by {
          assert forall j :: 0 <= j < |events| ==> more[j] == events[j];
        }
        assert events[i] == more[i];
      }
    }
    if e.AddStatic? && e.id == id {
      assert more[|events|] == e && StaysStatic(more, id, |events|);
    } else if Static(events, id) && !(e.RemoveStatic? && e.id == id) {
      var i :| 0 <= i < |events| && events[i].AddStatic? && events[i].id == id && StaysStatic(events, id, i);
      assert more[i] == events[i] && StaysStatic(more, id, i);
    }
  }

  /** The scheduler's books agree with the events. */
  ghost predicate Reflects(events: seq<Event>, peers: set<ID>, dialPeers: int, statics: set<ID>) {
    && dialPeers == Outbound(events)
    && (forall id {:trigger ReflectsAt(events, peers, statics, id)} :: ReflectsAt(events, peers, statics, id))
  }

  ghost predicate ReflectsAt(events: seq<Event>, peers: set<ID>, statics: set<ID>, id: ID) {
    (id in peers <==> Connected(events, id)) && (id in statics <==> Static(events, id))
  }

  /** What one event does to the books. */
  lemma ReflectsStep(events: seq<Event>, peers: set<ID>, dialPeers: int, statics: set<ID>, e: Event,
    peers': set<ID>, dialPeers': int, statics': set<ID>)
    requires Reflects(events, peers, dialPeers, statics)
    requires peers' == if e.PeerAdded? then peers + {e.id} else if e.PeerRemoved? then peers - {e.id} else peers
    requires statics' == if e.AddStatic? then statics + {e.id} else if e.RemoveStatic? then statics - {e.id} else statics
    requires dialPeers' == dialPeers + if e.PeerAdded? && e.dialed then 1 else if e.PeerRemoved? && e.dialed then -1 else 0
    ensures Reflects(events + [e], peers', dialPeers', statics')
  {
    assert (events + [e])[..|events|] == events;
    forall id {:trigger ReflectsAt(events + [e], peers', statics', id)} ensures ReflectsAt(events + [e], peers', statics', id) {
      assert ReflectsAt(events, peers, statics, id);
      ConnectedStep(events, e, id);
      StaticStep(events, e, id);
    }
  }

  lemma ValuesWithout(m: map<ID, DialTask>, id: ID)
    ensures (m - {id}).Values <= m.Values && (m - {id}).Keys == m.Keys - {id}
  {
  }

  lemma ValuesWith(m: map<ID, DialTask>, id: ID, task: DialTask)
    ensures m[id := task].Values <= m.Values + {task} && m[id := task].Keys == m.Keys + {id}
  {
  }

  class DialScheduler {
    const self: ID
    const maxDialPeers: int
    const maxActiveDials: int
    const netRestrict: Option<set<nat>>
    var dialing: map<ID, DialTask>
    var peers: set<ID>
    var dialPeers: int
    var statics: map<ID, DialTask>
    var staticPool: seq<DialTask>
    var history: seq<ExpItem>
    var now: int
    ghost var running: set<DialTask>
    ghost var starts: seq<Start>
    ghost var log: seq<Event>
    ghost var tasks: set<DialTask>

    /** Pool slots and the tasks' own indexes are inverse to each other. */
    ghost predicate Linked()
      reads this`statics, this`staticPool, statics.Values
    {
      && (forall i :: 0 <= i < |staticPool| ==>
            staticPool[i].id in statics && statics[staticPool[i].id] == staticPool[i] && staticPool[i].staticPoolIndex == i)
      && (forall id :: id in statics ==> statics[id].id == id && InPool(statics[id]))
    }

    ghost predicate InPool(t: DialTask)
      reads this`staticPool, t
    {
      t.staticPoolIndex == -1 || (0 <= t.staticPoolIndex < |staticPool| && staticPool[t.staticPoolIndex] == t)
    }

    /** The pool holds exactly the static tasks that may be dialed now. */
    ghost predicate Complete(but: set<ID>)
      reads this`statics, this`dialing, this`peers, this`history, statics.Values
    {
      forall id {:trigger Settled(id)} :: id in statics && id !in but ==> Settled(id)
    }

    ghost predicate Settled(id: ID)
      requires id in statics
      reads this`statics, this`dialing, this`peers, this`history, statics.Values
    {
      statics[id].staticPoolIndex >= 0 <==> CheckDial(id, statics[id].endpoint).None?
    }

    ghost predicate Valid()
      reads this, statics.Values
    {
      Core() && Books() && Owns()
    }

    /** `tasks` holds every task the scheduler refers to. */
    ghost predicate Owns()
      reads this`statics, this`dialing, this`tasks
    {
      statics.Values <= tasks && dialing.Values <= tasks
    }

    /** The pool, the running dials and the history are in order. */
    ghost predicate Core()
      reads this`statics, this`staticPool, this`dialing, this`running, this`peers, this`history, this`starts, this`now, statics.Values
    {
      Linked() && Complete({}) && Dials() && Log()
    }

    lemma CoreHolds()
      requires Linked() && Complete({}) && Dials() && Log()
      ensures Core()
    {
    }

    lemma AllHolds()
      requires Core() && Books() && Owns()
      ensures Valid()
    {
    }

    /** What the scheduler knows and what it did agree with the events received. */
    ghost predicate Books()
      reads this`log, this`peers, this`dialPeers, this`statics, this`starts
    {
      Mirrors() && Sanctioned()
    }

    /** Peers, outbound connections and static nodes are what the events received say. */
    ghost predicate Mirrors()
      reads this`log, this`peers, this`dialPeers, this`statics
    {
      Reflects(log, peers, dialPeers, statics.Keys)
    }

    /**
      The dial was in order when it was started: the node is not this one and was not connected according to the
      events received before, both limits left room, the network restriction admits its address, and it has a port.
     */
    ghost predicate Warranted(s: Start, events: seq<Event>) {
      && s.seen <= |events| && s.id != self && !Connected(events[..s.seen], s.id)
      && |s.dialing| < maxActiveDials && |s.dialing| < 2 * (maxDialPeers - Outbound(events[..s.seen]))
      && (netRestrict.Some? ==> s.endpoint.ip.Some? && s.endpoint.ip.value in netRestrict.value)
      && (s.endpoint.ip.Some? ==> s.endpoint.tcp != 0)
    }

    ghost predicate Sanctioned()
      reads this`log, this`starts
    {
      forall s {:trigger Warranted(s, log)} :: s in starts ==> Warranted(s, log)
    }

    /** Enters an event into the log. */
    ghost method Enter(e: Event)
      requires Sanctioned()
      modifies this`log
      ensures log == old(log) + [e] && Sanctioned()
    {
      ghost var before := log;
      log := log + [e];
      forall s {:trigger Warranted(s, log)} | s in starts ensures Warranted(s, log) {
        assert Warranted(s, before);
        assert log[..s.seen] == before[..s.seen];
      }
    }

    /** Receives an event that the books already follow. */
    ghost method Hear(e: Event)
      requires Core() && Owns() && Sanctioned() && Reflects(log + [e], peers, dialPeers, statics.Keys)
      modifies this`log
      ensures Valid() && log == old(log) + [e]
    {
      Enter(e);
    }

    /** Receives an event that is about neither peers nor static nodes. */
    ghost method Overhear(e: Event)
      requires Valid() && !e.PeerAdded? && !e.PeerRemoved? && !e.AddStatic? && !e.RemoveStatic?
      modifies this`log
      ensures Valid() && log == old(log) + [e]
    {
      ReflectsStep(log, peers, dialPeers, statics.Keys, e, peers, dialPeers, statics.Keys);
      Hear(e);
    }

    ghost predicate Dials()
      reads this`dialing, this`running
    {
      Recorded(dialing, running) && |dialing| <= Cap()
    }

    ghost predicate Log()
      reads this`history, this`starts, this`now
    {
      Logged(history, starts, now, self)
    }

    function Cap(): int { if maxActiveDials < 0 then 0 else maxActiveDials }

    function FreeDialSlots(): int
      reads this`dialPeers, this`dialing
    {
      var slots := (maxDialPeers - dialPeers) * 2;
      (if slots > maxActiveDials then maxActiveDials else slots) - |dialing|
    }

    function CheckDial(id: ID, e: Endpoint): Option<DialError>
      reads this`dialing, this`peers, this`history
    {
      Check(id, e, self, netRestrict, dialing.Keys, peers, Ids(history))
    }

    constructor (self: ID, maxDialPeers: int, maxActiveDials: int, netRestrict: Option<set<nat>>, now: int)
      ensures Valid() && starts == [] && dialing == map[] && statics == map[] && peers == {} && log == []
    {
      this.self, this.maxDialPeers, this.netRestrict, this.now := self, maxDialPeers, netRestrict, now;
      this.maxActiveDials := if maxActiveDials == 0 then DEFAULT_MAX_PENDING_PEERS else maxActiveDials;
      dialing, peers, dialPeers, statics, staticPool, history := map[], {}, 0, map[], [], [];
      running, starts, log, tasks := {}, [], [], {};
    }

    method AddToStaticPool(task: DialTask)
      requires Linked()
      requires task.id in statics && statics[task.id] == task && task.staticPoolIndex < 0
      modifies this`staticPool, task`staticPoolIndex
      ensures staticPool == old(staticPool) + [task] && task.staticPoolIndex == |old(staticPool)|
      ensures Linked()
    {
      staticPool := staticPool + [task];
      task.staticPoolIndex := |staticPool| - 1;
    }

    method RemoveFromStaticPool(idx: nat)
      requires Linked() && idx < |staticPool|
      modifies this`staticPool, statics.Values`staticPoolIndex
      ensures staticPool == SwapRemove(old(staticPool), idx)
      ensures Linked() && old(staticPool)[idx].staticPoolIndex == -1
      ensures forall id :: id in statics && statics[id] != old(staticPool)[idx] ==>
                (statics[id].staticPoolIndex >= 0 <==> old(statics[id].staticPoolIndex) >= 0)
    {
      var task := staticPool[idx];
      var end := |staticPool| - 1;
      staticPool := staticPool[idx := staticPool[end]];
      staticPool[idx].staticPoolIndex := idx;
      staticPool := staticPool[..end];
      task.staticPoolIndex := -1;
    }

    /** Takes the node's static task out of the pool, if it is there. */
    method Withdraw(id: ID)
      requires Linked() && Complete({id})
      modifies this`staticPool, statics.Values`staticPoolIndex
      ensures Linked() && Complete({id}) && (id in statics ==> statics[id].staticPoolIndex == -1)
    {
      if id in statics && statics[id].staticPoolIndex >= 0 {
        RemoveFromStaticPool(statics[id].staticPoolIndex);
        forall other {:trigger Settled(other)} | other in statics && other != id ensures Settled(other) {
          assert old(Settled(other));
        }
      }
    }

    /** Forgets a static task that is outside the pool. */
    method Forget(id: ID)
      requires Linked() && Complete({id}) && (id in statics ==> statics[id].staticPoolIndex == -1)
      modifies this`statics
      ensures Linked() && Complete({}) && statics == old(statics) - {id}
    {
      assert forall i :: 0 <= i < |staticPool| ==> staticPool[i].id != id;
      statics := statics - {id};
      forall other {:trigger Settled(other)} | other in statics ensures Settled(other) {
        assert old(Settled(other));
      }
    }

    /** Moves a static task that has become usable back into the pool. */
    method UpdateStaticPool(id: ID)
      requires Linked() && Complete({id})
      requires id in statics && statics[id].staticPoolIndex >= 0 ==> CheckDial(id, statics[id].endpoint).None?
      modifies this`staticPool, statics.Values`staticPoolIndex
      ensures Linked() && Complete({})
      ensures old(staticPool) <= staticPool
    {
      if id in statics && statics[id].staticPoolIndex < 0 && CheckDial(id, statics[id].endpoint).None? {
        AddToStaticPool(statics[id]);
      }
      forall other {:trigger Settled(other)} | other in statics ensures Settled(other) {
        assert other != id ==> old(Settled(other));
      }
    }

    /** Reads the clock, which never goes back. */
    method ReadClock()
      requires Log()
      modifies this`now
      ensures now >= old(now) && Log()
    {
      var later: int := *;
      if now < later {
        TimePasses(history, starts, now, self, later);
        now := later;
      }
    }

    /** Adds a start to the history and to the log. */
    method Note(id: ID, ghost e: Endpoint)
      requires Log() && Sanctioned() && CanStart(id) && FreeDialSlots() > 0
      requires Warranted(Start(id, e, now, dialing.Keys, peers, FreeDialSlots(), |log|), log)
      modifies this`now, this`history, this`starts
      ensures now >= old(now) && Log() && Sanctioned()
      ensures starts == old(starts) + [Start(id, e, now, dialing.Keys, peers, FreeDialSlots(), |log|)]
      ensures Ids(history) == Ids(old(history)) + {id}
    {
      ReadClock();
      ghost var s := Start(id, e, now, dialing.Keys, peers, FreeDialSlots(), |log|);
      history := Record(history, now, id, self, starts, s);
      ghost var before := starts;
      starts := starts + [s];
      forall r {:trigger Warranted(r, log)} | r in starts ensures Warranted(r, log) {
        assert r in before || r == s;
      }
    }

    ghost predicate CanStart(id: ID)
      reads this`dialing, this`peers, this`history
    {
      id != self && id !in dialing && id !in peers && id !in Ids(history)
    }

    /** A dial that passes the check while a slot is free is in order. */
    lemma CheckedIsWarranted(id: ID, e: Endpoint)
      requires Mirrors() && FreeDialSlots() > 0 && CheckDial(id, e).None?
      ensures Warranted(Start(id, e, now, dialing.Keys, peers, FreeDialSlots(), |log|), log)
    {
      assert log[..|log|] == log;
      assert ReflectsAt(log, peers, statics.Keys, id);
      assert |dialing.Keys| == |dialing|;
    }

    method StartDial(task: DialTask)
      requires Dials() && Log() && Books()
      requires FreeDialSlots() > 0 && CheckDial(task.id, task.endpoint).None?
      modifies this`now, this`history, this`dialing, this`running, this`starts
      ensures dialing == old(dialing)[task.id := task] && running == old(running) + {task}
      ensures |dialing| == |old(dialing)| + 1 <= Cap()
      ensures now >= old(now)
      ensures starts == old(starts) + [Start(task.id, task.endpoint, now, old(dialing).Keys, peers, old(FreeDialSlots()), |log|)]
      ensures Ids(history) == Ids(old(history)) + {task.id}
      ensures Dials() && Log() && Books()
    {
      CheckedIsWarranted(task.id, task.endpoint);
      Note(task.id, task.endpoint);
      StartIsRecorded(dialing, running, task);
      dialing := dialing[task.id := task];
      running := running + {task};
    }

    /** The pool was right before a dial was started, with these dials and this history. */
    ghost predicate WasSettled(id: ID, busy: set<ID>, recent: set<ID>)
      requires id in statics
      reads this`statics, this`peers, statics.Values
    {
      statics[id].staticPoolIndex >= 0 <==> Check(id, statics[id].endpoint, self, netRestrict, busy, peers, recent).None?
    }

    ghost predicate WasComplete(busy: set<ID>, recent: set<ID>)
      reads this`statics, this`peers, statics.Values
    {
      forall id {:trigger WasSettled(id, busy, recent)} :: id in statics ==> WasSettled(id, busy, recent)
    }

    lemma RightNow()
      requires Complete({})
      ensures WasComplete(dialing.Keys, Ids(history))
    {
      forall id {:trigger WasSettled(id, dialing.Keys, Ids(history))} | id in statics ensures WasSettled(id, dialing.Keys, Ids(history)) {
        assert Settled(id);
      }
    }

    /** Takes a task that has just been started out of the pool, which is then right again. */
    method LeavePool(idx: nat, ghost id: ID, ghost busy: set<ID>, ghost recent: set<ID>)
      requires Linked() && Dials() && Log() && Books() && Owns() && idx < |staticPool| && staticPool[idx].id == id
      requires WasComplete(busy, recent)
      requires dialing.Keys == busy + {id} && Ids(history) == recent + {id}
      modifies this`staticPool, statics.Values`staticPoolIndex
      ensures Valid() && staticPool == SwapRemove(old(staticPool), idx)
    {
      ghost var task := staticPool[idx];
      RemoveFromStaticPool(idx);
      forall other {:trigger Settled(other)} | other in statics ensures Settled(other) {
        assert old(WasSettled(other, busy, recent));
        CheckAfterStart(other, statics[other].endpoint, self, netRestrict, busy, peers, recent, id);
        assert other != id ==> statics[other] != task;
      }
    }

    /** Starts a task from the pool and takes it out. */
    method StartPooled(idx: nat)
      requires Valid() && FreeDialSlots() > 0 && idx < |staticPool|
      modifies this`now, this`history, this`dialing, this`running, this`starts, this`staticPool, statics.Values`staticPoolIndex
      ensures Valid() && now >= old(now)
      ensures var task := old(staticPool)[idx];
              && dialing == old(dialing)[task.id := task] && |dialing| == |old(dialing)| + 1
              && staticPool == SwapRemove(old(staticPool), idx)
              && starts == old(starts) + [Start(task.id, old(task.endpoint), now, old(dialing).Keys, peers, old(FreeDialSlots()), |log|)]
    {
      ghost var task, busy, recent := staticPool[idx], dialing.Keys, Ids(history);
      StartStatic(staticPool[idx]);
      LeavePool(idx, task.id, busy, recent);
    }

    /** Starts a task that is in the pool. */
    method StartStatic(task: DialTask)
      requires Valid() && FreeDialSlots() > 0 && task in staticPool
      modifies this`now, this`history, this`dialing, this`running, this`starts
      ensures Linked() && Dials() && Log() && Books() && Owns() && now >= old(now)
      ensures WasComplete(old(dialing).Keys, Ids(old(history)))
      ensures dialing == old(dialing)[task.id := task] && |dialing| == |old(dialing)| + 1
      ensures dialing.Keys == old(dialing).Keys + {task.id} && Ids(history) == Ids(old(history)) + {task.id}
      ensures starts == old(starts) + [Start(task.id, task.endpoint, now, old(dialing).Keys, peers, old(FreeDialSlots()), |log|)]
    {
      assert task.id in statics && statics[task.id] == task;
      assert Settled(task.id);
      RightNow();
      StartDial(task);
      ValuesWith(old(dialing), task.id, task);
    }

    /** Starts a task drawn at random from the pool. */
    method StartAny()
      requires Valid() && FreeDialSlots() > 0 && staticPool != []
      modifies this`now, this`history, this`dialing, this`running, this`starts, this`staticPool, statics.Values`staticPoolIndex
      ensures Valid() && now >= old(now) && old(starts) <= starts
      ensures FreeDialSlots() == old(FreeDialSlots()) - 1 && |staticPool| == |old(staticPool)| - 1
    {
      var idx: nat :| idx < |staticPool|;
      StartPooled(idx);
    }

    /** Starts up to n tasks drawn at random from the pool. */
    method StartStaticDials(n: int) returns (started: int)
      requires Valid() && n == FreeDialSlots()
      modifies this`now, this`history, this`dialing, this`running, this`starts, this`staticPool, statics.Values`staticPoolIndex
      ensures Valid() && now >= old(now) && old(starts) <= starts
      ensures FreeDialSlots() == n - started
      ensures started == (if n <= 0 then 0 else if n < |old(staticPool)| then n else |old(staticPool)|)
      ensures |staticPool| == |old(staticPool)| - started
    {
      started := 0;
      while started < n && |staticPool| > 0
        invariant Valid() && now >= old(now) && old(starts) <= starts
        invariant 0 <= started && (started <= n || started == 0)
        invariant FreeDialSlots() == n - started && |staticPool| == |old(staticPool)| - started
        modifies this`now, this`history, this`dialing, this`running, this`starts, this`staticPool, statics.Values`staticPoolIndex
      {
        StartAny();
        started := started + 1;
      }
    }

    /** The head of the loop: static tasks first, so that dynamic ones are wanted only once the pool is empty. */
    method Launch() returns (slots: int)
      requires Valid()
      modifies this`now, this`history, this`dialing, this`running, this`starts, this`staticPool, statics.Values`staticPoolIndex
      ensures Valid() && now >= old(now) && old(starts) <= starts
      ensures slots == FreeDialSlots() && (slots > 0 ==> staticPool == [])
    {
      slots := FreeDialSlots();
      var started := StartStaticDials(slots);
      slots := slots - started;
    }

    /** Starts a dial to a node from discovery that passes the check. */
    method StartNew(id: ID, e: Endpoint) returns (ghost task: DialTask)
      requires Core() && Books() && FreeDialSlots() > 0 && CheckDial(id, e).None? && staticPool == []
      modifies this`now, this`history, this`dialing, this`running, this`starts
      ensures Core() && Books() && now >= old(now) && fresh(task) && dialing == old(dialing)[id := task]
      ensures starts == old(starts) + [Start(id, e, now, old(dialing).Keys, peers, old(FreeDialSlots()), |log|)]
    {
      var dial := new DialTask(id, e);
      task := dial;
      ghost var busy, recent := dialing.Keys, Ids(history);
      StartDial(dial);
      assert dialing.Keys == busy + {id};
      forall other {:trigger Settled(other)} | other in statics ensures Settled(other) {
        CheckAfterStart(other, statics[other].endpoint, self, netRestrict, busy, peers, recent, id);
        assert old(Settled(other));
      }
      CoreHolds();
    }

    /** A node from discovery, accepted only while slots are free after the static dials. */
    method HandleNode(id: ID, e: Endpoint)
      requires Valid() && FreeDialSlots() > 0 && staticPool == []
      modifies this`now, this`history, this`dialing, this`running, this`starts, this`tasks
      ensures Valid() && now >= old(now) && staticPool == [] && fresh(tasks - old(tasks))
      ensures old(CheckDial(id, e)).Some? ==> starts == old(starts) && dialing == old(dialing)
      ensures old(CheckDial(id, e)).None? ==>
                && id in dialing && fresh(dialing[id]) && dialing == old(dialing)[id := dialing[id]]
                && starts == old(starts) + [Start(id, e, now, old(dialing).Keys, peers, old(FreeDialSlots()), |log|)]
    {
      if CheckDial(id, e).None? {
        ghost var task := StartNew(id, e);
        ValuesWith(old(dialing), id, task);
        tasks := tasks + {task};
        AllHolds();
      }
    }

    /** A running task may resolve a new endpoint for its node. */
    method Resolve(id: ID, e: Endpoint)
      requires Valid() && id in dialing
      modifies dialing[id]
      ensures Valid() && dialing[id].endpoint == e && dialing[id].staticPoolIndex == old(dialing[id].staticPoolIndex)
    {
      var task := dialing[id];
      task.endpoint := e;
      forall other {:trigger Settled(other)} | other in statics ensures Settled(other) {
        assert old(Settled(other));
      }
    }

    /** Forgets a finished task; its node's static task, if any, is outside the pool. */
    method Retire(id: ID)
      requires Core() && id in dialing
      modifies this`dialing, this`running
      ensures dialing == old(dialing) - {id} && running == old(running) - {old(dialing[id])}
      ensures Dials() && Complete({id}) && (id in statics ==> statics[id].staticPoolIndex < 0)
    {
      assert id in statics ==> Settled(id);
      ghost var busy := dialing.Keys;
      DoneIsRecorded(dialing, running, id);
      running, dialing := running - {dialing[id]}, dialing - {id};
      forall other {:trigger Settled(other)} | other in statics && other != id ensures Settled(other) {
        assert old(Settled(other));
        CheckUnaffected(other, statics[other].endpoint, self, netRestrict,
                        busy, peers, Ids(history), dialing.Keys, peers, Ids(history));
      }
    }

    method Finish(id: ID)
      requires Core() && id in dialing
      modifies this`dialing, this`running, this`staticPool, statics.Values`staticPoolIndex
      ensures Core() && dialing == old(dialing) - {id} && running == old(running) - {old(dialing[id])}
      ensures old(staticPool) <= staticPool
    {
      Retire(id);
      UpdateStaticPool(id);
      CoreHolds();
    }

    method HandleDone(id: ID)
      requires Valid() && id in dialing
      modifies this`dialing, this`running, this`staticPool, statics.Values`staticPoolIndex
      ensures Valid() && dialing == old(dialing) - {id} && running == old(running) - {old(dialing[id])}
      ensures old(staticPool) <= staticPool
    {
      Finish(id);
      ValuesWithout(old(dialing), id);
      AllHolds();
    }

    /** A connected node must leave the pool. */
    method Connect(id: ID)
      requires Core()
      modifies this`peers, this`staticPool, statics.Values`staticPoolIndex
      ensures Core() && peers == old(peers) + {id}
    {
      peers := peers + {id};
      forall other {:trigger Settled(other)} | other in statics && other != id ensures Settled(other) {
        assert old(Settled(other));
        CheckUnaffected(other, statics[other].endpoint, self, netRestrict,
                        dialing.Keys, old(peers), Ids(history), dialing.Keys, peers, Ids(history));
      }
      Withdraw(id);
      assert id in statics ==> Settled(id);
    }

    /** A disconnected node may go back into the pool. */
    method Disconnect(id: ID)
      requires Core()
      modifies this`peers, this`staticPool, statics.Values`staticPoolIndex
      ensures Core() && peers == old(peers) - {id} && old(staticPool) <= staticPool
    {
      assert id in statics ==> Settled(id);
      peers := peers - {id};
      forall other {:trigger Settled(other)} | other in statics && other != id ensures Settled(other) {
        assert old(Settled(other));
        CheckUnaffected(other, statics[other].endpoint, self, netRestrict,
                        dialing.Keys, old(peers), Ids(history), dialing.Keys, peers, Ids(history));
      }
      UpdateStaticPool(id);
    }

    method HandlePeerAdded(id: ID, dialed: bool)
      requires Valid()
      modifies this`dialPeers, this`peers, this`log, this`staticPool, statics.Values`staticPoolIndex
      ensures Valid() && log == old(log) + [PeerAdded(id, dialed)] && peers == old(peers) + {id}
      ensures dialPeers == old(dialPeers) + if dialed then 1 else 0
    {
      ReflectsStep(log, peers, dialPeers, statics.Keys, PeerAdded(id, dialed),
                   peers + {id}, dialPeers + if dialed then 1 else 0, statics.Keys);
      dialPeers := dialPeers + if dialed then 1 else 0;
      Connect(id);
      Hear(PeerAdded(id, dialed));
    }

    method HandlePeerRemoved(id: ID, dialed: bool)
      requires Valid()
      modifies this`dialPeers, this`peers, this`log, this`staticPool, statics.Values`staticPoolIndex
      ensures Valid() && log == old(log) + [PeerRemoved(id, dialed)] && peers == old(peers) - {id} && old(staticPool) <= staticPool
      ensures dialPeers == old(dialPeers) - if dialed then 1 else 0
    {
      ReflectsStep(log, peers, dialPeers, statics.Keys, PeerRemoved(id, dialed),
                   peers - {id}, dialPeers - if dialed then 1 else 0, statics.Keys);
      dialPeers := dialPeers - if dialed then 1 else 0;
      Disconnect(id);
      Hear(PeerRemoved(id, dialed));
    }

    /** Adds a new static task, to the pool as well if it may be dialed. */
    method Enroll(task: DialTask)
      requires Linked() && Complete({}) && task.id !in statics && task.staticPoolIndex == -1
      modifies this`statics, this`staticPool, task`staticPoolIndex
      ensures Linked() && Complete({}) && statics == old(statics)[task.id := task]
      ensures staticPool == old(staticPool) + if CheckDial(task.id, task.endpoint).None? then [task] else []
    {
      forall other | other in statics ensures statics[other] != task {
      }
      statics := statics[task.id := task];
      if CheckDial(task.id, task.endpoint).None? {
        AddToStaticPool(task);
      }
      forall other {:trigger Settled(other)} | other in statics ensures Settled(other) {
        assert other != task.id ==> old(Settled(other));
      }
    }

    /** A static node already known is left alone. */
    method AddTask(id: ID, e: Endpoint)
      requires Core() && Owns()
      modifies this`statics, this`staticPool, this`tasks
      ensures Core() && Owns() && statics.Keys == old(statics).Keys + {id} && fresh(tasks - old(tasks))
      ensures id in old(statics) ==> statics == old(statics) && staticPool == old(staticPool)
      ensures id !in old(statics) ==>
                id in statics && statics == old(statics)[id := statics[id]] && fresh(statics[id]) && statics[id].endpoint == e
    {
      if id !in statics {
        NewTask(id, e);
      }
    }

    method NewTask(id: ID, e: Endpoint)
      requires Core() && Owns() && id !in statics
      modifies this`statics, this`staticPool, this`tasks
      ensures Core() && Owns() && statics.Keys == old(statics).Keys + {id} && fresh(tasks - old(tasks))
      ensures id in statics && statics == old(statics)[id := statics[id]] && fresh(statics[id]) && statics[id].endpoint == e
    {
      var task := new DialTask(id, e);
      tasks := tasks + {task};
      Enroll(task);
      ValuesWith(old(statics), id, task);
      CoreHolds();
    }

    method RemoveTask(id: ID)
      requires Core()
      modifies this`statics, this`staticPool, statics.Values`staticPoolIndex
      ensures Core() && statics == old(statics) - {id}
    {
      assert Complete({id});
      Withdraw(id);
      Forget(id);
      CoreHolds();
    }

    method HandleAddStatic(id: ID, e: Endpoint)
      requires Valid()
      modifies this`statics, this`log, this`staticPool, this`tasks
      ensures Valid() && log == old(log) + [AddStatic(id, e)] && fresh(tasks - old(tasks))
      ensures id in old(statics) ==> statics == old(statics) && staticPool == old(staticPool)
      ensures id !in old(statics) ==>
                id in statics && statics == old(statics)[id := statics[id]] && fresh(statics[id]) && statics[id].endpoint == e
    {
      ReflectsStep(log, peers, dialPeers, statics.Keys, AddStatic(id, e), peers, dialPeers, statics.Keys + {id});
      AddTask(id, e);
      Hear(AddStatic(id, e));
    }

    method HandleRemoveStatic(id: ID)
      requires Valid()
      modifies this`statics, this`log, this`staticPool, statics.Values`staticPoolIndex
      ensures Valid() && log == old(log) + [RemoveStatic(id)] && statics == old(statics) - {id}
    {
      ReflectsStep(log, peers, dialPeers, statics.Keys, RemoveStatic(id), peers, dialPeers, statics.Keys - {id});
      RemoveTask(id);
      ValuesWithout(old(statics), id);
      Hear(RemoveStatic(id));
    }

    /** Takes out one expired entry; its node's static task, if any, is outside the pool. */
    method DropFirst() returns (id: ID)
      requires Core() && history != [] && history[0].exp < now
      modifies this`history
      ensures id == old(history[0].item) && Ids(history) <= Ids(old(history)) && |history| < |old(history)|
      ensures Trimmed(old(history), history, now)
      ensures Log() && Complete({id}) && (id in statics ==> statics[id].staticPoolIndex < 0)
    {
      ghost var recent := Ids(history);
      assert history[0].item in statics ==> Settled(history[0].item);
      id, history := Expire(history, now, self, starts);
      forall other {:trigger Settled(other)} | other in statics && other != id ensures Settled(other) {
        assert old(Settled(other));
        CheckUnaffected(other, statics[other].endpoint, self, netRestrict,
                        dialing.Keys, peers, recent, dialing.Keys, peers, Ids(history));
      }
    }

    method ExpireFirst()
      requires Core() && history != [] && history[0].exp < now
      modifies this`history, this`staticPool, statics.Values`staticPoolIndex
      ensures Core() && |history| < |old(history)| && old(staticPool) <= staticPool
      ensures Trimmed(old(history), history, now)
    {
      var id := DropFirst();
      UpdateStaticPool(id);
      CoreHolds();
    }

    /** Drops every entry that expired before now, and no other. */
    method ExpireHistory()
      requires Valid()
      modifies this`now, this`history, this`staticPool, statics.Values`staticPoolIndex
      ensures Valid() && now >= old(now) && old(staticPool) <= staticPool
      ensures Trimmed(old(history), history, now) && forall x :: x in history ==> x.exp >= now
    {
      ReadClock();
      forall id {:trigger Settled(id)} | id in statics ensures Settled(id) {
        assert old(Settled(id));
      }
      CoreHolds();
      while history != [] && history[0].exp < now
        invariant Core() && old(staticPool) <= staticPool && Trimmed(old(history), history, now)
        decreases |history|
        modifies this`history, this`staticPool, statics.Values`staticPoolIndex
      {
        ghost var before := history;
        ExpireFirst();
        TrimmedTwice(old(history), before, history, now);
      }
      FirstExpiresFirst(history);
      AllHolds();
    }

    /** After the loop has been told to stop, one completion is received for each recorded dial. */
    method Shutdown() returns (received: nat)
      requires Valid()
      modifies this`running
      ensures received == |dialing| == |old(running)| && running == {}
    {
      RunningCount(dialing, running);
      received := 0;
      while received < |dialing|
        invariant received + |running| == |dialing|
      {
        ghost var task :| task in running;
        running := running - {task};
        received := received + 1;
      }
    }

    /** The events that start and end no dial; the books follow them, and only the timer clears the history. */
    method HandleNotice(event: Event)
      requires Valid()
      modifies this, tasks
      ensures Valid() && log == old(log) + [event] && now >= old(now) && fresh(tasks - old(tasks))
      ensures starts == old(starts) && dialing == old(dialing) && running == old(running)
      ensures if event.HistoryTimer? then forall x :: x in history ==> x.exp >= now else history == old(history) && now == old(now)
    {
      match event
      case PeerAdded(id, dialed) =>
        HandlePeerAdded(id, dialed);
      case PeerRemoved(id, dialed) =>
        HandlePeerRemoved(id, dialed);
      case AddStatic(id, e) =>
        HandleAddStatic(id, e);
      case RemoveStatic(id) =>
        HandleRemoveStatic(id);
      case HistoryTimer =>
        Overhear(HistoryTimer);
        ExpireHistory();
      case _ =>
        Overhear(event);
    }

    /** Discovery is only listened to while slots are free. */
    method OnNode(slots: int, id: ID, e: Endpoint)
      requires Valid() && slots == FreeDialSlots() && (slots > 0 ==> staticPool == [])
      modifies this`now, this`history, this`dialing, this`running, this`starts, this`log, this`tasks
      ensures Valid() && log == old(log) + [NodeFound(id, e)] && now >= old(now) && fresh(tasks - old(tasks))
      ensures if slots > 0 && old(CheckDial(id, e)).None?
              then starts == old(starts) + [Start(id, e, now, old(dialing).Keys, peers, slots, |log|)] && dialing.Keys == old(dialing).Keys + {id}
              else starts == old(starts) && dialing == old(dialing)
    {
      Overhear(NodeFound(id, e));
      if slots > 0 { HandleNode(id, e); }
    }

    method OnDone(id: ID)
      requires Valid()
      modifies this`dialing, this`running, this`log, this`staticPool, statics.Values`staticPoolIndex
      ensures Valid() && log == old(log) + [TaskDone(id)] && dialing == old(dialing) - {id}
    {
      Overhear(TaskDone(id));
      if id in dialing { HandleDone(id); }
    }

    method OnResolved(id: ID, e: Endpoint)
      requires Valid()
      modifies this`log, dialing.Values
      ensures Valid() && log == old(log) + [Resolved(id, e)]
      ensures id in dialing ==> dialing[id].endpoint == e
    {
      Overhear(Resolved(id, e));
      if id in dialing { Resolve(id, e); }
    }

    /** What the loop does with an event: a node found is dialed exactly if a slot is free and the check passes, a task
        that is done is forgotten, and nothing else starts or ends a dial. */
    method Handle(slots: int, event: Event)
      requires Valid() && slots == FreeDialSlots() && (slots > 0 ==> staticPool == [])
      modifies this, tasks
      ensures Valid() && log == old(log) + [event] && now >= old(now) && fresh(tasks - old(tasks))
      ensures if event.NodeFound? && slots > 0 && old(CheckDial(event.id, event.endpoint)).None?
              then starts == old(starts) + [Start(event.id, event.endpoint, now, old(dialing).Keys, old(peers), slots, |log|)]
                   && dialing.Keys == old(dialing).Keys + {event.id}
              else starts == old(starts) && dialing == if event.TaskDone? then old(dialing) - {event.id} else old(dialing)
    {
      match event
      case NodeFound(id, e) =>
        OnNode(slots, id, e);
      case TaskDone(id) =>
        OnDone(id);
      case Resolved(id, e) =>
        OnResolved(id, e);
      case _ =>
        HandleNotice(event);
    }

    /** What every event keeps. */
    method Receive(slots: int, event: Event)
      requires Valid() && slots == FreeDialSlots() && (slots > 0 ==> staticPool == [])
      modifies this, tasks
      ensures Valid() && log == old(log) + [event] && now >= old(now) && old(starts) <= starts && fresh(tasks - old(tasks))
    {
      Handle(slots, event);
    }

    /** Launches what can be launched before the next event is received. */
    method Prepare() returns (slots: int)
      requires Valid()
      modifies this, tasks
      ensures Valid() && log == old(log) && tasks == old(tasks) && now >= old(now) && old(starts) <= starts
      ensures slots == FreeDialSlots() && (slots > 0 ==> staticPool == [])
    {
      slots := Launch();
    }

    /** One turn of the loop. */
    method Turn(event: Event)
      requires Valid()
      modifies this, tasks
      ensures Valid() && log == old(log) + [event]
      ensures now >= old(now) && old(starts) <= starts && fresh(tasks - old(tasks))
    {
      var slots := Prepare();
      Receive(slots, event);
    }

    /**
      The event loop, over any events; what every run keeps.  Who is connected, how many connections are outbound
      and which nodes are static is what the events say, and every dial ever started was in order by the events
      received before it.
     */
    method Run(events: seq<Event>)
      requires Valid()
      modifies this, tasks
      ensures Valid() && |dialing| <= Cap()
      ensures Spaced(starts) && Proper(starts, self)
      ensures log == old(log) + events && dialPeers == Outbound(log)
      ensures forall id :: (id in peers <==> Connected(log, id)) && (id in statics <==> Static(log, id))
      ensures old(starts) <= starts && Sanctioned()
    {
      TurnAll(events);
      forall id ensures (id in peers <==> Connected(log, id)) && (id in statics <==> Static(log, id)) {
        assert ReflectsAt(log, peers, statics.Keys, id);
      }
    }

    method TurnAll(events: seq<Event>)
      requires Valid()
      modifies this, tasks
      ensures Valid() && log == old(log) + events && old(starts) <= starts
    {
      ghost var before := log;
      for i := 0 to |events|
        invariant Valid() && fresh(tasks - old(tasks))
        invariant log == before + events[..i] && old(starts) <= starts
      {
        Turn(events[i]);
        OneMore(before, events, i);
      }
      OneMore(before, events, |events|);
    }
  }

  lemma OneMore(before: seq<Event>, events: seq<Event>, i: nat)
    requires i <= |events|
    ensures i < |events| ==> before + events[..i] + [events[i]] == before + events[..i + 1]
    ensures i == |events| ==> events[..i] == events
  {
  }
}
