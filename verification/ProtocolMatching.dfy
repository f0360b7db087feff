/**
  Multiplexing of subprotocols over one peer connection: both ends match their
  protocols against the other's capabilities and must arrive at the same layout of
  message codes without talking about it.
 */
module ProtocolMatching {
  import opened Wrappers

  type Byte = b: int | 0 <= b < 256

  type Name = seq<Byte>

  datatype Cap = Cap(name: Name, version: nat)

  datatype Protocol = Protocol(name: Name, version: nat, length: nat)

  /** A protocol in use, with the first message code assigned to it. */
  datatype Running = Running(proto: Protocol, offset: nat)

  const BASE_PROTOCOL_LENGTH: nat := 16

  /** Bytewise comparison: -1, 0 or 1. */
  function CompareNames(a: Name, b: Name): int {
    if a == [] && b == [] then 0
    else if a == [] then -1
    else if b == [] then 1
    else if a[0] < b[0] then -1
    else if a[0] > b[0] then 1
    else CompareNames(a[1..], b[1..])
  }

  /** The order of a dictionary: at the first difference the lower byte comes first, a name before its continuations. */
  ghost predicate Precedes(a: Name, b: Name) {
    exists i :: 0 <= i <= |a| && i < |b| && a[..i] == b[..i] && (i == |a| || a[i] < b[i])
  }

  lemma {:induction false} ComparesByDictionary(a: Name, b: Name)
    ensures CompareNames(a, b) < 0 <==> Precedes(a, b)
  {
    forall i | 0 < i <= |a| && i < |b| && a[..i] == b[..i] ensures a[0] == b[0] {
      assert a[..i][0] == b[..i][0];
    }
    assert a[..0] == b[..0];
    if a != [] && b != [] && a[0] == b[0] {
      ComparesByDictionary(a[1..], b[1..]);
      if Precedes(a, b) {
        var i :| 0 <= i <= |a| && i < |b| && a[..i] == b[..i] && (i == |a| || a[i] < b[i]);
        assert a[1..][..i - 1] == a[..i][1..] == b[..i][1..] == b[1..][..i - 1];
      }
      if Precedes(a[1..], b[1..]) {
        var i :| 0 <= i <= |a[1..]| && i < |b[1..]| && a[1..][..i] == b[1..][..i] && (i == |a[1..]| || a[1..][i] < b[1..][i]);
        assert a[..i + 1] == [a[0]] + a[1..][..i] == b[..i + 1];
      }
    }
  }

  function CapOf(p: Protocol): Cap {
    Cap(p.name, p.version)
  }

  function Cmp(a: Cap, b: Cap): int {
    if a.name == b.name
    then if a.version < b.version then -1 else if a.version > b.version then 1 else 0
    else CompareNames(a.name, b.name)
  }

  lemma {:induction false} NamesAntisymmetric(a: Name, b: Name)
    ensures CompareNames(a, b) == -CompareNames(b, a)
    ensures CompareNames(a, b) == 0 <==> a == b
  {
    if a != [] && b != [] && a[0] == b[0] {
      NamesAntisymmetric(a[1..], b[1..]);
      assert a == [a[0]] + a[1..] && b == [b[0]] + b[1..];
    }
  }

  lemma {:induction false} NamesTransitive(a: Name, b: Name, c: Name)
    requires CompareNames(a, b) <= 0 && CompareNames(b, c) <= 0
    ensures CompareNames(a, c) <= 0
  {
    if a != [] && b != [] && c != [] && a[0] == b[0] == c[0] {
      NamesTransitive(a[1..], b[1..], c[1..]);
    }
  }

  /** The capability order is total: it decides equality and is transitive. */
  lemma CmpIsTotalOrder(a: Cap, b: Cap, c: Cap)
    ensures Cmp(a, b) == 0 <==> a == b
    ensures Cmp(a, b) <= 0 || Cmp(b, a) <= 0
    ensures Cmp(a, b) <= 0 && Cmp(b, a) <= 0 ==> a == b
    ensures Cmp(a, b) <= 0 && Cmp(b, c) <= 0 ==> Cmp(a, c) <= 0
  {
    NamesAntisymmetric(a.name, b.name);
    NamesAntisymmetric(b.name, c.name);
    if CompareNames(a.name, b.name) <= 0 && CompareNames(b.name, c.name) <= 0 {
      NamesTransitive(a.name, b.name, c.name);
      NamesAntisymmetric(a.name, c.name);
      if a.name == c.name {
        assert CompareNames(b.name, a.name) <= 0;
      }
    }
  }

  ghost predicate Sorted(caps: seq<Cap>) {
    forall i, j :: 0 <= i < j < |caps| ==> Cmp(caps[i], caps[j]) <= 0
  }

  /** Stands for the library sort: a sorted permutation. */
  method SortCaps(caps: seq<Cap>) returns (sorted: seq<Cap>)
    ensures Sorted(sorted) && multiset(sorted) == multiset(caps)
  {
    sorted := [];
    for i := 0 to |caps|
      invariant Sorted(sorted) && multiset(sorted) == multiset(caps[..i])
    {
      assert caps[..i + 1] == caps[..i] + [caps[i]];
      sorted := InsertCap(sorted, caps[i]);
    }
    assert caps[..|caps|] == caps;
  }

  method InsertCap(sorted: seq<Cap>, cap: Cap) returns (r: seq<Cap>)
    requires Sorted(sorted)
    ensures Sorted(r) && multiset(r) == multiset(sorted) + multiset{cap}
  {
    var k := |sorted|;
    while k > 0 && Cmp(cap, sorted[k - 1]) < 0
      invariant 0 <= k <= |sorted|
      invariant forall j :: k <= j < |sorted| ==> Cmp(cap, sorted[j]) <= 0
    {
      k := k - 1;
    }
    InsertKeepsSorted(sorted, cap, k);
    InsertAdds(sorted, cap, k);
    r := sorted[..k] + [cap] + sorted[k..];
  }

  lemma InsertAdds(sorted: seq<Cap>, cap: Cap, k: nat)
    requires k <= |sorted|
    ensures multiset(sorted[..k] + [cap] + sorted[k..]) == multiset(sorted) + multiset{cap}
  {
    assert sorted == sorted[..k] + sorted[k..];
  }

  lemma InsertKeepsSorted(sorted: seq<Cap>, cap: Cap, k: nat)
    requires Sorted(sorted) && k <= |sorted| && (k > 0 ==> Cmp(cap, sorted[k - 1]) >= 0)
    requires forall j :: k <= j < |sorted| ==> Cmp(cap, sorted[j]) <= 0
    ensures Sorted(sorted[..k] + [cap] + sorted[k..])
  {
    forall j | 0 <= j < k
      ensures Cmp(sorted[j], cap) <= 0
    {
      CmpIsTotalOrder(cap, sorted[k - 1], cap);
      CmpIsTotalOrder(sorted[j], sorted[k - 1], cap);
    }
  }

  /** The first of our protocols with this name and version. */
  function Find(protocols: seq<Protocol>, cap: Cap): (r: Option<Protocol>)
    ensures r.Some? ==> r.value in protocols && CapOf(r.value) == cap
    ensures r.None? ==> forall p :: p in protocols ==> CapOf(p) != cap
  {
    if protocols == [] then None
    else if CapOf(protocols[0]) == cap then Some(protocols[0])
    else Find(protocols[1..], cap)
  }

  /** Our protocols that the capabilities match, in their order. */
  function Matches(protocols: seq<Protocol>, caps: seq<Cap>): seq<Protocol>
    decreases |caps|
  {
    if caps == [] then []
    else
      var k := |caps| - 1;
      var r := Find(protocols, caps[k]);
      Matches(protocols, caps[..k]) + if r.Some? then [r.value] else []
  }

  /** The protocols that run: of consecutive matches with one name, the last. */
  function Plan(ps: seq<Protocol>): (plan: seq<Protocol>)
    ensures (plan == []) == (ps == [])
    decreases |ps|
  {
    if ps == [] then []
    else
      var k := |ps| - 1;
      Planned(Plan(ps[..k]), ps[k])
  }

  /** The first message code after the first i protocols of a plan. */
  function EndAt(plan: seq<Protocol>, i: nat): (end: nat)
    requires i <= |plan|
    ensures end >= BASE_PROTOCOL_LENGTH
  {
    if i == 0 then BASE_PROTOCOL_LENGTH else EndAt(plan, i - 1) + plan[i - 1].length
  }

  function End(plan: seq<Protocol>): nat {
    EndAt(plan, |plan|)
  }

  /** The result map gives every planned protocol its consecutive code range. */
  ghost predicate LaidOut(plan: seq<Protocol>, result: map<Name, Running>) {
    && (forall i {:trigger Placed(plan, result, i)} :: 0 <= i < |plan| ==> Placed(plan, result, i))
    && (forall name {:trigger Plans(plan, name)} :: name in result ==> Plans(plan, name))
  }

  ghost predicate Placed(plan: seq<Protocol>, result: map<Name, Running>, i: nat)
    requires i < |plan|
  {
    plan[i].name in result && result[plan[i].name] == Running(plan[i], EndAt(plan, i))
  }

  ghost predicate Plans(plan: seq<Protocol>, name: Name) {
    exists i :: 0 <= i < |plan| && plan[i].name == name
  }

  ghost predicate InOrder(ps: seq<Protocol>) {
    forall i, j :: 0 <= i < j < |ps| ==> Cmp(CapOf(ps[i]), CapOf(ps[j])) <= 0
  }

  ghost predicate NamesRise(plan: seq<Protocol>) {
    forall i, j :: 0 <= i < j < |plan| ==> CompareNames(plan[i].name, plan[j].name) < 0
  }

  lemma {:induction false} MatchesInOrder(protocols: seq<Protocol>, caps: seq<Cap>)
    requires Sorted(caps)
    ensures InOrder(Matches(protocols, caps))
    ensures forall p :: p in Matches(protocols, caps) <==> CapOf(p) in caps && Find(protocols, CapOf(p)) == Some(p)
    decreases |caps|
  {
    if caps != [] {
      var k := |caps| - 1;
      var rest := Matches(protocols, caps[..k]);
      MatchesInOrder(protocols, caps[..k]);
      assert caps == caps[..k] + [caps[k]];
      forall i | 0 <= i < |rest|
        ensures Cmp(CapOf(rest[i]), caps[k]) <= 0
      {
        assert rest[i] in rest;
        assert CapOf(rest[i]) in caps[..k];
      }
    }
  }

  /** The plan runs this protocol's name, in the same or a higher version. */
  ghost predicate RunsAtLeast(plan: seq<Protocol>, q: Protocol) {
    exists i :: 0 <= i < |plan| && plan[i].name == q.name && q.version <= plan[i].version
  }

  /** The plan of an ordered list of matches: names strictly rise, and every matched
      name runs with its highest matched version. */
  lemma {:induction false} PlanIsBest(ps: seq<Protocol>)
    requires InOrder(ps)
    ensures NamesRise(Plan(ps))
    ensures forall p :: p in Plan(ps) ==> p in ps
    ensures forall q {:trigger RunsAtLeast(Plan(ps), q)} :: q in ps ==> RunsAtLeast(Plan(ps), q)
    ensures ps != [] ==> Plan(ps)[|Plan(ps)| - 1] == ps[|ps| - 1]
    decreases |ps|
  {
    if ps != [] {
      var k := |ps| - 1;
      var last := ps[k];
      PlanIsBest(ps[..k]);
      var rest := Plan(ps[..k]);
      assert ps == ps[..k] + [last];
      if rest != [] {
        var top := rest[|rest| - 1];
        assert top == ps[k - 1] && Cmp(CapOf(top), CapOf(last)) <= 0;
        PlanGrows(rest, last);
      }
      forall q {:trigger RunsAtLeast(Plan(ps), q)} | q in ps
        ensures RunsAtLeast(Plan(ps), q)
      {
        RunsKept(rest, last, q);
      }
    }
  }

  /** The plan with one more match. */
  function Planned(rest: seq<Protocol>, last: Protocol): seq<Protocol> {
    if rest != [] && rest[|rest| - 1].name == last.name then rest[..|rest| - 1] + [last] else rest + [last]
  }

  lemma RunsKept(rest: seq<Protocol>, last: Protocol, q: Protocol)
    requires rest != [] && rest[|rest| - 1].name == last.name ==> rest[|rest| - 1].version <= last.version
    requires q == last || RunsAtLeast(rest, q)
    ensures RunsAtLeast(Planned(rest, last), q)
  {
    var plan := Planned(rest, last);
    if q == last {
      assert plan[|plan| - 1] == last;
    } else {
      var i :| 0 <= i < |rest| && rest[i].name == q.name && q.version <= rest[i].version;
      if i == |rest| - 1 && rest[i].name == last.name {
        assert plan[i] == last;
      } else {
        assert plan[i] == rest[i];
      }
    }
  }

  /** Appending a match above the last planned name keeps names rising. */
  lemma PlanGrows(rest: seq<Protocol>, last: Protocol)
    requires rest != [] && NamesRise(rest) && Cmp(CapOf(rest[|rest| - 1]), CapOf(last)) <= 0
    ensures NamesRise(Planned(rest, last))
    ensures rest[|rest| - 1].name == last.name ==> rest[|rest| - 1].version <= last.version
  {
    var top := rest[|rest| - 1];
    NamesAntisymmetric(top.name, last.name);
    forall i | 0 <= i < |rest| && top.name != last.name
      ensures CompareNames(rest[i].name, last.name) < 0
    {
      if i < |rest| - 1 {
        NamesTransitive(rest[i].name, top.name, last.name);
        NamesAntisymmetric(rest[i].name, last.name);
        NamesAntisymmetric(rest[i].name, top.name);
      }
    }
  }

  ghost predicate SameMembers(a: seq<Protocol>, b: seq<Protocol>) {
    forall p :: p in a <==> p in b
  }

  /** Two plans with rising names and the same protocols are the same. */
  lemma {:induction false} RisingPlansEqual(a: seq<Protocol>, b: seq<Protocol>)
    requires NamesRise(a) && NamesRise(b) && SameMembers(a, b)
    ensures a == b
    decreases |a|
  {
    if a != [] || b != [] {
      BothNonEmpty(a, b);
      TopIsLast(a, b);
      SameWithoutTop(a, b);
      RisingPlansEqual(a[..|a| - 1], b[..|b| - 1]);
      assert a == a[..|a| - 1] + [a[|a| - 1]];
    }
  }

  lemma BothNonEmpty(a: seq<Protocol>, b: seq<Protocol>)
    requires SameMembers(a, b) && (a != [] || b != [])
    ensures a != [] && b != []
  {
    var p := if a != [] then a[0] else b[0];
    assert p in a && p in b;
  }

  lemma SameWithoutTop(a: seq<Protocol>, b: seq<Protocol>)
    requires NamesRise(a) && NamesRise(b) && SameMembers(a, b) && a != [] && b != [] && a[|a| - 1] == b[|b| - 1]
    ensures SameMembers(a[..|a| - 1], b[..|b| - 1])
  {
    var a', b' := a[..|a| - 1], b[..|b| - 1];
    forall p
      ensures p in a' <==> p in b'
    {
      NotTwice(a, p);
      NotTwice(b, p);
    }
  }

  lemma TopIsLast(a: seq<Protocol>, b: seq<Protocol>)
    requires NamesRise(a) && NamesRise(b) && a != [] && b != [] && SameMembers(a, b)
    ensures a[|a| - 1] == b[|b| - 1]
  {
    var x, y := a[|a| - 1], b[|b| - 1];
    assert x in b && y in a;
    var i :| 0 <= i < |b| && b[i] == x;
    var j :| 0 <= j < |a| && a[j] == y;
    NamesAntisymmetric(x.name, y.name);
  }

  lemma NotTwice(a: seq<Protocol>, p: Protocol)
    requires NamesRise(a) && a != []
    ensures p in a[..|a| - 1] <==> p in a && p != a[|a| - 1]
  {
    assert a == a[..|a| - 1] + [a[|a| - 1]];
    if p in a[..|a| - 1] {
      var i :| 0 <= i < |a| - 1 && a[i] == p;
      NamesAntisymmetric(p.name, a[|a| - 1].name);
    }
  }

  /** The plan depends only on the set of matches: its members are the matches with
      the highest version of their name. */
  lemma PlanMembers(ps: seq<Protocol>, p: Protocol)
    requires InOrder(ps)
    requires forall q, r :: q in ps && r in ps && CapOf(q) == CapOf(r) ==> q == r
    ensures p in Plan(ps) <==> p in ps && HighestOfName(ps, p)
  {
    PlanIsBest(ps);
    if p in Plan(ps) {
      PlannedIsHighest(ps, p);
    }
    if p in ps && HighestOfName(ps, p) {
      assert RunsAtLeast(Plan(ps), p);
      var j :| 0 <= j < |Plan(ps)| && Plan(ps)[j].name == p.name && p.version <= Plan(ps)[j].version;
      assert Plan(ps)[j] in Plan(ps);
    }
  }

  ghost predicate HighestOfName(ps: seq<Protocol>, p: Protocol) {
    forall q :: q in ps && q.name == p.name ==> q.version <= p.version
  }

  lemma PlannedIsHighest(ps: seq<Protocol>, p: Protocol)
    requires InOrder(ps) && p in Plan(ps)
    ensures HighestOfName(ps, p)
  {
    PlanIsBest(ps);
    var plan := Plan(ps);
    var i :| 0 <= i < |plan| && plan[i] == p;
    forall q | q in ps && q.name == p.name
      ensures q.version <= p.version
    {
      assert RunsAtLeast(plan, q);
      var j :| 0 <= j < |plan| && plan[j].name == q.name && q.version <= plan[j].version;
      NamesAntisymmetric(plan[i].name, plan[j].name);
    }
  }

  /** Both ends agree on the lengths of the capabilities they share. */
  ghost predicate LengthsAgree(a: seq<Protocol>, b: seq<Protocol>) {
    forall c: Cap :: Find(a, c).Some? && Find(b, c).Some? ==> Find(a, c).value.length == Find(b, c).value.length
  }

  /** The capability list a peer announces, in any order. */
  ghost predicate Announces(protocols: seq<Protocol>, caps: seq<Cap>) {
    forall c: Cap :: c in caps <==> Find(protocols, c).Some?
  }

  /** The two ends, each matching its protocols against the other's list, plan the
      same protocols in the same order, hence the same message codes. */
  lemma BothEndsPlanTheSame(a: seq<Protocol>, b: seq<Protocol>, capsA: seq<Cap>, capsB: seq<Cap>)
    requires Announces(a, capsA) && Announces(b, capsB) && LengthsAgree(a, b) && Sorted(capsA) && Sorted(capsB)
    ensures Plan(Matches(a, capsB)) == Plan(Matches(b, capsA))
  {
    var ps, qs := Matches(a, capsB), Matches(b, capsA);
    MatchesInOrder(a, capsB);
    MatchesInOrder(b, capsA);
    forall p
      ensures p in ps <==> p in qs
    {
      SharedMatch(a, b, capsA, capsB, p);
      SharedMatch(b, a, capsB, capsA, p);
    }
    forall p
      ensures p in Plan(ps) <==> p in Plan(qs)
    {
      PlanMembers(ps, p);
      PlanMembers(qs, p);
    }
    PlanIsBest(ps);
    PlanIsBest(qs);
    RisingPlansEqual(Plan(ps), Plan(qs));
  }

  lemma SharedMatch(a: seq<Protocol>, b: seq<Protocol>, capsA: seq<Cap>, capsB: seq<Cap>, p: Protocol)
    requires Announces(a, capsA) && Announces(b, capsB) && LengthsAgree(a, b) && Sorted(capsA) && Sorted(capsB)
    ensures p in Matches(a, capsB) ==> p in Matches(b, capsA)
  {
    MatchesInOrder(a, capsB);
    MatchesInOrder(b, capsA);
    if p in Matches(a, capsB) {
      var c := CapOf(p);
      assert Find(a, c) == Some(p) && c in capsB;
      assert Find(b, c).Some? && Find(a, c).value.length == Find(b, c).value.length;
    }
  }

  lemma {:induction false} EndsRise(plan: seq<Protocol>, i: nat, j: nat)
    requires i < j <= |plan|
    ensures EndAt(plan, i) + plan[i].length <= EndAt(plan, j)
    decreases j
  {
    if i < j - 1 {
      EndsRise(plan, i, j - 1);
    }
  }

  lemma {:induction false} EndsAgree(plan: seq<Protocol>, rest: seq<Protocol>, i: nat)
    requires i <= |plan| && i <= |rest| && forall j :: 0 <= j < i ==> plan[j] == rest[j]
    ensures EndAt(plan, i) == EndAt(rest, i)
  {
    if i > 0 {
      EndsAgree(plan, rest, i - 1);
    }
  }

  /** The message code belongs to this running protocol. */
  predicate Owns(r: Running, code: nat) {
    r.offset <= code < r.offset + r.proto.length
  }

  /** The code falls into the range of the plan's i-th protocol. */
  predicate InRange(plan: seq<Protocol>, i: nat, code: nat) {
    i < |plan| && Owns(Running(plan[i], EndAt(plan, i)), code)
  }

  /** Ranges are disjoint: at most one protocol owns a code. */
  lemma RangesDisjoint(plan: seq<Protocol>, i: nat, j: nat, code: nat)
    requires InRange(plan, i, code) && InRange(plan, j, code)
    ensures i == j
  {
    if i < j {
      EndsRise(plan, i, j);
    } else if j < i {
      EndsRise(plan, j, i);
    }
  }

  /** Together the ranges tile the codes from 16 to the end of the plan. */
  lemma {:induction false} RangesTile(plan: seq<Protocol>, n: nat, code: nat)
    requires n <= |plan| && code >= BASE_PROTOCOL_LENGTH
    ensures code < EndAt(plan, n) <==> exists i :: 0 <= i < n && InRange(plan, i, code)
  {
    if n > 0 {
      RangesTile(plan, n - 1, code);
      if EndAt(plan, n - 1) <= code < EndAt(plan, n) {
        assert InRange(plan, n - 1, code);
      }
    }
  }

  /** Planning one more match keeps all ranges but the last. */
  lemma PlannedKeeps(rest: seq<Protocol>, p: Protocol, i: nat)
    requires NamesRise(Planned(rest, p)) && i < |Planned(rest, p)|
    ensures EndAt(Planned(rest, p), i) == EndAt(rest, i)
    ensures i < |Planned(rest, p)| - 1 ==> Planned(rest, p)[i] == rest[i] && rest[i].name != p.name
  {
    var plan := Planned(rest, p);
    var k := |plan| - 1;
    NamesAntisymmetric(plan[i].name, plan[k].name);
    EndsAgree(plan, rest, i);
  }

  /** Only the last planned protocol can carry the name of the next match. */
  lemma OldMatchIsLast(rest: seq<Protocol>, p: Protocol, result: map<Name, Running>)
    requires LaidOut(rest, result) && NamesRise(Planned(rest, p))
    ensures p.name in result <==> rest != [] && rest[|rest| - 1].name == p.name
    ensures p.name in result ==> result[p.name].proto == rest[|rest| - 1]
  {
    if p.name in result {
      assert Plans(rest, p.name);
      var i :| 0 <= i < |rest| && rest[i].name == p.name;
      PlannedKeeps(rest, p, i);
      assert Placed(rest, result, i);
    }
    if rest != [] && rest[|rest| - 1].name == p.name {
      assert Placed(rest, result, |rest| - 1);
    }
  }

  lemma NamesKept(rest: seq<Protocol>, p: Protocol, name: Name)
    requires Plans(rest, name) || name == p.name
    ensures Plans(Planned(rest, p), name)
  {
    var plan := Planned(rest, p);
    if name == p.name {
      assert plan[|plan| - 1].name == name;
    } else {
      var i :| 0 <= i < |rest| && rest[i].name == name;
      assert plan[i].name == name;
    }
  }

  /** One match: a lower version of the same name gives its range back first. */
  lemma LayoutStep(rest: seq<Protocol>, p: Protocol, result: map<Name, Running>)
    requires LaidOut(rest, result) && NamesRise(Planned(rest, p))
    ensures p.name in result ==> rest != [] && result[p.name].proto == rest[|rest| - 1]
    ensures var plan := Planned(rest, p);
            && EndAt(plan, |plan| - 1) == End(rest) - (if p.name in result then result[p.name].proto.length else 0)
            && EndAt(plan, |plan| - 1) + p.length == End(plan)
            && LaidOut(plan, result[p.name := Running(p, EndAt(plan, |plan| - 1))])
  {
    OldMatchIsLast(rest, p, result);
    var plan := Planned(rest, p);
    var k := |plan| - 1;
    PlannedKeeps(rest, p, k);
    var result' := result[p.name := Running(p, EndAt(plan, k))];
    forall i {:trigger Placed(plan, result', i)} | 0 <= i < |plan|
      ensures Placed(plan, result', i)
    {
      PlannedKeeps(rest, p, i);
      if i < k {
        assert Placed(rest, result, i);
      }
    }
    forall name {:trigger Plans(plan, name)} | name in result'
      ensures Plans(plan, name)
    {
      assert name in result ==> Plans(rest, name);
      NamesKept(rest, p, name);
    }
  }

  lemma MatchStep(protocols: seq<Protocol>, order: seq<Cap>, k: nat)
    requires Sorted(order) && k < |order|
    ensures var rest := Plan(Matches(protocols, order[..k]));
            var r := Find(protocols, order[k]);
            && Plan(Matches(protocols, order[..k + 1])) == (if r.Some? then Planned(rest, r.value) else rest)
            && (r.Some? ==> NamesRise(Planned(rest, r.value)))
  {
    assert order[..k + 1][..k] == order[..k];
    var before := Matches(protocols, order[..k]);
    var r := Find(protocols, order[k]);
    if r.Some? {
      var ps := before + [r.value];
      assert Matches(protocols, order[..k + 1]) == ps && ps[..|ps| - 1] == before;
      MatchesInOrder(protocols, order[..k + 1]);
      PlanIsBest(ps);
    } else {
      assert Matches(protocols, order[..k + 1]) == before;
    }
  }

  /** `matchProtocols`: the outcome is the layout of the plan. */
  method MatchProtocols(protocols: seq<Protocol>, caps: seq<Cap>) returns (result: map<Name, Running>, ghost sorted: seq<Cap>)
    ensures Sorted(sorted) && multiset(sorted) == multiset(caps)
    ensures LaidOut(Plan(Matches(protocols, sorted)), result)
  {
    var order := SortCaps(caps);
    sorted := order;
    var offset: nat := BASE_PROTOCOL_LENGTH;
    result := map[];
    ghost var plan := [];
    for k := 0 to |order|
      invariant plan == Plan(Matches(protocols, order[..k]))
      invariant LaidOut(plan, result) && offset == End(plan)
    {
      MatchStep(protocols, order, k);
      var r := Find(protocols, order[k]);
      if r.Some? {
        result, offset := Assign(plan, r.value, result, offset);
        plan := Planned(plan, r.value);
      }
    }
    assert order[..|order|] == order;
  }

  /** Assign codes to one match, reverting an older version of the same name. */
  method Assign(ghost plan: seq<Protocol>, proto: Protocol, result: map<Name, Running>, offset: nat)
    returns (result': map<Name, Running>, offset': nat)
    requires LaidOut(plan, result) && offset == End(plan) && NamesRise(Planned(plan, proto))
    ensures LaidOut(Planned(plan, proto), result') && offset' == End(Planned(plan, proto))
  {
    LayoutStep(plan, proto, result);
    offset' := offset;
    if proto.name in result {
      offset' := offset' - result[proto.name].proto.length;
    }
    assert offset' == EndAt(Planned(plan, proto), |Planned(plan, proto)| - 1);
    result' := result[proto.name := Running(proto, offset')];
    offset' := offset' + proto.length;
  }

  /** A scan over the running protocols in whatever order the map yields them. */
  method GetProto(running: map<Name, Running>, code: nat) returns (r: Option<Name>)
    ensures r.Some? ==> r.value in running && Owns(running[r.value], code)
    ensures r.None? ==> forall name :: name in running ==> !Owns(running[name], code)
  {
    var left := running.Keys;
    while left != {}
      invariant left <= running.Keys
      invariant forall name :: name in running && name !in left ==> !Owns(running[name], code)
      decreases left
    {
      var name :| name in left;
      if Owns(running[name], code) {
        return Some(name);
      }
      left := left - {name};
    }
    return None;
  }

  /** Whatever the order of the scan, its answer is the only possible one. */
  lemma OwnerIsUnique(plan: seq<Protocol>, running: map<Name, Running>, m: Name, n: Name, code: nat)
    requires LaidOut(plan, running) && m in running && n in running
    requires Owns(running[m], code) && Owns(running[n], code)
    ensures m == n
  {
    var i := IndexOf(plan, running, m);
    var j := IndexOf(plan, running, n);
    RangesDisjoint(plan, i, j, code);
  }

  lemma IndexOf(plan: seq<Protocol>, running: map<Name, Running>, name: Name) returns (i: nat)
    requires LaidOut(plan, running) && name in running
    ensures i < |plan| && plan[i].name == name && running[name] == Running(plan[i], EndAt(plan, i))
  {
    assert Plans(plan, name);
    i :| 0 <= i < |plan| && plan[i].name == name;
    assert Placed(plan, running, i);
  }

  /** The layout is determined by the plan. */
  lemma LayoutIsUnique(plan: seq<Protocol>, a: map<Name, Running>, b: map<Name, Running>)
    requires LaidOut(plan, a) && LaidOut(plan, b)
    ensures a == b
  {
    forall name | name in a
      ensures name in b && b[name] == a[name]
    {
      var i := IndexOf(plan, a, name);
      assert Placed(plan, b, i);
    }
    forall name | name in b
      ensures name in a
    {
      var i := IndexOf(plan, b, name);
      assert Placed(plan, a, i);
    }
  }

  /** The wire code of a protocol's message, refused when the protocol has no such code. */
  function WriteMsg(r: Running, code: nat): Option<nat> {
    if code >= r.proto.length then None else Some(code + r.offset)
  }

  function ReadMsg(r: Running, wire: nat): nat
    requires Owns(r, wire)
  {
    wire - r.offset
  }

  /** Both ends of a connection: they compute the same map, run the highest shared
      version of every shared name and nothing else, and tile the codes from 16. */
  method Connect(a: seq<Protocol>, b: seq<Protocol>, capsA: seq<Cap>, capsB: seq<Cap>)
    returns (ra: map<Name, Running>, rb: map<Name, Running>, ghost plan: seq<Protocol>)
    requires Announces(a, capsA) && Announces(b, capsB) && LengthsAgree(a, b)
    ensures ra == rb && LaidOut(plan, ra) && NamesRise(plan)
    ensures forall p {:trigger Runs(a, b, p)} :: p in plan <==> Runs(a, b, p)
    ensures forall i :: 0 <= i < |plan| ==> plan[i].name in ra && ra[plan[i].name].proto == plan[i]
    ensures plan != [] ==> ra[plan[0].name].offset == 16
    ensures forall i :: 0 < i < |plan| ==>
              && Precedes(plan[i - 1].name, plan[i].name)
              && ra[plan[i].name].offset == ra[plan[i - 1].name].offset + plan[i - 1].length
  {
    ghost var sortedA, sortedB;
    ra, sortedB := MatchProtocols(a, capsB);
    rb, sortedA := MatchProtocols(b, capsA);
    StillAnnounces(a, capsA, sortedA);
    StillAnnounces(b, capsB, sortedB);
    plan := Plan(Matches(a, sortedB));
    BothEndsPlanTheSame(a, b, sortedA, sortedB);
    LayoutIsUnique(plan, ra, rb);
    SharedPlan(a, b, sortedB);
    LaidOutInOrder(plan, ra);
  }

  /** A laid out plan, read off: the first code is 16, and the protocols follow each other in the order of their names. */
  lemma LaidOutInOrder(plan: seq<Protocol>, running: map<Name, Running>)
    requires LaidOut(plan, running) && NamesRise(plan)
    ensures forall i :: 0 <= i < |plan| ==> plan[i].name in running && running[plan[i].name].proto == plan[i]
    ensures plan != [] ==> running[plan[0].name].offset == 16
    ensures forall i :: 0 < i < |plan| ==>
              && Precedes(plan[i - 1].name, plan[i].name)
              && running[plan[i].name].offset == running[plan[i - 1].name].offset + plan[i - 1].length
  {
    forall i | 0 <= i < |plan| ensures plan[i].name in running && running[plan[i].name] == Running(plan[i], EndAt(plan, i)) {
      assert Placed(plan, running, i);
    }
    forall i | 0 < i < |plan| ensures Precedes(plan[i - 1].name, plan[i].name) {
      ComparesByDictionary(plan[i - 1].name, plan[i].name);
    }
  }

  lemma StillAnnounces(protocols: seq<Protocol>, caps: seq<Cap>, sorted: seq<Cap>)
    requires Announces(protocols, caps) && multiset(sorted) == multiset(caps)
    ensures Announces(protocols, sorted)
  {
    forall c: Cap
      ensures c in sorted <==> c in caps
    {
      assert c in sorted <==> c in multiset(sorted);
    }
  }

  /** A protocol that both ends have, as the first one has it. */
  ghost predicate Shared(a: seq<Protocol>, b: seq<Protocol>, p: Protocol) {
    Find(a, CapOf(p)) == Some(p) && Find(b, CapOf(p)).Some?
  }

  /** A shared protocol of which no higher version is shared. */
  ghost predicate Runs(a: seq<Protocol>, b: seq<Protocol>, p: Protocol) {
    Shared(a, b, p) && forall q :: Shared(a, b, q) && q.name == p.name ==> q.version <= p.version
  }

  lemma SharedPlan(a: seq<Protocol>, b: seq<Protocol>, capsB: seq<Cap>)
    requires Announces(b, capsB) && Sorted(capsB)
    ensures NamesRise(Plan(Matches(a, capsB)))
    ensures forall p :: p in Plan(Matches(a, capsB)) <==>
              Shared(a, b, p) && forall q :: Shared(a, b, q) && q.name == p.name ==> q.version <= p.version
  {
    var ps := Matches(a, capsB);
    MatchesInOrder(a, capsB);
    PlanIsBest(ps);
    assert forall p :: p in ps <==> Shared(a, b, p);
    forall p
      ensures p in Plan(ps) <==> Shared(a, b, p) && forall q :: Shared(a, b, q) && q.name == p.name ==> q.version <= p.version
    {
      PlanMembers(ps, p);
    }
  }

  /** A message one end writes is delivered at the other end to the same protocol,
      and to no other, with the code it was written with. */
  lemma MessagesArrive(plan: seq<Protocol>, running: map<Name, Running>, name: Name, code: nat, owner: Name)
    requires LaidOut(plan, running) && name in running && WriteMsg(running[name], code).Some?
    ensures var wire := WriteMsg(running[name], code).value;
            && wire >= BASE_PROTOCOL_LENGTH
            && Owns(running[name], wire) && ReadMsg(running[name], wire) == code
            && (owner in running && Owns(running[owner], wire) ==> owner == name)
  {
    var i := IndexOf(plan, running, name);
    var wire := WriteMsg(running[name], code).value;
    if owner in running && Owns(running[owner], wire) {
      OwnerIsUnique(plan, running, name, owner, wire);
    }
  }

  /** A code is accepted exactly by a protocol that runs and is long enough. */
  lemma SentExactly(a: seq<Protocol>, b: seq<Protocol>, plan: seq<Protocol>, running: map<Name, Running>, name: Name, code: nat)
    requires LaidOut(plan, running) && forall p {:trigger Runs(a, b, p)} :: p in plan <==> Runs(a, b, p)
    ensures name in running && WriteMsg(running[name], code).Some? <==> exists p :: Runs(a, b, p) && p.name == name && code < p.length
  {
    if name in running && WriteMsg(running[name], code).Some? {
      var i := IndexOf(plan, running, name);
      assert plan[i] in plan && Runs(a, b, plan[i]);
    }
    if p :| Runs(a, b, p) && p.name == name && code < p.length {
      var i :| 0 <= i < |plan| && plan[i] == p;
      assert Placed(plan, running, i);
    }
  }

  /** From one end to the other: whatever a running protocol accepts for sending is handed to the same
      protocol at the peer, with the code it was sent with. */
  method Deliver(a: seq<Protocol>, b: seq<Protocol>, capsA: seq<Cap>, capsB: seq<Cap>, name: Name, code: nat)
    returns (sent: bool, receiver: Option<Name>, received: nat)
    requires Announces(a, capsA) && Announces(b, capsB) && LengthsAgree(a, b)
    ensures sent ==> receiver == Some(name) && received == code
    ensures sent <==> exists p :: Runs(a, b, p) && p.name == name && code < p.length
  {
    var ra, rb;
    ghost var plan;
    ra, rb, plan := Connect(a, b, capsA, capsB);
    sent, receiver, received := false, None, 0;
    if name in ra && WriteMsg(ra[name], code).Some? {
      var wire := WriteMsg(ra[name], code).value;
      MessagesArrive(plan, ra, name, code, name);
      receiver := GetProto(rb, wire);
      assert receiver.Some? by { assert Owns(rb[name], wire); }
      MessagesArrive(plan, ra, name, code, receiver.value);
      sent, received := true, ReadMsg(rb[receiver.value], wire);
    }
    SentExactly(a, b, plan, ra, name, code);
  }
}
