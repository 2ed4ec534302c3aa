/** N instances of one legion: announcements, deliveries, checks and expiries in any order. */
module LegionProtocol {
  import opened Collections
  import opened Bytes
  import opened LegionModel

  // ---------------------------------------------------------------- receiving an announcement

  /** What uwsgi_legion_announce sends. */
  datatype Message = Message(
    valor: nat, name: seq<byte>, pid: nat, uuid: Uuid, checksum: nat, lordValor: nat, lordUuid: Uuid,
    scroll: seq<byte>, dead: bool)

  predicate Matches(n: Node, m: Message) {
    n.valor == m.valor && n.name == m.name && n.uuid == m.uuid
  }

  /** uwsgi_legion_get_node: the first matching node, or |nodes|. */
  function Find(nodes: seq<Node>, m: Message): (i: nat)
    ensures i <= |nodes| && (i < |nodes| ==> Matches(nodes[i], m))
    ensures forall j :: 0 <= j < i ==> !Matches(nodes[j], m)
  {
    if nodes == [] then 0 else if Matches(nodes[0], m) then 0 else 1 + Find(nodes[1..], m)
  }

  function Record(n: Node, m: Message, now: nat): Node {
    n.(lastSeen := now, lordValor := m.lordValor, checksum := m.checksum, lordUuid := m.lordUuid)
  }

  /** The packet of my own announcement, coming back to me. */
  predicate IsEcho(s: Instance, m: Message) {
    s.name == m.name && s.pid == m.pid && s.valor == m.valor && s.uuid == m.uuid
  }

  /** The receiving part of legion_loop. A node's valor is kept in 16 bits when it is added. */
  function Receive(s: Instance, m: Message, now: nat): Instance {
    if IsEcho(s, m) then s
    else
      var i := Find(s.nodes, m);
      if i < |s.nodes| then
        if m.dead then s.(nodes := s.nodes[..i] + s.nodes[i + 1..])
        else s.(nodes := s.nodes[i := Record(s.nodes[i], m, now)])
      else if m.dead || m.name == [] then s
      else
        var n := Node(m.valor % 0x10000, m.name, m.uuid, m.scroll, 0, 0, NO_UUID, 0);
        s.(nodes := s.nodes + [Record(n, m, now)])
  }

  /** Nobody in the list but at position p matches the sender. */
  ghost predicate OnlyAt(nodes: seq<Node>, m: Message, p: nat) {
    forall i :: 0 <= i < |nodes| && i != p ==> !Matches(nodes[i], m)
  }

  /** A dead sender leaves the list, and the others stay as they were, in order. */
  lemma DeathRemoves(s: Instance, m: Message, now: nat)
    requires m.dead && !IsEcho(s, m)
    ensures var s' := Receive(s, m, now);
            && s' == s.(nodes := s'.nodes)
            && (forall p :: 0 <= p < |s.nodes| && Matches(s.nodes[p], m) && OnlyAt(s.nodes, m, p) ==>
                  s'.nodes == Cut(s.nodes, p) && forall n :: n in s'.nodes ==> !Matches(n, m))
            && ((forall n :: n in s.nodes ==> !Matches(n, m)) ==> s'.nodes == s.nodes)
  {
    var i := Find(s.nodes, m);
    forall p | 0 <= p < |s.nodes| && Matches(s.nodes[p], m) && OnlyAt(s.nodes, m, p)
      ensures i == p && forall n :: n in Cut(s.nodes, p) ==> !Matches(n, m)
    {
      forall n | n in Cut(s.nodes, p)
        ensures !Matches(n, m)
      {
        var k :| 0 <= k < |Cut(s.nodes, p)| && Cut(s.nodes, p)[k] == n;
        CutAt(s.nodes, p, k);
      }
    }
  }

  /** The vote of a sender that is listed is recorded with the time, and nothing else changes. */
  lemma NewsIsRecorded(s: Instance, m: Message, now: nat, p: nat)
    requires !m.dead && !IsEcho(s, m) && p < |s.nodes| && Matches(s.nodes[p], m) && OnlyAt(s.nodes, m, p)
    ensures Receive(s, m, now) == s.(nodes := s.nodes[p := s.nodes[p].(
              lastSeen := now, lordValor := m.lordValor, lordUuid := m.lordUuid, checksum := m.checksum)])
  {}

  /** A sender that is not listed is added at the end with its vote; without a name it is ignored. */
  lemma NewsIsAdded(s: Instance, m: Message, now: nat)
    requires !m.dead && !IsEcho(s, m) && forall n :: n in s.nodes ==> !Matches(n, m)
    ensures Receive(s, m, now) ==
            if m.name == [] then s
            else s.(nodes := s.nodes + [Node(m.valor % 0x10000, m.name, m.uuid, m.scroll, m.checksum, m.lordValor,
                                             m.lordUuid, now)])
  {}

  /** Hearing somebody twice lists it once, exactly if its valor fits 16 bits. */
  lemma ListedOnceIff(s: Instance, m: Message, now: nat, later: nat)
    requires !m.dead && !IsEcho(s, m) && m.name != [] && forall n :: n in s.nodes ==> !Matches(n, m)
    ensures |Receive(Receive(s, m, now), m, later).nodes| == |s.nodes| + 1 <==> m.valor < 0x10000
  {
    NewsIsAdded(s, m, now);
    var t := Receive(s, m, now);
    var n := |s.nodes|;
    assert t.nodes[..n] == s.nodes && |t.nodes| == n + 1;
    assert forall k :: 0 <= k < n ==> t.nodes[k] == s.nodes[k] && t.nodes[k] in s.nodes;
    if m.valor < 0x10000 {
      assert Matches(t.nodes[n], m);
      NewsIsRecorded(t, m, later, n);
    } else {
      assert !Matches(t.nodes[n], m);
      NewsIsAdded(t, m, later);
    }
  }

  // ---------------------------------------------------------------- the system

  datatype World = World(members: seq<Instance>, sent: seq<Message>)

  datatype Event =
    | Announce(who: nat, now: nat)
    | Deliver(which: nat, to: nat, now: nat)
    | CheckNow(who: nat, now: nat, hooks: Hooks)
    | Expire(who: nat, now: nat, tolerance: nat)

  function MessageOf(s: Instance): Message {
    Message(s.valor, s.name, s.pid, s.uuid, s.checksum, s.lordValor, s.lordUuid, [], s.dead)
  }

  /** Whoever lists the sender under its valor, name and uuid takes over its vote, or drops it if it is dead; it
      overhears nothing but an instance with the same valor, name, uuid and process id. */
  lemma AnnouncementIsHeard(s: Instance, t: Instance, now: nat, p: nat)
    requires p < |t.nodes| && OnlyAt(t.nodes, MessageOf(s), p)
    requires t.nodes[p].valor == s.valor && t.nodes[p].name == s.name && t.nodes[p].uuid == s.uuid
    ensures Receive(t, MessageOf(s), now) ==
            if t.name == s.name && t.pid == s.pid && t.valor == s.valor && t.uuid == s.uuid then t
            else if s.dead then t.(nodes := Cut(t.nodes, p))
            else t.(nodes := t.nodes[p := t.nodes[p].(lastSeen := now, lordValor := s.lordValor,
                                                      lordUuid := s.lordUuid, checksum := s.checksum)])
  {
    var m := MessageOf(s);
    if !IsEcho(t, m) {
      if m.dead {
        DeathRemoves(t, m, now);
      } else {
        NewsIsRecorded(t, m, now, p);
      }
    }
  }

  /** What a check announces at once: that its instance is now the Lord, or that it dies of a failed lord hook. */
  function Announcements(s: Instance, now: nat, hooks: Hooks): seq<Message> {
    if Wins(s, now) && !s.lord then [MessageOf(Check(s, now, hooks))] else []
  }

  /** legions_check_nodes: the nodes that have not been silent for longer than the tolerance. */
  function Seen(nodes: seq<Node>, now: nat, tolerance: nat): (r: seq<Node>)
    ensures forall n :: n in r <==> n in nodes && now <= n.lastSeen + tolerance
  {
    if nodes == [] then []
    else
      var n := |nodes| - 1;
      assert forall x :: x in nodes <==> x in nodes[..n] || x == nodes[n];
      if now > nodes[n].lastSeen + tolerance then Seen(nodes[..n], now, tolerance)
      else Seen(nodes[..n], now, tolerance) + [nodes[n]]
  }

  /** Whoever stays keeps its place among those who stay. */
  lemma {:induction false} SeenKeepsOrder(a: seq<Node>, b: seq<Node>, now: nat, tolerance: nat)
    ensures Seen(a + b, now, tolerance) == Seen(a, now, tolerance) + Seen(b, now, tolerance)
    decreases |b|
  {
    if b == [] {
      assert a + b == a;
    } else {
      assert (a + b)[..|a + b| - 1] == a + b[..|b| - 1];
      SeenKeepsOrder(a, b[..|b| - 1], now, tolerance);
    }
  }

  lemma SeenOne(n: Node, now: nat, tolerance: nat)
    ensures Seen([n], now, tolerance) == if now > n.lastSeen + tolerance then [] else [n]
  {}

  /** An event that names no member or no announcement does nothing; a suspended member does not announce. */
  function Next(w: World, e: Event): World {
    match e
    case Announce(i, now) =>
      if i < |w.members| && now > w.members[i].suspendedTil
      then World(w.members[i := w.members[i].(suspendedTil := 0)], w.sent + [MessageOf(w.members[i])])
      else w
    case Deliver(k, i, now) =>
      if k < |w.sent| && i < |w.members|
      then w.(members := w.members[i := Receive(w.members[i], w.sent[k], now)]) else w
    case CheckNow(i, now, hooks) =>
      if i < |w.members|
      then World(w.members[i := Check(w.members[i], now, hooks)], w.sent + Announcements(w.members[i], now, hooks))
      else w
    case Expire(i, now, tolerance) =>
      if i < |w.members|
      then w.(members := w.members[i := w.members[i].(nodes := Seen(w.members[i].nodes, now, tolerance))])
      else w
  }

  function RunAll(w: World, es: seq<Event>): World {
    if es == [] then w else Next(RunAll(w, es[..|es| - 1]), es[|es| - 1])
  }

  lemma {:induction false} RunSplit(w: World, a: seq<Event>, b: seq<Event>)
    ensures RunAll(w, a + b) == RunAll(RunAll(w, a), b)
    decreases |b|
  {
    hide Next;
    if b == [] {
      assert a + b == a;
    } else {
      RunSplit(w, a, b[..|b| - 1]);
      assert (a + b)[..|a + b| - 1] == a + b[..|b| - 1];
    }
  }

  // ---------------------------------------------------------------- safety

  ghost function UuidsOf(nodes: seq<Node>): set<Uuid> {
    set i | 0 <= i < |nodes| :: nodes[i].uuid
  }

  /** Everybody who took part in an election at s. */
  ghost function Electorate(s: Instance): set<Uuid> {
    UuidsOf(s.nodes) + {s.uuid}
  }

  /** s lists each peer once and not itself. */
  ghost predicate ProperList(s: Instance) {
    && (forall i, j :: 0 <= i < j < |s.nodes| ==> s.nodes[i].uuid != s.nodes[j].uuid)
    && (forall i :: 0 <= i < |s.nodes| ==> s.nodes[i].uuid != s.uuid)
  }

  /** Every vote that s has recorded is the voter's current choice, and the voters are members. */
  ghost predicate UpToDate(s: Instance, members: seq<Instance>) {
    forall i :: 0 <= i < |s.nodes| ==>
      exists v :: 0 <= v < |members| && members[v].uuid == s.nodes[i].uuid &&
                  Candidate(s.nodes[i].lordValor, s.nodes[i].lordUuid) == Choice(members[v])
  }

  ghost predicate DistinctMembers(members: seq<Instance>) {
    forall i, j :: 0 <= i < j < |members| ==> members[i].uuid != members[j].uuid
  }

  lemma {:induction false} ElectorateSize(nodes: seq<Node>)
    requires forall i, j :: 0 <= i < j < |nodes| ==> nodes[i].uuid != nodes[j].uuid
    ensures |UuidsOf(nodes)| == |nodes|
  {
    if nodes == [] {
      assert UuidsOf(nodes) == {};
    } else {
      var n := |nodes| - 1;
      ElectorateSize(nodes[..n]);
      assert UuidsOf(nodes) == UuidsOf(nodes[..n]) + {nodes[n].uuid};
      assert nodes[n].uuid !in UuidsOf(nodes[..n]);
    }
  }

  ghost function MemberUuids(members: seq<Instance>): set<Uuid> {
    set i | 0 <= i < |members| :: members[i].uuid
  }

  lemma {:induction false} MemberCount(members: seq<Instance>)
    ensures |MemberUuids(members)| <= |members|
  {
    if members == [] {
      assert MemberUuids(members) == {};
    } else {
      var n := |members| - 1;
      MemberCount(members[..n]);
      assert MemberUuids(members) == MemberUuids(members[..n]) + {members[n].uuid};
    }
  }

  lemma {:induction false} Overlap<T>(a: set<T>, b: set<T>, all: set<T>)
    requires a <= all && b <= all && |a| + |b| > |all|
    ensures exists x :: x in a && x in b
  {
    if forall x :: x in a ==> x !in b {
      assert |a + b| == |a| + |b|;
      SubsetSize(a + b, all);
      assert false;
    }
  }

  /** A winner's whole electorate votes for it. */
  lemma WinnerTakesAll(members: seq<Instance>, s: Instance, now: nat, v: Instance)
    requires Wins(s, now) && UpToDate(s, members) && DistinctMembers(members)
    requires s in members && v in members && v.uuid in Electorate(s)
    ensures Choice(v) == Self(s)
  {
    var a :| 0 <= a < |members| && members[a] == v;
    if v.uuid == s.uuid {
      var b :| 0 <= b < |members| && members[b] == s;
      assert a == b;
    } else {
      var i :| 0 <= i < |s.nodes| && s.nodes[i].uuid == v.uuid;
      assert Agrees(s.nodes[i], Checksum(Self(s), Ids(s.nodes)), Proposed(s, now));
      var b :| 0 <= b < |members| && members[b].uuid == s.nodes[i].uuid &&
               Candidate(s.nodes[i].lordValor, s.nodes[i].lordUuid) == Choice(members[b]);
      assert a == b;
    }
  }

  /** With a quorum of more than half of the members, two of them never win at once, however their lists differ. */
  lemma AtMostOneWinner(members: seq<Instance>, s: Instance, t: Instance, now: nat, now': nat)
    requires DistinctMembers(members) && s in members && t in members
    requires ProperList(s) && ProperList(t) && UpToDate(s, members) && UpToDate(t, members)
    requires 2 * s.quorum > |members| && 2 * t.quorum > |members|
    requires Wins(s, now) && Wins(t, now')
    ensures s == t
  {
    hide Wins, Choice, Electorate, UpToDate, ProperList;
    var all := MemberUuids(members);
    MemberCount(members);
    ElectorateFacts(members, s, now);
    ElectorateFacts(members, t, now');
    Overlap(Electorate(s), Electorate(t), all);
    var x :| x in Electorate(s) && x in Electorate(t);
    var i :| 0 <= i < |members| && members[i].uuid == x;
    WinnerTakesAll(members, s, now, members[i]);
    WinnerTakesAll(members, t, now', members[i]);
    SameMember(members, s, t);
  }

  lemma SameMember(members: seq<Instance>, s: Instance, t: Instance)
    requires DistinctMembers(members) && s in members && t in members && s.uuid == t.uuid
    ensures s == t
  {
    var i :| 0 <= i < |members| && members[i] == s;
    var j :| 0 <= j < |members| && members[j] == t;
    assert i == j;
  }

  lemma ElectorateFacts(members: seq<Instance>, s: Instance, now: nat)
    requires s in members && ProperList(s) && UpToDate(s, members) && Wins(s, now)
    ensures Electorate(s) <= MemberUuids(members) && |Electorate(s)| >= s.quorum
  {
    hide Choice, Checksum, Proposed;
    ElectorateSize(s.nodes);
    assert |Electorate(s)| == 1 + |s.nodes|;
    forall x | x in Electorate(s)
      ensures x in MemberUuids(members)
    {
      if x == s.uuid {
        var i :| 0 <= i < |members| && members[i] == s;
      }
    }
  }

  // ---------------------------------------------------------------- one Lord at a time

  ghost predicate AtMostOneLord(w: World) {
    forall i, j :: 0 <= i < |w.members| && 0 <= j < |w.members| && w.members[i].lord && w.members[j].lord ==> i == j
  }

  ghost predicate OtherLord(w: World, i: nat) {
    exists j :: 0 <= j < |w.members| && j != i && w.members[j].lord
  }

  /** A member wins its check, and becomes Lord beside another one. */
  ghost predicate Usurps(w: World, e: Event) {
    && e.CheckNow? && e.who < |w.members| && e.hooks == Succeed
    && Wins(w.members[e.who], e.now) && OtherLord(w, e.who)
  }

  /** Exactly one kind of event makes a second Lord. */
  lemma OneLordKeptIff(w: World, e: Event)
    requires AtMostOneLord(w)
    ensures AtMostOneLord(Next(w, e)) <==> !Usurps(w, e)
  {
    hide Wins, Tally, Check, Receive, Seen;
    var w' := Next(w, e);
    if e.CheckNow? && e.who < |w.members| {
      var i := e.who;
      StillLordIff(w.members[i], e.now, e.hooks);
      if Usurps(w, e) {
        var j :| 0 <= j < |w.members| && j != i && w.members[j].lord;
        assert w'.members[i].lord && w'.members[j].lord;
      } else {
        assert w'.members[i].lord && !w.members[i].lord ==> Wins(w.members[i], e.now) && e.hooks == Succeed;
      }
    } else {
      assert forall i :: 0 <= i < |w.members| ==> w'.members[i].lord == w.members[i].lord by {
        if e.Deliver? && e.to < |w.members| && e.which < |w.sent| {
          ReceiveKeepsTitle(w.members[e.to], w.sent[e.which], e.now);
        }
      }
    }
  }

  lemma ReceiveKeepsTitle(s: Instance, m: Message, now: nat)
    ensures Receive(s, m, now).lord == s.lord
  {}

  /** A run keeps to one Lord throughout exactly if nobody in it becomes Lord beside another one. */
  lemma {:induction false} OneLordThroughoutIff(w: World, es: seq<Event>)
    requires AtMostOneLord(w)
    ensures (forall k :: 0 <= k <= |es| ==> AtMostOneLord(RunAll(w, es[..k]))) <==>
            (forall k :: 0 <= k < |es| ==> !Usurps(RunAll(w, es[..k]), es[k]))
  {
    hide Usurps, AtMostOneLord, Next, RunAll;
    RunAllNone(w);
    if es == [] {
      assert es[..0] == [];
    } else {
      var n := |es| - 1;
      var rest := es[..n];
      OneLordThroughoutIff(w, rest);
      Prefixes(es, n);
      RunAllLast(w, es);
      if AtMostOneLord(RunAll(w, rest)) {
        OneLordKeptIff(RunAll(w, rest), es[n]);
      }
      assert es[..n + 1] == es && rest[..n] == rest;
      assert (forall k :: 0 <= k <= n ==> AtMostOneLord(RunAll(w, es[..k]))) ==> AtMostOneLord(RunAll(w, es[..n]));
    }
  }

  lemma Prefixes(es: seq<Event>, n: nat)
    requires n < |es|
    ensures forall k :: 0 <= k <= n ==> es[..n][..k] == es[..k]
    ensures forall k :: 0 <= k < n ==> es[..n][k] == es[k]
  {}

  lemma RunAllNone(w: World)
    ensures RunAll(w, []) == w
  {}

  lemma RunAllLast(w: World, es: seq<Event>)
    requires es != []
    ensures RunAll(w, es) == Next(RunAll(w, es[..|es| - 1]), es[|es| - 1])
  {}
}
