/** With fixed, mutually known membership, any run in which everyone checks, then everyone hears everyone, then
    everyone checks again ends with exactly one Lord: the member with the greatest valor and uuid. */
module LegionConvergence {
  import opened Collections
  import opened Bytes
  import opened LegionModel
  import opened LegionProtocol

  // ---------------------------------------------------------------- fixed membership

  function Selfs(r: seq<Instance>): (s: seq<Candidate>)
    ensures |s| == |r| && forall i :: 0 <= i < |r| ==> s[i] == Self(r[i])
  {
    if r == [] then [] else Selfs(r[..|r| - 1]) + [Self(r[|r| - 1])]
  }

  /** The members: distinct, with a valor that fits a node record, not all arbiters, and able to reach their quorums. */
  ghost predicate Roster(r: seq<Instance>) {
    && 0 < |r| && DistinctMembers(r)
    && (forall i :: 0 <= i < |r| ==> r[i].valor < 0x10000 && r[i].quorum <= |r|)
    && (exists i :: 0 <= i < |r| && r[i].valor > 0)
  }

  predicate IsMember(n: Node, m: Instance) {
    n.valor == m.valor && n.name == m.name && n.uuid == m.uuid
  }

  ghost predicate Lists(nodes: seq<Node>, m: Instance) {
    exists p :: 0 <= p < |nodes| && IsMember(nodes[p], m)
  }

  ghost predicate IsPeer(n: Node, r: seq<Instance>, i: nat) {
    exists v :: 0 <= v < |r| && v != i && IsMember(n, r[v])
  }

  /** Member i of r lists every other member once and nobody else, in any order. */
  ghost predicate KnowsAll(r: seq<Instance>, nodes: seq<Node>, i: nat) {
    && (forall p, q :: 0 <= p < q < |nodes| ==> nodes[p].uuid != nodes[q].uuid)
    && (forall v :: 0 <= v < |r| && v != i ==> Lists(nodes, r[v]))
    && (forall p :: 0 <= p < |nodes| ==> IsPeer(nodes[p], r, i))
  }

  lemma NodeOf(r: seq<Instance>, nodes: seq<Node>, i: nat, v: nat) returns (p: nat)
    requires KnowsAll(r, nodes, i) && v < |r| && v != i
    ensures p < |nodes| && IsMember(nodes[p], r[v])
  {
    hide IsPeer;
    assert Lists(nodes, r[v]);
    p :| 0 <= p < |nodes| && IsMember(nodes[p], r[v]);
  }

  lemma MemberOf(r: seq<Instance>, nodes: seq<Node>, i: nat, p: nat) returns (v: nat)
    requires KnowsAll(r, nodes, i) && p < |nodes|
    ensures v < |r| && v != i && IsMember(nodes[p], r[v])
  {
    hide Lists;
    assert IsPeer(nodes[p], r, i);
    v :| 0 <= v < |r| && v != i && IsMember(nodes[p], r[v]);
  }

  lemma UuidsDiffer(r: seq<Instance>, nodes: seq<Node>, i: nat)
    requires KnowsAll(r, nodes, i) && i < |r| && DistinctMembers(r)
    ensures forall p, q :: 0 <= p < q < |nodes| ==> nodes[p].uuid != nodes[q].uuid
    ensures forall p :: 0 <= p < |nodes| ==> nodes[p].uuid != r[i].uuid
  {
    forall p | 0 <= p < |nodes|
      ensures nodes[p].uuid != r[i].uuid
    {
      var v := MemberOf(r, nodes, i, p);
    }
    hide Lists, IsPeer;
  }

  /** s is member i of r, as far as the configuration goes; it is neither suspended nor dead. */
  ghost predicate IsInstance(s: Instance, r: seq<Instance>, i: nat)
    requires i < |r|
  {
    && s.valor == r[i].valor && s.name == r[i].name && s.pid == r[i].pid && s.uuid == r[i].uuid &&
        s.quorum == r[i].quorum
    && s.suspendedTil == 0 && !s.dead && KnowsAll(r, s.nodes, i)
  }

  ghost predicate FromMember(m: Message, r: seq<Instance>) {
    !m.dead && exists v :: 0 <= v < |r| && SentBy(m, r[v])
  }

  predicate SentBy(m: Message, s: Instance) {
    m.valor == s.valor && m.name == s.name && m.pid == s.pid && m.uuid == s.uuid
  }

  /** What holds throughout while the membership is fixed. */
  ghost predicate Fixed(w: World, r: seq<Instance>) {
    && Roster(r) && |w.members| == |r|
    && (forall i :: 0 <= i < |r| ==> IsInstance(w.members[i], r, i))
    && (forall k :: 0 <= k < |w.sent| ==> FromMember(w.sent[k], r))
  }

  /** Time has started, no hook fails and nobody is dropped from a list. */
  predicate Smooth(e: Event) {
    e.now > 0 && !e.Expire? && (e.CheckNow? ==> e.hooks == Succeed)
  }

  ghost predicate AllSmooth(es: seq<Event>) {
    forall i :: 0 <= i < |es| ==> Smooth(es[i])
  }

  // ---------------------------------------------------------------- what everyone agrees on

  /** The member with the greatest valor and uuid. */
  function Leader(r: seq<Instance>): Candidate
    requires |r| > 0
  {
    Best(Self(r[0]), Selfs(r)[1..])
  }

  function Total(r: seq<Instance>): nat
    requires |r| > 0
  {
    Checksum(Self(r[0]), Selfs(r)[1..])
  }

  lemma {:induction false} CountDistinct(s: seq<Candidate>, x: Candidate)
    requires Distinct(s)
    ensures multiset(s)[x] == if x in s then 1 else 0
  {
    if s != [] {
      var n := |s| - 1;
      CountDistinct(s[..n], x);
      assert s == s[..n] + [s[n]];
      assert s[n] !in s[..n];
    }
  }

  lemma SameCandidates(a: seq<Candidate>, b: seq<Candidate>)
    requires Distinct(a) && Distinct(b) && forall x :: x in a <==> x in b
    ensures multiset(a) == multiset(b)
  {
    forall x
      ensures multiset(a)[x] == multiset(b)[x]
    {
      CountDistinct(a, x);
      CountDistinct(b, x);
    }
  }

  /** The list of member i and member i itself make the whole legion. */
  lemma WholeLegion(s: Instance, r: seq<Instance>, i: nat)
    requires Roster(r) && i < |r| && IsInstance(s, r, i)
    ensures multiset(Ids(s.nodes)) + multiset{Self(s)} == multiset(Selfs(r)[1..]) + multiset{Self(r[0])}
  {
    hide IsInstance, Roster, Distinct, Ids, Selfs;
    var a, b := Ids(s.nodes) + [Self(s)], Selfs(r);
    NoRepeats(s, r, i);
    forall x
      ensures x in a <==> x in b
    {
      SameMembers(s, r, i, x);
    }
    SameCandidates(a, b);
    SplitFirst(b);
    assert multiset(a) == multiset(Ids(s.nodes)) + multiset{Self(s)};
  }

  lemma SplitFirst(b: seq<Candidate>)
    requires b != []
    ensures multiset(b) == multiset(b[1..]) + multiset{b[0]}
  {
    assert b == [b[0]] + b[1..];
  }

  lemma NoRepeats(s: Instance, r: seq<Instance>, i: nat)
    requires Roster(r) && i < |r| && IsInstance(s, r, i)
    ensures Distinct(Ids(s.nodes) + [Self(s)]) && Distinct(Selfs(r))
  {
    hide KnowsAll;
    IdsAt(s.nodes);
    UuidsDiffer(r, s.nodes, i);
  }

  lemma SameMembers(s: Instance, r: seq<Instance>, i: nat, x: Candidate)
    requires Roster(r) && i < |r| && IsInstance(s, r, i)
    ensures x in Ids(s.nodes) + [Self(s)] <==> x in Selfs(r)
  {
    hide KnowsAll, Roster, IsInstance;
    if x in Selfs(r) {
      MemberIsListed(s, r, i, x);
    }
    if x in Ids(s.nodes) + [Self(s)] {
      ListedIsMember(s, r, i, x);
    }
  }

  lemma MemberIsListed(s: Instance, r: seq<Instance>, i: nat, x: Candidate)
    requires Roster(r) && i < |r| && IsInstance(s, r, i) && x in Selfs(r)
    ensures x in Ids(s.nodes) + [Self(s)]
  {
    hide KnowsAll, Roster;
    IdsAt(s.nodes);
    hide Ids;
    var a, b := Ids(s.nodes) + [Self(s)], Selfs(r);
    var v :| 0 <= v < |b| && b[v] == x;
    if v == i {
      assert a[|s.nodes|] == x;
    } else {
      var p := NodeOf(r, s.nodes, i, v);
      assert a[p] == x;
    }
  }

  lemma ListedIsMember(s: Instance, r: seq<Instance>, i: nat, x: Candidate)
    requires Roster(r) && i < |r| && IsInstance(s, r, i) && x in Ids(s.nodes) + [Self(s)]
    ensures x in Selfs(r)
  {
    hide KnowsAll, Roster;
    IdsAt(s.nodes);
    hide Ids;
    var a, b := Ids(s.nodes) + [Self(s)], Selfs(r);
    var p :| 0 <= p < |a| && a[p] == x;
    if p < |s.nodes| {
      var v := MemberOf(r, s.nodes, i, p);
      assert b[v] == x;
    } else {
      assert b[i] == x;
    }
  }

  lemma EveryoneAgrees(s: Instance, r: seq<Instance>, i: nat)
    requires Roster(r) && i < |r| && IsInstance(s, r, i)
    ensures Choice(s) == Leader(r) && Checksum(Self(s), Ids(s.nodes)) == Total(r) && Leader(r).valor > 0
  {
    WholeLegion(s, r, i);
    var v :| 0 <= v < |r| && r[v].valor > 0;
    assert Self(r[v]) == Selfs(r)[v];
    assert Self(r[v]) in [Self(r[0])] + Selfs(r)[1..] by {
      assert v > 0 ==> Selfs(r)[1..][v - 1] == Self(r[v]);
    }
    BestIsShared(Self(r[0]), Selfs(r)[1..], Self(s), Ids(s.nodes));
    ChecksumIsShared(Self(r[0]), Selfs(r)[1..], Self(s), Ids(s.nodes));
    Eligible(Self(r[0]), Selfs(r)[1..], Self(r[v]));
  }

  // ---------------------------------------------------------------- what single events keep

  lemma HearingKeepsList(r: seq<Instance>, s: Instance, i: nat, m: Message, now: nat)
    requires Roster(r) && i < |r| && IsInstance(s, r, i) && FromMember(m, r)
    ensures IsInstance(Receive(s, m, now), r, i)
    ensures Receive(s, m, now) == s.(nodes := Receive(s, m, now).nodes)
  {
    hide KnowsAll;
    var v :| 0 <= v < |r| && SentBy(m, r[v]);
    if v != i {
      var p := NodeOf(r, s.nodes, i, v);
      var f := Find(s.nodes, m);
      assert Matches(s.nodes[p], m);
      RecordKeepsList(r, s.nodes, i, f, Record(s.nodes[f], m, now));
    }
  }

  lemma RecordKeepsList(r: seq<Instance>, nodes: seq<Node>, i: nat, f: nat, n: Node)
    requires KnowsAll(r, nodes, i) && f < |nodes|
    requires n.valor == nodes[f].valor && n.name == nodes[f].name && n.uuid == nodes[f].uuid
    ensures KnowsAll(r, nodes[f := n], i)
  {
    hide KnowsAll, Lists, IsPeer;
    var nodes' := nodes[f := n];
    forall v | 0 <= v < |r| && v != i
      ensures Lists(nodes', r[v])
    {
      var p := NodeOf(r, nodes, i, v);
      ListedAt(nodes', r[v], p);
    }
    forall p | 0 <= p < |nodes'|
      ensures IsPeer(nodes'[p], r, i)
    {
      var v := MemberOf(r, nodes, i, p);
      PeerAt(nodes'[p], r, i, v);
    }
    StillDistinct(r, nodes, i, nodes');
  }

  lemma StillDistinct(r: seq<Instance>, nodes: seq<Node>, i: nat, nodes': seq<Node>)
    requires KnowsAll(r, nodes, i) && |nodes'| == |nodes| && forall p :: 0 <= p < |nodes| ==>
              nodes'[p].uuid == nodes[p].uuid
    requires forall v :: 0 <= v < |r| && v != i ==> Lists(nodes', r[v])
    requires forall p :: 0 <= p < |nodes'| ==> IsPeer(nodes'[p], r, i)
    ensures KnowsAll(r, nodes', i)
  {
    hide Lists, IsPeer;
  }

  lemma ListedAt(nodes: seq<Node>, m: Instance, p: nat)
    requires p < |nodes| && IsMember(nodes[p], m)
    ensures Lists(nodes, m)
  {}

  lemma PeerAt(n: Node, r: seq<Instance>, i: nat, v: nat)
    requires v < |r| && v != i && IsMember(n, r[v])
    ensures IsPeer(n, r, i)
  {}

  lemma CheckFrame(s: Instance, now: nat)
    ensures var t := Check(s, now, Succeed);
            t == s.(lordValor := t.lordValor, lordUuid := t.lordUuid, checksum := t.checksum, changed := t.changed,
                    suspendedTil := t.suspendedTil, joined := t.joined, lord := t.lord, lastWarning := t.lastWarning)
    ensures s.suspendedTil == 0 ==> Check(s, now, Succeed).suspendedTil == 0
  {
    hide Tally, Choice, Checksum, IAmTheBest;
  }

  lemma EventKeepsFixed(w: World, r: seq<Instance>, e: Event)
    requires Fixed(w, r) && Smooth(e)
    ensures Fixed(Next(w, e), r)
  {
    hide KnowsAll, Check, Receive, Roster;
    match e {
      case Announce(i, now) =>
        if i < |w.members| && now > w.members[i].suspendedTil {
          assert SentBy(MessageOf(w.members[i]), r[i]);
        }
      case Deliver(k, i, now) =>
        if k < |w.sent| && i < |w.members| {
          HearingKeepsList(r, w.members[i], i, w.sent[k], now);
        }
      case CheckNow(i, now, hooks) =>
        if i < |w.members| {
          CheckFrame(w.members[i], now);
        }
    }
  }

  /** An instance whose announced vote is the common one. */
  ghost predicate Settled(s: Instance, r: seq<Instance>)
    requires |r| > 0
  {
    Candidate(s.lordValor, s.lordUuid) == Leader(r) && s.checksum == Total(r)
  }

  ghost predicate Good(m: Message, r: seq<Instance>)
    requires |r| > 0
  {
    Candidate(m.lordValor, m.lordUuid) == Leader(r) && m.checksum == Total(r)
  }

  /** s has recorded the common vote for every node with uuid u. */
  ghost predicate Heard(s: Instance, r: seq<Instance>, u: Uuid)
    requires |r| > 0
  {
    forall p :: 0 <= p < |s.nodes| && s.nodes[p].uuid == u ==> Agrees(s.nodes[p], Total(r), Leader(r))
  }

  lemma CheckSettles(s: Instance, r: seq<Instance>, i: nat, now: nat)
    requires Roster(r) && i < |r| && IsInstance(s, r, i)
    ensures Settled(Check(s, now, Succeed), r)
  {
    hide Tally, Choice, Checksum, IAmTheBest, Leader, Total, Roster, IsInstance;
    EveryoneAgrees(s, r, i);
  }

  /** A check by a member that has heard everyone makes it the Lord exactly if it is the leader. */
  lemma CheckDecides(s: Instance, r: seq<Instance>, i: nat, now: nat)
    requires Roster(r) && i < |r| && IsInstance(s, r, i) && now > 0
    requires forall u :: Heard(s, r, u)
    ensures Check(s, now, Succeed).lord <==> Self(r[i]) == Leader(r)
  {
    hide KnowsAll, Leader, Total, Choice, Checksum;
    EveryoneAgrees(s, r, i);
    forall p | 0 <= p < |s.nodes|
      ensures Agrees(s.nodes[p], Total(r), Leader(r))
    {
      assert Heard(s, r, s.nodes[p].uuid);
    }
    assert Proposed(s, now) == Leader(r);
    assert Tally(s, now) == 1 + |s.nodes|;
    ListSize(s, r, i);
    StillLordIff(s, now, Succeed);
  }

  lemma ListSize(s: Instance, r: seq<Instance>, i: nat)
    requires Roster(r) && i < |r| && IsInstance(s, r, i)
    ensures 1 + |s.nodes| == |r|
  {
    WholeLegion(s, r, i);
    IdsAt(s.nodes);
    assert |multiset(Ids(s.nodes)) + multiset{Self(s)}| == |s.nodes| + 1;
    assert |multiset(Selfs(r)[1..]) + multiset{Self(r[0])}| == |r|;
  }

  lemma HearingGood(r: seq<Instance>, s: Instance, i: nat, m: Message, now: nat, u: Uuid)
    requires Roster(r) && i < |r| && IsInstance(s, r, i) && FromMember(m, r) && Good(m, r)
    requires Heard(s, r, u) || u == m.uuid
    ensures Heard(Receive(s, m, now), r, u)
  {
    hide Leader, Total, KnowsAll;
    var v :| 0 <= v < |r| && SentBy(m, r[v]);
    var t := Receive(s, m, now);
    UuidsDiffer(r, s.nodes, i);
    if v != i {
      var p := NodeOf(r, s.nodes, i, v);
      var f := Find(s.nodes, m);
      assert Matches(s.nodes[p], m);
      assert t.nodes == s.nodes[f := Record(s.nodes[f], m, now)];
      assert Agrees(t.nodes[f], Total(r), Leader(r));
      forall q | 0 <= q < |t.nodes| && t.nodes[q].uuid == u
        ensures Agrees(t.nodes[q], Total(r), Leader(r))
      {
        assert u == m.uuid ==> q == f;
      }
    }
  }

  // ---------------------------------------------------------------- the three phases

  ghost predicate Checks(es: seq<Event>, i: nat) {
    exists k :: 0 <= k < |es| && es[k].CheckNow? && es[k].who == i
  }

  lemma {:induction false} FixedThroughout(w: World, r: seq<Instance>, es: seq<Event>)
    requires Fixed(w, r) && AllSmooth(es)
    ensures Fixed(RunAll(w, es), r)
  {
    if es != [] {
      var n := |es| - 1;
      FixedThroughout(w, r, es[..n]);
      EventKeepsFixed(RunAll(w, es[..n]), r, es[n]);
    }
  }

  /** An event leaves a settled member settled, and a check settles its member. */
  lemma EventSettles(w: World, r: seq<Instance>, e: Event, i: nat)
    requires Fixed(w, r) && Smooth(e) && i < |r|
    requires Settled(w.members[i], r) || (e.CheckNow? && e.who == i)
    ensures i < |Next(w, e).members| && Settled(Next(w, e).members[i], r)
  {
    hide Leader, Total, Check, Receive, KnowsAll, Roster;
    match e {
      case Announce(_, _) =>
      case Deliver(k, j, now) =>
        if k < |w.sent| && j < |w.members| {
          HearingKeepsList(r, w.members[j], j, w.sent[k], now);
        }
      case CheckNow(j, now, hooks) =>
        if j == i {
          CheckSettles(w.members[i], r, i, now);
        }
    }
  }

  /** Phase 1: whoever checks is settled from then on. */
  lemma {:induction false} ChecksSettle(w: World, r: seq<Instance>, es: seq<Event>, i: nat)
    requires Fixed(w, r) && AllSmooth(es) && i < |r|
    requires Settled(w.members[i], r) || Checks(es, i)
    ensures i < |RunAll(w, es).members| && Settled(RunAll(w, es).members[i], r)
  {
    hide KnowsAll, Leader, Total, Roster, FromMember, Next;
    if es != [] {
      var n := |es| - 1;
      FixedThroughout(w, r, es[..n]);
      if !(es[n].CheckNow? && es[n].who == i) {
        if !Settled(w.members[i], r) {
          var k :| 0 <= k < |es| && es[k].CheckNow? && es[k].who == i;
          assert es[..n][k] == es[k];
        }
        ChecksSettle(w, r, es[..n], i);
      }
      EventSettles(RunAll(w, es[..n]), r, es[n], i);
    }
  }

  /** Everyone is settled and the announcements from number k0 on carry the common vote. */
  ghost predicate Calm(w: World, r: seq<Instance>, k0: nat) {
    && Fixed(w, r) && k0 <= |w.sent|
    && (forall i :: 0 <= i < |r| ==> Settled(w.members[i], r))
    && (forall k :: k0 <= k < |w.sent| ==> Good(w.sent[k], r))
  }

  /** A smooth event that delivers no announcement from before number k0. */
  predicate Recent(e: Event, k0: nat) {
    Smooth(e) && (e.Deliver? ==> e.which >= k0)
  }

  ghost predicate AllRecent(es: seq<Event>, k0: nat) {
    forall i :: 0 <= i < |es| ==> Recent(es[i], k0)
  }

  lemma EventKeepsCalm(w: World, r: seq<Instance>, e: Event, k0: nat)
    requires Calm(w, r, k0) && Recent(e, k0)
    ensures Calm(Next(w, e), r, k0)
  {
    hide Leader, Total, Check, Receive, IsInstance, FromMember, Wins, Seen, Settled, Good;
    EventKeepsFixed(w, r, e);
    forall i | 0 <= i < |r|
      ensures Settled(Next(w, e).members[i], r)
    {
      EventSettles(w, r, e, i);
    }
    forall i | 0 <= i < |r|
      ensures Good(MessageOf(w.members[i]), r) && Good(MessageOf(Next(w, e).members[i]), r)
    {
      SettledIsGood(w.members[i], r);
      SettledIsGood(Next(w, e).members[i], r);
    }
    SentGood(w, r, e, k0);
  }

  lemma SettledIsGood(s: Instance, r: seq<Instance>)
    requires |r| > 0 && Settled(s, r)
    ensures Good(MessageOf(s), r)
  {}

  lemma SentGood(w: World, r: seq<Instance>, e: Event, k0: nat)
    requires |r| == |w.members| > 0 && k0 <= |w.sent| && (forall k :: k0 <= k < |w.sent| ==> Good(w.sent[k], r))
    requires |Next(w, e).members| == |r|
    requires forall i :: 0 <= i < |r| ==> Good(MessageOf(w.members[i]), r) && Good(MessageOf(Next(w, e).members[i]), r)
    ensures |w.sent| <= |Next(w, e).sent| && forall k :: k0 <= k < |Next(w, e).sent| ==> Good(Next(w, e).sent[k], r)
  {
    hide Leader, Total, Check, Receive, Wins, Seen, Good;
    if e.CheckNow? && e.who < |w.members| {
      assert Next(w, e).members[e.who] == Check(w.members[e.who], e.now, e.hooks);
    }
  }

  /** An announcement of member v is handed to member i at some point of the run. */
  ghost predicate Hears(w: World, es: seq<Event>, i: nat, u: Uuid) {
    exists n :: 0 <= n < |es| && Hands(RunAll(w, es[..n]), es[n], i, u)
  }

  predicate Hands(w: World, e: Event, i: nat, u: Uuid) {
    e.Deliver? && e.to == i && e.which < |w.sent| && w.sent[e.which].uuid == u
  }

  lemma EventHeard(w: World, r: seq<Instance>, e: Event, k0: nat, i: nat, u: Uuid)
    requires Calm(w, r, k0) && Recent(e, k0) && i < |r|
    requires Heard(w.members[i], r, u) || Hands(w, e, i, u)
    ensures i < |Next(w, e).members| && Heard(Next(w, e).members[i], r, u)
  {
    hide Leader, Total, Check, Receive, KnowsAll, Roster;
    match e {
      case Announce(_, _) =>
      case Deliver(k, j, now) =>
        if k < |w.sent| && j == i {
          HearingGood(r, w.members[i], i, w.sent[k], now, u);
        }
      case CheckNow(j, now, hooks) =>
        if j == i {
          CheckFrame(w.members[i], now);
        }
    }
  }

  /** Phase 2: whoever is heard has its common vote recorded from then on. */
  lemma CalmSize(w: World, r: seq<Instance>, k0: nat)
    requires Calm(w, r, k0)
    ensures |w.members| == |r|
  {
  }

  lemma {:induction false} HearsRecord(w: World, r: seq<Instance>, es: seq<Event>, k0: nat, i: nat, u: Uuid)
    requires Calm(w, r, k0) && AllRecent(es, k0) && i < |r|
    requires Heard(w.members[i], r, u) || Hears(w, es, i, u)
    ensures Calm(RunAll(w, es), r, k0) && Heard(RunAll(w, es).members[i], r, u)
  {
    hide Calm, Heard, Hands, Next;
    CalmSize(w, r, k0);
    if es != [] {
      var n := |es| - 1;
      var before := RunAll(w, es[..n]);
      CalmThroughout(w, r, es[..n], k0);
      if !Hands(before, es[n], i, u) {
        if !Heard(w.members[i], r, u) {
          var k :| 0 <= k < |es| && Hands(RunAll(w, es[..k]), es[k], i, u);
          assert k < n && es[..n][..k] == es[..k] && es[..n][k] == es[k];
        }
        HearsRecord(w, r, es[..n], k0, i, u);
      }
      EventHeard(before, r, es[n], k0, i, u);
      EventKeepsCalm(before, r, es[n], k0);
    }
  }

  lemma {:induction false} CalmThroughout(w: World, r: seq<Instance>, es: seq<Event>, k0: nat)
    requires Calm(w, r, k0) && AllRecent(es, k0)
    ensures Calm(RunAll(w, es), r, k0)
  {
    if es != [] {
      var n := |es| - 1;
      CalmThroughout(w, r, es[..n], k0);
      EventKeepsCalm(RunAll(w, es[..n]), r, es[n], k0);
    }
  }

  /** Phase 3: whoever checks now is the Lord exactly if it is the leader. */
  lemma {:induction false} ChecksDecide(w: World, r: seq<Instance>, es: seq<Event>, k0: nat, i: nat)
    requires Calm(w, r, k0) && AllRecent(es, k0) && i < |r| && (forall u :: Heard(w.members[i], r, u))
    requires Checks(es, i)
    ensures Calm(RunAll(w, es), r, k0) && (RunAll(w, es).members[i].lord <==> Self(r[i]) == Leader(r))
  {
    hide Heard, Leader, KnowsAll, Roster, Check, Receive, Settled, Good, FromMember;
    var n := |es| - 1;
    var before := RunAll(w, es[..n]);
    CalmThroughout(w, r, es[..n], k0);
    EventKeepsCalm(before, r, es[n], k0);
    if es[n].CheckNow? && es[n].who == i {
      forall u
        ensures Heard(before.members[i], r, u)
      {
        HearsRecord(w, r, es[..n], k0, i, u);
      }
      CheckDecides(before.members[i], r, i, es[n].now);
    } else {
      var k :| 0 <= k < |es| && es[k].CheckNow? && es[k].who == i;
      assert es[..n][k] == es[k];
      ChecksDecide(w, r, es[..n], k0, i);
      LordOnlyByCheck(before, r, es[n], i);
    }
  }

  lemma LordOnlyByCheck(w: World, r: seq<Instance>, e: Event, i: nat)
    requires Fixed(w, r) && i < |r| && !(e.CheckNow? && e.who == i)
    ensures i < |Next(w, e).members| && Next(w, e).members[i].lord == w.members[i].lord
  {
    hide KnowsAll, Roster, FromMember, Check, Find;
  }

  /** Every member hears every other one. */
  ghost predicate AllHear(w: World, r: seq<Instance>, es: seq<Event>) {
    forall i, v :: 0 <= i < |r| && 0 <= v < |r| && i != v ==> Hears(w, es, i, r[v].uuid)
  }

  ghost predicate AllCheck(r: seq<Instance>, es: seq<Event>) {
    forall i :: 0 <= i < |r| ==> Checks(es, i)
  }

  lemma AllHeard(w: World, r: seq<Instance>, es: seq<Event>, k0: nat, i: nat, u: Uuid)
    requires Calm(w, r, k0) && AllRecent(es, k0) && i < |r| && AllHear(w, r, es)
    ensures Calm(RunAll(w, es), r, k0) && Heard(RunAll(w, es).members[i], r, u)
  {
    hide KnowsAll, Leader, Total, Roster, FromMember, Settled, Good, RunAll, Hears;
    CalmThroughout(w, r, es, k0);
    var s := RunAll(w, es).members[i];
    if p :| 0 <= p < |s.nodes| && s.nodes[p].uuid == u {
      var v := MemberOf(r, s.nodes, i, p);
      assert Hears(w, es, i, r[v].uuid);
      HearsRecord(w, r, es, k0, i, u);
    }
  }

  /** The election converges. */
  lemma OneLord(w: World, r: seq<Instance>, t1: seq<Event>, t2: seq<Event>, t3: seq<Event>) returns (b: nat)
    requires Fixed(w, r)
    requires AllSmooth(t1) && AllCheck(r, t1)
    requires var w1 := RunAll(w, t1);
             AllRecent(t2, |w1.sent|) && AllHear(w1, r, t2) && AllRecent(t3, |w1.sent|) && AllCheck(r, t3)
    ensures var w3 := RunAll(RunAll(RunAll(w, t1), t2), t3);
            && b < |w3.members| == |r|
            && (forall i :: 0 <= i < |r| ==> (w3.members[i].lord <==> i == b))
            && r[b].valor > 0
            && (forall i :: 0 <= i < |r| && i != b ==>
                  r[i].valor < r[b].valor || (r[i].valor == r[b].valor && Later(r[b].uuid, r[i].uuid)))
  {
    var w1 := RunAll(w, t1);
    var w2, k0 := RunAll(w1, t2), |w1.sent|;
    FixedThroughout(w, r, t1);
    forall i | 0 <= i < |r|
      ensures Settled(w1.members[i], r)
    {
      ChecksSettle(w, r, t1, i);
    }
    CalmThroughout(w1, r, t2, k0);
    CalmThroughout(w2, r, t3, k0);
    forall i | 0 <= i < |r|
      ensures RunAll(w2, t3).members[i].lord <==> Self(r[i]) == Leader(r)
    {
      forall u
        ensures Heard(w2.members[i], r, u)
      {
        AllHeard(w1, r, t2, k0, i, u);
      }
      ChecksDecide(w2, r, t3, k0, i);
    }
    b := LeaderIsAMember(w1, r);
    LeaderIsLatest(r, b);
  }

  /** Everybody else has a smaller valor, or the same valor and an earlier uuid. */
  lemma LeaderIsLatest(r: seq<Instance>, b: nat)
    requires Roster(r) && b < |r| && r[b].valor > 0
    requires forall i :: 0 <= i < |r| && r[i].valor > 0 ==> !Above(Self(r[i]), Self(r[b]))
    ensures forall i :: 0 <= i < |r| && i != b ==>
              r[i].valor < r[b].valor || (r[i].valor == r[b].valor && Later(r[b].uuid, r[i].uuid))
  {
    hide Later, Greater;
    forall i | 0 <= i < |r| && i != b
      ensures r[i].valor < r[b].valor || (r[i].valor == r[b].valor && Later(r[b].uuid, r[i].uuid))
    {
      AboveIs(Self(r[i]), Self(r[b]));
      AboveIs(Self(r[b]), Self(r[i]));
      AboveIsStrictTotal(Self(r[i]), Self(r[b]), Self(r[i]));
    }
  }

  lemma LeaderIsAMember(w: World, r: seq<Instance>) returns (b: nat)
    requires Fixed(w, r)
    ensures b < |r| && Self(r[b]) == Leader(r) && r[b].valor > 0
    ensures forall i :: 0 <= i < |r| && Self(r[i]) == Leader(r) ==> i == b
    ensures forall i :: 0 <= i < |r| && r[i].valor > 0 ==> !Above(Self(r[i]), Leader(r))
  {
    EveryoneAgrees(w.members[0], r, 0);
    var rest := Selfs(r)[1..];
    BestIsGreatest(Self(r[0]), rest);
    forall i | 0 < i < |r|
      ensures Self(r[i]) in rest
    {
      assert rest[i - 1] == Self(r[i]);
    }
    if Leader(r) == Self(r[0]) {
      b := 0;
    } else {
      var j :| 0 <= j < |rest| && rest[j] == Leader(r);
      b := j + 1;
    }
  }
}
