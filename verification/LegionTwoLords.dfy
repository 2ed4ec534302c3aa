/** "There can only be one Lord for each Legion" (core/legion.c:9-12) is not true at every instant: a Lord that
    sees its peers disagree stays Lord, although one of them may already have been elected in its place. */
module LegionTwoLords {
  import opened Bytes
  import opened LegionModel
  import opened LegionProtocol

  const HOST: seq<byte> := [104]

  function Fresh(valor: nat, uuid: Uuid): Instance {
    Instance(valor, HOST, valor, uuid, 2, [], 0, NO_UUID, 0, false, false, false, 0, 0, false)
  }

  function Peer(who: Candidate, checksum: nat, vote: Candidate): Node {
    Node(who.valor, HOST, who.uuid, [], checksum, vote.valor, vote.uuid, 1)
  }

  const NOBODY := Candidate(0, NO_UUID)

  predicate Ranked(a: Candidate, b: Candidate, c: Candidate) {
    a.valor == 3 && b.valor == 2 && c.valor == 1 && a.uuid != b.uuid && b.uuid != c.uuid && a.uuid != c.uuid
  }

  /** Three instances that have just been started. */
  function Start(a: Candidate, b: Candidate, c: Candidate): World {
    World([Fresh(a.valor, a.uuid), Fresh(b.valor, b.uuid), Fresh(c.valor, c.uuid)], [])
  }

  /** Members 1 and 2 have elected member 1; member 0, which is better, has not been heard of yet. */
  function Before(a: Candidate, b: Candidate, c: Candidate, sent: seq<Message>): World {
    var sum := Checksum(b, [c]);
    var lord := Fresh(b.valor, b.uuid).(nodes := [Peer(c, sum, b)], lordValor := b.valor, lordUuid := b.uuid,
                                        checksum := sum, joined := true, lord := true);
    var third := Fresh(c.valor, c.uuid).(nodes := [Peer(b, sum, b)], lordValor := b.valor, lordUuid := b.uuid,
                                         checksum := sum, joined := true);
    World([Fresh(a.valor, a.uuid), lord, third], sent)
  }

  lemma TwoIds(m: Node, n: Node)
    ensures Ids([m]) == [Id(m)] && Ids([m, n]) == [Id(m), Id(n)]
  {
    assert [m][1..] == [] && [n][1..] == [] && [m, n][1..] == [n];
    assert Ids([n]) == [Id(n)];
  }

  lemma BestOfTwo(own: Candidate, p: Candidate, q: Candidate)
    ensures Best(own, [p]) == (if p.valor > 0 && Above(p, own) then p else own)
    ensures Best(own, [p, q]) == if q.valor > 0 && Above(q, Best(own, [p])) then q else Best(own, [p])
  {
    assert [p][..0] == [] && [p, q][..1] == [p];
  }

  lemma SumsAgree(a: Candidate, b: Candidate, c: Candidate)
    ensures Checksum(a, [b, c]) == Checksum(b, [c, a]) == Checksum(c, [b, a])
  {
    ChecksumIsShared(a, [b, c], b, [c, a]);
    ChecksumIsShared(a, [b, c], c, [b, a]);
  }

  /** Member 1 learns of member 0 and checks: it prefers member 0 but remains Lord. */
  lemma LordStays(a: Candidate, b: Candidate, c: Candidate, s: Instance)
    requires a.valor == 3 && b.valor == 2 && c.valor == 1 && a.uuid != b.uuid
    requires s == Before(a, b, c, []).members[1].(nodes := [Peer(c, Checksum(b, [c]), b), Peer(a, 0, NOBODY)])
    ensures var t := Check(s, 1, Succeed);
            t.lord && t == s.(lordValor := 3, lordUuid := a.uuid, checksum := Checksum(b, [c, a]), changed := t.changed)
  {
    TwoIds(s.nodes[0], s.nodes[1]);
    BestOfTwo(b, c, a);
    assert Choice(s) == a;
    assert !Agrees(s.nodes[0], Checksum(b, [c, a]), a);
    hide Choice, Checksum;
    assert Tally(s, 1) == 0;
  }

  /** Member 2 learns of member 0 and checks: it votes for member 0. */
  lemma ThirdVotes(a: Candidate, b: Candidate, c: Candidate, s: Instance)
    requires a.valor == 3 && b.valor == 2 && c.valor == 1 && a.uuid != b.uuid
    requires s == Before(a, b, c, []).members[2].(nodes := [Peer(b, Checksum(b, [c]), b), Peer(a, 0, NOBODY)])
    ensures var t := Check(s, 1, Succeed);
            t == s.(lordValor := 3, lordUuid := a.uuid, checksum := Checksum(c, [b, a]), changed := t.changed)
  {
    TwoIds(s.nodes[0], s.nodes[1]);
    BestOfTwo(c, b, a);
    assert Choice(s) == a;
    assert !Agrees(s.nodes[0], Checksum(c, [b, a]), a);
    hide Choice, Checksum;
    assert Tally(s, 1) == 0;
  }

  /** Member 0 has both votes and checks: it becomes Lord. */
  lemma NewLord(a: Candidate, b: Candidate, c: Candidate, s: Instance)
    requires a.valor == 3 && b.valor == 2 && c.valor == 1
    requires s == Fresh(3, a.uuid).(nodes := [Peer(b, Checksum(b, [c, a]), a), Peer(c, Checksum(c, [b, a]), a)])
    ensures Check(s, 1, Succeed).lord
  {
    TwoIds(s.nodes[0], s.nodes[1]);
    BestOfTwo(a, b, c);
    SumsAgree(a, b, c);
    assert Choice(s) == a == Self(s);
    assert Proposed(s, 1) == a;
    StillLordIff(s, 1, Succeed);
  }

  lemma FindIn(n: Node, m: Node, msg: Message)
    ensures Find([n], msg) == (if Matches(n, msg) then 0 else 1)
    ensures Find([n, m], msg) == if Matches(n, msg) then 0 else if Matches(m, msg) then 1 else 2
  {
    assert [n, m][1..] == [m] && [n][1..] == [];
  }

  // ---------------------------------------------------------------- members 1 and 2 elect member 1

  /** Members 1 and 2 after they have heard of each other, checked, heard each other's vote, and checked again. */
  function Second(b: Candidate, c: Candidate, stage: nat): Instance {
    var sum, s := Checksum(b, [c]), Fresh(b.valor, b.uuid).(nodes := [Peer(c, 0, NOBODY)]);
    var voted := s.(lordValor := b.valor, lordUuid := b.uuid, checksum := sum, changed := true);
    if stage == 0 then s else if stage == 1 then voted
    else if stage == 2 then voted.(nodes := [Peer(c, sum, b)])
    else voted.(nodes := [Peer(c, sum, b)], changed := false, joined := true, lord := true)
  }

  function Third(b: Candidate, c: Candidate, stage: nat): Instance {
    var sum, s := Checksum(b, [c]), Fresh(c.valor, c.uuid).(nodes := [Peer(b, 0, NOBODY)]);
    var voted := s.(lordValor := b.valor, lordUuid := b.uuid, checksum := sum, changed := true);
    if stage == 0 then s else if stage == 1 then voted
    else if stage == 2 then voted.(nodes := [Peer(b, sum, b)])
    else voted.(nodes := [Peer(b, sum, b)], changed := false, joined := true)
  }

  lemma OneId(n: Node, own: Candidate)
    ensures Ids([n]) == [Id(n)] && Best(own, [Id(n)]) == if n.valor > 0 && Above(Id(n), own) then Id(n) else own
  {
    assert [n][1..] == [];
    BestOfTwo(own, Id(n), Id(n));
  }

  lemma SecondChecks(b: Candidate, c: Candidate)
    requires b.valor == 2 && c.valor == 1
    ensures Check(Second(b, c, 0), 1, Succeed) == Second(b, c, 1) && Announcements(Second(b, c, 0), 1, Succeed) == []
    ensures Check(Second(b, c, 2), 1, Succeed) == Second(b, c, 3)
    ensures Announcements(Second(b, c, 2), 1, Succeed) == [MessageOf(Second(b, c, 3))]
  {
    var s, t := Second(b, c, 0), Second(b, c, 2);
    OneId(s.nodes[0], b);
    OneId(t.nodes[0], b);
    hide Checksum, Best, Ids;
    assert !Agrees(s.nodes[0], Checksum(b, [c]), b);
    assert Agrees(t.nodes[0], Checksum(b, [c]), b);
  }

  lemma ThirdChecks(b: Candidate, c: Candidate)
    requires b.valor == 2 && c.valor == 1
    ensures Check(Third(b, c, 0), 1, Succeed) == Third(b, c, 1) && Announcements(Third(b, c, 0), 1, Succeed) == []
    ensures Check(Third(b, c, 2), 1, Succeed) == Third(b, c, 3) && Announcements(Third(b, c, 2), 1, Succeed) == []
  {
    var s, t := Third(b, c, 0), Third(b, c, 2);
    ChecksumIsShared(b, [c], c, [b]);
    OneId(s.nodes[0], c);
    OneId(t.nodes[0], c);
    hide Checksum, Best, Ids;
    assert !Agrees(s.nodes[0], Checksum(c, [b]), b);
    assert Agrees(t.nodes[0], Checksum(c, [b]), b);
  }

  /** A message to somebody who has never heard of its sender, and one to somebody who has. */
  lemma FirstNews(s: Instance, m: Message)
    requires s.nodes == [] && !IsEcho(s, m) && !m.dead && m.name != [] && m.valor < 0x10000
    ensures Receive(s, m, 1) ==
              s.(nodes := [Node(m.valor, m.name, m.uuid, m.scroll, m.checksum, m.lordValor, m.lordUuid, 1)])
  {
    var n := Record(Node(m.valor % 0x10000, m.name, m.uuid, m.scroll, 0, 0, NO_UUID, 0), m, 1);
    assert [] + [n] == [n];
  }

  lemma FurtherNews(s: Instance, m: Message)
    requires |s.nodes| == 1 && Matches(s.nodes[0], m) && !IsEcho(s, m) && !m.dead
    ensures Receive(s, m, 1) == s.(nodes := [Record(s.nodes[0], m, 1)])
  {
    FindIn(s.nodes[0], s.nodes[0], m);
  }

  /** The world in which member 0 is as it was started, and the others at some stage. */
  function Stage(a: Candidate, s: Instance, t: Instance, sent: seq<Message>): World {
    World([Fresh(a.valor, a.uuid), s, t], sent)
  }

  lemma Introduced(a: Candidate, b: Candidate, c: Candidate) returns (sent: seq<Message>, es: seq<Event>)
    requires Ranked(a, b, c)
    ensures RunAll(Start(a, b, c), es) == Stage(a, Second(b, c, 0), Third(b, c, 0), sent) && |sent| == 2
  {
    hide Receive, Checksum;
    var s, t := Fresh(2, b.uuid), Fresh(1, c.uuid);
    sent := [MessageOf(s), MessageOf(t)];
    FirstNews(t, sent[0]);
    FirstNews(s, sent[1]);
    var w0 := Start(a, b, c);
    var w1 := Next(w0, Announce(1, 1));
    assert w1 == Stage(a, s, t, [MessageOf(s)]);
    var w2 := Next(w1, Announce(2, 1));
    assert w2 == Stage(a, s, t, sent);
    var w3 := Next(w2, Deliver(0, 2, 1));
    assert w3 == Stage(a, s, Third(b, c, 0), sent);
    var w4 := Next(w3, Deliver(1, 1, 1));
    assert w4 == Stage(a, Second(b, c, 0), Third(b, c, 0), sent);
    es := Chain4(w0, Announce(1, 1), Announce(2, 1), Deliver(0, 2, 1), Deliver(1, 1, 1));
  }

  lemma VotedForEachOther(a: Candidate, b: Candidate, c: Candidate, sent: seq<Message>)
    returns (sent': seq<Message>, es: seq<Event>)
    requires Ranked(a, b, c) && |sent| == 2
    ensures RunAll(Stage(a, Second(b, c, 0), Third(b, c, 0), sent), es) ==
              Stage(a, Second(b, c, 1), Third(b, c, 1), sent')
    ensures |sent'| == 4 && sent'[2] == MessageOf(Second(b, c, 1)) && sent'[3] == MessageOf(Third(b, c, 1))
  {
    SecondChecks(b, c);
    ThirdChecks(b, c);
    hide Receive, Checksum, Check, Announcements, Second, Third;
    var s, t := Second(b, c, 1), Third(b, c, 1);
    SuspendedNever(b, c);
    var w0 := Stage(a, Second(b, c, 0), Third(b, c, 0), sent);
    var w1 := Next(w0, CheckNow(1, 1, Succeed));
    assert w1 == Stage(a, s, Third(b, c, 0), sent);
    var w2 := Next(w1, CheckNow(2, 1, Succeed));
    assert w2 == Stage(a, s, t, sent);
    var w3 := Next(w2, Announce(1, 1));
    assert w3 == Stage(a, s, t, sent + [MessageOf(s)]);
    var w4 := Next(w3, Announce(2, 1));
    sent' := sent + [MessageOf(s)] + [MessageOf(t)];
    assert w4 == Stage(a, s, t, sent');
    es := Chain4(w0, CheckNow(1, 1, Succeed), CheckNow(2, 1, Succeed), Announce(1, 1), Announce(2, 1));
  }

  lemma SuspendedNever(b: Candidate, c: Candidate)
    ensures Second(b, c, 1).suspendedTil == Third(b, c, 1).suspendedTil == 0
    ensures Second(b, c, 1).(suspendedTil := 0) == Second(b, c, 1) &&
              Third(b, c, 1).(suspendedTil := 0) == Third(b, c, 1)
  {
    hide Checksum;
  }

  lemma VotesHeard(b: Candidate, c: Candidate)
    requires b.valor == 2 && c.valor == 1 && b.uuid != c.uuid
    ensures Receive(Third(b, c, 1), MessageOf(Second(b, c, 1)), 1) == Third(b, c, 2)
    ensures Receive(Second(b, c, 1), MessageOf(Third(b, c, 1)), 1) == Second(b, c, 2)
  {
    hide Receive, Checksum;
    FurtherNews(Third(b, c, 1), MessageOf(Second(b, c, 1)));
    FurtherNews(Second(b, c, 1), MessageOf(Third(b, c, 1)));
  }

  lemma LordElected(a: Candidate, b: Candidate, c: Candidate, sent: seq<Message>)
    returns (sent': seq<Message>, es: seq<Event>)
    requires Ranked(a, b, c)
    requires |sent| == 4 && sent[2] == MessageOf(Second(b, c, 1)) && sent[3] == MessageOf(Third(b, c, 1))
    ensures RunAll(Stage(a, Second(b, c, 1), Third(b, c, 1), sent), es) ==
              Stage(a, Second(b, c, 3), Third(b, c, 3), sent')
  {
    VotesHeard(b, c);
    SecondChecks(b, c);
    ThirdChecks(b, c);
    hide Receive, Checksum, Check, Announcements, Second, Third;
    var w0 := Stage(a, Second(b, c, 1), Third(b, c, 1), sent);
    var w1 := Next(w0, Deliver(2, 2, 1));
    assert w1 == Stage(a, Second(b, c, 1), Third(b, c, 2), sent);
    var w2 := Next(w1, Deliver(3, 1, 1));
    assert w2 == Stage(a, Second(b, c, 2), Third(b, c, 2), sent);
    var w3 := Next(w2, CheckNow(1, 1, Succeed));
    sent' := sent + [MessageOf(Second(b, c, 3))];
    assert w3 == Stage(a, Second(b, c, 3), Third(b, c, 2), sent');
    var w4 := Next(w3, CheckNow(2, 1, Succeed));
    assert w4 == Stage(a, Second(b, c, 3), Third(b, c, 3), sent');
    es := Chain4(w0, Deliver(2, 2, 1), Deliver(3, 1, 1), CheckNow(1, 1, Succeed), CheckNow(2, 1, Succeed));
  }

  /** The elected legion is reached from three fresh instances. */
  lemma ElectedFromStart(a: Candidate, b: Candidate, c: Candidate) returns (sent: seq<Message>, es: seq<Event>)
    requires Ranked(a, b, c)
    ensures RunAll(Start(a, b, c), es) == Before(a, b, c, sent)
  {
    var sent1, es1 := Introduced(a, b, c);
    var sent2, es2 := VotedForEachOther(a, b, c, sent1);
    var sent3, es3 := LordElected(a, b, c, sent2);
    sent := sent3;
    RunSplit(Start(a, b, c), es1, es2);
    RunSplit(Start(a, b, c), es1 + es2, es3);
    es := es1 + es2 + es3;
    assert Stage(a, Second(b, c, 3), Third(b, c, 3), sent) == Before(a, b, c, sent) by {
      hide Checksum;
    }
  }

  // ---------------------------------------------------------------- a better member appears

  /** Members 1 and 2 have heard of member 0. */
  function Informed(a: Candidate, b: Candidate, c: Candidate, sent: seq<Message>): World {
    var w, newcomer := Before(a, b, c, sent), Peer(a, 0, NOBODY);
    World([w.members[0], w.members[1].(nodes := [w.members[1].nodes[0], newcomer]),
           w.members[2].(nodes := [w.members[2].nodes[0], newcomer])], sent + [MessageOf(w.members[0])])
  }

  lemma NewsSpreads(a: Candidate, b: Candidate, c: Candidate, sent: seq<Message>) returns (es: seq<Event>)
    requires Ranked(a, b, c)
    ensures RunAll(Before(a, b, c, sent), es) == Informed(a, b, c, sent)
  {
    hide Checksum;
    var w0, k := Before(a, b, c, sent), |sent|;
    var w1 := Next(w0, Announce(0, 1));
    var m0 := MessageOf(w0.members[0]);
    assert w1 == World(w0.members, sent + [m0]);
    FindIn(w0.members[1].nodes[0], w0.members[1].nodes[0], m0);
    FindIn(w0.members[2].nodes[0], w0.members[2].nodes[0], m0);
    var w2 := Next(w1, Deliver(k, 1, 1));
    assert w2.members[1] == Informed(a, b, c, sent).members[1];
    var w3 := Next(w2, Deliver(k, 2, 1));
    assert w3.members[2] == Informed(a, b, c, sent).members[2];
    assert w3 == Informed(a, b, c, sent);
    RunThree(w0, Announce(0, 1), Deliver(k, 1, 1), Deliver(k, 2, 1));
    es := [Announce(0, 1), Deliver(k, 1, 1), Deliver(k, 2, 1)];
  }

  /** Both check and announce their new choice. */
  function Voted(a: Candidate, b: Candidate, c: Candidate, sent: seq<Message>): World {
    var w := Informed(a, b, c, sent);
    var s, t := Check(w.members[1], 1, Succeed), Check(w.members[2], 1, Succeed);
    World([w.members[0], s, t], w.sent + [MessageOf(s)] + [MessageOf(t)])
  }

  lemma VotesAreCast(a: Candidate, b: Candidate, c: Candidate, sent: seq<Message>) returns (es: seq<Event>)
    requires Ranked(a, b, c)
    ensures RunAll(Informed(a, b, c, sent), es) == Voted(a, b, c, sent)
    ensures var v, k := Voted(a, b, c, sent), |sent|;
            && |v.sent| == k + 3 && v.members[1].lord && v.members[0] == Fresh(3, a.uuid)
            && v.sent[k + 1] == Message(2, HOST, 2, b.uuid, Checksum(b, [c, a]), 3, a.uuid, [], false)
            && v.sent[k + 2] == Message(1, HOST, 1, c.uuid, Checksum(c, [b, a]), 3, a.uuid, [], false)
  {
    hide Checksum, Check;
    var w := Informed(a, b, c, sent);
    LordStays(a, b, c, w.members[1]);
    ThirdVotes(a, b, c, w.members[2]);
    var v := Voted(a, b, c, sent);
    var w1 := Next(w, CheckNow(1, 1, Succeed));
    assert w1 == World(w.members[1 := v.members[1]], w.sent);
    var w2 := Next(w1, CheckNow(2, 1, Succeed));
    assert w2 == World(v.members, w.sent);
    var w3 := Next(w2, Announce(1, 1));
    assert w3 == World(v.members, w.sent + [MessageOf(v.members[1])]);
    var w4 := Next(w3, Announce(2, 1));
    assert w4 == v;
    es := Chain4(w, CheckNow(1, 1, Succeed), CheckNow(2, 1, Succeed), Announce(1, 1), Announce(2, 1));
  }

  /** Member 0 hears both. */
  lemma VotesArrive(a: Candidate, b: Candidate, c: Candidate, w: World, k: nat)
    requires Ranked(a, b, c) && |w.members| == 3 && |w.sent| == k + 3 && w.members[0] == Fresh(3, a.uuid)
    requires w.sent[k + 1] == Message(2, HOST, 2, b.uuid, Checksum(b, [c, a]), 3, a.uuid, [], false)
    requires w.sent[k + 2] == Message(1, HOST, 1, c.uuid, Checksum(c, [b, a]), 3, a.uuid, [], false)
    ensures var w' := Next(Next(w, Deliver(k + 1, 0, 1)), Deliver(k + 2, 0, 1));
            w' == w.(members := w.members[0 := Fresh(3, a.uuid).(
                       nodes := [Peer(b, Checksum(b, [c, a]), a), Peer(c, Checksum(c, [b, a]), a)])])
  {
    hide Checksum;
    var nb := Peer(b, Checksum(b, [c, a]), a);
    FirstNews(Fresh(3, a.uuid), w.sent[k + 1]);
    var w1 := Next(w, Deliver(k + 1, 0, 1));
    assert w1 == w.(members := w.members[0 := Fresh(3, a.uuid).(nodes := [nb])]);
    FindIn(nb, nb, w.sent[k + 2]);
    var nc := Peer(c, Checksum(c, [b, a]), a);
    assert [nb] + [nc] == [nb, nc];
    assert Receive(Fresh(3, a.uuid).(nodes := [nb]), w.sent[k + 2], 1) == Fresh(3, a.uuid).(nodes := [nb] + [nc]);
  }

  /** A run from three fresh instances after which members 0 and 1 are both Lord, with every quorum a majority. */
  lemma TwoLordsAtOnce(a: Candidate, b: Candidate, c: Candidate) returns (es: seq<Event>, w: World)
    requires Ranked(a, b, c)
    ensures w == RunAll(Start(a, b, c), es) && |w.members| == 3
    ensures w.members[0].lord && w.members[1].lord && !AtMostOneLord(w)
    ensures forall i :: 0 <= i < 3 ==> Start(a, b, c).members[i].quorum == 2
  {
    hide Checksum, Check, Receive, Announcements, RunAll;
    var sent, es0 := ElectedFromStart(a, b, c);
    var es1 := NewsSpreads(a, b, c, sent);
    var es2 := VotesAreCast(a, b, c, sent);
    var v, k := Voted(a, b, c, sent), |sent|;
    VotesArrive(a, b, c, v, k);
    var w2 := Next(Next(v, Deliver(k + 1, 0, 1)), Deliver(k + 2, 0, 1));
    NewLord(a, b, c, w2.members[0]);
    RunThree(v, Deliver(k + 1, 0, 1), Deliver(k + 2, 0, 1), CheckNow(0, 1, Succeed));
    var es3 := [Deliver(k + 1, 0, 1), Deliver(k + 2, 0, 1), CheckNow(0, 1, Succeed)];
    w := Next(w2, CheckNow(0, 1, Succeed));
    RunSplit(Start(a, b, c), es0, es1);
    RunSplit(Start(a, b, c), es0 + es1, es2);
    RunSplit(Start(a, b, c), es0 + es1 + es2, es3);
    es := es0 + es1 + es2 + es3;
  }

  lemma RunThree(w: World, e0: Event, e1: Event, e2: Event)
    ensures RunAll(w, [e0, e1, e2]) == Next(Next(Next(w, e0), e1), e2)
  {
    hide Next;
    assert [e0, e1, e2][..2] == [e0, e1] && [e0, e1][..1] == [e0] && [e0][..0] == [];
    assert RunAll(w, [e0]) == Next(w, e0);
    assert RunAll(w, [e0, e1]) == Next(Next(w, e0), e1);
  }

  lemma Chain4(w: World, e0: Event, e1: Event, e2: Event, e3: Event) returns (es: seq<Event>)
    ensures RunAll(w, es) == Next(Next(Next(Next(w, e0), e1), e2), e3)
  {
    hide Next;
    RunThree(w, e0, e1, e2);
    es := [e0, e1, e2, e3];
    assert es[..3] == [e0, e1, e2];
  }
}
