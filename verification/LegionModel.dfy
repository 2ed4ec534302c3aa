/** The legion election of core/legion.c as values: who an instance prefers, what it announces, and the step
    that makes or unmakes a Lord. */
module LegionModel {
  import opened Bytes

  /** The 36 characters of a uuid. */
  type Uuid = u: seq<byte> | |u| == 36 witness ZEROES

  const ZEROES: seq<byte> :=
    [0, 0, 0, 0, 0, 0, 0, 0, 0, 0, 0, 0, 0, 0, 0, 0, 0, 0,
     0, 0, 0, 0, 0, 0, 0, 0, 0, 0, 0, 0, 0, 0, 0, 0, 0, 0]

  const NO_UUID: Uuid := ZEROES

  /** struct uwsgi_legion_node: a peer and its last recorded vote. */
  datatype Node = Node(
    valor: nat, name: seq<byte>, uuid: Uuid, scroll: seq<byte>,
    checksum: nat, lordValor: nat, lordUuid: Uuid, lastSeen: nat)

  /** The part of struct uwsgi_legion that the election reads and writes. */
  datatype Instance = Instance(
    valor: nat, name: seq<byte>, pid: nat, uuid: Uuid, quorum: int, nodes: seq<Node>,
    lordValor: nat, lordUuid: Uuid, checksum: nat, changed: bool, joined: bool, lord: bool,
    suspendedTil: nat, lastWarning: nat, dead: bool)

  // ---------------------------------------------------------------- the order of candidates

  /** uwsgi_uuid_cmp(x, y) > 0 from character i on. */
  predicate GreaterFrom(x: Uuid, y: Uuid, i: nat)
    decreases 36 - i
  {
    i < 36 && if x[i] != y[i] then x[i] > y[i] else GreaterFrom(x, y, i + 1)
  }

  predicate Greater(x: Uuid, y: Uuid) {
    GreaterFrom(x, y, 0)
  }

  /** A candidate: valor first, uuid second. */
  datatype Candidate = Candidate(valor: nat, uuid: Uuid)

  predicate Above(a: Candidate, b: Candidate) {
    a.valor > b.valor || (a.valor == b.valor && Greater(a.uuid, b.uuid))
  }

  lemma {:induction false} GreaterFromTotal(x: Uuid, y: Uuid, i: nat)
    requires i <= 36
    ensures GreaterFrom(x, y, i) || GreaterFrom(y, x, i) || x[i..] == y[i..]
    ensures !(GreaterFrom(x, y, i) && GreaterFrom(y, x, i))
    decreases 36 - i
  {
    if i < 36 && x[i] == y[i] {
      GreaterFromTotal(x, y, i + 1);
      assert x[i..] == [x[i]] + x[i + 1..] && y[i..] == [y[i]] + y[i + 1..];
    }
  }

  lemma {:induction false} GreaterFromTransitive(x: Uuid, y: Uuid, z: Uuid, i: nat)
    requires i <= 36 && GreaterFrom(x, y, i) && GreaterFrom(y, z, i)
    ensures GreaterFrom(x, z, i)
    decreases 36 - i
  {
    if x[i] == y[i] == z[i] {
      GreaterFromTransitive(x, y, z, i + 1);
    }
  }

  /** Valor and uuid make a strict total order. */
  lemma AboveIsStrictTotal(a: Candidate, b: Candidate, c: Candidate)
    ensures Above(a, b) || Above(b, a) || a == b
    ensures !(Above(a, b) && Above(b, a))
    ensures Above(a, b) && Above(b, c) ==> Above(a, c)
  {
    GreaterFromTotal(a.uuid, b.uuid, 0);
    assert a.uuid[0..] == a.uuid && b.uuid[0..] == b.uuid;
    if Greater(a.uuid, b.uuid) && Greater(b.uuid, c.uuid) {
      GreaterFromTransitive(a.uuid, b.uuid, c.uuid, 0);
    }
  }

  // ---------------------------------------------------------------- the preferred lord

  /** x comes after y in the order of the characters: at the first one that differs, x has the greater. */
  ghost predicate Later(x: Uuid, y: Uuid) {
    exists j :: 0 <= j < 36 && x[..j] == y[..j] && x[j] > y[j]
  }

  lemma SamePrefix(x: Uuid, y: Uuid, n: nat, k: nat)
    requires k <= n <= 36 && x[..n] == y[..n]
    ensures k < n ==> x[k] == y[k]
  {
    assert k < n ==> x[..n][k] == x[k] && y[..n][k] == y[k];
  }

  lemma {:induction false} GreaterFromIsLater(x: Uuid, y: Uuid, i: nat)
    requires i <= 36 && x[..i] == y[..i]
    ensures GreaterFrom(x, y, i) <==> Later(x, y)
    decreases 36 - i
  {
    if i == 36 {
      assert x[..36] == x && y[..36] == y;
    } else if x[i] == y[i] {
      assert x[..i + 1] == x[..i] + [x[i]] && y[..i + 1] == y[..i] + [y[i]];
      GreaterFromIsLater(x, y, i + 1);
    } else if Later(x, y) {
      var j :| 0 <= j < 36 && x[..j] == y[..j] && x[j] > y[j];
      SamePrefix(x, y, if i < j then j else i, if i < j then i else j);
    }
  }

  /** The greater candidate has the greater valor, or the same and the later uuid. */
  lemma AboveIs(a: Candidate, b: Candidate)
    ensures Greater(a.uuid, b.uuid) <==> Later(a.uuid, b.uuid)
    ensures Above(a, b) <==> a.valor > b.valor || (a.valor == b.valor && Later(a.uuid, b.uuid))
  {
    GreaterFromIsLater(a.uuid, b.uuid, 0);
  }

  function Id(n: Node): Candidate {
    Candidate(n.valor, n.uuid)
  }

  function Self(s: Instance): Candidate {
    Candidate(s.valor, s.uuid)
  }

  function Ids(nodes: seq<Node>): seq<Candidate> {
    if nodes == [] then [] else [Id(nodes[0])] + Ids(nodes[1..])
  }

  lemma {:induction false} IdsAt(nodes: seq<Node>)
    ensures |Ids(nodes)| == |nodes| && forall i :: 0 <= i < |nodes| ==> Ids(nodes)[i] == Id(nodes[i])
  {
    if nodes != [] {
      IdsAt(nodes[1..]);
    }
  }

  /** The best of `own` and the non-arbiters among the peers. */
  function Best(own: Candidate, peers: seq<Candidate>): Candidate {
    if peers == [] then own
    else
      var b, p := Best(own, peers[..|peers| - 1]), peers[|peers| - 1];
      if p.valor > 0 && Above(p, b) then p else b
  }

  /** Nothing eligible is above the best, which is eligible. */
  lemma {:induction false} BestIsGreatest(own: Candidate, peers: seq<Candidate>)
    ensures Best(own, peers) == own || (Best(own, peers) in peers && Best(own, peers).valor > 0)
    ensures !Above(own, Best(own, peers))
    ensures forall p :: p in peers && p.valor > 0 ==> !Above(p, Best(own, peers))
  {
    if peers == [] {
      AboveIsStrictTotal(own, own, own);
    } else {
      var rest, p := peers[..|peers| - 1], peers[|peers| - 1];
      BestIsGreatest(own, rest);
      var b, r := Best(own, rest), Best(own, peers);
      AboveIsStrictTotal(p, b, own);
      AboveIsStrictTotal(b, p, own);
      AboveIsStrictTotal(own, b, p);
      AboveIsStrictTotal(own, r, b);
      forall q | q in peers && q.valor > 0
        ensures !Above(q, r)
      {
        AboveIsStrictTotal(q, r, b);
        AboveIsStrictTotal(q, b, r);
        AboveIsStrictTotal(r, b, q);
        assert q == p || q in rest;
      }
    }
  }

  /** Two members of one legion prefer the same candidate, whatever the order of their lists. */
  lemma BestIsShared(own: Candidate, peers: seq<Candidate>, own': Candidate, peers': seq<Candidate>)
    requires multiset(peers) + multiset{own} == multiset(peers') + multiset{own'}
    requires exists p :: p in [own] + peers && p.valor > 0
    ensures Best(own, peers) == Best(own', peers')
  {
    BestIsGreatest(own, peers);
    BestIsGreatest(own', peers');
    var b, b' := Best(own, peers), Best(own', peers');
    forall x
      ensures (x in peers || x == own) <==> (x in peers' || x == own')
    {
      assert x in multiset(peers) + multiset{own} <==> x in multiset(peers') + multiset{own'};
    }
    var p :| p in [own] + peers && p.valor > 0;
    Eligible(own, peers, p);
    Eligible(own', peers', p);
    AboveIsStrictTotal(b, b', b);
  }

  lemma Eligible(own: Candidate, peers: seq<Candidate>, p: Candidate)
    requires (p in peers || p == own) && p.valor > 0
    ensures Best(own, peers).valor > 0
  {
    BestIsGreatest(own, peers);
    AboveIsStrictTotal(p, Best(own, peers), p);
  }

  // ---------------------------------------------------------------- the membership checksum

  function SumBytes(u: seq<byte>): nat {
    if u == [] then 0 else SumBytes(u[..|u| - 1]) + u[|u| - 1] as nat
  }

  function Weight(p: Candidate): nat {
    p.valor + SumBytes(p.uuid)
  }

  function SumWeights(peers: seq<Candidate>): nat {
    if peers == [] then 0 else SumWeights(peers[..|peers| - 1]) + Weight(peers[|peers| - 1])
  }

  /** uwsgi_legion_checksum, a 64 bit sum. */
  function Checksum(own: Candidate, peers: seq<Candidate>): nat {
    (Weight(own) + SumWeights(peers)) % WORD
  }

  lemma {:induction false} SumRemove(s: seq<Candidate>, i: nat)
    requires i < |s|
    ensures SumWeights(s) == SumWeights(s[..i] + s[i + 1..]) + Weight(s[i])
    decreases |s|
  {
    var n := |s| - 1;
    if i < n {
      SumRemove(s[..n], i);
      var t := s[..i] + s[i + 1..];
      assert t[..|t| - 1] == s[..n][..i] + s[..n][i + 1..];
      assert t[|t| - 1] == s[n];
    } else {
      assert s[..i] + s[i + 1..] == s[..n];
    }
  }

  lemma RemoveOne(s: seq<Candidate>, i: nat)
    requires i < |s|
    ensures multiset(s) == multiset(s[..i] + s[i + 1..]) + multiset{s[i]}
  {
    assert s == s[..i] + [s[i]] + s[i + 1..];
  }

  lemma {:induction false} SumOfPermutation(a: seq<Candidate>, b: seq<Candidate>)
    requires multiset(a) == multiset(b)
    ensures SumWeights(a) == SumWeights(b)
    decreases |a|
  {
    if a == [] {
      assert |multiset(b)| == 0;
      assert b == [];
    } else {
      var n := |a| - 1;
      assert a == a[..n] + [a[n]];
      assert a[n] in multiset(b);
      var i :| 0 <= i < |b| && b[i] == a[n];
      var b' := b[..i] + b[i + 1..];
      RemoveOne(b, i);
      RemoveOne(a, n);
      assert a[..n] + a[n + 1..] == a[..n];
      assert multiset(a[..n]) == multiset(a) - multiset{a[n]};
      SumOfPermutation(a[..n], b');
      SumRemove(b, i);
    }
  }

  /** Two members of one legion compute the same checksum, whatever the order of their lists. */
  lemma ChecksumIsShared(own: Candidate, peers: seq<Candidate>, own': Candidate, peers': seq<Candidate>)
    requires multiset(peers) + multiset{own} == multiset(peers') + multiset{own'}
    ensures Checksum(own, peers) == Checksum(own', peers')
  {
    var a, b := peers + [own], peers' + [own'];
    assert a[..|a| - 1] == peers && b[..|b| - 1] == peers';
    SumOfPermutation(a, b);
  }

  /** One more peer adds its valor and the characters of its uuid. */
  lemma ChecksumGrows(own: Candidate, peers: seq<Candidate>, p: Candidate)
    ensures Checksum(own, peers + [p]) == (Checksum(own, peers) + p.valor + SumBytes(p.uuid)) % WORD
  {
    assert (peers + [p])[..|peers|] == peers;
  }

  lemma ChecksumAlone(own: Candidate)
    ensures Checksum(own, []) == (own.valor + SumBytes(own.uuid)) % WORD
  {}

  /** Each character counts for itself. */
  lemma {:induction false} SumOfCharacters(u: seq<byte>, i: nat, b: byte)
    requires i < |u|
    ensures SumBytes(u[i := b]) + u[i] as nat == SumBytes(u) + b as nat
    ensures SumBytes(u) <= 255 * |u|
  {
    var n := |u| - 1;
    SumOfPrefix(u[..n]);
    if i < n {
      SumOfCharacters(u[..n], i, b);
      assert u[i := b][..n] == u[..n][i := b];
    } else {
      assert u[i := b][..n] == u[..n];
    }
  }

  lemma {:induction false} SumOfPrefix(u: seq<byte>)
    ensures SumBytes(u) <= 255 * |u|
  {
    if u != [] {
      SumOfPrefix(u[..|u| - 1]);
    }
  }

  /** A peer that comes or goes is seen in the checksum. */
  lemma MembershipIsSeen(own: Candidate, peers: seq<Candidate>, p: Candidate)
    requires 0 < p.valor < 0x10000
    ensures Checksum(own, peers + [p]) != Checksum(own, peers)
  {
    ChecksumGrows(own, peers, p);
    SumOfPrefix(p.uuid);
    var a, d := Checksum(own, peers), p.valor + SumBytes(p.uuid);
    assert 0 <= a < WORD && 0 < d < WORD;
  }

  // ---------------------------------------------------------------- the check

  predicate Agrees(n: Node, checksum: nat, best: Candidate) {
    n.checksum == checksum && n.lordValor == best.valor && n.lordUuid == best.uuid
  }

  /** One vote for myself and one per peer, or none at all as soon as one peer disagrees. */
  function Votes(nodes: seq<Node>, checksum: nat, best: Candidate): nat {
    if forall i :: 0 <= i < |nodes| ==> Agrees(nodes[i], checksum, best) then 1 + |nodes| else 0
  }

  /** What an instance prefers: it always includes itself. */
  function Choice(s: Instance): Candidate {
    Best(Self(s), Ids(s.nodes))
  }

  predicate IAmTheBest(s: Instance, now: nat) {
    Choice(s) == Self(s) && s.valor > 0 && now > s.suspendedTil
  }

  /** What legions_check_nodes_step2 compares the votes with. */
  function Proposed(s: Instance, now: nat): Candidate {
    if Choice(s) != Self(s) then Choice(s)
    else if s.valor > 0 && now > s.suspendedTil then Self(s)
    else Candidate(0, NO_UUID)
  }

  function Tally(s: Instance, now: nat): nat {
    Votes(s.nodes, Checksum(Self(s), Ids(s.nodes)), Proposed(s, now))
  }

  /** The test that lets an instance become Lord. */
  predicate Wins(s: Instance, now: nat) {
    IAmTheBest(s, now) && Tally(s, now) > 0 && Tally(s, now) >= s.quorum
  }

  /** What hooks do: they all succeed, or a lord hook fails and --legion-death-on-lord-error is set. */
  datatype Hooks = Succeed | LordHookFails(suspension: nat)

  /** What the votes lead to. A new Lord announces itself, which ends a suspension. */
  function Decided(s: Instance, now: nat, hooks: Hooks, tally: nat, best: bool): Instance {
    if tally > 0 && tally >= s.quorum then
      var t := s.(joined := true, changed := false);
      if !best then t.(lord := false)
      else if s.lord then t
      else if hooks.LordHookFails? then t.(dead := true, suspendedTil := now + hooks.suspension)
      else t.(lord := true, suspendedTil := 0)
    else if tally > 0 && now >= s.lastWarning + 60 then
      s.(lord := false, lastWarning := now)
    else s
  }

  /** legions_check_nodes_step2 */
  function Check(s: Instance, now: nat, hooks: Hooks): Instance {
    var choice := Choice(s);
    var checksum := Checksum(Self(s), Ids(s.nodes));
    var changed := s.changed || (s.valor > 0 && s.lordValor == 0) || choice != Candidate(s.lordValor, s.lordUuid) ||
        checksum != s.checksum;
    Decided(s.(lordValor := choice.valor, lordUuid := choice.uuid, checksum := checksum, changed := changed),
            now, hooks, Tally(s, now), IAmTheBest(s, now))
  }

  /** Exactly when a check leaves its instance the Lord. */
  lemma StillLordIff(s: Instance, now: nat, hooks: Hooks)
    ensures Check(s, now, hooks).lord <==>
            || (Wins(s, now) && (s.lord || hooks == Succeed))
            || (s.lord && (Tally(s, now) == 0 || (Tally(s, now) < s.quorum && now < s.lastWarning + 60)))
  {}

  /** Every peer has to have announced my checksum and my own choice; whoever is suspended or an arbiter and prefers
      itself, proposes nobody. */
  lemma TallyIs(s: Instance, now: nat)
    ensures Tally(s, now) ==
            if forall i :: 0 <= i < |s.nodes| ==>
                 s.nodes[i].checksum == Checksum(Self(s), Ids(s.nodes)) &&
                 Candidate(s.nodes[i].lordValor, s.nodes[i].lordUuid) == Proposed(s, now)
            then 1 + |s.nodes| else 0
    ensures Proposed(s, now) ==
            if Choice(s) == Self(s) && (s.valor == 0 || now <= s.suspendedTil) then Candidate(0, NO_UUID) else Choice(s)
  {
    hide Checksum, Choice, Ids;
  }

  /** What a check leaves beside the title. */
  lemma CheckLeaves(s: Instance, now: nat, hooks: Hooks)
    ensures var t, n := Check(s, now, hooks), Tally(s, now);
            && Candidate(t.lordValor, t.lordUuid) == Choice(s) && t.checksum == Checksum(Self(s), Ids(s.nodes))
            && (t.joined <==> s.joined || (n > 0 && n >= s.quorum))
            && (t.dead <==> s.dead || (Wins(s, now) && !s.lord && hooks.LordHookFails?))
            && t.suspendedTil == (if !Wins(s, now) || s.lord then s.suspendedTil
                                  else if hooks == Succeed then 0 else now + hooks.suspension)
            && t.lastWarning == (if 0 < n < s.quorum && now >= s.lastWarning + 60 then now else s.lastWarning)
            && (t.changed <==>
                && (n == 0 || n < s.quorum)
                && (s.changed || (s.valor > 0 && s.lordValor == 0)
                    || Candidate(s.lordValor, s.lordUuid) != Candidate(t.lordValor, t.lordUuid)
                    || s.checksum != t.checksum))
            && t.nodes == s.nodes
  {
    hide Checksum, Choice, Ids, Votes;
  }

  /** An instance whose lord hook fails is suspended: no check makes it Lord before the suspension is over. */
  lemma FailedHookSuspends(s: Instance, now: nat, suspension: nat, later: nat, hooks: Hooks)
    requires Wins(s, now) && !s.lord && later <= now + suspension
    ensures var t := Check(s, now, LordHookFails(suspension));
            t.dead && !t.lord && !Wins(t, later) && !Check(t, later, hooks).lord
  {}

  /** And one whose hooks succeed is Lord, no longer suspended, and in the legion. */
  lemma WinnerBecomesLord(s: Instance, now: nat)
    requires Wins(s, now) && !s.lord
    ensures var t := Check(s, now, Succeed); t.lord && t.joined && !t.changed && t.suspendedTil == 0 && t.dead == s.dead
  {}
}
