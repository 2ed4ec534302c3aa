/** The election code of core/legion.c in its own form: an instance whose fields the election loops update. */
module Legion {
  import opened Bytes
  import opened LegionModel
  import opened LegionProtocol

  /** uwsgi_uuid_cmp(x, y) > 0 */
  method UuidCmp(x: Uuid, y: Uuid) returns (greater: bool)
    ensures greater == Greater(x, y)
    ensures greater <==> exists j :: 0 <= j < 36 && x[..j] == y[..j] && x[j] > y[j]
  {
    GreaterFromIsLater(x, y, 0);
    for i := 0 to 36
      invariant Greater(x, y) == GreaterFrom(x, y, i)
    {
      if x[i] != y[i] {
        return x[i] > y[i];
      }
    }
    return false;
  }

  class Member {
    const valor: nat
    const name: seq<byte>
    const pid: nat
    const uuid: Uuid
    const quorum: int
    var nodes: seq<Node>
    var lordValor: nat
    var lordUuid: Uuid
    var checksum: nat
    var changed: bool
    var joined: bool
    var lord: bool
    var suspendedTil: nat
    var lastWarning: nat
    var dead: bool

    constructor (valor: nat, name: seq<byte>, pid: nat, uuid: Uuid, quorum: int)
      ensures V() == Instance(valor, name, pid, uuid, quorum, [], 0, NO_UUID, 0, false, false, false, 0, 0, false)
    {
      this.valor, this.name, this.pid, this.uuid, this.quorum := valor, name, pid, uuid, quorum;
      nodes, lordValor, lordUuid, checksum := [], 0, NO_UUID, 0;
      changed, joined, lord, suspendedTil, lastWarning, dead := false, false, false, 0, 0, false;
    }

    ghost function V(): Instance
      reads this
    {
      Instance(valor, name, pid, uuid, quorum, nodes, lordValor, lordUuid, checksum, changed, joined, lord,
               suspendedTil, lastWarning, dead)
    }

    /** The loop of uwsgi_legion_get_lord: the best candidate and its node, or -1 when nothing is above myself. */
    method BestNode() returns (best: int, choice: Candidate)
      ensures choice == Choice(V()) && -1 <= best < |nodes|
      ensures best == -1 <==> choice == Candidate(valor, uuid)
      ensures best >= 0 ==> Id(nodes[best]) == choice && nodes[best].valor > 0
      ensures forall i :: 0 <= i < |nodes| && nodes[i].valor > 0 ==>
                nodes[i].valor < choice.valor ||
                (nodes[i].valor == choice.valor && !Later(nodes[i].uuid, choice.uuid))
      ensures valor < choice.valor || (valor == choice.valor && !Later(uuid, choice.uuid))
    {
      BestIsLatest();
      ghost var own, ids := Candidate(valor, uuid), Ids(nodes);
      best, choice := -1, Candidate(valor, uuid);
      IdsAt(nodes);
      AboveIsStrictTotal(own, own, own);
      for i := 0 to |nodes|
        invariant choice == Best(own, ids[..i]) && -1 <= best < i
        invariant best == -1 ==> choice == own
        invariant best >= 0 ==> Id(nodes[best]) == choice && Above(choice, own) && nodes[best].valor > 0
      {
        assert ids[..i + 1][..i] == ids[..i];
        AboveIsStrictTotal(Id(nodes[i]), choice, own);
        if nodes[i].valor > 0 {
          if nodes[i].valor > choice.valor {
            best, choice := i, Candidate(nodes[i].valor, nodes[i].uuid);
          } else if nodes[i].valor == choice.valor {
            var greater := UuidCmp(nodes[i].uuid, choice.uuid);
            if greater {
              best, choice := i, Candidate(nodes[i].valor, nodes[i].uuid);
            }
          }
        }
      }
      assert ids[..|nodes|] == ids;
    }

    lemma BestIsLatest()
      ensures forall i :: 0 <= i < |nodes| && nodes[i].valor > 0 ==>
                nodes[i].valor < Choice(V()).valor ||
                (nodes[i].valor == Choice(V()).valor && !Later(nodes[i].uuid, Choice(V()).uuid))
      ensures valor < Choice(V()).valor || (valor == Choice(V()).valor && !Later(uuid, Choice(V()).uuid))
    {
      hide Above, Best, Later;
      IdsAt(nodes);
      BestIsGreatest(Candidate(valor, uuid), Ids(nodes));
      AboveIs(Candidate(valor, uuid), Choice(V()));
      forall i | 0 <= i < |nodes| && nodes[i].valor > 0
        ensures nodes[i].valor < Choice(V()).valor ||
                (nodes[i].valor == Choice(V()).valor && !Later(nodes[i].uuid, Choice(V()).uuid))
      {
        assert Ids(nodes)[i] == Id(nodes[i]);
        AboveIs(Id(nodes[i]), Choice(V()));
      }
    }

    /** uwsgi_legion_get_lord: the choice is noted, for the next announcement. */
    method GetLord() returns (best: int)
      modifies this`lordValor, this`lordUuid, this`changed
      ensures -1 <= best < |nodes| && (best == -1 <==> Choice(V()) == Candidate(valor, uuid))
      ensures best >= 0 ==> Id(nodes[best]) == Choice(V())
      ensures Choice(V()) == old(Choice(V())) == Candidate(lordValor, lordUuid)
      ensures changed == old(changed || (valor > 0 && lordValor == 0) || Choice(V()) != Candidate(lordValor, lordUuid))
    {
      hide Best, Ids;
      var choice;
      best, choice := BestNode();
      if valor > 0 && lordValor == 0 {
        changed := true;
      } else if choice.valor != lordValor {
        changed := true;
      } else if choice.uuid != lordUuid {
        changed := true;
      }
      lordValor, lordUuid := choice.valor, choice.uuid;
    }

    /** uwsgi_legion_checksum, in 64 bit arithmetic. */
    method ComputeChecksum() returns (sum: nat)
      ensures sum == Checksum(Candidate(valor, uuid), Ids(nodes))
    {
      hide Ids, Weight;
      ghost var own, ids := Candidate(valor, uuid), Ids(nodes);
      IdsAt(nodes);
      sum := AddCandidate(0, valor, uuid);
      for i := 0 to |nodes|
        invariant sum == (Weight(own) + SumWeights(ids[..i])) % WORD
      {
        assert ids[..i + 1][..i] == ids[..i];
        sum := AddCandidate(sum, nodes[i].valor, nodes[i].uuid);
        Wrap(Weight(own) + SumWeights(ids[..i]), Weight(ids[i]));
      }
      assert ids[..|nodes|] == ids;
    }

    /** sum += valor, then += each of the 36 characters */
    static method AddCandidate(sum0: nat, valor: nat, uuid: Uuid) returns (sum: nat)
      ensures sum == (sum0 + Weight(Candidate(valor, uuid))) % WORD
    {
      sum := (sum0 + valor) % WORD;
      for i := 0 to 36
        invariant sum == (sum0 + valor + SumBytes(uuid[..i])) % WORD
      {
        assert uuid[..i + 1][..i] == uuid[..i];
        Wrap(sum0 + valor + SumBytes(uuid[..i]), uuid[i] as nat);
        sum := (sum + uuid[i] as nat) % WORD;
      }
      assert uuid[..36] == uuid;
    }

    static lemma Wrap(a: nat, b: nat)
      ensures (a % WORD + b) % WORD == (a + b) % WORD
    {}

    /** legions_check_nodes_step2 for this legion. */
    method CheckNodesStep2(now: nat, hooks: Hooks) returns (sent: seq<Message>)
      modifies this
      ensures V() == Check(old(V()), now, hooks) && sent == Announcements(old(V()), now, hooks)
    {
      hide Best, Checksum, Ids, Votes, Decided, MessageOf;
      var iAmTheBest, bestValor, bestUuid := false, 0, NO_UUID;
      var node := GetLord();
      if node >= 0 {
        bestValor, bestUuid := nodes[node].valor, nodes[node].uuid;
      } else if valor > 0 && now > suspendedTil {
        bestValor, bestUuid, iAmTheBest := valor, uuid, true;
      }
      assert Candidate(bestValor, bestUuid) == Proposed(old(V()), now) && iAmTheBest == IAmTheBest(old(V()), now);
      var newChecksum := ComputeChecksum();
      if newChecksum != checksum {
        changed := true;
      }
      checksum := newChecksum;
      var votes := CountVotes(Candidate(bestValor, bestUuid));
      assert votes == Tally(old(V()), now);
      sent := Decide(now, hooks, votes, iAmTheBest);
    }

    /** What the votes lead to, and what is announced on the way. */
    method Decide(now: nat, hooks: Hooks, votes: nat, iAmTheBest: bool) returns (sent: seq<Message>)
      requires iAmTheBest ==> now > suspendedTil
      modifies this`joined, this`changed, this`lord, this`dead, this`suspendedTil, this`lastWarning
      ensures V() == Decided(old(V()), now, hooks, votes, iAmTheBest)
      ensures sent == if votes > 0 && votes >= quorum && iAmTheBest && !old(lord) then [MessageOf(V())] else []
    {
      sent := [];
      if votes > 0 && votes >= quorum {
        joined, changed := true, false;
        if iAmTheBest {
          if !lord {
            if hooks.LordHookFails? {
              dead := true;
              sent := SendAnnouncement(now);
              suspendedTil := now + hooks.suspension;
              return;
            }
            lord := true;
            sent := SendAnnouncement(now);
          }
        } else {
          lord := false;
        }
      } else if votes > 0 && votes < quorum && now >= lastWarning + 60 {
        lord := false;
        lastWarning := now;
      }
    }

    /** uwsgi_legion_announce: what is sent, unless the instance is suspended. */
    method SendAnnouncement(now: nat) returns (sent: seq<Message>)
      modifies this`suspendedTil
      ensures now <= old(suspendedTil) ==> sent == [] && V() == old(V())
      ensures now > old(suspendedTil) ==> sent == [MessageOf(V())] && V() == old(V()).(suspendedTil := 0)
    {
      if now <= suspendedTil {
        return [];
      }
      suspendedTil := 0;
      sent := [Message(valor, name, pid, uuid, checksum, lordValor, lordUuid, [], dead)];
    }

    /** One vote per agreeing peer; the first that disagrees voids them all. */
    method CountVotes(best: Candidate) returns (votes: nat)
      ensures votes == Votes(nodes, checksum, best)
      ensures votes == 1 + |nodes| || votes == 0
      ensures votes == 0 <==>
              exists i :: 0 <= i < |nodes| &&
                (nodes[i].checksum != checksum || nodes[i].lordValor != best.valor || nodes[i].lordUuid != best.uuid)
    {
      votes := 1;
      for i := 0 to |nodes|
        invariant votes == 1 + i && forall k :: 0 <= k < i ==> Agrees(nodes[k], checksum, best)
      {
        if nodes[i].checksum != checksum {
          return 0;
        }
        if nodes[i].lordValor != best.valor {
          return 0;
        }
        if nodes[i].lordUuid != best.uuid {
          return 0;
        }
        votes := votes + 1;
      }
    }

    /** uwsgi_legion_get_node */
    method GetNode(m: Message) returns (i: nat)
      ensures i == Find(nodes, m) && i <= |nodes|
      ensures i < |nodes| ==> nodes[i].valor == m.valor && nodes[i].name == m.name && nodes[i].uuid == m.uuid
      ensures forall j :: 0 <= j < i ==> nodes[j].valor != m.valor || nodes[j].name != m.name || nodes[j].uuid != m.uuid
    {
      i := 0;
      while i < |nodes|
        invariant i <= |nodes| && Find(nodes, m) >= i
      {
        if nodes[i].valor == m.valor && nodes[i].name == m.name && nodes[i].uuid == m.uuid {
          return;
        }
        i := i + 1;
      }
    }

    /** The receiving part of legion_loop. */
    method ReceiveMessage(m: Message, now: nat)
      modifies this`nodes
      ensures V() == Receive(old(V()), m, now)
      ensures name == m.name && pid == m.pid && valor == m.valor && uuid == m.uuid ==> nodes == old(nodes)
    {
      if name == m.name && pid == m.pid && valor == m.valor && uuid == m.uuid {
        return;
      }
      var i := GetNode(m);
      if i == |nodes| {
        if m.dead || |m.name| == 0 {
          return;
        }
        nodes := nodes + [Node(m.valor % 0x10000, m.name, m.uuid, m.scroll, 0, 0, NO_UUID, 0)];
        nodes := nodes[i := Record(nodes[i], m, now)];
      } else if m.dead {
        nodes := nodes[..i] + nodes[i + 1..];
      } else {
        nodes := nodes[i := Record(nodes[i], m, now)];
      }
    }

    /** The time-skew check of legion_loop before the packet is looked at further. */
    method ReceivePacket(m: Message, unixCheck: nat, skewTolerance: nat, now: nat)
      modifies this`nodes
      ensures V() ==
                if !IsEcho(old(V()), m) && unixCheck + skewTolerance < now then old(V()) else Receive(old(V()), m, now)
    {
      if !(name == m.name && pid == m.pid && valor == m.valor && uuid == m.uuid) && unixCheck + skewTolerance < now {
        return;
      }
      ReceiveMessage(m, now);
    }

    /** legions_check_nodes: peers that have been silent for too long are removed, the others stay in order. */
    method ExpireNodes(now: nat, tolerance: nat)
      modifies this`nodes
      ensures nodes == Seen(old(nodes), now, tolerance)
    {
      var i := 0;
      ghost var done := 0;
      while i < |nodes|
        invariant i <= |nodes| && done <= |old(nodes)| && nodes[i..] == old(nodes)[done..]
        invariant nodes[..i] == Seen(old(nodes)[..done], now, tolerance)
        decreases |nodes| - i
      {
        assert old(nodes)[..done + 1][..done] == old(nodes)[..done];
        assert nodes[i] == nodes[i..][0] == old(nodes)[done];
        assert old(nodes)[done..][1..] == old(nodes)[done + 1..];
        if now > nodes[i].lastSeen + tolerance {
          ghost var before := nodes;
          nodes := nodes[..i] + nodes[i + 1..];
          assert nodes[i..] == before[i..][1..] && nodes[..i] == before[..i];
        } else {
          assert nodes[..i + 1] == nodes[..i] + [nodes[i]] && nodes[i + 1..] == nodes[i..][1..];
          i := i + 1;
        }
        done := done + 1;
      }
      assert old(nodes)[..done] == old(nodes) && nodes[..i] == nodes;
    }
  }
}
