/** A schedule that satisfies what the convergence theorem asks for, from every legion of fixed membership:
    everyone checks, everyone announces, every announcement goes to everyone, everyone checks. */
module LegionSchedule {
  import opened LegionModel
  import opened LegionProtocol
  import opened LegionConvergence

  function CheckAll(n: nat): (es: seq<Event>)
    ensures |es| == n && forall i :: 0 <= i < n ==> es[i] == CheckNow(i, 1, Succeed)
  {
    seq(n, i requires 0 <= i < n => CheckNow(i, 1, Succeed))
  }

  function AnnounceAll(n: nat): (es: seq<Event>)
    ensures |es| == n && forall i :: 0 <= i < n ==> es[i] == Announce(i, 1)
  {
    seq(n, i requires 0 <= i < n => Announce(i, 1))
  }

  /** Announcements k0 to k0 + m - 1, each to members 0 to n - 1. */
  function DeliverAll(k0: nat, m: nat, n: nat): (es: seq<Event>)
    ensures forall e :: e in es ==> e.Deliver? && e.which >= k0 && e.now == 1
  {
    if m == 0 then [] else
      DeliverAll(k0, m - 1, n) + seq(n, i requires 0 <= i < n => Deliver(k0 + m - 1, i, 1))
  }

  lemma {:induction false} DeliveredToAll(k0: nat, m: nat, n: nat, v: nat, i: nat)
    requires v < m && i < n
    ensures Deliver(k0 + v, i, 1) in DeliverAll(k0, m, n)
  {
    if v < m - 1 {
      DeliveredToAll(k0, m - 1, n, v, i);
    } else {
      assert DeliverAll(k0, m, n)[|DeliverAll(k0, m - 1, n)| + i] == Deliver(k0 + v, i, 1);
    }
  }

  /** Deliveries announce nothing. */
  lemma {:induction false} Silent(w: World, es: seq<Event>)
    requires forall i :: 0 <= i < |es| ==> es[i].Deliver?
    ensures RunAll(w, es).sent == w.sent
  {
    if es != [] {
      Silent(w, es[..|es| - 1]);
    }
  }

  /** The first m members announce themselves, in order. */
  lemma {:induction false} Announced(w: World, r: seq<Instance>, m: nat)
    requires Fixed(w, r) && m <= |r|
    ensures var w' := RunAll(w, AnnounceAll(|r|)[..m]);
      && Fixed(w', r) && |w'.sent| == |w.sent| + m
      && forall v :: 0 <= v < m ==> w'.sent[|w.sent| + v].uuid == r[v].uuid
  {
    hide KnowsAll, Roster, FromMember;
    var es := AnnounceAll(|r|);
    FixedThroughout(w, r, es[..m]);
    if m > 0 {
      Announced(w, r, m - 1);
      assert es[..m][..m - 1] == es[..m - 1];
    }
  }

  /** Event p of b, after all of a. */
  lemma Later(w: World, a: seq<Event>, b: seq<Event>, p: nat)
    requires p < |b| && forall i :: 0 <= i < |b| ==> b[i].Deliver?
    ensures RunAll(w, (a + b)[..|a| + p]).sent == RunAll(w, a).sent && (a + b)[|a| + p] == b[p]
  {
    hide RunAll;
    RunSplit(w, a, b[..p]);
    Silent(RunAll(w, a), b[..p]);
    assert (a + b)[..|a| + p] == a + b[..p];
  }

  /** What was announced is handed to everyone. */
  lemma EveryoneHears(w: World, r: seq<Instance>, i: nat, v: nat)
    requires Fixed(w, r) && i < |r| && v < |r|
    ensures Hears(w, AnnounceAll(|r|) + DeliverAll(|w.sent|, |r|, |r|), i, r[v].uuid)
  {
    hide RunAll, Fixed, AnnounceAll, DeliverAll;
    var a, b := AnnounceAll(|r|), DeliverAll(|w.sent|, |r|, |r|);
    Announced(w, r, |r|);
    assert a[..|r|] == a;
    DeliveredToAll(|w.sent|, |r|, |r|, v, i);
    var p :| 0 <= p < |b| && b[p] == Deliver(|w.sent| + v, i, 1);
    Later(w, a, b, p);
    assert Hands(RunAll(w, (a + b)[..|a| + p]), (a + b)[|a| + p], i, r[v].uuid);
  }

  /** The round-robin schedule elects the best member, from every fixed legion. */
  lemma RoundRobinElects(w: World, r: seq<Instance>) returns (t1: seq<Event>, t2: seq<Event>, t3: seq<Event>, b: nat)
    requires Fixed(w, r)
    ensures AllSmooth(t1) && AllCheck(r, t1) && AllCheck(r, t3)
    ensures var k0 := |RunAll(w, t1).sent|; AllRecent(t2, k0) && AllHear(RunAll(w, t1), r, t2) && AllRecent(t3, k0)
    ensures var w3 := RunAll(RunAll(RunAll(w, t1), t2), t3);
      && b < |w3.members| == |r|
      && forall i :: 0 <= i < |r| ==> (w3.members[i].lord <==> i == b)
  {
    hide RunAll, Fixed, Hears;
    t1, t3 := CheckAll(|r|), CheckAll(|r|);
    forall i | 0 <= i < |r| ensures Checks(t1, i) {
      assert t1[i].CheckNow? && t1[i].who == i;
    }
    FixedThroughout(w, r, t1);
    var w1 := RunAll(w, t1);
    t2 := AnnounceAll(|r|) + DeliverAll(|w1.sent|, |r|, |r|);
    forall i, v | 0 <= i < |r| && 0 <= v < |r| && i != v ensures Hears(w1, t2, i, r[v].uuid) {
      EveryoneHears(w1, r, i, v);
    }
    b := OneLord(w, r, t1, t2, t3);
  }
}
