/** The async hub of core/async.c. */
module Async {
  import opened Collections
  import opened Wrappers
  import opened HubModel
  import HubRuns
  import opened RunQueues

  class Hub {
    var reqs: seq<Request>
    var table: seq<Option<nat>>
    var timers: set<Timer>
    const queue: RunQueue

    /** The hub as a value. */
    ghost function S(): State
      reads this, queue
    {
      State(reqs, table, timers, queue.Requests())
    }

    ghost predicate Valid()
      reads this, queue, queue.cells
    {
      queue.Valid() && Wf(S())
    }

    constructor (cores: nat, maxFd: nat)
      ensures Valid() && HubRuns.Initial(S()) && |reqs| == cores && |table| == maxFd
    {
      reqs := seq(cores, _ => Request([], None, false, false, 0, OK));
      table := seq(maxFd, _ => None);
      timers := {};
      queue := new RunQueue();
      new;
      assert queue.Requests() == [];
    }

    /** async_add_timeout */
    method AddTimeout(r: nat, timeout: int, now: int)
      requires Valid() && r < |reqs|
      modifies this
      ensures Valid() && S() == HubModel.AddTimeout(old(S()), r, timeout, now)
      ensures |reqs| == |old(reqs)| && !reqs[r].ready
      ensures reqs[r].timer ==
              if timeout > 0 && old(reqs[r].timer) == None then Some(now + timeout) else old(reqs[r].timer)
    {
      hide Wf, RunQueue.Valid;
      TimerIsThere(S(), r);
      AddTimeoutKeeps(S(), r, timeout, now);
      reqs := reqs[r := reqs[r].(ready := false)];
      if timeout > 0 && reqs[r].timer.None? {
        reqs := reqs[r := reqs[r].(timer := Some(now + timeout))];
        timers := timers + {Timer(now + timeout, r)};
      }
      assert S() == HubModel.AddTimeout(old(S()), r, timeout, now);
      assert queue.Valid();
    }

    /** async_add_fd_read and async_add_fd_write; monitor is what the event queue answers. */
    method AddFd(r: nat, fd: int, write: bool, timeout: int, now: int, monitor: int) returns (res: int)
      requires Valid() && r < |reqs| && fd < |table|
      modifies this
      ensures Valid() && S() == HubModel.AddFd(old(S()), r, fd, write, timeout, now)
      ensures |reqs| == |old(reqs)| && |table| == |old(table)|
      ensures fd < 0 ==> reqs == old(reqs) && table == old(table) && timers == old(timers)
      ensures fd >= 0 ==> table == old(table)[fd := Some(r)] &&
                          reqs[r].waiting == old(reqs[r].waiting) + [Wait(fd, write)]
      ensures fd >= 0 ==>
                reqs[r].timer ==
                if timeout > 0 && old(reqs[r].timer) == None then Some(now + timeout) else old(reqs[r].timer)
      ensures res == if fd < 0 then -1 else monitor
    {
      hide Wf, RunQueue.Valid;
      TimerIsThere(S(), r);
      AddFdKeeps(S(), r, fd, write, timeout, now);
      if fd < 0 {
        return -1;
      }
      reqs := reqs[r := reqs[r].(waiting := reqs[r].waiting + [Wait(fd, write)])];
      if timeout > 0 {
        reqs := reqs[r := reqs[r].(ready := false)];
        if reqs[r].timer.None? {
          reqs := reqs[r := reqs[r].(timer := Some(now + timeout))];
          timers := timers + {Timer(now + timeout, r)};
        }
      }
      table := table[fd := Some(r)];
      assert S() == HubModel.AddFd(old(S()), r, fd, write, timeout, now);
      assert queue.Valid();
      return monitor;
    }

    /** async_reset_request */
    method ResetRequest(r: nat)
      requires Valid() && r < |reqs|
      modifies this
      ensures Valid() && S() == Reset(old(S()), r)
    {
      hide RunQueue.Valid, Distinct, Owned, TimersMatch;
      ResetKeeps(S(), r);
      ghost var q := reqs[r];
      if reqs[r].timer.Some? {
        timers := timers - {Timer(reqs[r].timer.value, r)};
        reqs := reqs[r := reqs[r].(timer := None)];
      }
      var uaf := 0;
      while uaf < |reqs[r].waiting|
        invariant 0 <= uaf <= |q.waiting| && reqs == old(reqs)[r := q.(timer := None)]
        invariant timers == Reset(old(S()), r).timers
        invariant |table| == |old(table)| && InTable(q, |table|)
        invariant forall fd :: 0 <= fd < |table| ==>
          table[fd] == if WaitsOn(q.(waiting := q.waiting[..uaf]), fd) then None else old(table)[fd]
      {
        Prefix(q, uaf);
        table := table[reqs[r].waiting[uaf].fd := None];
        uaf := uaf + 1;
      }
      assert q.waiting[..uaf] == q.waiting;
      reqs := reqs[r := reqs[r].(waiting := [])];
      assert S() == Reset(old(S()), r);
      assert queue.Valid();
    }

    /** Reset, mark and queue one request: what the hub does to wake it. */
    method WakeUp(r: nat, q: Request)
      requires Valid() && r < |reqs| && !Waits(q)
      modifies this, queue, queue.cells
      ensures Valid() && S() == Wake(old(S()), r, q)
      ensures fresh(set c | c in queue.cells && c !in old(queue.cells))
    {
      hide RunQueue.Valid, Wf;
      HubRuns.WakeKeeps(S(), r, q);
      ResetRequest(r);
      reqs := reqs[r := q];
      assert queue.Valid();
      queue.Push(r);
      assert S() == Wake(old(S()), r, q);
    }

    /** async_expire_timeouts */
    method ExpireTimeouts(now: int)
      requires Valid()
      modifies this, queue, queue.cells
      ensures Valid() && HubRuns.ExpiredAt(old(S()), now, S())
      ensures fresh(set c | c in queue.cells && c !in old(queue.cells))
    {
      hide RunQueue.Valid, Wf, HubRuns.Expired, HubRuns.Ordered;
      ghost var s := S();
      ghost var woken: set<nat> := {};
      HubRuns.NoneExpired(s);
      HubRuns.NobodyOrdered(s, timers);
      while timers != {}
        invariant Valid() && HubRuns.Expired(s, woken, S()) && HubRuns.Ordered(s, woken, timers)
        invariant woken <= HubRuns.DueSet(s, now)
        invariant fresh(set c | c in queue.cells && c !in old(queue.cells))
        decreases |timers|
      {
        HubRuns.EarliestTimer(timers);
        var t :| t in timers && HubRuns.Earliest(t, timers);
        if t.value > now {
          break;
        }
        HubRuns.ExpireEarliest(s, woken, S(), t);
        HubRuns.SameCount(s, woken, S());
        WakeUp(t.req, TimedOut(reqs[t.req]));
        woken := woken + {t.req};
      }
      HubRuns.ExpiryEnds(s, now, woken, S());
    }

    /** An event on a descriptor that is no socket of the server. */
    method OnReady(fd: nat)
      requires Valid() && fd < |table|
      modifies this, queue, queue.cells
      ensures Valid() && S() == Dispatch(old(S()), fd)
    {
      var owner := table[fd];
      if owner.None? {
        return;
      }
      HubRuns.OwnerExists(S(), fd);
      WakeUp(owner.value, Cleared(reqs[owner.value]).(ready := true, lastReady := fd));
    }

    /** The protocol headers of a request are complete. */
    method OnParsed(r: nat)
      requires Valid() && r < |reqs|
      modifies this, queue, queue.cells
      ensures Valid() && S() == Admit(old(S()), r)
    {
      WakeUp(r, Cleared(reqs[r]).(status := OK));
    }

    /** schedule_to_req: the request does what its turn says. */
    method TakeTurn(r: nat, turn: Turn)
      requires Valid() && r < |reqs| && InRange(turn.acts, |table|)
      modifies this
      ensures Valid() && S() == Play(old(S()), r, turn)
    {
      hide RunQueue.Valid, Wf;
      HubRuns.PlayIsLocal(S(), r, turn);
      var i := 0;
      while i < |turn.acts|
        invariant 0 <= i <= |turn.acts| && Valid()
        invariant S() == DoAll(old(S()), r, turn.acts[..i])
      {
        assert turn.acts[..i + 1][..i] == turn.acts[..i];
        match turn.acts[i] {
          case Watch(fd, write, timeout, now) => var _ := AddFd(r, fd, write, timeout, now, 0);
          case Sleep(timeout, now) => AddTimeout(r, timeout, now);
          case Release => ResetRequest(r);
        }
        i := i + 1;
      }
      assert turn.acts[..i] == turn.acts;
      if turn.status <= OK {
        ResetRequest(r);
      }
      reqs := reqs[r := reqs[r].(status := if turn.status <= OK then OK else turn.status)];
      assert S() == Play(old(S()), r, turn);
      assert queue.Valid();
    }

    /** One round of the run-queue loop; the next cell is read before the turn is taken. */
    method Serve(current: Cell, turn: Turn, ghost k: nat) returns (next: Cell?)
      requires Valid() && k < |queue.cells| && queue.cells[k] == current && InRange(turn.acts, |table|)
      modifies this, queue, queue.cells
      ensures Valid() && S() == HubRuns.AfterTurn(old(S()), k, turn) && |table| == |old(table)|
      ensures next == At(queue.cells, HubRuns.NextPosition(old(S()), k, turn))
      ensures forall j :: 0 <= j < |queue.cells| ==> queue.cells[j] in old(queue.cells)
    {
      hide Wf, Play, HubRuns.Played;
      assert LinksAt(queue.cells, k);
      next := current.next;
      var r := current.req;
      assert queue.Requests()[k] == r;
      HubRuns.InQueue(S(), k);
      HubRuns.PlayIsLocal(S(), r, turn);
      TakeTurn(r, turn);
      ghost var s := S();
      if reqs[r].status <= OK || reqs[r].waiting != [] || reqs[r].timer.Some? {
        HubRuns.WithoutKeeps(s, k);
        queue.Remove(current, k);
        assert queue.Requests() == Cut(s.queue, k);
      }
    }

    /** The run-queue pass of async_loop; turns[i] is what the i-th queued request does. */
    method RunPass(turns: seq<Turn>)
      requires Valid() && |turns| == |queue.cells| && TurnsInRange(turns, |table|)
      modifies this, queue, queue.cells
      ensures Valid() && S() == PassFrom(old(S()), 0, turns)
    {
      hide Play, Stays, HubRuns.Played, Owned, InTable, TimersMatch, Distinct, RunQueue.Valid;
      FirstCell();
      var current := queue.first;
      ghost var k := 0;
      var i := 0;
      assert turns[0..] == turns;
      while current != null
        invariant Valid() && 0 <= i <= |turns| && 0 <= k <= |queue.cells| == k + |turns| - i
        invariant forall j :: 0 <= j < |queue.cells| ==> queue.cells[j] in old(queue.cells)
        invariant current == At(queue.cells, k) && |table| == |old(table)|
        invariant PassFrom(S(), k, turns[i..]) == PassFrom(old(S()), 0, turns)
        decreases |turns| - i
      {
        ghost var s := S();
        assert turns[i..][1..] == turns[i + 1..];
        HubRuns.PlayIsLocal(s, s.queue[k], turns[i]);
        HubRuns.TurnFacts(s, k, turns[i]);
        current := Serve(current, turns[i], k);
        k := HubRuns.NextPosition(s, k, turns[i]);
        i := i + 1;
      }
    }

    lemma FirstCell()
      requires queue.Valid()
      ensures queue.first == At(queue.cells, 0)
    {
    }

    static lemma Prefix(q: Request, k: nat)
      requires k < |q.waiting|
      ensures forall fd: nat :: WaitsOn(q.(waiting := q.waiting[..k + 1]), fd) <==>
        WaitsOn(q.(waiting := q.waiting[..k]), fd) || fd == q.waiting[k].fd
    {
      forall fd: nat
        ensures WaitsOn(q.(waiting := q.waiting[..k + 1]), fd) <==>
          WaitsOn(q.(waiting := q.waiting[..k]), fd) || fd == q.waiting[k].fd
      {
        assert q.waiting[..k + 1] == q.waiting[..k] + [q.waiting[k]];
        WithFdWaits(q.(waiting := q.waiting[..k]), q.waiting[k].fd, q.waiting[k].write, 0, 0, fd);
      }
    }
  }
}
