/** What the operations of the async hub leave, request by request, and when a waiting request is woken. */
module HubLaws {
  import opened Collections
  import opened Wrappers
  import opened HubModel
  import opened HubRuns

  // ---------------------------------------------------------------- timers

  /** A first timeout falls due that long after it was asked for. */
  lemma TimeoutIsDueIff(s: State, r: nat, timeout: int, now: int, later: int)
    requires r < |s.reqs| && s.reqs[r].timer.None?
    ensures Due(AddTimeout(s, r, timeout, now), r, later) <==> timeout > 0 && later >= now + timeout
  {}

  /** A second one changes no deadline. */
  lemma FirstDeadlineStays(s: State, r: nat, timeout: int, now: int, later: int)
    requires r < |s.reqs| && s.reqs[r].timer.Some?
    ensures Due(AddTimeout(s, r, timeout, now), r, later) <==> Due(s, r, later)
  {}

  /** The same of a timeout that comes with a descriptor. */
  lemma WatchIsDueIff(s: State, r: nat, fd: nat, write: bool, timeout: int, now: int, later: int)
    requires r < |s.reqs| && fd < |s.table|
    ensures Due(AddFd(s, r, fd, write, timeout, now), r, later) <==>
            if s.reqs[r].timer.Some? then Due(s, r, later) else timeout > 0 && later >= now + timeout
  {}

  /** Neither concerns anybody else, and neither queues or wakes the request. */
  lemma AskingLeaves(s: State, r: nat, fd: nat, write: bool, timeout: int, now: int, k: nat, later: int)
    requires Wf(s) && r < |s.reqs| && fd < |s.table| && k < |s.reqs| && k != r
    ensures var s' := AddTimeout(s, r, timeout, now);
            && s'.reqs[k] == s.reqs[k] && s'.queue == s.queue && s'.table == s.table
            && s'.reqs[r].waiting == s.reqs[r].waiting && !s'.reqs[r].ready
    ensures var s' := AddFd(s, r, fd, write, timeout, now);
            && s'.reqs[k] == s.reqs[k] && s'.queue == s.queue && s'.table == s.table[fd := Some(r)]
            && s'.reqs[r].waiting == s.reqs[r].waiting + [Wait(fd, write)]
            && s'.reqs[r].ready == (s.reqs[r].ready && timeout <= 0)
  {}

  // ---------------------------------------------------------------- waking

  /** A released request waits for nothing, no descriptor and no timer leads to it, and the others keep theirs. */
  lemma ResetLeaves(s: State, r: nat, k: nat)
    requires Wf(s) && r < |s.reqs| && k < |s.reqs| && k != r
    ensures var s' := Reset(s, r);
            && s'.reqs[r] == s.reqs[r].(waiting := [], timer := None) && s'.reqs[k] == s.reqs[k]
            && s'.queue == s.queue
            && (forall t :: t in s'.timers <==> t in s.timers && t.req != r)
            && Nowhere(s'.table, r)
            && (forall fd :: 0 <= fd < |s.table| && s.table[fd] == Some(k) && !WaitsOn(s.reqs[r], fd) ==>
                  s'.table[fd] == Some(k))
  {
    forall fd | 0 <= fd < |s.table|
      ensures Reset(s, r).table[fd] != Some(r)
    {
      if s.table[fd] == Some(r) {
        OwnerExists(s, fd);
      }
    }
  }

  /** An event on a descriptor goes to the request that registered it last, and says which descriptor it was. */
  lemma DispatchLeaves(s: State, fd: nat)
    requires Wf(s) && fd < |s.table|
    ensures s.table[fd].None? ==> Dispatch(s, fd) == s
    ensures s.table[fd].Some? ==>
              var s', r := Dispatch(s, fd), s.table[fd].value;
              && r < |s.reqs|
              && s'.reqs == s.reqs[r := s.reqs[r].(waiting := [], timer := None, ready := true, lastReady := fd)]
              && s'.queue == (if r in s.queue then s.queue else s.queue + [r])
  {}

  /** A request whose headers are parsed is queued once, waits for nothing, and starts with the status 0. */
  lemma AdmitLeaves(s: State, r: nat)
    requires Wf(s) && r < |s.reqs|
    ensures var s' := Admit(s, r);
            && s'.reqs == s.reqs[r := s.reqs[r].(waiting := [], timer := None, status := 0)]
            && s'.queue == (if r in s.queue then s.queue else s.queue + [r])
  {}

  /** Who was due is marked as timed out and keeps everything else; nobody else is touched, queued or taken out. */
  lemma ExpiryLeaves(s: State, now: int, s': State, r: nat)
    requires Wf(s) && ExpiredAt(s, now, s') && r < |s.reqs|
    ensures |s'.reqs| == |s.reqs|
    ensures s'.reqs[r] == if s.reqs[r].timer.Some? && s.reqs[r].timer.value <= now
                          then s.reqs[r].(waiting := [], timer := None, timedOut := true)
                          else s.reqs[r]
    ensures r in s'.queue <==> r in s.queue || (s.reqs[r].timer.Some? && s.reqs[r].timer.value <= now)
  {
    assert r in DueSet(s, now) <==> Due(s, r, now);
  }

  /** Only three events wake a request that waits outside the queue: that its headers are parsed, a clock at or past its
      deadline, and a descriptor that leads to it. Until then it stays as it is. */
  lemma WokenIff(s: State, e: Event, s': State, r: nat)
    requires Wf(s) && Next(s, e, s') && r < |s.reqs| && r !in s.queue
    ensures r < |s'.reqs|
    ensures r in s'.queue <==>
            || e == Parsed(r)
            || (e.Tick? && s.reqs[r].timer.Some? && s.reqs[r].timer.value <= e.now)
            || (e.Ready? && s.table[e.fd] == Some(r))
    ensures r !in s'.queue ==> s'.reqs[r] == s.reqs[r]
  {
    hide Play, PassFrom, Played, Stays;
    match e {
      case Parsed(k) => AdmitLeaves(s, k);
      case Ready(fd) => DispatchLeaves(s, fd);
      case Tick(now) => ExpiryLeaves(s, now, s', r);
      case Turns(turns) =>
        PassFacts(s, turns);
        SurvivorsAre(s.reqs, s.queue, turns, r);
    }
  }

  // ---------------------------------------------------------------- sleeping

  /** The request waits for its deadline and for nothing else. */
  predicate Sleeping(s: State, r: nat, deadline: int) {
    r < |s.reqs| && r !in s.queue && s.reqs[r].timer == Some(deadline) && s.reqs[r].waiting == []
  }

  predicate Rings(e: Event, deadline: int) {
    e.Tick? && e.now >= deadline
  }

  lemma SleeperStep(s: State, e: Event, s': State, r: nat, deadline: int)
    requires Wf(s) && Next(s, e, s') && Sleeping(s, r, deadline) && e != Parsed(r)
    ensures if Rings(e, deadline) then r in s'.queue && r < |s'.reqs| && s'.reqs[r].timedOut && !Waits(s'.reqs[r])
            else Sleeping(s', r, deadline) && s'.reqs[r] == s.reqs[r]
  {
    hide Wf, ExpiredAt, PassFrom, Dispatch, Admit;
    WokenIff(s, e, s', r);
    NobodysDescriptor(s, r);
    if Rings(e, deadline) {
      TickLeaves(s, e, s', r);
    }
  }

  lemma NobodysDescriptor(s: State, r: nat)
    requires Wf(s) && r < |s.reqs| && s.reqs[r].waiting == []
    ensures Nowhere(s.table, r)
  {
    forall fd | 0 <= fd < |s.table|
      ensures s.table[fd] != Some(r)
    {
      if s.table[fd] == Some(r) {
        OwnerExists(s, fd);
      }
    }
  }

  lemma TickLeaves(s: State, e: Event, s': State, r: nat)
    requires Wf(s) && Next(s, e, s') && e.Tick? && r < |s.reqs| && Due(s, r, e.now)
    ensures r < |s'.reqs| && s'.reqs[r].timedOut && !Waits(s'.reqs[r])
  {
    ExpiryLeaves(s, e.now, s', r);
  }

  /** Nothing wakes a sleeping request before its deadline, whatever else happens in between. */
  lemma {:induction false} SleepsUntil(states: seq<State>, events: seq<Event>, r: nat, deadline: int, m: nat, n: nat)
    requires Run(states, events) && m <= n < |states| && Sleeping(states[m], r, deadline)
    requires forall i :: m <= i < n ==> events[i] != Parsed(r) && !Rings(events[i], deadline)
    ensures Sleeping(states[n], r, deadline) && states[n].reqs[r] == states[m].reqs[r]
    decreases n - m
  {
    hide Wf, Next, Sleeping, Rings;
    if m < n {
      SleepsUntil(states, events, r, deadline, m, n - 1);
      assert Wf(states[n - 1]) && Next(states[n - 1], events[n - 1], states[n - 1 + 1]);
      SleeperStep(states[n - 1], events[n - 1], states[n], r, deadline);
    }
  }

  /** Over every run: a sleeping request gets into the queue exactly when a clock reaches its deadline. */
  lemma SleeperWakesIff(states: seq<State>, events: seq<Event>, r: nat, deadline: int, m: nat, n: nat)
    requires Run(states, events) && m <= n < |states| && Sleeping(states[m], r, deadline)
    requires forall i :: m <= i < n ==> events[i] != Parsed(r)
    ensures (exists i :: m < i <= n && r in states[i].queue) <==> exists i :: m <= i < n && Rings(events[i], deadline)
  {
    hide Wf, Next, Sleeping, Rings;
    if exists i :: m <= i < n && Rings(events[i], deadline) {
      var i := FirstRing(events, deadline, m, n);
      SleepsUntil(states, events, r, deadline, m, i);
      assert Wf(states[i]) && Next(states[i], events[i], states[i + 1]);
      SleeperStep(states[i], events[i], states[i + 1], r, deadline);
    } else {
      forall i | m < i <= n
        ensures r !in states[i].queue
      {
        SleepsUntil(states, events, r, deadline, m, i);
        IsAsleep(states[i], r, deadline);
      }
    }
  }

  lemma IsAsleep(s: State, r: nat, deadline: int)
    requires Sleeping(s, r, deadline)
    ensures r !in s.queue
  {}

  lemma {:induction false} FirstRing(events: seq<Event>, deadline: int, m: nat, n: nat) returns (i: nat)
    requires m <= n <= |events| && exists k :: m <= k < n && Rings(events[k], deadline)
    ensures m <= i < n && Rings(events[i], deadline) && forall k :: m <= k < i ==> !Rings(events[k], deadline)
    decreases n - m
  {
    if Rings(events[m], deadline) {
      i := m;
    } else {
      i := FirstRing(events, deadline, m + 1, n);
    }
  }

  // ---------------------------------------------------------------- what a turn asks for

  /** No act from position i on releases the request. */
  predicate Kept(acts: seq<Act>, i: nat) {
    forall k :: i <= k < |acts| ==> !acts[k].Release?
  }

  predicate Watches(act: Act, fd: nat) {
    act.Watch? && act.fd == fd
  }

  /** The act asks to be woken some time later. */
  predicate Asks(act: Act) {
    (act.Sleep? && act.timeout > 0) || (act.Watch? && act.fd >= 0 && act.timeout > 0)
  }

  /** At the end of its turn a request waits on the descriptors it asked for since it was last released. */
  lemma {:induction false} TurnWaitsOnIff(q: Request, acts: seq<Act>, fd: nat)
    ensures WaitsOn(Acted(q, acts), fd) <==>
            || (WaitsOn(q, fd) && Kept(acts, 0))
            || exists i :: 0 <= i < |acts| && Watches(acts[i], fd) && Kept(acts, i)
    decreases |acts|
  {
    if acts != [] {
      var n := |acts| - 1;
      var rest, act := acts[..n], acts[n];
      TurnWaitsOnIff(q, rest, fd);
      var p := Acted(q, rest);
      if act.Watch? && act.fd >= 0 {
        WithFdWaits(p, act.fd, act.write, act.timeout, act.now, fd);
      }
      KeptRest(acts);
      hide Kept, Acted;
      if exists i :: 0 <= i < n && Watches(rest[i], fd) && Kept(rest, i) {
        var i :| 0 <= i < n && Watches(rest[i], fd) && Kept(rest, i);
        assert acts[i] == rest[i];
      }
      if exists i :: 0 <= i < |acts| && Watches(acts[i], fd) && Kept(acts, i) {
        var i :| 0 <= i < |acts| && Watches(acts[i], fd) && Kept(acts, i);
        assert i < n ==> rest[i] == acts[i];
      }
    }
  }

  lemma KeptRest(acts: seq<Act>)
    requires acts != []
    ensures forall i :: 0 <= i <= |acts| - 1 ==>
              (Kept(acts, i) <==> Kept(acts[..|acts| - 1], i) && !acts[|acts| - 1].Release?)
  {
    var n := |acts| - 1;
    forall i | 0 <= i <= n
      ensures Kept(acts, i) <==> Kept(acts[..n], i) && !acts[n].Release?
    {
      assert forall k :: 0 <= k < n ==> acts[..n][k] == acts[k];
    }
  }

  /** And its timer is the one it had, unless it was released, or the first that it asked for since: the act at
      position i, if that is not the end. */
  lemma {:induction false} TurnTimer(q: Request, acts: seq<Act>, from: nat, i: nat)
    requires from <= i <= |acts| && Kept(acts, from) && (from == 0 || acts[from - 1].Release?)
    requires (forall j :: from <= j < i ==> !Asks(acts[j])) && (i < |acts| ==> Asks(acts[i]))
    ensures Acted(q, acts).timer ==
            if from == 0 && q.timer.Some? then q.timer
            else if i < |acts| then Some(acts[i].now + acts[i].timeout) else None
    decreases |acts|
  {
    if from < |acts| {
      var n := |acts| - 1;
      KeptRest(acts);
      TurnTimer(q, acts[..n], from, if i < n then i else n);
    }
  }

  /** What a turn leaves of its request: a status of at most 0 ends it, and any other goes on with what it asked for. */
  lemma TurnLeaves(s: State, r: nat, turn: Turn)
    requires Wf(s) && r < |s.reqs| && InRange(turn.acts, |s.table|)
    ensures var q := Play(s, r, turn).reqs[r];
            if turn.status <= 0 then q.status == 0 && q.waiting == [] && q.timer == None
            else q == Acted(s.reqs[r], turn.acts).(status := turn.status)
    ensures forall k :: 0 <= k < |s.reqs| && k != r ==> Play(s, r, turn).reqs[k] == s.reqs[k]
  {
    hide Play, Acted;
    PlayIsLocal(s, r, turn);
  }

  /** A queued request that in its turn sleeps and answers "again" is asleep after the pass, until now + timeout. */
  lemma SleepsAsAsked(s: State, turns: seq<Turn>, i: nat, timeout: int, now: int)
    requires Inv(s) && |turns| == |s.queue| && TurnsInRange(turns, |s.table|) && i < |turns|
    requires turns[i].acts == [Sleep(timeout, now)] && turns[i].status > 0 && timeout > 0
    ensures Sleeping(PassFrom(s, 0, turns), s.queue[i], now + timeout)
  {
    hide Play, PassFrom, Wf, TimersMatch;
    var r, acts := s.queue[i], turns[i].acts;
    InQueue(s, i);
    assert r in s.queue && !Waits(s.reqs[r]);
    var q := s.reqs[r];
    assert acts[..0] == [];
    assert Acted(q, acts[..0]) == q;
    assert Acted(q, acts) == WithTimeout(q, timeout, now);
    TurnTimer(q, acts, 0, 0);
    PassFacts(s, turns);
    PassKeeps(s, turns);
  }
}
