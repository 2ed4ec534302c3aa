/**
 * The async hub of core/async.c as a value: what each request waits for, the table that maps
 * a descriptor to the request it wakes, the timers and the run queue.
 */
module HubModel {
  import opened Collections
  import opened Wrappers

  /** struct uwsgi_async_fd */
  datatype Wait = Wait(fd: nat, write: bool)

  /** The part of struct wsgi_request the hub works on. */
  datatype Request = Request(
    waiting: seq<Wait>, timer: Option<int>, timedOut: bool, ready: bool, lastReady: int, status: int)

  datatype Timer = Timer(value: int, req: nat)

  datatype State = State(reqs: seq<Request>, table: seq<Option<nat>>, timers: set<Timer>, queue: seq<nat>)

  const OK := 0

  predicate WaitsOn(q: Request, fd: nat) {
    exists i :: 0 <= i < |q.waiting| && q.waiting[i].fd == fd
  }

  predicate Waits(q: Request) {
    q.waiting != [] || q.timer.Some?
  }

  // ---------------------------------------------------------------- one request

  function WithTimeout(q: Request, timeout: int, now: int): Request {
    q.(ready := false, timer := if timeout > 0 && q.timer.None? then Some(now + timeout) else q.timer)
  }

  function WithFd(q: Request, fd: nat, write: bool, timeout: int, now: int): Request {
    (if timeout > 0 then WithTimeout(q, timeout, now) else q).(waiting := q.waiting + [Wait(fd, write)])
  }

  function Cleared(q: Request): Request {
    q.(waiting := [], timer := None)
  }

  // ---------------------------------------------------------------- the hub

  function TimerOf(s: State, r: nat): set<Timer>
    requires r < |s.reqs|
  {
    if s.reqs[r].timer.Some? then {Timer(s.reqs[r].timer.value, r)} else {}
  }

  /** async_add_timeout */
  function AddTimeout(s: State, r: nat, timeout: int, now: int): State
    requires r < |s.reqs|
  {
    var s' := s.(reqs := s.reqs[r := WithTimeout(s.reqs[r], timeout, now)]);
    s'.(timers := s.timers + TimerOf(s', r))
  }

  /** async_add_fd_read and async_add_fd_write */
  function AddFd(s: State, r: nat, fd: int, write: bool, timeout: int, now: int): State
    requires r < |s.reqs| && fd < |s.table|
  {
    if fd < 0 then s else
      var s' := s.(reqs := s.reqs[r := WithFd(s.reqs[r], fd, write, timeout, now)],
                   table := s.table[fd := Some(r)]);
      s'.(timers := s.timers + TimerOf(s', r))
  }

  function Unwatch(table: seq<Option<nat>>, q: Request): (t: seq<Option<nat>>)
    ensures |t| == |table|
  {
    seq(|table|, fd requires 0 <= fd < |table| => if WaitsOn(q, fd) then None else table[fd])
  }

  /** async_reset_request */
  function Reset(s: State, r: nat): State
    requires r < |s.reqs|
  {
    State(s.reqs[r := Cleared(s.reqs[r])], Unwatch(s.table, s.reqs[r]), s.timers - TimerOf(s, r), s.queue)
  }

  function Push(queue: seq<nat>, r: nat): seq<nat> {
    if r in queue then queue else queue + [r]
  }

  /** A request is woken: it waits for nothing any more, becomes q and is queued. */
  function Wake(s: State, r: nat, q: Request): State
    requires r < |s.reqs|
  {
    var s' := Reset(s, r);
    s'.(reqs := s'.reqs[r := q], queue := Push(s.queue, r))
  }

  function TimedOut(q: Request): Request {
    Cleared(q).(timedOut := true)
  }

  /** An event on a descriptor the application registered; an unknown descriptor is closed. */
  function Dispatch(s: State, fd: nat): State
    requires fd < |s.table| && (s.table[fd].Some? ==> s.table[fd].value < |s.reqs|)
  {
    if s.table[fd].None? then s else
      var r := s.table[fd].value;
      Wake(s, r, Cleared(s.reqs[r]).(ready := true, lastReady := fd))
  }

  /** A request whose protocol headers are parsed is put in the run queue. */
  function Admit(s: State, r: nat): State
    requires r < |s.reqs|
  {
    Wake(s, r, Cleared(s.reqs[r]).(status := OK))
  }

  // ---------------------------------------------------------------- the run-queue pass

  /** What the code of a request may do to the hub while it has the CPU. */
  datatype Act = Watch(fd: int, write: bool, timeout: int, now: int) | Sleep(timeout: int, now: int) | Release

  /** One turn of a request: what it asks of the hub, and the status it returns. */
  datatype Turn = Turn(acts: seq<Act>, status: int)

  predicate InRange(acts: seq<Act>, n: nat) {
    forall i :: 0 <= i < |acts| && acts[i].Watch? ==> acts[i].fd < n
  }

  predicate TurnsInRange(turns: seq<Turn>, n: nat) {
    forall i :: 0 <= i < |turns| ==> InRange(turns[i].acts, n)
  }

  function Do(s: State, r: nat, act: Act): (s': State)
    requires r < |s.reqs| && (act.Watch? ==> act.fd < |s.table|)
  {
    match act
    case Watch(fd, write, timeout, now) => AddFd(s, r, fd, write, timeout, now)
    case Sleep(timeout, now) => AddTimeout(s, r, timeout, now)
    case Release => Reset(s, r)
  }

  function DoAll(s: State, r: nat, acts: seq<Act>): (s': State)
    requires r < |s.reqs| && InRange(acts, |s.table|)
    ensures |s'.reqs| == |s.reqs| && |s'.table| == |s.table| && s'.queue == s.queue
    decreases |acts|
  {
    if acts == [] then s else
      var rest := acts[..|acts| - 1];
      Do(DoAll(s, r, rest), r, acts[|acts| - 1])
  }

  /** schedule_to_req: a request that ended is reset and its status becomes OK. */
  function Play(s: State, r: nat, turn: Turn): (s': State)
    requires r < |s.reqs| && InRange(turn.acts, |s.table|)
    ensures |s'.reqs| == |s.reqs| && |s'.table| == |s.table| && s'.queue == s.queue
  {
    var s' := DoAll(s, r, turn.acts);
    var e := if turn.status <= OK then Reset(s', r) else s';
    e.(reqs := e.reqs[r := e.reqs[r].(status := if turn.status <= OK then OK else turn.status)])
  }

  predicate Stays(q: Request) {
    q.status > OK && !Waits(q)
  }

  predicate Bounded(queue: seq<nat>, n: nat) {
    forall i :: 0 <= i < |queue| ==> queue[i] < n
  }

  /** The rest of a pass, from queue position k: each request there takes its turn. */
  function PassFrom(s: State, k: nat, turns: seq<Turn>): (s': State)
    requires |s.queue| == k + |turns| && Bounded(s.queue, |s.reqs|)
    requires TurnsInRange(turns, |s.table|)
    ensures |s'.reqs| == |s.reqs| && |s'.table| == |s.table|
    decreases |turns|
  {
    if turns == [] then s else
      var r := s.queue[k];
      var s' := Play(s, r, turns[0]);
      if Stays(s'.reqs[r]) then
        PassFrom(s', k + 1, turns[1..])
      else
        PassFrom(s'.(queue := Cut(s.queue, k)), k, turns[1..])
  }

  // ---------------------------------------------------------------- invariants

  /** Every request has at most one timer, and the timers are exactly those. */
  predicate TimersMatch(reqs: seq<Request>, timers: set<Timer>) {
    && (forall r :: 0 <= r < |reqs| && reqs[r].timer.Some? ==> Timer(reqs[r].timer.value, r) in timers)
    && (forall t :: t in timers ==> t.req < |reqs| && reqs[t.req].timer == Some(t.value))
  }

  /** A table entry names a request that waits on that descriptor. */
  predicate Owned(reqs: seq<Request>, table: seq<Option<nat>>) {
    forall fd :: 0 <= fd < |table| && table[fd].Some? ==>
      table[fd].value < |reqs| && WaitsOn(reqs[table[fd].value], fd)
  }

  predicate InTable(q: Request, n: nat) {
    forall i :: 0 <= i < |q.waiting| ==> q.waiting[i].fd < n
  }

  ghost predicate Wf(s: State) {
    && Distinct(s.queue)
    && Bounded(s.queue, |s.reqs|)
    && (forall r :: 0 <= r < |s.reqs| ==> InTable(s.reqs[r], |s.table|))
    && TimersMatch(s.reqs, s.timers)
    && Owned(s.reqs, s.table)
  }

  /** The other half of the mirror: whatever a request waits on wakes that request. */
  ghost predicate Registered(s: State) {
    forall r: nat, fd: nat {:trigger WaitsOn(s.reqs[r], fd)} :: r < |s.reqs| && WaitsOn(s.reqs[r], fd) ==>
        fd < |s.table| && s.table[fd] == Some(r)
  }

  /** A request that answered "again" is queued or waits for something. */
  predicate NotLost(s: State) {
    forall r :: 0 <= r < |s.reqs| && s.reqs[r].status > OK ==> r in s.queue || Waits(s.reqs[r])
  }

  /** Between two passes a queued request waits for nothing. */
  predicate Parked(s: State) {
    forall r :: r in s.queue && r < |s.reqs| ==> !Waits(s.reqs[r])
  }

  // ---------------------------------------------------------------- what each step keeps

  lemma WithFdWaits(q: Request, fd: nat, write: bool, timeout: int, now: int, x: nat)
    ensures WaitsOn(WithFd(q, fd, write, timeout, now), x) <==> WaitsOn(q, x) || x == fd
  {
    var q' := WithFd(q, fd, write, timeout, now);
    if WaitsOn(q, x) {
      var i :| 0 <= i < |q.waiting| && q.waiting[i].fd == x;
      assert q'.waiting[i].fd == x;
    }
    assert q'.waiting[|q.waiting|].fd == fd;
  }

  lemma TimerIsThere(s: State, r: nat)
    requires Wf(s) && r < |s.reqs|
    ensures TimerOf(s, r) <= s.timers
  {
  }

  lemma AddTimeoutKeeps(s: State, r: nat, timeout: int, now: int)
    requires Wf(s) && r < |s.reqs|
    ensures Wf(AddTimeout(s, r, timeout, now))
    ensures Registered(s) ==> Registered(AddTimeout(s, r, timeout, now))
  {
    var s' := AddTimeout(s, r, timeout, now);
    assert forall k :: 0 <= k < |s.reqs| ==> s'.reqs[k].waiting == s.reqs[k].waiting;
    assert forall k, fd: nat :: 0 <= k < |s.reqs| ==> (WaitsOn(s'.reqs[k], fd) <==> WaitsOn(s.reqs[k], fd));
  }

  lemma AddFdKeeps(s: State, r: nat, fd: int, write: bool, timeout: int, now: int)
    requires Wf(s) && r < |s.reqs| && fd < |s.table|
    ensures Wf(AddFd(s, r, fd, write, timeout, now))
  {
    if fd >= 0 {
      var s' := AddFd(s, r, fd, write, timeout, now);
      forall x | 0 <= x < |s.table| && s'.table[x].Some?
        ensures s'.table[x].value < |s'.reqs| && WaitsOn(s'.reqs[s'.table[x].value], x)
      {
        WithFdWaits(s.reqs[r], fd, write, timeout, now, x);
      }
    }
  }

  /**
   * The table goes on mirroring the wait lists exactly when the descriptor was free
   * or already belonged to the request that asks.
   */
  lemma AddFdKeepsMirrorIff(s: State, r: nat, fd: int, write: bool, timeout: int, now: int)
    requires Wf(s) && Registered(s) && r < |s.reqs| && fd < |s.table|
    ensures Registered(AddFd(s, r, fd, write, timeout, now)) <==>
            fd < 0 || s.table[fd].None? || s.table[fd] == Some(r)
  {
    if fd >= 0 {
      var s' := AddFd(s, r, fd, write, timeout, now);
      if s.table[fd].Some? && s.table[fd].value != r {
        var k := s.table[fd].value;
        assert WaitsOn(s'.reqs[k], fd) && s'.table[fd] != Some(k);
      } else {
        forall k: nat, x: nat {:trigger WaitsOn(s'.reqs[k], x)} | 0 <= k < |s'.reqs| && WaitsOn(s'.reqs[k], x)
          ensures x < |s'.table| && s'.table[x] == Some(k)
        {
          WithFdWaits(s.reqs[r], fd, write, timeout, now, x);
        }
        assert Registered(s');
      }
    }
  }

  lemma ResetKeeps(s: State, r: nat)
    requires Wf(s) && r < |s.reqs|
    ensures Wf(Reset(s, r))
    ensures Registered(s) ==> Registered(Reset(s, r))
  {
    var s' := Reset(s, r);
    forall x | 0 <= x < |s'.table| && s'.table[x].Some?
      ensures s'.table[x].value < |s'.reqs| && WaitsOn(s'.reqs[s'.table[x].value], x)
    {
      assert s'.table[x] == s.table[x] && !WaitsOn(s.reqs[r], x);
    }
    if Registered(s) {
      forall k: nat, x: nat {:trigger WaitsOn(s'.reqs[k], x)} | 0 <= k < |s'.reqs| && WaitsOn(s'.reqs[k], x)
        ensures x < |s'.table| && s'.table[x] == Some(k)
      {
        assert k != r && s.table[x] == Some(k);
        assert !WaitsOn(s.reqs[r], x);
      }
      assert Registered(s');
    }
  }
}
