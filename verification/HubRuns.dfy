/** What every run of the async hub keeps. */
module HubRuns {
  import opened Collections
  import opened Wrappers
  import opened HubModel

  // ---------------------------------------------------------------- waking one request

  lemma WakeKeeps(s: State, r: nat, q: Request)
    requires Wf(s) && r < |s.reqs| && !Waits(q)
    ensures Wf(Wake(s, r, q))
    ensures Registered(s) ==> Registered(Wake(s, r, q))
    ensures NotLost(s) ==> NotLost(Wake(s, r, q))
    ensures Parked(s) ==> Parked(Wake(s, r, q))
  {
    ResetKeeps(s, r);
    var t := Reset(s, r);
    var s' := Wake(s, r, q);
    assert forall k, fd: nat :: 0 <= k < |s.reqs| ==> (WaitsOn(s'.reqs[k], fd) <==> WaitsOn(t.reqs[k], fd));
  }

  // ---------------------------------------------------------------- expiry

  /** The timer of request r is due. */
  predicate Due(s: State, r: nat, now: int) {
    r < |s.reqs| && s.reqs[r].timer.Some? && s.reqs[r].timer.value <= now
  }

  function DueSet(s: State, now: int): set<nat> {
    set r | 0 <= r < |s.reqs| && Due(s, r, now)
  }

  function Deadline(s: State, r: nat): int {
    if r < |s.reqs| && s.reqs[r].timer.Some? then s.reqs[r].timer.value else 0
  }

  /** Some request in the set waits on the descriptor. */
  ghost predicate AnyWaits(s: State, woken: set<nat>, fd: nat) {
    exists r :: r in woken && r < |s.reqs| && WaitsOn(s.reqs[r], fd)
  }

  /** The requests in the set, and no others, were timed out, in the order of their deadlines. */
  ghost predicate Expired(s: State, woken: set<nat>, s': State) {
    && |s'.reqs| == |s.reqs| && |s'.table| == |s.table|
    && (forall r :: 0 <= r < |s.reqs| ==> s'.reqs[r] == if r in woken then TimedOut(s.reqs[r]) else s.reqs[r])
    && (forall fd :: 0 <= fd < |s.table| ==> s'.table[fd] == if AnyWaits(s, woken, fd) then None else s.table[fd])
    && s'.timers == (set t | t in s.timers && t.req !in woken)
    && Appended(s, s.queue, woken, s'.queue)
  }

  ghost predicate Appended(s: State, queue: seq<nat>, woken: set<nat>, queue': seq<nat>) {
    && |queue| <= |queue'| && queue'[..|queue|] == queue
    && Distinct(queue')
    && (forall r :: r in queue' <==> r in queue || r in woken)
    && (forall i, j :: |queue| <= i < j < |queue'| ==> Deadline(s, queue'[i]) <= Deadline(s, queue'[j]))
  }

  /** async_expire_timeouts: exactly the requests whose timer is due are woken. */
  ghost predicate ExpiredAt(s: State, now: int, s': State) {
    Expired(s, DueSet(s, now), s')
  }

  lemma NoneExpired(s: State)
    requires Wf(s)
    ensures Expired(s, {}, s)
  {
    assert s.queue[..|s.queue|] == s.queue;
  }

  lemma AppendOne(s: State, queue: seq<nat>, woken: set<nat>, queue': seq<nat>, r: nat)
    requires Appended(s, queue, woken, queue')
    requires forall k :: k in woken ==> Deadline(s, k) <= Deadline(s, r)
    ensures Appended(s, queue, woken + {r}, Push(queue', r))
  {
    var q := Push(queue', r);
    if r !in queue' {
      assert q[..|queue|] == queue;
      forall i, j | |queue| <= i < j < |q| ensures Deadline(s, q[i]) <= Deadline(s, q[j]) {
        if j == |queue'| {
          assert q[i] in queue';
        }
      }
    }
  }

  /** One more due timer. */
  lemma ExpireOneMore(s: State, woken: set<nat>, s': State, r: nat)
    requires Wf(s) && Expired(s, woken, s') && r < |s.reqs| && r !in woken
    requires s.reqs[r].timer.Some?
    requires forall k :: k in woken ==> Deadline(s, k) <= Deadline(s, r)
    ensures Expired(s, woken + {r}, Wake(s', r, TimedOut(s'.reqs[r])))
  {
    var more := woken + {r};
    var n := Wake(s', r, TimedOut(s'.reqs[r]));
    AppendOne(s, s.queue, woken, s'.queue, r);
    forall fd | 0 <= fd < |s.table| ensures n.table[fd] == if AnyWaits(s, more, fd) then None else s.table[fd] {
      assert AnyWaits(s, more, fd) <==> AnyWaits(s, woken, fd) || WaitsOn(s.reqs[r], fd) by {
        if AnyWaits(s, more, fd) {
          var k :| k in more && k < |s.reqs| && WaitsOn(s.reqs[k], fd);
        }
      }
    }
    assert n.timers == (set t | t in s.timers && t.req !in more);
  }

  lemma {:induction false} EarliestTimer(timers: set<Timer>)
    requires timers != {}
    ensures exists t :: t in timers && Earliest(t, timers)
  {
    var t :| t in timers;
    var rest := timers - {t};
    if rest == {} {
      assert timers == {t};
      assert Earliest(t, timers);
    } else {
      EarliestTimer(rest);
      var u :| u in rest && Earliest(u, rest);
      assert timers == rest + {t};
      assert Earliest(if t.value <= u.value then t else u, timers);
    }
  }

  predicate Earliest(t: Timer, timers: set<Timer>) {
    forall u :: u in timers ==> t.value <= u.value
  }

  /** Nobody woken so far had a later deadline than a timer that is left. */
  ghost predicate Ordered(s: State, woken: set<nat>, timers: set<Timer>) {
    forall k, t :: k in woken && t in timers ==> Deadline(s, k) <= t.value
  }

  lemma NobodyOrdered(s: State, timers: set<Timer>)
    ensures Ordered(s, {}, timers)
  {
  }

  /** The earliest timer left is the timer of one request that was not woken yet. */
  lemma ExpireEarliest(s: State, woken: set<nat>, s': State, t: Timer)
    requires Wf(s) && Expired(s, woken, s') && Ordered(s, woken, s'.timers)
    requires t in s'.timers && Earliest(t, s'.timers)
    ensures t.req < |s.reqs| && t.req !in woken && s.reqs[t.req].timer == Some(t.value)
    ensures var n := Wake(s', t.req, TimedOut(s'.reqs[t.req]));
      && Expired(s, woken + {t.req}, n) && Ordered(s, woken + {t.req}, n.timers) && n.timers == s'.timers - {t}
  {
    hide AnyWaits, Appended, WaitsOn;
    ExpireOneMore(s, woken, s', t.req);
  }

  lemma SameCount(s: State, woken: set<nat>, s': State)
    requires Expired(s, woken, s')
    ensures |s'.reqs| == |s.reqs|
  {
  }

  /** When no timer is due any more, those woken are exactly those whose timer was due. */
  lemma ExpiryEnds(s: State, now: int, woken: set<nat>, s': State)
    requires Wf(s) && Expired(s, woken, s') && woken <= DueSet(s, now)
    requires forall t :: t in s'.timers ==> t.value > now
    ensures ExpiredAt(s, now, s')
  {
    forall r | r in DueSet(s, now) ensures r in woken {
      assert Timer(s.reqs[r].timer.value, r) in s.timers;
    }
    assert woken == DueSet(s, now);
  }

  lemma {:induction false} ExpiryHappens(s: State, now: int, woken: set<nat>, s': State) returns (e: State)
    requires Wf(s) && Expired(s, woken, s') && Ordered(s, woken, s'.timers) && woken <= DueSet(s, now)
    ensures ExpiredAt(s, now, e)
    decreases |s'.timers|
  {
    hide AnyWaits, Appended, WaitsOn, Ordered;
    if forall t :: t in s'.timers ==> t.value > now {
      ExpiryEnds(s, now, woken, s');
      e := s';
    } else {
      EarliestTimer(s'.timers);
      var t :| t in s'.timers && Earliest(t, s'.timers);
      ExpireEarliest(s, woken, s', t);
      e := ExpiryHappens(s, now, woken + {t.req}, Wake(s', t.req, TimedOut(s'.reqs[t.req])));
    }
  }

  lemma OnceEach(queue: seq<nat>, r: nat)
    requires Distinct(queue) && r in queue
    ensures multiset(queue)[r] == 1
  {
    var k :| 0 <= k < |queue| && queue[k] == r;
    assert queue == queue[..k] + [r] + queue[k + 1..];
    assert r !in queue[..k] && r !in queue[k + 1..];
  }

  lemma ExpiryKeepsTable(s: State, woken: set<nat>, s': State)
    requires Wf(s) && Expired(s, woken, s')
    ensures Owned(s'.reqs, s'.table)
    ensures Registered(s) ==> Registered(s')
  {
    forall fd | 0 <= fd < |s'.table| && s'.table[fd].Some?
      ensures s'.table[fd].value < |s'.reqs| && WaitsOn(s'.reqs[s'.table[fd].value], fd)
    {
      assert s'.table[fd] == s.table[fd] && !AnyWaits(s, woken, fd);
      assert WaitsOn(s.reqs[s.table[fd].value], fd);
    }
    if Registered(s) {
      forall k: nat, x: nat {:trigger WaitsOn(s'.reqs[k], x)} | k < |s'.reqs| && WaitsOn(s'.reqs[k], x)
        ensures x < |s'.table| && s'.table[x] == Some(k)
      {
        assert k !in woken && WaitsOn(s.reqs[k], x);
        assert !AnyWaits(s, woken, x);
      }
    }
  }

  /** What a caller may rely on after the timeouts are expired. */
  lemma ExpiryFacts(s: State, now: int, s': State)
    requires Wf(s) && ExpiredAt(s, now, s')
    ensures Wf(s')
    ensures forall t :: t in s'.timers ==> t.value > now
    ensures forall r: nat :: Due(s, r, now) ==>
      s'.reqs[r].timedOut && !Waits(s'.reqs[r]) && multiset(s'.queue)[r] == 1
    ensures forall r :: 0 <= r < |s.reqs| && !Due(s, r, now) ==> s'.reqs[r] == s.reqs[r]
    ensures forall fd :: 0 <= fd < |s'.table| && s'.table[fd].Some? ==> !Due(s, s'.table[fd].value, now)
    ensures Registered(s) ==> Registered(s')
    ensures NotLost(s) ==> NotLost(s')
    ensures Parked(s) ==> Parked(s')
  {
    var woken := DueSet(s, now);
    ExpiryKeepsTable(s, woken, s');
    forall i | 0 <= i < |s'.queue| ensures s'.queue[i] < |s'.reqs| {
      assert s'.queue[i] in s'.queue;
    }
    forall r: nat | Due(s, r, now) ensures multiset(s'.queue)[r] == 1 {
      assert r in woken;
      OnceEach(s'.queue, r);
    }
  }

  // ---------------------------------------------------------------- the run-queue pass

  function ActedOn(q: Request, act: Act): Request {
    match act
    case Watch(fd, write, timeout, now) => if fd < 0 then q else WithFd(q, fd, write, timeout, now)
    case Sleep(timeout, now) => WithTimeout(q, timeout, now)
    case Release => Cleared(q)
  }

  function Acted(q: Request, acts: seq<Act>): Request
    decreases |acts|
  {
    if acts == [] then q else
      var rest := acts[..|acts| - 1];
      ActedOn(Acted(q, rest), acts[|acts| - 1])
  }

  /** The request by itself after its turn. */
  function Played(q: Request, turn: Turn): Request {
    var q' := Acted(q, turn.acts);
    if turn.status <= OK then Cleared(q').(status := OK) else q'.(status := turn.status)
  }

  lemma {:induction false} DoAllIsLocal(s: State, r: nat, acts: seq<Act>)
    requires Wf(s) && r < |s.reqs| && InRange(acts, |s.table|)
    ensures Wf(DoAll(s, r, acts))
    ensures DoAll(s, r, acts).reqs == s.reqs[r := Acted(s.reqs[r], acts)]
    ensures forall k: nat :: k != r && Nowhere(s.table, k) ==> Nowhere(DoAll(s, r, acts).table, k)
    decreases |acts|
  {
    if acts != [] {
      var rest, act := acts[..|acts| - 1], acts[|acts| - 1];
      DoAllIsLocal(s, r, rest);
      DoKeeps(DoAll(s, r, rest), r, act);
    }
  }

  /** No descriptor wakes the request. */
  predicate Nowhere(table: seq<Option<nat>>, k: nat) {
    forall fd :: 0 <= fd < |table| ==> table[fd] != Some(k)
  }

  lemma DoKeeps(s: State, r: nat, act: Act)
    requires Wf(s) && r < |s.reqs| && (act.Watch? ==> act.fd < |s.table|)
    ensures Wf(Do(s, r, act))
    ensures Do(s, r, act).reqs == s.reqs[r := ActedOn(s.reqs[r], act)]
    ensures forall k: nat :: k != r && Nowhere(s.table, k) ==> Nowhere(Do(s, r, act).table, k)
  {
    match act {
      case Watch(fd, write, timeout, now) => AddFdKeeps(s, r, fd, write, timeout, now);
      case Sleep(timeout, now) => AddTimeoutKeeps(s, r, timeout, now);
      case Release => ResetKeeps(s, r);
    }
  }

  /** A turn changes its own request only. */
  lemma PlayIsLocal(s: State, r: nat, turn: Turn)
    requires Wf(s) && r < |s.reqs| && InRange(turn.acts, |s.table|)
    ensures Wf(Play(s, r, turn))
    ensures Play(s, r, turn).reqs == s.reqs[r := Played(s.reqs[r], turn)]
    ensures forall k: nat :: k != r && Nowhere(s.table, k) ==> Nowhere(Play(s, r, turn).table, k)
  {
    hide DoAll, Acted;
    DoAllIsLocal(s, r, turn.acts);
    var m := DoAll(s, r, turn.acts);
    ResetKeeps(m, r);
    var e := if turn.status <= OK then Reset(m, r) else m;
    var s' := Play(s, r, turn);
    assert forall k, fd: nat :: 0 <= k < |s.reqs| ==> (WaitsOn(s'.reqs[k], fd) <==> WaitsOn(e.reqs[k], fd));
  }

  /** Of the requests in todo, those that neither ended nor wait for anything after their turn. */
  function Survivors(reqs: seq<Request>, todo: seq<nat>, turns: seq<Turn>): seq<nat>
    requires |todo| == |turns| && Bounded(todo, |reqs|)
  {
    if todo == [] then [] else
      (if Stays(Played(reqs[todo[0]], turns[0])) then [todo[0]] else [])
      + Survivors(reqs, todo[1..], turns[1..])
  }

  lemma {:induction false} SurvivorsOfOthers(reqs: seq<Request>, todo: seq<nat>, turns: seq<Turn>, r: nat, q: Request)
    requires |todo| == |turns| && Bounded(todo, |reqs|) && r < |reqs| && r !in todo
    ensures Survivors(reqs[r := q], todo, turns) == Survivors(reqs, todo, turns)
  {
    if todo != [] {
      assert todo[0] in todo;
      SurvivorsOfOthers(reqs, todo[1..], turns[1..], r, q);
    }
  }

  lemma WithoutKeeps(s: State, k: nat)
    requires Wf(s) && k < |s.queue|
    ensures Wf(s.(queue := Cut(s.queue, k)))
  {
  }

  lemma InQueue(s: State, k: nat)
    requires Wf(s) && k < |s.queue|
    ensures s.queue[k] < |s.reqs|
  {
  }

  /** One turn of a pass: the state and the position that follow, as PassFrom goes on from them. */
  function AfterTurn(s: State, k: nat, turn: Turn): (s': State)
    requires Wf(s) && k < |s.queue| && InRange(turn.acts, |s.table|)
  {
    var s' := Play(s, s.queue[k], turn);
    if Stays(s'.reqs[s.queue[k]]) then s' else s'.(queue := Cut(s.queue, k))
  }

  function NextPosition(s: State, k: nat, turn: Turn): nat
    requires k < |s.queue| && s.queue[k] < |s.reqs|
  {
    if Stays(Played(s.reqs[s.queue[k]], turn)) then k + 1 else k
  }

  lemma TurnFacts(s: State, k: nat, turn: Turn)
    requires Wf(s) && k < |s.queue| && InRange(turn.acts, |s.table|)
    ensures var s', k' := AfterTurn(s, k, turn), NextPosition(s, k, turn);
      && Wf(s') && |s'.table| == |s.table|
      && s'.reqs == s.reqs[s.queue[k] := Played(s.reqs[s.queue[k]], turn)]
      && k' <= |s'.queue| && s'.queue[k'..] == s.queue[k + 1..]
      && s'.queue[..k'] == s.queue[..k] + (if k' == k then [] else [s.queue[k]])
      && (forall r: nat :: r != s.queue[k] && Nowhere(s.table, r) ==> Nowhere(s'.table, r))
  {
    hide Play, Played, Stays, Owned, TimersMatch, InTable, Nowhere;
    PlayIsLocal(s, s.queue[k], turn);
    WithoutKeeps(Play(s, s.queue[k], turn), k);
  }

  lemma PassStep(s: State, k: nat, turns: seq<Turn>)
    requires Wf(s) && |s.queue| == k + |turns| && TurnsInRange(turns, |s.table|) && turns != []
    ensures var s', k' := AfterTurn(s, k, turns[0]), NextPosition(s, k, turns[0]);
      && Wf(s') && |s'.table| == |s.table| && |s'.queue| == k' + |turns[1..]| && TurnsInRange(turns[1..], |s'.table|)
      && PassFrom(s, k, turns) == PassFrom(s', k', turns[1..])
  {
    hide Play, Played, Stays, Owned, TimersMatch, InTable, Nowhere;
    PlayIsLocal(s, s.queue[k], turns[0]);
    TurnFacts(s, k, turns[0]);
  }

  lemma QueueSplit(s: State, k: nat)
    requires Wf(s) && k < |s.queue|
    ensures s.queue[k..] == [s.queue[k]] + s.queue[k + 1..] && s.queue[k] !in s.queue[k + 1..]
  {
  }

  lemma SurvivorsCons(reqs: seq<Request>, r: nat, todo: seq<nat>, turns: seq<Turn>)
    requires 1 + |todo| == |turns| && Bounded([r] + todo, |reqs|) && Bounded(todo, |reqs|) && r < |reqs|
    ensures Survivors(reqs, [r] + todo, turns) ==
      (if Stays(Played(reqs[r], turns[0])) then [r] else []) + Survivors(reqs, todo, turns[1..])
  {
    assert ([r] + todo)[1..] == todo;
  }

  lemma SurvivorsStep(s: State, k: nat, turns: seq<Turn>)
    requires Wf(s) && |s.queue| == k + |turns| && TurnsInRange(turns, |s.table|) && turns != []
    ensures var s', k' := AfterTurn(s, k, turns[0]), NextPosition(s, k, turns[0]);
      && |s'.queue| == k' + |turns[1..]| && Bounded(s'.queue, |s'.reqs|)
      && s'.queue[..k'] + Survivors(s'.reqs, s'.queue[k'..], turns[1..])
         == s.queue[..k] + Survivors(s.reqs, s.queue[k..], turns)
  {
    hide Play, Played, Stays, Owned, TimersMatch, InTable, Nowhere, AfterTurn, Distinct, Survivors, InRange, PassFrom;
    TurnFacts(s, k, turns[0]);
    PassStep(s, k, turns);
    QueueSplit(s, k);
    var r, todo := s.queue[k], s.queue[k + 1..];
    SurvivorsOfOthers(s.reqs, todo, turns[1..], r, Played(s.reqs[r], turns[0]));
    SurvivorsCons(s.reqs, r, todo, turns);
    Concat(s.queue[..k], if Stays(Played(s.reqs[r], turns[0])) then [r] else [], Survivors(s.reqs, todo, turns[1..]));
  }

  lemma Concat(a: seq<nat>, b: seq<nat>, d: seq<nat>)
    ensures (a + b) + d == a + (b + d)
  {}

  lemma {:induction false} PassSurvivors(s: State, k: nat, turns: seq<Turn>)
    requires Wf(s) && |s.queue| == k + |turns| && TurnsInRange(turns, |s.table|)
    ensures Wf(PassFrom(s, k, turns))
    ensures PassFrom(s, k, turns).queue == s.queue[..k] + Survivors(s.reqs, s.queue[k..], turns)
    ensures forall r: nat :: r !in s.queue[k..] && Nowhere(s.table, r) ==> Nowhere(PassFrom(s, k, turns).table, r)
    decreases |turns|
  {
    hide Played, Stays, Owned, TimersMatch, InTable, Nowhere, AfterTurn, NextPosition, InRange, Distinct;
    if turns == [] {
      assert s.queue[..k] == s.queue;
    } else {
      PassStep(s, k, turns);
      TurnFacts(s, k, turns[0]);
      QueueSplit(s, k);
      SurvivorsStep(s, k, turns);
      PassSurvivors(AfterTurn(s, k, turns[0]), NextPosition(s, k, turns[0]), turns[1..]);
    }
  }

  /** Where request r stands in the queue, if at all: turn i is the turn of queue position k + i. */
  lemma {:induction false} PassRequest(s: State, k: nat, turns: seq<Turn>, r: nat, i: nat)
    requires Wf(s) && |s.queue| == k + |turns| && TurnsInRange(turns, |s.table|) && r < |s.reqs|
    requires i <= |turns| && (if i < |turns| then s.queue[k + i] == r else r !in s.queue[k..])
    ensures PassFrom(s, k, turns).reqs[r] == if i < |turns| then Played(s.reqs[r], turns[i]) else s.reqs[r]
    decreases |turns|
  {
    hide Played, Stays, Owned, TimersMatch, InTable, Nowhere, AfterTurn, NextPosition, InRange, Distinct;
    if turns != [] {
      PassStep(s, k, turns);
      TurnFacts(s, k, turns[0]);
      var todo := s.queue[k + 1..];
      var n, p := AfterTurn(s, k, turns[0]), NextPosition(s, k, turns[0]);
      QueueSplit(s, k);
      if i == 0 {
        PassRequest(n, p, turns[1..], r, |turns| - 1);
      } else {
        assert i < |turns| ==> n.queue[p..][i - 1] == todo[i - 1] && n.queue[p + i - 1] == r;
        PassRequest(n, p, turns[1..], r, i - 1);
      }
    }
  }

  lemma {:induction false} SurvivorsAre(reqs: seq<Request>, todo: seq<nat>, turns: seq<Turn>, r: nat)
    requires |todo| == |turns| && Bounded(todo, |reqs|) && Distinct(todo)
    ensures r in Survivors(reqs, todo, turns) ==> r in todo
    ensures forall i :: 0 <= i < |todo| && todo[i] == r ==>
      (r in Survivors(reqs, todo, turns) <==> Stays(Played(reqs[r], turns[i])))
  {
    hide Played, Stays;
    if todo != [] {
      SurvivorsAre(reqs, todo[1..], turns[1..], r);
      forall i | 1 <= i < |todo| && todo[i] == r
        ensures r in Survivors(reqs, todo, turns) <==> Stays(Played(reqs[r], turns[i]))
      {
        assert todo[1..][i - 1] == r && turns[1..][i - 1] == turns[i];
      }
    }
  }

  /**
   * A pass gives every queued request exactly one turn, in order, and keeps in the queue
   * exactly those that neither ended nor wait; nobody else changes.
   */
  lemma PassFacts(s: State, turns: seq<Turn>)
    requires Wf(s) && |s.queue| == |turns| && TurnsInRange(turns, |s.table|)
    ensures Wf(PassFrom(s, 0, turns))
    ensures PassFrom(s, 0, turns).queue == Survivors(s.reqs, s.queue, turns)
    ensures forall r :: 0 <= r < |s.reqs| && r !in s.queue ==> PassFrom(s, 0, turns).reqs[r] == s.reqs[r]
    ensures forall i :: 0 <= i < |s.queue| ==>
      PassFrom(s, 0, turns).reqs[s.queue[i]] == Played(s.reqs[s.queue[i]], turns[i])
    ensures forall r: nat :: r !in s.queue && Nowhere(s.table, r) ==> Nowhere(PassFrom(s, 0, turns).table, r)
  {
    hide Play, PassFrom, Played, Stays, Owned, TimersMatch, InTable, Nowhere;
    assert s.queue[0..] == s.queue;
    PassSurvivors(s, 0, turns);
    forall r: nat | r < |s.reqs| && r !in s.queue ensures PassFrom(s, 0, turns).reqs[r] == s.reqs[r] {
      PassRequest(s, 0, turns, r, |turns|);
    }
    forall i | 0 <= i < |s.queue|
      ensures s.queue[i] < |s.reqs| && PassFrom(s, 0, turns).reqs[s.queue[i]] == Played(s.reqs[s.queue[i]], turns[i])
    {
      InQueue(s, i);
      PassRequest(s, 0, turns, s.queue[i], i);
    }
  }

  lemma PassKeeps(s: State, turns: seq<Turn>)
    requires Wf(s) && |s.queue| == |turns| && TurnsInRange(turns, |s.table|)
    ensures NotLost(s) ==> NotLost(PassFrom(s, 0, turns))
    ensures Parked(PassFrom(s, 0, turns))
  {
    hide Play, PassFrom, Played, Nowhere, Owned, InTable, TimersMatch;
    PassFacts(s, turns);
    var s' := PassFrom(s, 0, turns);
    forall r: nat | r < |s.reqs|
      ensures NotLost(s) && s'.reqs[r].status > OK ==> r in s'.queue || Waits(s'.reqs[r])
      ensures r in s'.queue ==> !Waits(s'.reqs[r])
    {
      SurvivorsAre(s.reqs, s.queue, turns, r);
      if r in s.queue {
        var i :| 0 <= i < |s.queue| && s.queue[i] == r;
        assert s'.reqs[r] == Played(s.reqs[r], turns[i]);
      }
    }
  }

  // ---------------------------------------------------------------- runs

  datatype Event = Parsed(req: nat) | Ready(fd: nat) | Tick(now: int) | Turns(turns: seq<Turn>)

  ghost predicate Next(s: State, e: Event, s': State)
    requires Wf(s)
  {
    match e
    case Parsed(r) => r < |s.reqs| && s' == Admit(s, r)
    case Ready(fd) => fd < |s.table| && s' == Dispatch(s, fd)
    case Tick(now) => ExpiredAt(s, now, s')
    case Turns(turns) => |turns| == |s.queue| && TurnsInRange(turns, |s.table|) && s' == PassFrom(s, 0, turns)
  }

  ghost predicate Inv(s: State) {
    Wf(s) && NotLost(s) && Parked(s)
  }

  lemma NextKeeps(s: State, e: Event, s': State)
    requires Inv(s) && Next(s, e, s')
    ensures Inv(s')
  {
    hide Play, PassFrom, Wf;
    match e {
      case Parsed(r) => WakeKeeps(s, r, Cleared(s.reqs[r]).(status := OK));
      case Ready(fd) =>
        if s.table[fd].Some? {
          OwnerExists(s, fd);
          WakeKeeps(s, s.table[fd].value, Cleared(s.reqs[s.table[fd].value]).(ready := true, lastReady := fd));
        }
      case Tick(now) => ExpiryFacts(s, now, s');
      case Turns(turns) => PassFacts(s, turns); PassKeeps(s, turns);
    }
  }

  lemma OwnerExists(s: State, fd: nat)
    requires Wf(s) && fd < |s.table| && s.table[fd].Some?
    ensures s.table[fd].value < |s.reqs| && WaitsOn(s.reqs[s.table[fd].value], fd)
  {
  }

  /** The hub before the first event. */
  predicate Initial(s: State) {
    && s.timers == {} && s.queue == []
    && (forall r :: 0 <= r < |s.reqs| ==> s.reqs[r].waiting == [] && s.reqs[r].timer == None && s.reqs[r].status == OK)
    && (forall fd :: 0 <= fd < |s.table| ==> s.table[fd] == None)
  }

  /** states is a run of the hub that takes the given events one by one. */
  ghost predicate Run(states: seq<State>, events: seq<Event>) {
    && |states| == |events| + 1
    && (forall i :: 0 <= i < |events| ==> Wf(states[i]) && Next(states[i], events[i], states[i + 1]))
  }

  lemma {:induction false} RunKeeps(states: seq<State>, events: seq<Event>, n: nat)
    requires Run(states, events) && Inv(states[0]) && n < |states|
    ensures Inv(states[n])
  {
    hide Wf, Next;
    if n > 0 {
      RunKeeps(states, events, n - 1);
      assert Wf(states[n - 1]) && Next(states[n - 1], events[n - 1], states[n - 1 + 1]);
      NextKeeps(states[n - 1], events[n - 1], states[n]);
    }
  }

  /** Over every run: nobody is queued twice or lost, and queued requests wait for nothing. */
  lemma EveryRun(states: seq<State>, events: seq<Event>, n: nat)
    requires Run(states, events) && Initial(states[0]) && n < |states|
    ensures Wf(states[n])
    ensures forall r :: 0 <= r < |states[n].reqs| && states[n].reqs[r].status > OK ==>
      (multiset(states[n].queue)[r] == 1) != Waits(states[n].reqs[r])
  {
    hide Next;
    assert Inv(states[0]);
    RunKeeps(states, events, n);
    var s := states[n];
    forall r: nat | r < |s.reqs| && s.reqs[r].status > OK ensures (multiset(s.queue)[r] == 1) != Waits(s.reqs[r]) {
      if r in s.queue {
        OnceEach(s.queue, r);
      }
    }
  }

  // ---------------------------------------------------------------- requests nothing can wake

  /** The request waits, but has no timer and no descriptor that leads to it. */
  predicate Stranded(s: State, r: nat) {
    r < |s.reqs| && r !in s.queue && s.reqs[r].timer.None? && s.reqs[r].waiting != [] && Nowhere(s.table, r)
  }

  lemma StrandedStep(s: State, e: Event, s': State, r: nat)
    requires Wf(s) && Next(s, e, s') && Stranded(s, r) && e != Parsed(r)
    ensures Stranded(s', r) && s'.reqs[r] == s.reqs[r]
  {
    hide Play, PassFrom, Played, Stays;
    match e {
      case Parsed(k) =>
      case Ready(fd) =>
      case Tick(now) => assert r !in DueSet(s, now);
      case Turns(turns) =>
        PassFacts(s, turns);
        SurvivorsAre(s.reqs, s.queue, turns, r);
    }
  }

  /** A stranded request stays as it is for the rest of every run. */
  lemma {:induction false} StrandedForever(states: seq<State>, events: seq<Event>, r: nat, m: nat, n: nat)
    requires Run(states, events) && m <= n < |states| && Stranded(states[m], r)
    requires forall i :: m <= i < n ==> events[i] != Parsed(r)
    ensures Stranded(states[n], r) && states[n].reqs[r] == states[m].reqs[r]
    decreases n - m
  {
    hide Wf, Next, Stranded;
    if m < n {
      StrandedForever(states, events, r, m, n - 1);
      assert Wf(states[n - 1]) && Next(states[n - 1], events[n - 1], states[n - 1 + 1]);
      StrandedStep(states[n - 1], events[n - 1], states[n], r);
    }
  }

  /** Whoever waits and is not stranded can be woken by one event: its timer, or one of its descriptors. */
  lemma NotStrandedWakes(s: State, r: nat)
    requires Wf(s) && r < |s.reqs| && Waits(s.reqs[r]) && r !in s.queue && !Stranded(s, r)
    ensures exists e: Event :: !e.Parsed? && Wakes(s, e, r)
  {
    if s.reqs[r].timer.Some? {
      var e := Tick(s.reqs[r].timer.value);
      forall s' | Next(s, e, s') ensures r in s'.queue && !Waits(s'.reqs[r]) {
        assert r in DueSet(s, s.reqs[r].timer.value);
      }
      NoneExpired(s);
      var s' := ExpiryHappens(s, e.now, {}, s);
      assert Next(s, e, s');
      assert Wakes(s, e, r);
    } else {
      var fd :| 0 <= fd < |s.table| && s.table[fd] == Some(r);
      assert Next(s, Ready(fd), Dispatch(s, fd));
      assert Wakes(s, Ready(fd), r);
    }
  }

  /** Whatever the event leads to, the request is in the run queue afterwards and waits no more. */
  ghost predicate Wakes(s: State, e: Event, r: nat)
    requires Wf(s)
  {
    && (exists s' :: Next(s, e, s'))
    && (forall s' :: Next(s, e, s') ==> r in s'.queue && r < |s'.reqs| && !Waits(s'.reqs[r]))
  }

  /** While the table mirrors the wait lists nobody is stranded. */
  lemma MirrorStrandsNobody(s: State, r: nat)
    requires Wf(s) && Registered(s)
    ensures !Stranded(s, r)
  {
    if Stranded(s, r) {
      var fd := s.reqs[r].waiting[0].fd;
      assert WaitsOn(s.reqs[r], fd);
      assert false;
    }
  }

  /** Two requests on one descriptor: the event goes to the later one and strands the other. */
  lemma SharedDescriptorStrands(s: State, fd: nat, r: nat)
    requires Wf(s) && Parked(s) && r < |s.reqs| && fd < |s.table|
    requires s.reqs[r].timer.None? && s.reqs[r].waiting != []
    requires forall i :: 0 <= i < |s.reqs[r].waiting| ==> s.reqs[r].waiting[i].fd == fd
    requires s.table[fd].Some? && s.table[fd].value != r
    ensures Stranded(Dispatch(s, fd), r)
  {
    OwnerExists(s, fd);
    var s' := Dispatch(s, fd);
    forall x | 0 <= x < |s'.table| ensures s'.table[x] != Some(r) {
      if s'.table[x] == Some(r) {
        OwnerExists(s, x);
        assert false;
      }
    }
  }

  /** A hub for two requests and one descriptor, before its first event. */
  const SMALL := State([IDLE, IDLE], [None], {}, [])

  const IDLE := Request([], None, false, false, 0, OK)

  /** A turn that asks for descriptor 0 without a timeout, and answers "again". */
  const WATCH := Turn([Watch(0, false, 0, 0)], 1)

  /** The states of the run: both requests are parsed, both wait for the descriptor, the descriptor is ready. */
  function SharedStates(): seq<State> {
    var one := Admit(SMALL, 0);
    var two := Admit(one, 1);
    var waiting := IDLE.(waiting := [Wait(0, false)], status := 1);
    var both := State([waiting, waiting], [Some(1)], {}, []);
    [SMALL, one, two, both, Dispatch(both, 0)]
  }

  const SHARED_EVENTS := [Parsed(0), Parsed(1), Turns([WATCH, WATCH]), Ready(0)]

  /** A run from the initial state after which request 0 is stranded. */
  lemma SharedDescriptorAtAnInput()
    ensures Run(SharedStates(), SHARED_EVENTS) && Initial(SharedStates()[0]) && Stranded(SharedStates()[4], 0)
  {
    hide PassFrom, Wf, NotLost, Parked, Admit, Wake, Initial, Stranded;
    SmallIsInitial();
    var states := SharedStates();
    NextKeeps(states[0], Parsed(0), states[1]);
    AdmitKeepsSize(states[0], 0);
    NextKeeps(states[1], Parsed(1), states[2]);
    BothQueued();
    BothWait(states[2]);
    NextKeeps(states[2], SHARED_EVENTS[2], states[3]);
    SharedDescriptorStrands(states[3], 0, 0);
    assert Run(states, SHARED_EVENTS) by {
      forall i | 0 <= i < 4
        ensures Wf(states[i]) && Next(states[i], SHARED_EVENTS[i], states[i + 1])
      {
        if i == 0 {} else if i == 1 {} else if i == 2 {} else {}
      }
    }
  }

  lemma SmallIsInitial()
    ensures Initial(SMALL) && Inv(SMALL)
  {}

  lemma AdmitKeepsSize(s: State, r: nat)
    requires r < |s.reqs|
    ensures |Admit(s, r).reqs| == |s.reqs|
  {}

  lemma BothQueued()
    ensures SharedStates()[2] == State([IDLE, IDLE], [None], {}, [0, 1])
  {
    assert Unwatch([None], IDLE) == [None];
  }

  /** The first request of the queue takes its turn and leaves. */
  lemma FirstLeaves(s: State, s': State, turn: Turn, turns: seq<Turn>)
    requires |s.queue| == 1 + |turns| && Bounded(s.queue, |s.reqs|) && TurnsInRange([turn] + turns, |s.table|)
    requires InRange(turn.acts, |s.table|) && s' == Play(s, s.queue[0], turn).(queue := s.queue[1..])
    requires !Stays(s'.reqs[s.queue[0]]) && TurnsInRange(turns, |s'.table|) && Bounded(s'.queue, |s'.reqs|)
    ensures PassFrom(s, 0, [turn] + turns) == PassFrom(s', 0, turns)
  {
    hide Play, Stays;
    assert ([turn] + turns)[1..] == turns;
    assert Cut(s.queue, 0) == s.queue[1..];
  }

  /** Both requests take their turns, and both leave the queue. */
  lemma BothWait(s: State)
    requires s == State([IDLE, IDLE], [None], {}, [0, 1])
    ensures PassFrom(s, 0, [WATCH, WATCH]) == SharedStates()[3]
  {
    hide Play;
    var waiting := IDLE.(waiting := [Wait(0, false)], status := 1);
    var s1, s2 := State([waiting, IDLE], [Some(0)], {}, [1]), State([waiting, waiting], [Some(1)], {}, []);
    OneWaits(s, 0);
    assert s1 == Play(s, 0, WATCH).(queue := s.queue[1..]);
    FirstLeaves(s, s1, WATCH, [WATCH]);
    OneWaits(s1, 1);
    assert s2 == Play(s1, 1, WATCH).(queue := s1.queue[1..]);
    FirstLeaves(s1, s2, WATCH, []);
    assert [WATCH] + [WATCH] == [WATCH, WATCH] && [WATCH] + [] == [WATCH];
  }

  lemma OneWaits(s: State, r: nat)
    requires r < |s.reqs| && s.reqs[r] == IDLE && |s.table| == 1 && s.timers == {}
    ensures InRange(WATCH.acts, |s.table|)
    ensures Play(s, r, WATCH) ==
            s.(reqs := s.reqs[r := IDLE.(waiting := [Wait(0, false)], status := 1)], table := [Some(r)])
  {
    assert WATCH.acts[..0] == [];
    assert DoAll(s, r, WATCH.acts[..0]) == s;
    var s' := AddFd(s, r, 0, false, 0, 0);
    assert s'.reqs[r].waiting == [] + [Wait(0, false)] == [Wait(0, false)];
    assert s'.table == [Some(r)] && s'.timers == {};
  }
}
