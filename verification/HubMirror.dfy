/** Runs of the async hub in which no request asks for a descriptor that belongs to another one. */
module HubMirror {
  import opened Collections
  import opened Wrappers
  import opened HubModel
  import opened HubRuns

  /** The descriptor that the request asks for is free or its own. */
  predicate Polite(s: State, r: nat, act: Act) {
    act.Watch? && 0 <= act.fd < |s.table| ==> s.table[act.fd].None? || s.table[act.fd] == Some(r)
  }

  ghost predicate PoliteActs(s: State, r: nat, acts: seq<Act>)
    requires r < |s.reqs| && InRange(acts, |s.table|)
    decreases |acts|
  {
    acts != [] ==>
      var rest := acts[..|acts| - 1];
      PoliteActs(s, r, rest) && Polite(DoAll(s, r, rest), r, acts[|acts| - 1])
  }

  /** Every turn of the pass is polite in the state in which it is taken. */
  ghost predicate PolitePass(s: State, k: nat, turns: seq<Turn>)
    requires Wf(s) && |s.queue| == k + |turns| && TurnsInRange(turns, |s.table|)
    decreases |turns|
  {
    if turns == [] then true else
      PassStep(s, k, turns);
      PoliteActs(s, s.queue[k], turns[0].acts)
      && PolitePass(AfterTurn(s, k, turns[0]), NextPosition(s, k, turns[0]), turns[1..])
  }

  lemma {:induction false} DoAllMirrors(s: State, r: nat, acts: seq<Act>)
    requires Wf(s) && Registered(s) && r < |s.reqs| && InRange(acts, |s.table|) && PoliteActs(s, r, acts)
    ensures Registered(DoAll(s, r, acts))
    decreases |acts|
  {
    hide Wf, Registered;
    if acts != [] {
      var rest := acts[..|acts| - 1];
      DoAllMirrors(s, r, rest);
      DoAllIsLocal(s, r, rest);
      var t := DoAll(s, r, rest);
      match acts[|acts| - 1] {
        case Watch(fd, write, timeout, now) => AddFdKeepsMirrorIff(t, r, fd, write, timeout, now);
        case Sleep(timeout, now) => AddTimeoutKeeps(t, r, timeout, now);
        case Release => ResetKeeps(t, r);
      }
    }
  }

  lemma PlayMirrors(s: State, r: nat, turn: Turn)
    requires Wf(s) && Registered(s) && r < |s.reqs| && InRange(turn.acts, |s.table|) && PoliteActs(s, r, turn.acts)
    ensures Registered(Play(s, r, turn))
  {
    hide Wf, DoAll, PoliteActs;
    DoAllMirrors(s, r, turn.acts);
    DoAllIsLocal(s, r, turn.acts);
    var m := DoAll(s, r, turn.acts);
    ResetKeeps(m, r);
    var e, s' := if turn.status <= OK then Reset(m, r) else m, Play(s, r, turn);
    assert forall k, fd: nat :: 0 <= k < |s.reqs| ==> (WaitsOn(s'.reqs[k], fd) <==> WaitsOn(e.reqs[k], fd));
    assert s'.table == e.table;
  }

  lemma {:induction false} PassMirrors(s: State, k: nat, turns: seq<Turn>)
    requires Wf(s) && Registered(s) && |s.queue| == k + |turns| && TurnsInRange(turns, |s.table|)
    requires PolitePass(s, k, turns)
    ensures Registered(PassFrom(s, k, turns))
    decreases |turns|
  {
    hide Play, Owned, TimersMatch, InTable, PoliteActs, Distinct, InRange;
    if turns != [] {
      PassStep(s, k, turns);
      PlayMirrors(s, s.queue[k], turns[0]);
      PassMirrors(AfterTurn(s, k, turns[0]), NextPosition(s, k, turns[0]), turns[1..]);
    }
  }

  ghost predicate PoliteEvent(s: State, e: Event)
    requires Wf(s)
  {
    e.Turns? && |e.turns| == |s.queue| && TurnsInRange(e.turns, |s.table|) ==> PolitePass(s, 0, e.turns)
  }

  lemma NextMirrors(s: State, e: Event, s': State)
    requires Wf(s) && Registered(s) && Next(s, e, s') && PoliteEvent(s, e)
    ensures Registered(s')
  {
    hide Play, PassFrom, Wf, Registered, PolitePass;
    match e {
      case Parsed(r) => WakeKeeps(s, r, Cleared(s.reqs[r]).(status := OK));
      case Ready(fd) =>
        if s.table[fd].Some? {
          OwnerExists(s, fd);
          WakeKeeps(s, s.table[fd].value, Cleared(s.reqs[s.table[fd].value]).(ready := true, lastReady := fd));
        }
      case Tick(now) => ExpiryFacts(s, now, s');
      case Turns(turns) => PassMirrors(s, 0, turns);
    }
  }

  /** Every pass of the run is polite. */
  ghost predicate PoliteRun(states: seq<State>, events: seq<Event>) {
    && Run(states, events)
    && forall i :: 0 <= i < |events| ==> PoliteEvent(states[i], events[i])
  }

  lemma {:induction false} RunMirrors(states: seq<State>, events: seq<Event>, n: nat)
    requires PoliteRun(states, events) && Registered(states[0]) && n < |states|
    ensures Registered(states[n])
  {
    hide Wf, Next, Registered, PoliteEvent;
    if n > 0 {
      RunMirrors(states, events, n - 1);
      assert Wf(states[n - 1]) && Next(states[n - 1], events[n - 1], states[n - 1 + 1]);
      NextMirrors(states[n - 1], events[n - 1], states[n]);
    }
  }

  /** Over every polite run the table mirrors the wait lists, and whoever waits can be woken by one event. */
  lemma PoliteRunWakesAll(states: seq<State>, events: seq<Event>, n: nat, r: nat)
    requires PoliteRun(states, events) && Initial(states[0]) && n < |states| && r < |states[n].reqs|
    ensures Wf(states[n])
    ensures forall fd :: 0 <= fd < |states[n].table| ==>
              (states[n].table[fd] == Some(r) <==> WaitsOn(states[n].reqs[r], fd))
    ensures Waits(states[n].reqs[r]) ==> exists e: Event :: !e.Parsed? && Wakes(states[n], e, r)
  {
    hide Next, PoliteEvent, Wakes;
    assert Inv(states[0]) && Registered(states[0]);
    RunKeeps(states, events, n);
    RunMirrors(states, events, n);
    if Waits(states[n].reqs[r]) {
      MirrorStrandsNobody(states[n], r);
      NotStrandedWakes(states[n], r);
    }
  }
}
