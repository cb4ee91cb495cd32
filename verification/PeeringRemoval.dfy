/**
 What becomes of the handler of a peer that has been removed (peering/peering.go): the checks that were queued for it
 still run.
 */
module PeeringRemoval {
  import opened Peering
  import opened PeeringService

  /** The step of a slot that belongs to no registered peer is its own work, or nothing. */
  lemma UnregisteredStep(s: State, h: nat, a: Action)
    requires WellFormed(s) && Enabled(s, a) && h < |s.slots| && h !in s.peers.Values
    ensures h < |Apply(s, a).slots| && h !in Apply(s, a).peers.Values
    ensures Apply(s, a).slots[h] ==
      if a.Handle? && a.h == h then DoWork(s.slots[h], s.slots[h].v.peer in s.connected, a.w) else s.slots[h]
  {
    hide CanWork, DoWork, AfterStop, Notify;
    match a {
      case Start => UnregisteredAll(s, h);
      case FinishStop => UnregisteredAll(s, h);
      case Connect(p) => NotifyRest(s.(connected := s.connected + {p}), Connected(p));
      case Disconnect(p, last) =>
        NotifyRest(if last then s.(connected := s.connected - {p}) else s, Disconnected(p));
      case _ =>
    }
  }

  lemma NotifyRest(s: State, n: Notice)
    ensures Notify(s, n).slots == s.slots && Notify(s, n).peers == s.peers
  {
  }

  lemma UnregisteredAll(s: State, h: nat)
    requires h < |s.slots| && h !in s.peers.Values
    ensures AllStarted(s)[h] == AllStopped(s)[h] == s.slots[h]
  {
    hide AfterStop;
  }

  /** No timer and no start check: the handler is done, but for dials that are still running. */
  predicate Dormant(t: Slot) {
    t.v.timer.NoTimer? && t.starts == 0
  }

  lemma DormantWork(t: Slot, connected: bool, w: Work)
    requires CanWork(t, w)
    ensures Dormant(t) ==> Dormant(DoWork(t, connected, w)) && DoWork(t, connected, w).dials <= t.dials
    ensures DoWork(t, connected, w).starts + Wakes(t, DoWork(t, connected, w)) <= t.starts
  {
  }

  /** The handler gets a timer, having had none. */
  function Wakes(t: Slot, u: Slot): nat {
    if t.v.timer.NoTimer? && !u.v.timer.NoTimer? then 1 else 0
  }

  /** How often that happens to slot `h` between the states `i` and `j`. */
  ghost function WakesBetween(run: seq<State>, h: nat, i: nat, j: nat): nat
    requires i <= j < |run| && forall k :: i <= k <= j ==> h < |run[k].slots|
    decreases j
  {
    if i == j then 0 else WakesBetween(run, h, i, j - 1) + Wakes(run[j - 1].slots[h], run[j].slots[h])
  }

  /** Once a slot belongs to no registered peer it never does again. */
  lemma {:induction false} StaysUnregistered(run: seq<State>, actions: seq<Action>, h: nat, i: nat, j: nat)
    requires IsRun(run, actions) && i <= j <= |actions| && h < |run[i].slots| && h !in run[i].peers.Values
    ensures h < |run[j].slots| && h !in run[j].peers.Values
  {
    if i < j {
      StaysUnregistered(run, actions, h, i, j - 1);
      RunStep(run, actions, j - 1);
      hide IsRun, Inv, Apply;
      UnregisteredStep(run[j - 1], h, actions[j - 1]);
    }
  }

  /**
   The handler of a removed peer starts at most as often as start checks were queued for it, and if there were none
   it has no timer ever again and makes no dial beyond those that are running.
   */
  lemma {:induction false} RemovedHandler(run: seq<State>, actions: seq<Action>, h: nat, i: nat, j: nat)
    requires IsRun(run, actions) && i <= j <= |actions| && h < |run[i].slots| && h !in run[i].peers.Values
    ensures forall k :: i <= k <= j ==> h < |run[k].slots|
    ensures WakesBetween(run, h, i, j) + run[j].slots[h].starts <= run[i].slots[h].starts
    ensures Dormant(run[i].slots[h]) ==> Dormant(run[j].slots[h]) && run[j].slots[h].dials <= run[i].slots[h].dials
  {
    hide IsRun, Wakes, Dormant;
    RunLength(run, actions);
    forall k | i <= k <= j ensures h < |run[k].slots| {
      StaysUnregistered(run, actions, h, i, k);
    }
    if i < j {
      RemovedHandler(run, actions, h, i, j - 1);
      StaysUnregistered(run, actions, h, i, j - 1);
      UnregisteredRunStep(run, actions, h, j - 1);
    }
  }

  lemma RunLength(run: seq<State>, actions: seq<Action>)
    requires IsRun(run, actions)
    ensures |run| == |actions| + 1
  {
  }

  lemma UnregisteredRunStep(run: seq<State>, actions: seq<Action>, h: nat, k: nat)
    requires IsRun(run, actions) && k < |actions| && h < |run[k].slots| && h !in run[k].peers.Values
    ensures h < |run[k + 1].slots|
    ensures var t, u := run[k].slots[h], run[k + 1].slots[h];
      u.starts + Wakes(t, u) <= t.starts && (Dormant(t) ==> Dormant(u) && u.dials <= t.dials)
  {
    RunStep(run, actions, k);
    var s, a := run[k], actions[k];
    hide IsRun, Inv, Apply, DoWork, Wakes, Dormant;
    UnregisteredStep(s, h, a);
    if a.Handle? && a.h == h {
      DormantWork(s.slots[h], s.slots[h].v.peer in s.connected, a.w);
    } else {
      NoWake(s.slots[h]);
    }
  }

  lemma NoWake(t: Slot)
    ensures Wakes(t, t) == 0
  {
  }

  /** Removing a peer leaves its handler without a timer, and unregistered. */
  lemma RemovalStops(s: State, p: Peer)
    requires WellFormed(s) && p in s.peers
    ensures var t, h := Apply(s, RemovePeer(p)), s.peers[p];
      && h < |t.slots| && h !in t.peers.Values && t.slots[h].v.timer.NoTimer?
      && t.slots[h].starts == s.slots[h].starts && t.slots[h].dials == s.slots[h].dials
  {
  }

  /** A start check that is still queued does give the handler a timer, once the peer is not connected. */
  lemma QueuedCheckStarts(s: State, h: nat)
    requires Inv(s) && h < |s.slots| && s.slots[h].v.timer.NoTimer? && 0 < s.slots[h].starts
    ensures var gone := Apply(s, Disconnect(s.slots[h].v.peer, true));
      && WellFormed(gone) && Enabled(gone, Handle(h, StartCheck(0, 0)))
      && Apply(gone, Handle(h, StartCheck(0, 0))).slots[h].v.timer.Armed?
  {
    StepKeepsInv(s, Disconnect(s.slots[h].v.peer, true));
    assert Steady(s.slots[h]);
  }

  /** A service whose only peer has been removed. */
  function Removed(t: Slot): State {
    State(Running, true, 0, map[], [t], {}, {}, multiset{})
  }

  lemma RemovedWorks(t: Slot, w: Work)
    requires CanWork(t, w) && CanReach(Removed(t))
    ensures CanReach(Removed(DoWork(t, false, w)))
  {
    var s, u := Removed(t), Removed(DoWork(t, false, w));
    assert s.slots[0 := u.slots[0]] == u.slots;
    ReachNext(s, Handle(0, w), u);
  }

  lemma RemovedWithCheck()
    ensures CanReach(Removed(Slot(AfterStop(NewHandler(0)), 1, 0, 0)))
  {
    OnePeerStarts();
    var t := Slot(NewHandler(0), 1, 0, 0);
    var s, u := OnePeer(t, {}, multiset{}), Removed(t.(v := AfterStop(t.v)));
    assert s.peers - {0} == u.peers && s.protected - {0} == u.protected && s.slots[0 := u.slots[0]] == u.slots;
    ReachNext(s, RemovePeer(0), u);
  }

  /**
   A peer is removed before the start check of its handler has run. The handler then dials it, with a cancelled
   context, any number of times: each failed dial arms the timer again.
   */
  lemma {:induction false} RemovedDialsOn(n: nat) returns (v: Handler)
    ensures v.cancelled && v.timer.Armed? && v.backoffs == n + 1 && Paced(v)
    ensures CanReach(Removed(Slot(v, 0, 0, 0)))
  {
    hide CanReach, Paced;
    if n == 0 {
      RemovedWithCheck();
      var t := Slot(AfterStop(NewHandler(0)), 1, 0, 0);
      StopPaced();
      RearmPaced(t.v, 0, 0);
      RemovedWorks(t, StartCheck(0, 0));
      v := AfterRearm(t.v, 0, 0);
    } else {
      var u := RemovedDialsOn(n - 1);
      PacedDraws(u);
      TimerPaced(u);
      var fired := u.(timer := Fired(false));
      RemovedWorks(Slot(u, 0, 0, 0), Fire);
      RearmPaced(fired, 0, 0);
      RemovedWorks(Slot(fired, 0, 0, 1), DialFails(0, 0));
      v := AfterRearm(fired, 0, 0);
      RemovedWorks(Slot(v, 0, 1, 0), StopCheck);
    }
  }

  lemma StopPaced()
    ensures Paced(AfterStop(NewHandler(0))) && Draws(AfterStop(NewHandler(0)), 0, 0)
  {
  }

  lemma PacedDraws(h: Handler)
    requires Paced(h)
    ensures Draws(h, 0, 0)
  {
  }
}
