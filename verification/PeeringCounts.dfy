/**
 Conservation of the goroutines that work for a peering handler (peering/peering.go): the checks and dials that are
 queued or running are those that were started less those that have ended.
 */
module PeeringCounts {
  import opened Peering
  import opened PeeringService

  datatype Event = StartQueued | StartDone | StopQueued | StopDone | DialStarted | DialEnded

  /** The event happens to slot `h` when `a` is done in state `s`. */
  predicate Happens(e: Event, s: State, h: nat, a: Action) {
    match e
    // a notice of a lost connection, the start of the service, or being added while it runs
    case StartQueued =>
      || (a.Deliver? && a.n.Disconnected? && a.n.peer in s.peers && s.peers[a.n.peer] == h)
      || (a.Start? && s.status == Init && h in s.peers.Values)
      || (a.AddPeer? && a.p !in s.peers && s.status == Running && h == |s.slots|)
    case StartDone => a.Handle? && a.h == h && a.w.StartCheck?
    // a notice of a new connection, or the end of a dial, however it went
    case StopQueued =>
      || (a.Deliver? && a.n.Connected? && a.n.peer in s.peers && s.peers[a.n.peer] == h)
      || (a.Handle? && a.h == h && (a.w.DialFails? || a.w.DialSucceeds?))
    case StopDone => a.Handle? && a.h == h && a.w.StopCheck?
    case DialStarted => a.Handle? && a.h == h && a.w.Fire?
    case DialEnded => a.Handle? && a.h == h && (a.w.DialFails? || a.w.DialSucceeds?)
  }

  function Once(e: Event, s: State, h: nat, a: Action): nat {
    if Happens(e, s, h, a) then 1 else 0
  }

  /** A slot that does not exist yet has nothing queued. */
  function SlotAt(s: State, h: nat): Slot {
    if h < |s.slots| then s.slots[h] else Slot(NewHandler(0), 0, 0, 0)
  }

  ghost predicate Balanced(t: Slot, u: Slot, s: State, h: nat, a: Action) {
    && u.starts + Once(StartDone, s, h, a) == t.starts + Once(StartQueued, s, h, a)
    && u.stops + Once(StopDone, s, h, a) == t.stops + Once(StopQueued, s, h, a)
    && u.dials + Once(DialEnded, s, h, a) == t.dials + Once(DialStarted, s, h, a)
  }

  lemma StepBalanced(s: State, h: nat, a: Action)
    requires WellFormed(s) && Enabled(s, a)
    ensures Balanced(SlotAt(s, h), SlotAt(Apply(s, a), h), s, h, a)
  {
    hide Apply, Balanced;
    match a {
      case Start => StartBalanced(s, h);
      case FinishStop => StopBalanced(s, h);
      case Handle(g, w) => WorkBalanced(s, h, g, w);
      case AddPeer(p) => AddBalanced(s, h, p);
      case RemovePeer(p) => RemoveBalanced(s, h, p);
      case Deliver(n) => DeliverBalanced(s, h, n);
      case _ => NetworkBalanced(s, h, a);
    }
  }

  lemma NetworkBalanced(s: State, h: nat, a: Action)
    requires WellFormed(s) && (a.Connect? || a.Disconnect? || a.StopNotify?)
    ensures Balanced(SlotAt(s, h), SlotAt(Apply(s, a), h), s, h, a)
  {
  }

  lemma DeliverBalanced(s: State, h: nat, n: Notice)
    requires WellFormed(s) && n in s.notices
    ensures Balanced(SlotAt(s, h), SlotAt(Apply(s, Deliver(n)), h), s, h, Deliver(n))
  {
  }

  lemma RemoveBalanced(s: State, h: nat, p: Peer)
    requires WellFormed(s)
    ensures Balanced(SlotAt(s, h), SlotAt(Apply(s, RemovePeer(p)), h), s, h, RemovePeer(p))
  {
    hide AfterStop;
  }

  lemma ValuesAreSlots(s: State)
    requires WellFormed(s)
    ensures forall g :: g in s.peers.Values ==> g < |s.slots|
  {
  }

  lemma StartBalanced(s: State, h: nat)
    requires WellFormed(s)
    ensures Balanced(SlotAt(s, h), SlotAt(Apply(s, Start), h), s, h, Start)
  {
    ValuesAreSlots(s);
    hide WellFormed;
  }

  lemma StopBalanced(s: State, h: nat)
    requires WellFormed(s) && 0 < s.stopping
    ensures Balanced(SlotAt(s, h), SlotAt(Apply(s, FinishStop), h), s, h, FinishStop)
  {
    hide AfterStop, WellFormed;
  }

  lemma WorkBalanced(s: State, h: nat, g: nat, w: Work)
    requires WellFormed(s) && g < |s.slots| && CanWork(s.slots[g], w)
    ensures Balanced(SlotAt(s, h), SlotAt(Apply(s, Handle(g, w)), h), s, h, Handle(g, w))
  {
    hide AfterStartCheck, AfterStopCheck, AfterFailedDial, AfterDial;
  }

  lemma AddBalanced(s: State, h: nat, p: Peer)
    requires WellFormed(s)
    ensures Balanced(SlotAt(s, h), SlotAt(Apply(s, AddPeer(p)), h), s, h, AddPeer(p))
  {
  }

  /** How often an event has happened to a slot in the first `i` steps. */
  ghost function Count(run: seq<State>, actions: seq<Action>, e: Event, h: nat, i: nat): nat
    requires i <= |actions| <= |run|
  {
    if i == 0 then 0 else Count(run, actions, e, h, i - 1) + Once(e, run[i - 1], h, actions[i - 1])
  }

  /** In every state of every run, what is queued or running was started and has not ended. */
  lemma {:induction false} WorkConserved(run: seq<State>, actions: seq<Action>, h: nat, i: nat)
    requires IsRun(run, actions) && i <= |actions|
    ensures var t := SlotAt(run[i], h);
      && t.starts + Count(run, actions, StartDone, h, i) == Count(run, actions, StartQueued, h, i)
      && t.stops + Count(run, actions, StopDone, h, i) == Count(run, actions, StopQueued, h, i)
      && t.dials + Count(run, actions, DialEnded, h, i) == Count(run, actions, DialStarted, h, i)
  {
    hide Inv, Apply, Once, SlotAt;
    if i == 0 {
      NothingAtFirst(h);
    } else {
      WorkConserved(run, actions, h, i - 1);
      RunStep(run, actions, i - 1);
      hide IsRun;
      StepBalanced(run[i - 1], h, actions[i - 1]);
    }
  }

  lemma NothingAtFirst(h: nat)
    ensures SlotAt(INITIAL, h) == Slot(NewHandler(0), 0, 0, 0)
  {
  }
}
