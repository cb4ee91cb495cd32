/**
 The peering service as a state machine (peering/peering.go). A step is one critical section, one network
 event, one delivery of a notice, one firing of a timer, or one outcome of a dial; steps interleave freely.
 */
module PeeringService {
  import opened Peering

  // ----- a handler and the goroutines working for it

  /** A handler with the start checks, stop checks and dials that are queued or running for it. */
  datatype Slot = Slot(v: Handler, starts: nat, stops: nat, dials: nat)

  datatype Work =
    | StartCheck(r1: nat, r2: nat)
    | StopCheck
    | Fire
    | DialFails(r1: nat, r2: nat)
    | DialSucceeds

  predicate CanWork(t: Slot, w: Work) {
    match w
    case StartCheck(r1, r2) => 0 < t.starts && Draws(t.v, r1, r2)
    case StopCheck => 0 < t.stops
    case Fire => t.v.timer.Armed?
    case DialFails(r1, r2) => 0 < t.dials && Draws(t.v, r1, r2)
    case DialSucceeds => 0 < t.dials
  }

  function DoWork(t: Slot, connected: bool, w: Work): Slot
    requires CanWork(t, w)
  {
    match w
    case StartCheck(r1, r2) => t.(v := AfterStartCheck(t.v, connected, r1, r2), starts := t.starts - 1)
    case StopCheck => t.(v := AfterStopCheck(t.v, connected), stops := t.stops - 1)
    case Fire => t.(v := t.v.(timer := Fired(false)), dials := t.dials + 1)
    case DialFails(r1, r2) => t.(v := AfterFailedDial(t.v, r1, r2), dials := t.dials - 1, stops := t.stops + 1)
    case DialSucceeds => t.(v := AfterDial(t.v), dials := t.dials - 1, stops := t.stops + 1)
  }

  /** The delay keeps its pace; a handler that was never stopped has a fresh delay whenever it has no timer. */
  ghost predicate Steady(t: Slot) {
    && Paced(t.v)
    && (t.v.timer.NoTimer? && !t.v.cancelled ==> t.v.nextDelay == INITIAL_DELAY)
    && (t.v.timer.Armed? ==> t.v.timer.delay == t.v.nextDelay && 0 < t.v.backoffs)
    && (t.v.timer == Fired(false) ==> 0 < t.dials)
  }

  predicate Watching(t: Slot) {
    !t.v.timer.NoTimer? || 0 < t.starts
  }

  /** No timer is left behind for long. */
  predicate Settling(t: Slot) {
    t.v.timer.NoTimer? || 0 < t.stops
  }

  /** Nothing has been asked of the handler yet. */
  predicate Idle(t: Slot) {
    t.v.timer.NoTimer? && t.starts == 0 && t.dials == 0
  }

  lemma WorkSteady(t: Slot, connected: bool, w: Work)
    requires Steady(t) && CanWork(t, w)
    ensures Steady(DoWork(t, connected, w))
    ensures Watching(t) && !connected ==> Watching(DoWork(t, connected, w))
    ensures Settling(t) && connected ==> Settling(DoWork(t, connected, w))
    ensures Idle(t) ==> Idle(DoWork(t, connected, w))
    ensures DoWork(t, connected, w).v.peer == t.v.peer && DoWork(t, connected, w).v.cancelled == t.v.cancelled
  {
    hide Paced;
    match w {
      case StartCheck(r1, r2) => RearmPaced(t.v, r1, r2);
      case StopCheck => TimerPaced(t.v);
      case Fire => TimerPaced(t.v);
      case DialFails(r1, r2) => RearmPaced(t.v, r1, r2);
      case DialSucceeds => TimerPaced(t.v);
    }
  }

  lemma RearmPaced(h: Handler, r1: nat, r2: nat)
    requires Paced(h) && Draws(h, r1, r2)
    ensures Paced(AfterRearm(h, r1, r2))
  {
    BackoffPaced(h, r1, r2);
  }

  lemma TimerPaced(h: Handler)
    requires Paced(h)
    ensures forall timer :: Paced(h.(timer := timer))
    ensures Paced(h.(timer := NoTimer, nextDelay := INITIAL_DELAY, backoffs := 0))
  {
  }

  lemma QueueSteady(t: Slot, starts: nat, stops: nat)
    requires Steady(t)
    ensures Steady(t.(starts := starts, stops := stops))
  {
  }

  lemma NewSteady(p: Peer)
    ensures forall cancelled, starts :: Steady(Slot(NewHandler(p).(cancelled := cancelled), starts, 0, 0))
  {
  }

  lemma StopSteady(t: Slot)
    requires Steady(t)
    ensures Steady(t.(v := AfterStop(t.v))) && AfterStop(t.v).peer == t.v.peer && AfterStop(t.v).cancelled
  {
  }

  /** A handler that was never stopped waits between 7.5 and 12.5 seconds before its first dial. */
  lemma FreshStart(t: Slot, r1: nat, r2: nat)
    requires Steady(t) && CanWork(t, StartCheck(r1, r2)) && t.v.timer.NoTimer? && !t.v.cancelled
    ensures var u := DoWork(t, false, StartCheck(r1, r2)).v;
      u.timer.Armed? && 7_500_000_000 <= u.timer.delay < 12_500_000_000
  {
    BackoffPaced(t.v, r1, r2);
  }

  // ----- the service

  datatype Status = Init | Running | Stopped

  datatype Notice = Connected(peer: Peer) | Disconnected(peer: Peer)

  /**
   `notified`: the network sends notices to the service. `stopping`: calls to Stop that have not got the
   lock yet. `peers` gives the index in `slots` of each registered peer's handler; slots are never reused.
   */
  datatype State = State(
    status: Status, notified: bool, stopping: nat,
    peers: map<Peer, nat>, slots: seq<Slot>, protected: set<Peer>,
    connected: set<Peer>, notices: multiset<Notice>)

  const INITIAL := State(Init, false, 0, map[], [], {}, {}, multiset{})

  datatype Action =
    | Connect(p: Peer)
    | Disconnect(p: Peer, last: bool)
    | Deliver(n: Notice)
    | Handle(h: nat, w: Work)
    | AddPeer(p: Peer)
    | RemovePeer(p: Peer)
    | Start
    | StopNotify
    | FinishStop

  predicate WellFormed(s: State) {
    && s.protected == s.peers.Keys
    && forall p :: p in s.peers ==> s.peers[p] < |s.slots| && s.slots[s.peers[p]].v.peer == p
  }

  predicate Enabled(s: State, a: Action) {
    match a
    case Deliver(n) => n in s.notices
    case Handle(h, w) => h < |s.slots| && CanWork(s.slots[h], w)
    case FinishStop => 0 < s.stopping
    case _ => true
  }

  function Notify(s: State, n: Notice): State {
    if s.notified then s.(notices := s.notices + multiset{n}) else s
  }

  /** Every registered handler is asked to check whether it must start. */
  function AllStarted(s: State): seq<Slot> {
    seq(|s.slots|, h requires 0 <= h < |s.slots| =>
      if h in s.peers.Values then s.slots[h].(starts := s.slots[h].starts + 1) else s.slots[h])
  }

  function AllStopped(s: State): seq<Slot> {
    seq(|s.slots|, h requires 0 <= h < |s.slots| =>
      if h in s.peers.Values then s.slots[h].(v := AfterStop(s.slots[h].v)) else s.slots[h])
  }

  function Delivered(s: State, n: Notice): State
    requires WellFormed(s)
  {
    if n.peer !in s.peers then s
    else
      var h := s.peers[n.peer];
      var t := s.slots[h];
      s.(slots := s.slots[h := if n.Connected? then t.(stops := t.stops + 1) else t.(starts := t.starts + 1)])
  }

  function PeerAdded(s: State, p: Peer): State {
    var v := NewHandler(p).(cancelled := s.status == Stopped);
    s.(protected := s.protected + {p},
       peers := s.peers[p := |s.slots|],
       slots := s.slots + [Slot(v, if s.status == Running then 1 else 0, 0, 0)])
  }

  function PeerRemoved(s: State, p: Peer): State
    requires WellFormed(s) && p in s.peers
  {
    var h := s.peers[p];
    s.(protected := s.protected - {p},
       peers := s.peers - {p},
       slots := s.slots[h := s.slots[h].(v := AfterStop(s.slots[h].v))])
  }

  function Apply(s: State, a: Action): State
    requires WellFormed(s) && Enabled(s, a)
  {
    match a
    case Connect(p) => Notify(s.(connected := s.connected + {p}), Connected(p))
    case Disconnect(p, last) => Notify(if last then s.(connected := s.connected - {p}) else s, Disconnected(p))
    case Deliver(n) => Delivered(s.(notices := s.notices - multiset{n}), n)
    case Handle(h, w) => s.(slots := s.slots[h := DoWork(s.slots[h], s.slots[h].v.peer in s.connected, w)])
    case AddPeer(p) => if p in s.peers then s else PeerAdded(s, p)
    case RemovePeer(p) => if p in s.peers then PeerRemoved(s, p) else s
    case Start => if s.status == Init then s.(status := Running, notified := true, slots := AllStarted(s)) else s
    case StopNotify => s.(notified := false, stopping := s.stopping + 1)
    case FinishStop =>
      if s.status == Stopped then s.(stopping := s.stopping - 1)
      else s.(status := Stopped, stopping := s.stopping - 1, slots := AllStopped(s))
  }

  // ----- the invariant

  /** A registered peer that is not connected has a timer handle, or a check to come that will give it one. */
  ghost predicate Watched(s: State)
    requires WellFormed(s)
  {
    s.status == Running && s.notified ==>
      forall p :: p in s.peers && p !in s.connected ==> Watching(s.slots[s.peers[p]]) || Disconnected(p) in s.notices
  }

  /** A registered peer that is connected has no timer handle, or a check to come that will drop it. */
  ghost predicate Calmed(s: State)
    requires WellFormed(s)
  {
    s.status == Running && s.notified ==>
      forall p :: p in s.peers && p in s.connected ==> Settling(s.slots[s.peers[p]]) || Connected(p) in s.notices
  }

  /** Before the service is started nothing is done. */
  ghost predicate Quiet(s: State) {
    s.status == Init ==>
      !s.notified && s.notices == multiset{} && forall h :: 0 <= h < |s.slots| ==> Idle(s.slots[h])
  }

  /** Handlers of peers that have been removed are cancelled. */
  ghost predicate Retired(s: State) {
    forall h :: 0 <= h < |s.slots| && h !in s.peers.Values ==> s.slots[h].v.cancelled
  }

  /** Registered handlers are cancelled once the service has been stopped, and not before. */
  ghost predicate Halted(s: State)
    requires WellFormed(s)
  {
    forall p :: p in s.peers ==> (s.slots[s.peers[p]].v.cancelled <==> s.status == Stopped)
  }

  ghost predicate Inv(s: State) {
    && WellFormed(s) && Watched(s) && Calmed(s) && Quiet(s) && Halted(s) && Retired(s)
    && forall h :: 0 <= h < |s.slots| ==> Steady(s.slots[h])
  }

  /** What a connection gained or lost does to the notices. */
  lemma NotifyStep(s: State, connected: set<Peer>, n: Notice)
    requires Inv(s) && forall p :: p != n.peer ==> (p in connected <==> p in s.connected)
    requires n.Connected? ==> n.peer in connected
    requires n.Disconnected? && n.peer in connected ==> n.peer in s.connected
    ensures Inv(Notify(s.(connected := connected), n))
  {
    hide Steady, Watching, Settling, Idle, Retired, Halted, WellFormed;
    var t := Notify(s.(connected := connected), n);
    assert WellFormed(t) && Retired(t) && Halted(t) by {
      SameSlots(s, t);
    }
    assert forall m :: m in s.notices ==> s.notified ==> m in t.notices;
  }

  lemma SameSlots(s: State, t: State)
    requires WellFormed(s) && Retired(s) && Halted(s)
    requires t.slots == s.slots && t.peers == s.peers && t.protected == s.protected && t.status == s.status
    ensures WellFormed(t) && Retired(t) && Halted(t)
  {
  }

  lemma NetworkStep(s: State, a: Action)
    requires Inv(s) && Enabled(s, a) && (a.Connect? || a.Disconnect? || a.StopNotify?)
    ensures Inv(Apply(s, a))
  {
    hide Inv;
    match a {
      case Connect(p) => NotifyStep(s, s.connected + {p}, Connected(p));
      case Disconnect(p, last) =>
        NotifyStep(s, if last then s.connected - {p} else s.connected, Disconnected(p));
      case StopNotify => StopNotifyStep(s);
    }
  }

  lemma StopNotifyStep(s: State)
    requires Inv(s)
    ensures Inv(Apply(s, StopNotify))
  {
    hide Steady, Watching, Settling, Idle;
    SameSlots(s, Apply(s, StopNotify));
  }

  /** What a change of the slot `h` may do, taking notices of its peer with it. */
  ghost predicate Replaces(s: State, h: nat, u: Slot, notices: multiset<Notice>)
    requires h < |s.slots|
  {
    var t, p := s.slots[h], s.slots[h].v.peer;
    && Steady(u) && u.v.peer == p && u.v.cancelled == t.v.cancelled
    && (Idle(t) && s.status == Init ==> Idle(u))
    && (p !in s.connected && (Watching(t) || Disconnected(p) in s.notices) ==>
          Watching(u) || Disconnected(p) in notices)
    && (p in s.connected && (Settling(t) || Connected(p) in s.notices) ==> Settling(u) || Connected(p) in notices)
    && notices <= s.notices && forall m :: m in s.notices && m.peer != p ==> m in notices
  }

  function WithSlot(s: State, h: nat, u: Slot, notices: multiset<Notice>): State
    requires h < |s.slots|
  {
    s.(slots := s.slots[h := u], notices := notices)
  }

  lemma ReplacesKeepsShape(s: State, h: nat, u: Slot, notices: multiset<Notice>)
    requires Inv(s) && h < |s.slots| && Replaces(s, h, u, notices)
    ensures var t := WithSlot(s, h, u, notices); WellFormed(t) && Quiet(t) && Halted(t) && Retired(t)
    ensures forall i :: 0 <= i < |s.slots| ==> Steady(WithSlot(s, h, u, notices).slots[i])
  {
    hide Steady, Watching, Settling, Idle, Watched, Calmed;
  }

  lemma ReplacesKeepsWatch(s: State, h: nat, u: Slot, notices: multiset<Notice>)
    requires Inv(s) && h < |s.slots| && Replaces(s, h, u, notices) && WellFormed(WithSlot(s, h, u, notices))
    requires forall p :: p in s.peers && s.slots[h].v.peer == p && s.peers[p] != h ==> notices == s.notices
    ensures var t := WithSlot(s, h, u, notices); Watched(t) && Calmed(t)
  {
    hide Steady, Watching, Settling, Idle, Quiet, Halted, Retired;
    var t := WithSlot(s, h, u, notices);
    forall p | p in s.peers && s.status == Running && s.notified
      ensures p !in s.connected ==> Watching(t.slots[t.peers[p]]) || Disconnected(p) in notices
      ensures p in s.connected ==> Settling(t.slots[t.peers[p]]) || Connected(p) in notices
    {
      if s.peers[p] != h {
        assert t.slots[t.peers[p]] == s.slots[s.peers[p]];
      }
    }
  }

  lemma DeliverStep(s: State, n: Notice)
    requires Inv(s) && n in s.notices
    ensures Inv(Apply(s, Deliver(n)))
  {
    hide Steady, Watched, Calmed, Quiet, Halted, Retired, Replaces;
    var notices := s.notices - multiset{n};
    if n.peer in s.peers {
      var h := s.peers[n.peer];
      var t := s.slots[h];
      var u := if n.Connected? then t.(stops := t.stops + 1) else t.(starts := t.starts + 1);
      QueueReplaces(s, n);
      ReplacesKeepsShape(s, h, u, notices);
      ReplacesKeepsWatch(s, h, u, notices);
    } else {
      UnheardStep(s, n);
    }
  }

  lemma QueueReplaces(s: State, n: Notice)
    requires Inv(s) && n in s.notices && n.peer in s.peers
    ensures var h := s.peers[n.peer]; var t := s.slots[h];
      Replaces(s, h, if n.Connected? then t.(stops := t.stops + 1) else t.(starts := t.starts + 1),
               s.notices - multiset{n})
  {
    var t := s.slots[s.peers[n.peer]];
    QueueSteady(t, t.starts + 1, t.stops);
    QueueSteady(t, t.starts, t.stops + 1);
    hide Steady;
  }

  lemma UnheardStep(s: State, n: Notice)
    requires Inv(s) && n.peer !in s.peers
    ensures Inv(s.(notices := s.notices - multiset{n}))
  {
    hide Steady, Watching, Settling, Idle;
    SameSlots(s, s.(notices := s.notices - multiset{n}));
  }

  lemma HandleStep(s: State, h: nat, w: Work)
    requires Inv(s) && h < |s.slots| && CanWork(s.slots[h], w)
    ensures Inv(Apply(s, Handle(h, w)))
  {
    hide Steady, CanWork, DoWork, Watching, Settling, Idle, Watched, Calmed, Quiet, Halted, Retired;
    WorkSteady(s.slots[h], s.slots[h].v.peer in s.connected, w);
    var u := DoWork(s.slots[h], s.slots[h].v.peer in s.connected, w);
    assert Replaces(s, h, u, s.notices);
    hide Replaces;
    ReplacesKeepsShape(s, h, u, s.notices);
    ReplacesKeepsWatch(s, h, u, s.notices);
  }

  lemma AddPeerStep(s: State, p: Peer)
    requires Inv(s) && p !in s.peers
    ensures Inv(PeerAdded(s, p))
  {
    hide Steady;
    NewSteady(p);
    var t := PeerAdded(s, p);
    assert t.peers[p] == |s.slots| && |s.slots| in t.peers.Values;
    forall h | h in s.peers.Values ensures h in t.peers.Values {
      var q :| q in s.peers && s.peers[q] == h;
      assert q in t.peers && t.peers[q] == h;
    }
  }

  lemma RemovePeerStep(s: State, p: Peer)
    requires Inv(s) && p in s.peers
    ensures Inv(PeerRemoved(s, p))
  {
    hide Steady, Watching, Settling;
    StopSteady(s.slots[s.peers[p]]);
    var t := PeerRemoved(s, p);
    forall h | h in s.peers.Values && h != s.peers[p] ensures h in t.peers.Values {
      var q :| q in s.peers && s.peers[q] == h;
      assert q in t.peers && t.peers[q] == h;
    }
  }

  lemma StartStep(s: State)
    requires Inv(s) && s.status == Init
    ensures Inv(Apply(s, Start))
  {
    hide Steady, Settling, Idle, Watched, Calmed;
    var t := Apply(s, Start);
    forall h | 0 <= h < |s.slots| ensures Steady(t.slots[h]) {
      QueueSteady(s.slots[h], s.slots[h].starts + 1, s.slots[h].stops);
    }
    StartWatches(s);
  }

  lemma StartWatches(s: State)
    requires Inv(s) && s.status == Init && WellFormed(Apply(s, Start))
    ensures Watched(Apply(s, Start)) && Calmed(Apply(s, Start))
  {
    hide Steady;
    var t := Apply(s, Start);
    forall p | p in s.peers ensures Watching(t.slots[t.peers[p]]) && Settling(t.slots[t.peers[p]]) {
      assert s.peers[p] in s.peers.Values && Idle(s.slots[s.peers[p]]);
    }
  }

  lemma FinishStopStep(s: State)
    requires Inv(s) && 0 < s.stopping
    ensures Inv(Apply(s, FinishStop))
  {
    hide Steady, Watching, Settling, Idle;
    forall h | 0 <= h < |s.slots| ensures Steady(AllStopped(s)[h]) {
      StopSteady(s.slots[h]);
    }
  }

  lemma StepKeepsInv(s: State, a: Action)
    requires Inv(s) && Enabled(s, a)
    ensures Inv(Apply(s, a))
  {
    match a {
      case Deliver(n) => DeliverStep(s, n);
      case Handle(h, w) => HandleStep(s, h, w);
      case AddPeer(p) => if p !in s.peers { AddPeerStep(s, p); }
      case RemovePeer(p) => if p in s.peers { RemovePeerStep(s, p); }
      case Start => if s.status == Init { StartStep(s); }
      case FinishStop => FinishStopStep(s);
      case _ => NetworkStep(s, a);
    }
  }

  ghost predicate Step(s: State, a: Action, t: State) {
    WellFormed(s) && Enabled(s, a) && t == Apply(s, a)
  }

  /** A run of the service: a state after every action. */
  ghost predicate IsRun(run: seq<State>, actions: seq<Action>) {
    && |run| == |actions| + 1
    && run[0] == INITIAL
    && forall i :: 0 <= i < |actions| ==> Step(run[i], actions[i], run[i + 1])
  }

  /** Every state of every run keeps the invariant. */
  lemma {:induction false} RunsKeepInv(run: seq<State>, actions: seq<Action>, i: nat)
    requires IsRun(run, actions) && i < |run|
    ensures Inv(run[i])
  {
    if 0 < i {
      RunsKeepInv(run, actions, i - 1);
      assert Step(run[i - 1], actions[i - 1], run[i - 1 + 1]);
      StepKeepsInv(run[i - 1], actions[i - 1]);
    }
  }

  /** A registered peer's handler without a timer waits between 7.5 and 12.5 seconds before it dials. */
  lemma FirstWait(s: State, p: Peer, r1: nat, r2: nat)
    requires Inv(s) && s.status != Stopped && p in s.peers && p !in s.connected
    requires s.slots[s.peers[p]].v.timer.NoTimer? && CanWork(s.slots[s.peers[p]], StartCheck(r1, r2))
    ensures var timer := Apply(s, Handle(s.peers[p], StartCheck(r1, r2))).slots[s.peers[p]].v.timer;
      timer.Armed? && 7_500_000_000 <= timer.delay < 12_500_000_000
  {
    hide Steady, DoWork, CanWork;
    FreshStart(s.slots[s.peers[p]], r1, r2);
  }

  // ----- when a lost peer is dialled again

  /** Something is under way that leads to another dial of `p`. */
  ghost predicate Redialling(s: State, p: Peer)
    requires WellFormed(s) && p in s.peers
  {
    var t := s.slots[s.peers[p]];
    t.v.timer.Armed? || 0 < t.dials || (t.v.timer.NoTimer? && (0 < t.starts || Disconnected(p) in s.notices))
  }

  /** The peer is gone, and its handler keeps the spent timer of a dial that succeeded. */
  ghost predicate Stranded(s: State, p: Peer)
    requires WellFormed(s) && p in s.peers
  {
    var t := s.slots[s.peers[p]];
    p !in s.connected && t.v.timer == Fired(true) && t.dials == 0
  }

  lemma RedialledUnlessStranded(s: State, p: Peer)
    requires Inv(s) && s.status == Running && s.notified && p in s.peers && p !in s.connected
    ensures Redialling(s, p) <==> !Stranded(s, p)
  {
    assert Steady(s.slots[s.peers[p]]);
  }

  /** `a` takes the handler of slot `h` out of use. */
  predicate TakesOut(s: State, h: nat, a: Action) {
    match a
    case RemovePeer(p) => p in s.peers && s.peers[p] == h
    case FinishStop => s.status != Stopped && h in s.peers.Values
    case _ => false
  }

  /** What happens to a slot in a step that is not its own work. */
  lemma OthersStep(s: State, h: nat, a: Action)
    requires WellFormed(s) && Enabled(s, a) && h < |s.slots| && !(a.Handle? && a.h == h)
    ensures var slots := Apply(s, a).slots; h < |slots| && KeptBy(s, h, a, slots[h])
  {
    hide CanWork, DoWork, AfterStop, Notify;
    match a {
      case Start => WholeStep(s, h, a);
      case FinishStop => WholeStep(s, h, a);
      case Deliver(n) => DeliveredStep(s, h, n);
      case RemovePeer(p) => RemovedStep(s, h, p);
      case Connect(p) => NotifySlots(s.(connected := s.connected + {p}), Connected(p));
      case Disconnect(p, last) =>
        NotifySlots(if last then s.(connected := s.connected - {p}) else s, Disconnected(p));
      case _ =>
    }
  }

  /** The slot is as it was, but for queued checks and for having been taken out of use. */
  predicate KeptBy(s: State, h: nat, a: Action, u: Slot)
    requires h < |s.slots|
  {
    && u.dials == s.slots[h].dials
    && u.v == if TakesOut(s, h, a) then AfterStop(s.slots[h].v) else s.slots[h].v
  }

  lemma NotifySlots(s: State, n: Notice)
    ensures Notify(s, n).slots == s.slots
  {
  }

  lemma WholeStep(s: State, h: nat, a: Action)
    requires WellFormed(s) && Enabled(s, a) && h < |s.slots| && (a.Start? || a.FinishStop?)
    ensures var slots := Apply(s, a).slots; h < |slots| && KeptBy(s, h, a, slots[h])
  {
    hide AfterStop;
    if a.Start? {
      assert Apply(s, a).slots == if s.status == Init then AllStarted(s) else s.slots;
    } else {
      assert Apply(s, a).slots == if s.status == Stopped then s.slots else AllStopped(s);
    }
  }

  lemma DeliveredStep(s: State, h: nat, n: Notice)
    requires WellFormed(s) && n in s.notices && h < |s.slots|
    ensures var slots := Apply(s, Deliver(n)).slots; h < |slots| && KeptBy(s, h, Deliver(n), slots[h])
  {
  }

  lemma RemovedStep(s: State, h: nat, p: Peer)
    requires WellFormed(s) && h < |s.slots|
    ensures var slots := Apply(s, RemovePeer(p)).slots; h < |slots| && KeptBy(s, h, RemovePeer(p), slots[h])
  {
    hide AfterStop;
  }

  /** Nothing the service does by itself ends this: only a connection from outside, or giving the peer up. */
  lemma StrandedStays(s: State, p: Peer, a: Action)
    requires Inv(s) && Enabled(s, a) && p in s.peers && Stranded(s, p)
    requires a != Connect(p) && a != RemovePeer(p) && a != FinishStop
    ensures WellFormed(Apply(s, a)) && p in Apply(s, a).peers && Stranded(Apply(s, a), p)
  {
    StepKeepsInv(s, a);
    var h := s.peers[p];
    StillThere(s, p, a);
    hide Inv, Apply;
    if a.Handle? && a.h == h {
      OwnStep(s, h, a.w);
    } else {
      OthersStep(s, h, a);
      assert !TakesOut(s, h, a);
    }
  }

  lemma StillThere(s: State, p: Peer, a: Action)
    requires WellFormed(s) && Enabled(s, a) && p in s.peers && a != RemovePeer(p)
    ensures p in Apply(s, a).peers && Apply(s, a).peers[p] == s.peers[p]
    ensures a != Connect(p) && p !in s.connected ==> p !in Apply(s, a).connected
  {
    hide CanWork, DoWork, AllStarted, AllStopped, AfterStop;
  }

  /** What a handler's own work does to its timer and its dials. */
  lemma OwnStep(s: State, h: nat, w: Work)
    requires WellFormed(s) && h < |s.slots| && CanWork(s.slots[h], w)
    ensures var t, u := s.slots[h], Apply(s, Handle(h, w)).slots[h];
      && |Apply(s, Handle(h, w)).slots| == |s.slots|
      && (t.v.timer == Fired(true) && t.dials == 0 && t.v.peer !in s.connected ==> u.v == t.v && u.dials == 0)
      && (w.Fire? ==> u.v.timer == Fired(false))
      && (Resets(s, h, Handle(h, w)) ==> !u.v.timer.Fired?)
      && (t.v.timer.Fired? && !Resets(s, h, Handle(h, w)) ==> u.v.timer == Fired(t.v.timer.dialled || w.DialSucceeds?))
      && (!t.v.timer.Fired? && !w.Fire? ==> !u.v.timer.Fired?)
  {
  }

  // ----- the same, in terms of what has happened

  /** `a` drops the timer of slot `h` or arms it again. */
  predicate Resets(s: State, h: nat, a: Action) {
    || TakesOut(s, h, a)
    || (a.Handle? && a.h == h && h < |s.slots| &&
        (a.w.DialFails? || (a.w.StopCheck? && s.slots[h].v.peer in s.connected)))
  }

  /** The timer of slot `h` fired in step `f`, and up to step `i` nothing has dropped it or armed it again. */
  ghost predicate FiredAt(run: seq<State>, actions: seq<Action>, h: nat, f: nat, i: nat)
    requires i <= |actions| <= |run|
  {
    f < i && actions[f] == Handle(h, Fire) && forall k :: f < k < i ==> !Resets(run[k], h, actions[k])
  }

  /** A dial of slot `h` succeeded between the steps `f` and `i`. */
  ghost predicate DialledBetween(actions: seq<Action>, h: nat, f: nat, i: nat)
    requires i <= |actions|
  {
    exists j :: f < j < i && actions[j] == Handle(h, DialSucceeds)
  }

  lemma RunStep(run: seq<State>, actions: seq<Action>, i: nat)
    requires IsRun(run, actions) && i < |actions|
    ensures Inv(run[i]) && Step(run[i], actions[i], run[i + 1])
  {
    RunsKeepInv(run, actions, i);
  }

  /** A fired timer stays as it is, but for noting that the dial succeeded. */
  lemma {:induction false} FiredSince(run: seq<State>, actions: seq<Action>, h: nat, f: nat, i: nat)
    requires IsRun(run, actions) && i <= |actions| && FiredAt(run, actions, h, f, i)
    ensures h < |run[i].slots| && run[i].slots[h].v.timer == Fired(DialledBetween(actions, h, f, i))
  {
    var s, a := run[i - 1], actions[i - 1];
    RunStep(run, actions, i - 1);
    hide Apply, Inv, Resets, CanWork, IsRun;
    if f < i - 1 {
      FiredSince(run, actions, h, f, i - 1);
      assert !Resets(s, h, a);
      TimerStep(s, h, a);
      DialledMore(actions, h, f, i - 1);
    } else {
      OwnStep(s, h, Fire);
    }
  }

  lemma DialledMore(actions: seq<Action>, h: nat, f: nat, i: nat)
    requires f < i < |actions|
    ensures DialledBetween(actions, h, f, i + 1) <==>
      DialledBetween(actions, h, f, i) || actions[i] == Handle(h, DialSucceeds)
  {
  }

  lemma TimerStep(s: State, h: nat, a: Action)
    requires WellFormed(s) && Enabled(s, a) && h < |s.slots|
    ensures var t, slots := s.slots[h].v.timer, Apply(s, a).slots;
      && h < |slots|
      && (a == Handle(h, Fire) ==> slots[h].v.timer == Fired(false))
      && (Resets(s, h, a) ==> !slots[h].v.timer.Fired?)
      && (t.Fired? && !Resets(s, h, a) ==> slots[h].v.timer == Fired(t.dialled || a == Handle(h, DialSucceeds)))
      && (!t.Fired? && a != Handle(h, Fire) ==> !slots[h].v.timer.Fired?)
  {
    hide Apply;
    if a.Handle? && a.h == h {
      OwnStep(s, h, a.w);
    } else {
      OthersStep(s, h, a);
    }
  }

  /** Conversely, a timer that counts as fired has fired in some step. */
  lemma {:induction false} FiredOnce(run: seq<State>, actions: seq<Action>, h: nat, i: nat) returns (f: nat)
    requires IsRun(run, actions) && i <= |actions| && h < |run[i].slots| && run[i].slots[h].v.timer.Fired?
    ensures FiredAt(run, actions, h, f, i)
  {
    hide IsRun, FiredAt;
    NotFiredAtFirst(run, actions, h, i);
    FiredBefore(run, actions, h, i);
    if actions[i - 1] == Handle(h, Fire) {
      f := i - 1;
      FiredAtLast(run, actions, h, f, i);
    } else {
      f := FiredOnce(run, actions, h, i - 1);
      FiredAtLast(run, actions, h, f, i);
    }
  }

  lemma FiredAtLast(run: seq<State>, actions: seq<Action>, h: nat, f: nat, i: nat)
    requires 0 < i <= |actions| <= |run|
    requires (f == i - 1 && actions[f] == Handle(h, Fire)) ||
             (FiredAt(run, actions, h, f, i - 1) && !Resets(run[i - 1], h, actions[i - 1]))
    ensures FiredAt(run, actions, h, f, i)
  {
    hide Resets;
  }

  lemma NotFiredAtFirst(run: seq<State>, actions: seq<Action>, h: nat, i: nat)
    requires IsRun(run, actions) && i <= |actions| && h < |run[i].slots|
    ensures 0 < i && |actions| < |run|
  {
  }

  lemma FiredBefore(run: seq<State>, actions: seq<Action>, h: nat, i: nat)
    requires IsRun(run, actions) && 0 < i <= |actions| && h < |run[i].slots| && run[i].slots[h].v.timer.Fired?
    ensures var s, a := run[i - 1], actions[i - 1];
      a != Handle(h, Fire) ==> h < |s.slots| && s.slots[h].v.timer.Fired? && !Resets(s, h, a)
  {
    var s, a := run[i - 1], actions[i - 1];
    RunStep(run, actions, i - 1);
    hide IsRun, Inv, Apply, Resets, CanWork;
    NewSlotsIdle(s, a);
    if h < |s.slots| {
      TimerStep(s, h, a);
    }
  }

  lemma NewSlotsIdle(s: State, a: Action)
    requires WellFormed(s) && Enabled(s, a)
    ensures forall h :: |s.slots| <= h < |Apply(s, a).slots| ==> Apply(s, a).slots[h].v.timer.NoTimer?
  {
    hide CanWork, DoWork, AfterStop;
  }

  /**
   In every run: a registered peer that is lost while the service runs is not dialled again if and only if no dial is
   under way, its timer fired, a dial has succeeded since then, and since the timer fired no dial has failed and no
   stop check has found the peer connected.
   */
  lemma LostForGood(run: seq<State>, actions: seq<Action>, i: nat, p: Peer)
    requires IsRun(run, actions) && i <= |actions| && run[i].status == Running && run[i].notified
    requires p in run[i].peers && p !in run[i].connected
    ensures WellFormed(run[i])
    ensures var h := run[i].peers[p];
      !Redialling(run[i], p) <==>
        && run[i].slots[h].dials == 0
        && exists f :: FiredAt(run, actions, h, f, i) && DialledBetween(actions, h, f, i)
  {
    RunsKeepInv(run, actions, i);
    RedialledUnlessStranded(run[i], p);
    var h := run[i].peers[p];
    hide Redialling, Steady, FiredAt, DialledBetween, IsRun;
    if run[i].slots[h].v.timer == Fired(true) {
      var f := FiredOnce(run, actions, h, i);
      FiredSince(run, actions, h, f, i);
    }
    forall f: nat | FiredAt(run, actions, h, f, i) && DialledBetween(actions, h, f, i)
      ensures run[i].slots[h].v.timer == Fired(true)
    {
      FiredSince(run, actions, h, f, i);
    }
  }

  ghost predicate StrandedForGood(s: State, p: Peer) {
    && WellFormed(s) && p in s.peers && Stranded(s, p)
    && s.status == Running && s.notified && s.notices == multiset{}
    && s.slots[s.peers[p]].starts == 0 && s.slots[s.peers[p]].stops == 0
  }

  function OnePeer(t: Slot, connected: set<Peer>, notices: multiset<Notice>): State {
    State(Running, true, 0, map[0 := 0], [t], {0}, connected, notices)
  }

  ghost predicate CanReach(s: State) {
    exists run, actions :: IsRun(run, actions) && run[|actions|] == s
  }

  lemma ReachNext(s: State, a: Action, t: State)
    requires CanReach(s) && Step(s, a, t)
    ensures CanReach(t)
  {
    hide Step;
    var run, actions :| IsRun(run, actions) && run[|actions|] == s;
    assert IsRun(run + [t], actions + [a]);
  }

  lemma OnePeerWorks(t: Slot, connected: set<Peer>, notices: multiset<Notice>, w: Work)
    requires t.v.peer == 0 && CanWork(t, w) && CanReach(OnePeer(t, connected, notices))
    ensures CanReach(OnePeer(DoWork(t, 0 in connected, w), connected, notices))
  {
    var s, u := OnePeer(t, connected, notices), OnePeer(DoWork(t, 0 in connected, w), connected, notices);
    assert s.slots[0 := u.slots[0]] == u.slots;
    ReachNext(s, Handle(0, w), u);
  }

  lemma OnePeerHears(t: Slot, connected: set<Peer>, notices: multiset<Notice>, n: Notice)
    requires t.v.peer == 0 && n in notices && n.peer == 0 && CanReach(OnePeer(t, connected, notices))
    ensures CanReach(OnePeer(if n.Connected? then t.(stops := t.stops + 1) else t.(starts := t.starts + 1),
                             connected, notices - multiset{n}))
  {
    var t' := if n.Connected? then t.(stops := t.stops + 1) else t.(starts := t.starts + 1);
    var s, u := OnePeer(t, connected, notices), OnePeer(t', connected, notices - multiset{n});
    assert s.slots[0 := t'] == u.slots;
    ReachNext(s, Deliver(n), u);
  }

  lemma OnePeerComesAndGoes(t: Slot, connected: set<Peer>, notices: multiset<Notice>)
    requires t.v.peer == 0 && CanReach(OnePeer(t, connected, notices))
    ensures CanReach(OnePeer(t, connected + {0}, notices + multiset{Connected(0)}))
    ensures CanReach(OnePeer(t, connected - {0}, notices + multiset{Disconnected(0)}))
  {
    var s := OnePeer(t, connected, notices);
    ReachNext(s, Connect(0), OnePeer(t, connected + {0}, notices + multiset{Connected(0)}));
    ReachNext(s, Disconnect(0, true), OnePeer(t, connected - {0}, notices + multiset{Disconnected(0)}));
  }

  lemma OnePeerStarts()
    ensures CanReach(OnePeer(Slot(NewHandler(0), 1, 0, 0), {}, multiset{}))
  {
    var v := NewHandler(0);
    assert CanReach(INITIAL) by {
      assert IsRun([INITIAL], []);
    }
    var added := PeerAdded(INITIAL, 0);
    ReachNext(INITIAL, AddPeer(0), added);
    assert added.peers[0] == 0 && 0 in added.peers.Values;
    assert AllStarted(added) == [Slot(v, 1, 0, 0)];
    ReachNext(added, Start, OnePeer(Slot(v, 1, 0, 0), {}, multiset{}));
  }

  /** A timer that has been armed for the first time. */
  function FirstTimer(timer: Timer): Handler {
    AfterRearm(NewHandler(0), 0, 0).(timer := timer)
  }

  lemma DialHappens()
    ensures CanReach(OnePeer(Slot(FirstTimer(Fired(false)), 0, 0, 1), {}, multiset{}))
  {
    OnePeerStarts();
    hide CanReach;
    var v := NewHandler(0);
    OnePeerWorks(Slot(v, 1, 0, 0), {}, multiset{}, StartCheck(0, 0));
    OnePeerWorks(Slot(AfterRearm(v, 0, 0), 0, 0, 0), {}, multiset{}, Fire);
  }

  lemma DialSucceedsAndFades()
    ensures CanReach(OnePeer(Slot(FirstTimer(Fired(true)), 0, 1, 0), {}, multiset{Connected(0), Disconnected(0)}))
  {
    DialHappens();
    hide CanReach;
    var none: multiset<Notice>, c := multiset{}, multiset{Connected(0)};
    var fired := Slot(FirstTimer(Fired(false)), 0, 0, 1);
    OnePeerComesAndGoes(fired, {}, none);
    assert {} + {0} == {0} && none + c == c && {0} - {0} == {};
    OnePeerWorks(fired, {0}, c, DialSucceeds);
    OnePeerComesAndGoes(Slot(FirstTimer(Fired(true)), 0, 1, 0), {0}, c);
    assert c + multiset{Disconnected(0)} == multiset{Connected(0), Disconnected(0)};
  }

  /** A peer is stranded when its connection is lost again before the successful dial has been noticed. */
  lemma StrandedHappens()
    ensures exists s :: CanReach(s) && StrandedForGood(s, 0)
  {
    DialSucceedsAndFades();
    hide CanReach, AfterRearm;
    var none: multiset<Notice>, c, d := multiset{}, multiset{Connected(0)}, multiset{Disconnected(0)};
    var spent := FirstTimer(Fired(true));
    assert spent.peer == 0 && Draws(spent, 0, 0) by { FirstTimerDraws(); }
    assert c + d == multiset{Connected(0), Disconnected(0)};
    OnePeerWorks(Slot(spent, 0, 1, 0), {}, c + d, StopCheck);
    OnePeerHears(Slot(spent, 0, 0, 0), {}, c + d, Connected(0));
    assert c + d - c == d && d - d == none;
    OnePeerHears(Slot(spent, 0, 1, 0), {}, d, Disconnected(0));
    ChecksFindNothing(spent);
    assert StrandedForGood(OnePeer(Slot(spent, 0, 0, 0), {}, none), 0);
  }

  /** The checks that are left find neither a connection nor a missing timer. */
  lemma ChecksFindNothing(spent: Handler)
    requires spent.peer == 0 && spent.timer == Fired(true) && Draws(spent, 0, 0)
    requires CanReach(OnePeer(Slot(spent, 1, 1, 0), {}, multiset{}))
    ensures CanReach(OnePeer(Slot(spent, 0, 0, 0), {}, multiset{}))
  {
    hide CanReach;
    OnePeerWorks(Slot(spent, 1, 1, 0), {}, multiset{}, StopCheck);
    OnePeerWorks(Slot(spent, 1, 0, 0), {}, multiset{}, StartCheck(0, 0));
  }

  lemma FirstTimerDraws()
    ensures forall timer :: FirstTimer(timer).peer == 0 && Draws(FirstTimer(timer), 0, 0)
  {
  }
}
