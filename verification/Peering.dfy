/**
 One peering handler: its reconnect timer and its randomised back-off (peering/peering.go).
 Delays are in nanoseconds.
 */
module Peering {

  type Peer = nat

  const SECOND: nat := 1_000_000_000
  const MAX_BACKOFF: nat := 600 * SECOND
  const MAX_BACKOFF_JITTER: nat := 10
  const INITIAL_DELAY: nat := 5 * SECOND
  const JITTER: nat := MAX_BACKOFF * MAX_BACKOFF_JITTER / 100

  /** A timer handle stays set after the timer has fired; `dialled` then says that the dial it started succeeded. */
  datatype Timer = NoTimer | Armed(delay: nat) | Fired(dialled: bool)

  /** `backoffs` counts the back-offs since the delay was last reset. */
  datatype Handler = Handler(peer: Peer, cancelled: bool, timer: Timer, nextDelay: nat, backoffs: nat)

  function NewHandler(p: Peer): Handler {
    Handler(p, false, NoTimer, INITIAL_DELAY, 0)
  }

  // ----- the critical sections of a handler

  /** The random numbers that one back-off may draw. */
  predicate Draws(h: Handler, r1: nat, r2: nat) {
    r1 < h.nextDelay && r2 < JITTER
  }

  function AfterBackoff(h: Handler, r1: nat, r2: nat): Handler
    requires Draws(h, r1, r2)
  {
    var d := if h.nextDelay < MAX_BACKOFF then h.nextDelay + h.nextDelay / 2 + r1 else h.nextDelay;
    h.(nextDelay := if d > MAX_BACKOFF then MAX_BACKOFF - r2 else d, backoffs := h.backoffs + 1)
  }

  /** Backs off and arms the timer for the new delay. */
  function AfterRearm(h: Handler, r1: nat, r2: nat): Handler
    requires Draws(h, r1, r2)
  {
    var b := AfterBackoff(h, r1, r2);
    b.(timer := Armed(b.nextDelay))
  }

  function AfterStartCheck(h: Handler, connected: bool, r1: nat, r2: nat): Handler
    requires Draws(h, r1, r2)
  {
    if h.timer.NoTimer? && !connected then AfterRearm(h, r1, r2) else h
  }

  function AfterStopCheck(h: Handler, connected: bool): Handler {
    if !h.timer.NoTimer? && connected then h.(timer := NoTimer, nextDelay := INITIAL_DELAY, backoffs := 0) else h
  }

  function AfterFailedDial(h: Handler, r1: nat, r2: nat): Handler
    requires Draws(h, r1, r2)
  {
    if h.timer.NoTimer? then h else AfterRearm(h, r1, r2)
  }

  function AfterDial(h: Handler): Handler {
    if h.timer.Fired? then h.(timer := Fired(true)) else h
  }

  function AfterStop(h: Handler): Handler {
    h.(cancelled := true, timer := NoTimer)
  }

  // ----- the pace of the back-off

  /** Half as much again, `k` times. */
  function Floor(k: nat): nat {
    if k == 0 then INITIAL_DELAY else Floor(k - 1) + Floor(k - 1) / 2
  }

  lemma {:induction false} FloorGrows(j: nat, k: nat)
    requires j <= k
    ensures INITIAL_DELAY <= Floor(j) <= Floor(k)
  {
    if j < k {
      FloorGrows(j, k - 1);
    } else if 0 < j {
      FloorGrows(j - 1, j - 1);
    }
  }

  lemma FloorAt()
    ensures Floor(11) <= MAX_BACKOFF - JITTER && MAX_BACKOFF < Floor(12)
  {
    assert Floor(2) == 11_250_000_000;
    assert Floor(4) == 25_312_500_000;
    assert Floor(6) == 56_953_125_000;
    assert Floor(8) == 128_144_531_250;
    assert Floor(10) == 288_325_195_312;
  }

  /** What every back-off keeps. */
  ghost predicate Paced(h: Handler) {
    && INITIAL_DELAY <= h.nextDelay <= MAX_BACKOFF
    && (h.backoffs == 0 ==> h.nextDelay == INITIAL_DELAY)
    && (MAX_BACKOFF - JITTER < h.nextDelay || Floor(h.backoffs) <= h.nextDelay)
  }

  lemma BackoffPaced(h: Handler, r1: nat, r2: nat)
    requires Paced(h) && Draws(h, r1, r2)
    ensures Paced(AfterBackoff(h, r1, r2))
    ensures h.nextDelay == INITIAL_DELAY ==>
      7_500_000_000 <= AfterBackoff(h, r1, r2).nextDelay < 12_500_000_000
  {
  }

  /**
   The delays that can follow a delay of `d`: between one and a half and two and a half times as much, up to ten
   minutes; if the draw may lead above that, anything between nine and ten minutes; and ten minutes stay.
   */
  ghost predicate CanFollow(d: nat, x: nat) {
    if d == 600_000_000_000 then x == d
    else
      || (d + d / 2 <= x < 2 * d + d / 2 && x <= 600_000_000_000)
      || (600_000_000_000 < 2 * d + d / 2 - 1 && 540_000_000_000 < x <= 600_000_000_000)
  }

  lemma BackoffRange(h: Handler, x: nat)
    requires Paced(h)
    ensures (exists r1, r2 :: Draws(h, r1, r2) && AfterBackoff(h, r1, r2).nextDelay == x) <==> CanFollow(h.nextDelay, x)
  {
    var d := h.nextDelay;
    if CanFollow(d, x) {
      if d == MAX_BACKOFF {
        assert Draws(h, 0, 0) && AfterBackoff(h, 0, 0).nextDelay == x;
      } else if d + d / 2 <= x < 2 * d + d / 2 && x <= MAX_BACKOFF {
        assert Draws(h, x - d - d / 2, 0) && AfterBackoff(h, x - d - d / 2, 0).nextDelay == x;
      } else {
        assert Draws(h, d - 1, MAX_BACKOFF - x) && AfterBackoff(h, d - 1, MAX_BACKOFF - x).nextDelay == x;
      }
    }
  }

  /** From the twelfth back-off in a row on, the delay is above nine minutes. */
  lemma LateBackoff(h: Handler)
    requires Paced(h) && 12 <= h.backoffs
    ensures 540 * SECOND < h.nextDelay <= 600 * SECOND
  {
    FloorGrows(12, h.backoffs);
    FloorAt();
  }

  /** `h` is a handler of `p` that has backed off `n` times in a row, with some random numbers. */
  ghost predicate BackedOff(p: Peer, n: nat, h: Handler) {
    if n == 0 then h == NewHandler(p)
    else exists g, r1, r2 :: BackedOff(p, n - 1, g) && Draws(g, r1, r2) && h == AfterBackoff(g, r1, r2)
  }

  lemma {:induction false} BackedOffPaced(p: Peer, n: nat, h: Handler)
    requires BackedOff(p, n, h)
    ensures Paced(h) && h.backoffs == n
  {
    if 0 < n {
      var g, r1, r2 :| BackedOff(p, n - 1, g) && Draws(g, r1, r2) && h == AfterBackoff(g, r1, r2);
      BackedOffPaced(p, n - 1, g);
      BackoffPaced(g, r1, r2);
    }
  }

  /** Drawing nothing but zeros, the delay only just follows the floor. */
  lemma {:induction false} SlowBackoffs(p: Peer, n: nat)
    requires n <= 11
    ensures BackedOff(p, n, NewHandler(p).(nextDelay := Floor(n), backoffs := n))
  {
    if 0 < n {
      SlowBackoffs(p, n - 1);
      SlowBackoff(n);
      var g := NewHandler(p).(nextDelay := Floor(n - 1), backoffs := n - 1);
      hide Floor;
      assert Draws(g, 0, 0);
    }
  }

  lemma SlowBackoff(n: nat)
    requires 0 < n <= 11
    ensures INITIAL_DELAY <= Floor(n - 1) && Floor(n) == Floor(n - 1) + Floor(n - 1) / 2 <= MAX_BACKOFF - JITTER
  {
    assert Floor(n) == Floor(n - 1) + Floor(n - 1) / 2;
    hide Floor;
    FloorGrows(n - 1, n);
    FloorGrows(n, 11);
    FloorAt();
  }

  /** It takes twelve back-offs in a row, and no fewer, until every delay is above nine minutes. */
  lemma TwelveBackoffs(p: Peer, n: nat)
    ensures (forall h :: BackedOff(p, n, h) ==> 540 * SECOND < h.nextDelay) <==> 12 <= n
  {
    if 12 <= n {
      forall h | BackedOff(p, n, h) ensures 540 * SECOND < h.nextDelay {
        BackedOffPaced(p, n, h);
        LateBackoff(h);
      }
    } else {
      SlowBackoffs(p, n);
      FloorGrows(n, 11);
      FloorAt();
    }
  }

  // ----- the handler

  /** Go's rand.Int63n, which panics on a bound that is not positive. */
  method Int63n(n: nat) returns (r: nat)
    requires 0 < n
    ensures r < n
  {
    r :| r < n;
  }

  class PeerHandler {
    const peer: Peer
    var cancelled: bool
    var reconnectTimer: Timer
    var nextDelay: nat
    ghost var backoffs: nat

    ghost function View(): Handler
      reads this
    {
      Handler(peer, cancelled, reconnectTimer, nextDelay, backoffs)
    }

    constructor (p: Peer)
      ensures View() == NewHandler(p)
    {
      peer, cancelled, reconnectTimer, nextDelay, backoffs := p, false, NoTimer, INITIAL_DELAY, 0;
    }

    method NextBackoff() returns (d: nat)
      requires Paced(View())
      modifies this`nextDelay, this`backoffs
      ensures exists r1, r2 :: Draws(old(View()), r1, r2) && View() == AfterBackoff(old(View()), r1, r2)
      ensures d == nextDelay && Paced(View())
    {
      ghost var r1, r2 := 0, 0;
      if nextDelay < MAX_BACKOFF {
        var r := Int63n(nextDelay);
        r1 := r;
        nextDelay := nextDelay + nextDelay / 2 + r;
      }
      if nextDelay > MAX_BACKOFF {
        var r := Int63n(MAX_BACKOFF * MAX_BACKOFF_JITTER / 100);
        r2 := r;
        nextDelay := MAX_BACKOFF - r;
      }
      backoffs := backoffs + 1;
      assert View() == AfterBackoff(old(View()), r1, r2);
      BackoffPaced(old(View()), r1, r2);
      return nextDelay;
    }

    method StartIfDisconnected(connected: bool)
      requires Paced(View())
      modifies this
      ensures Paced(View())
      ensures exists r1, r2 ::
        Draws(old(View()), r1, r2) && View() == AfterStartCheck(old(View()), connected, r1, r2)
    {
      if reconnectTimer.NoTimer? && !connected {
        var d := NextBackoff();
        reconnectTimer := Armed(d);
      } else {
        assert Draws(View(), 0, 0);
      }
    }

    method StopIfConnected(connected: bool)
      requires Paced(View())
      modifies this
      ensures Paced(View()) && View() == AfterStopCheck(old(View()), connected)
    {
      if !reconnectTimer.NoTimer? && connected {
        reconnectTimer := NoTimer;
        nextDelay := INITIAL_DELAY;
        backoffs := 0;
      }
    }

    /** The part of a reconnect that follows a failed dial. */
    method BackOff()
      requires Paced(View())
      modifies this
      ensures Paced(View())
      ensures exists r1, r2 :: Draws(old(View()), r1, r2) && View() == AfterFailedDial(old(View()), r1, r2)
    {
      if !reconnectTimer.NoTimer? {
        var d := NextBackoff();
        reconnectTimer := Armed(d);
      } else {
        assert Draws(View(), 0, 0);
      }
    }

    method Stop()
      modifies this
      ensures View() == AfterStop(old(View()))
    {
      cancelled := true;
      reconnectTimer := NoTimer;
    }
  }
}
