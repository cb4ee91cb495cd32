/**
 Recursive name resolution (namesys/base.go): one goroutine for every /ipns/ name met on the way, each with a
 channel for its own lookup, a channel from the goroutine below it and a channel to the one above it.
 A step is one channel operation; steps interleave freely. A lookup yields at most one result.
 */
module Resolve {
  import opened Prelude

  datatype Error = ResolveFailed | ResolveRecursion | LookupError(code: nat)

  /** What one lookup puts on its channel before closing it. */
  datatype Once = Nothing | Value(path: string) | Failure(err: Error)

  datatype Result = Result(path: string, err: Option<Error>)

  /** The n-th lookup of a resolution may depend on n as well as on the name. A depth of 0 is no limit. */
  datatype Query = Query(lookup: (nat, string) -> Once, name: string, depth: nat)

  const IPNS_PREFIX := "/ipns/"

  predicate IsIpns(path: string) {
    IPNS_PREFIX <= path
  }

  // ----- the answer, declaratively

  /** What the goroutine of the n-th lookup does with the outcome. */
  datatype Verdict = Silent | Send(result: Result) | Recurse(name: string)

  function Judge(o: Once, depth: nat): Verdict {
    match o
    case Nothing => Silent
    case Failure(e) => Send(Result("", Some(e)))
    case Value(v) =>
      if !IsIpns(v) then Send(Result(v, None))
      else if depth == 1 then Send(Result(v, Some(ResolveRecursion)))
      else Recurse(v[|IPNS_PREFIX|..])
  }

  function DepthAt(depth: nat, n: nat): nat {
    if depth == 0 then 0 else if n < depth then depth - n else 1
  }

  function VerdictAt(q: Query, n: nat, name: string): Verdict {
    Judge(q.lookup(n, name), DepthAt(q.depth, n))
  }

  function Answer(v: Verdict): Result {
    if v.Send? then v.result else Result("", Some(ResolveFailed))
  }

  /** Follow the chain from the n-th lookup on. */
  function Chain(q: Query, n: nat, name: string): Result
    requires n < q.depth
    decreases q.depth - n
  {
    var v := VerdictAt(q, n, name);
    if v.Recurse? then Chain(q, n + 1, v.name) else Answer(v)
  }

  /** The chain from the n-th lookup on ends within `m` lookups. */
  ghost predicate Ends(q: Query, n: nat, name: string, m: nat)
    decreases m
  {
    var v := VerdictAt(q, n, name);
    0 < m && (v.Recurse? ==> Ends(q, n + 1, v.name, m - 1))
  }

  /** A depth limit ends every chain. */
  lemma {:induction false} LimitEnds(q: Query, n: nat, name: string)
    requires n < q.depth
    ensures Ends(q, n, name, q.depth - n)
    decreases q.depth - n
  {
    var v := VerdictAt(q, n, name);
    if v.Recurse? {
      LimitEnds(q, n + 1, v.name);
    }
  }

  // ----- the goroutines

  /** The lookup channel as its reader sees it: still to deliver, delivered and to be closed, or closed. */
  datatype ResCh = Waiting | Drained | Closed

  datatype Phase = Looping | Emitting(result: Result, andReturn: bool) | Returned

  /** `subOpen`: the channel from the level below is being read. `out`: the one place of the output channel. */
  datatype Level = Level(name: string, res: ResCh, subOpen: bool, phase: Phase, out: Option<Result>, emitted: bool)

  datatype Top = Reading(last: Option<Result>) | Done(result: Result)

  datatype State = State(levels: seq<Level>, top: Top)

  datatype Action =
    | RecvRes(i: nat)
    | CloseRes(i: nat)
    | RecvSub(i: nat)
    | CloseSub(i: nat)
    | Emit(i: nat)
    | TopRecv
    | TopClosed

  function NewLevel(name: string): Level {
    Level(name, Waiting, false, Looping, None, false)
  }

  function Initial(q: Query): State {
    State([NewLevel(q.name)], Reading(None))
  }

  predicate Enabled(s: State, a: Action) {
    && s.top.Reading?
    && match a
       case RecvRes(i) => i < |s.levels| && s.levels[i].phase.Looping? && s.levels[i].res.Waiting?
       case CloseRes(i) => i < |s.levels| && s.levels[i].phase.Looping? && s.levels[i].res.Drained?
       case RecvSub(i) =>
         i + 1 < |s.levels| && s.levels[i].phase.Looping? && s.levels[i].subOpen && s.levels[i + 1].out.Some?
       case CloseSub(i) =>
         i + 1 < |s.levels| && s.levels[i].phase.Looping? && s.levels[i].subOpen
         && s.levels[i + 1].out.None? && s.levels[i + 1].phase.Returned?
       case Emit(i) => i < |s.levels| && s.levels[i].phase.Emitting? && s.levels[i].out.None?
       case TopRecv => 0 < |s.levels| && s.levels[0].out.Some?
       case TopClosed => 0 < |s.levels| && s.levels[0].out.None? && s.levels[0].phase.Returned?
  }

  /** The test at the end of every turn of the loop. */
  function Settle(l: Level): Level {
    if l.phase.Looping? && l.res.Closed? && !l.subOpen then l.(phase := Returned) else l
  }

  function Apply(q: Query, s: State, a: Action): State
    requires Enabled(s, a)
  {
    match a
    case RecvRes(i) =>
      var l := s.levels[i];
      match VerdictAt(q, i, l.name) {
        case Silent => s.(levels := s.levels[i := Settle(l.(res := Closed))])
        case Send(x) =>
          s.(levels := s.levels[i := l.(res := Drained, phase := Emitting(x, q.lookup(i, l.name).Failure?))])
        case Recurse(name) =>
          s.(levels := s.levels[i := l.(res := Drained, subOpen := true)] + [NewLevel(name)])
      }
    case CloseRes(i) => s.(levels := s.levels[i := Settle(s.levels[i].(res := Closed))])
    case RecvSub(i) =>
      var below := s.levels[i + 1];
      s.(levels := s.levels[i := s.levels[i].(phase := Emitting(below.out.value, false))][i + 1 := below.(out := None)])
    case CloseSub(i) => s.(levels := s.levels[i := Settle(s.levels[i].(subOpen := false))])
    case Emit(i) =>
      var l := s.levels[i];
      var next := if l.phase.andReturn then Returned else Looping;
      s.(levels := s.levels[i := Settle(l.(out := Some(l.phase.result), emitted := true, phase := next))])
    case TopRecv =>
      var x := s.levels[0].out.value;
      State(s.levels[0 := s.levels[0].(out := None)], if x.err.Some? then Done(x) else Reading(Some(x)))
    case TopClosed =>
      s.(top := Done(if s.top.last.Some? then s.top.last.value else Result("", Some(ResolveFailed))))
  }

  // ----- the invariant

  function Last(s: State): Level
    requires s.levels != []
  {
    s.levels[|s.levels| - 1]
  }

  function LastVerdict(q: Query, s: State): Verdict
    requires s.levels != []
  {
    VerdictAt(q, |s.levels| - 1, Last(s).name)
  }

  /** The one result that is being passed up, once the last lookup has delivered it. */
  ghost predicate Token(q: Query, s: State, x: Result)
    requires s.levels != []
  {
    !Last(s).res.Waiting? && LastVerdict(q, s) == Send(x)
  }

  predicate Active(l: Level) {
    l.phase.Emitting? || l.emitted
  }

  predicate Passed(l: Level) {
    l.emitted && l.out.None?
  }

  /** A level by itself: it holds nothing but the token, sends it once, and has left the loop if it should. */
  ghost predicate LevelOk(q: Query, s: State, l: Level)
    requires s.levels != []
  {
    && (l.phase.Emitting? ==> !l.emitted && Token(q, s, l.phase.result))
    && (l.out.Some? ==> l.emitted && Token(q, s, l.out.value))
    && (l.emitted ==> LastVerdict(q, s).Send? && !Last(s).res.Waiting?)
    && (l.phase.Looping? ==> !(l.res.Closed? && !l.subOpen))
  }

  /** A level and the one below it. */
  ghost predicate PairOk(q: Query, n: nat, l: Level, below: Level) {
    && !l.res.Waiting? && VerdictAt(q, n, l.name) == Recurse(below.name)
    && (Active(l) <==> Passed(below))
    && (!l.subOpen ==> below.phase.Returned? && below.out.None?)
    && (l.phase.Returned? ==> !l.subOpen)
    && (l.phase.Emitting? ==> !l.phase.andReturn)
  }

  ghost predicate LastOk(q: Query, s: State)
    requires s.levels != []
  {
    var l := Last(s);
    && !l.subOpen
    && (!l.res.Waiting? ==> !LastVerdict(q, s).Recurse?)
    && (Active(l) <==> !l.res.Waiting? && LastVerdict(q, s).Send?)
    && (l.phase.Returned? ==> !l.res.Waiting?)
  }

  ghost predicate TopOk(q: Query, s: State)
    requires s.levels != []
  {
    match s.top
    case Reading(last) =>
      && (last.Some? <==> Passed(s.levels[0]))
      && (last.Some? ==> Token(q, s, last.value) && last.value.err.None?)
    case Done(x) => !Last(s).res.Waiting? && !LastVerdict(q, s).Recurse? && x == Answer(LastVerdict(q, s))
  }

  ghost predicate Inv(q: Query, s: State) {
    && s.levels != [] && s.levels[0].name == q.name
    && (forall i :: 0 <= i < |s.levels| ==> LevelOk(q, s, s.levels[i]))
    && (forall i :: 0 <= i < |s.levels| - 1 ==> PairOk(q, i, s.levels[i], s.levels[i + 1]))
    && LastOk(q, s)
    && TopOk(q, s)
  }

  lemma InitialInv(q: Query)
    ensures Inv(q, Initial(q))
  {
  }

  lemma RecvResInv(q: Query, s: State, i: nat)
    requires Inv(q, s) && Enabled(s, RecvRes(i))
    ensures Inv(q, Apply(q, s, RecvRes(i)))
  {
    hide VerdictAt;
    WaitingIsLast(q, s, i);
    match VerdictAt(q, i, s.levels[i].name) {
      case Silent => RecvSilentInv(q, s);
      case Send(x) => RecvSendInv(q, s);
      case Recurse(name) => RecvRecurseInv(q, s);
    }
  }

  /** Only the last lookup is still to deliver, and nothing is on its way up before it does. */
  lemma WaitingIsLast(q: Query, s: State, i: nat)
    requires Inv(q, s) && i < |s.levels| && s.levels[i].res.Waiting?
    ensures i == |s.levels| - 1
    ensures forall j :: 0 <= j < |s.levels| ==> !Active(s.levels[j]) && s.levels[j].out.None?
  {
    hide VerdictAt;
    assert i < |s.levels| - 1 ==> PairOk(q, i, s.levels[i], s.levels[i + 1]);
    forall j | 0 <= j < |s.levels| ensures !Active(s.levels[j]) && s.levels[j].out.None? {
      assert LevelOk(q, s, s.levels[j]);
    }
  }

  /** What the other levels have to do with the last one while its lookup has not delivered. */
  ghost predicate Quiescent(q: Query, s: State) {
    && Inv(q, s) && s.top.Reading? && Last(s).res.Waiting? && Last(s).phase.Looping?
    && forall j :: 0 <= j < |s.levels| ==> !Active(s.levels[j]) && s.levels[j].out.None?
  }

  /** A level that is not active owes the token nothing. */
  lemma InactiveOk(q: Query, s: State, t: State, l: Level)
    requires s.levels != [] && t.levels != [] && LevelOk(q, s, l) && !Active(l) && l.out.None?
    ensures LevelOk(q, t, l)
  {
  }

  lemma InactivesOk(q: Query, s: State, t: State)
    requires Quiescent(q, s) && t.levels != []
    ensures forall j :: 0 <= j < |s.levels| ==> LevelOk(q, t, s.levels[j])
  {
    hide LevelOk, Active;
    forall j | 0 <= j < |s.levels| ensures LevelOk(q, t, s.levels[j]) {
      InactiveOk(q, s, t, s.levels[j]);
    }
  }

  lemma RecvSilentInv(q: Query, s: State)
    requires Quiescent(q, s) && LastVerdict(q, s).Silent?
    ensures Inv(q, Apply(q, s, RecvRes(|s.levels| - 1)))
  {
    hide VerdictAt;
    var n := |s.levels| - 1;
    var t := Apply(q, s, RecvRes(n));
    InactivesOk(q, s, t);
    PairsBelow(q, s, t);
    hide PairOk;
  }

  lemma RecvSendInv(q: Query, s: State)
    requires Quiescent(q, s) && LastVerdict(q, s).Send?
    ensures Inv(q, Apply(q, s, RecvRes(|s.levels| - 1)))
  {
    hide VerdictAt;
    var n := |s.levels| - 1;
    var t := Apply(q, s, RecvRes(n));
    InactivesOk(q, s, t);
    PairsBelow(q, s, t);
    hide PairOk;
  }

  lemma RecvRecurseInv(q: Query, s: State)
    requires Quiescent(q, s) && LastVerdict(q, s).Recurse?
    ensures Inv(q, Apply(q, s, RecvRes(|s.levels| - 1)))
  {
    var n := |s.levels| - 1;
    var t := Apply(q, s, RecvRes(n));
    hide VerdictAt;
    InactivesOk(q, s, t);
    PairsBelow(q, s, t);
    assert PairOk(q, n, t.levels[n], t.levels[n + 1]);
    hide PairOk;
  }

  /** The last level's work on its own lookup does not concern the pairs above it. */
  lemma PairsBelow(q: Query, s: State, t: State)
    requires Quiescent(q, s) && |s.levels| <= |t.levels|
    requires forall j :: 0 <= j < |s.levels| - 1 ==> t.levels[j] == s.levels[j]
    requires var l, m := Last(s), t.levels[|s.levels| - 1]; m.name == l.name && m.out.None? && !m.emitted
    ensures forall j :: 0 <= j < |s.levels| - 1 ==> PairOk(q, j, t.levels[j], t.levels[j + 1])
  {
    hide VerdictAt;
    forall j | 0 <= j < |s.levels| - 1 ensures PairOk(q, j, t.levels[j], t.levels[j + 1]) {
      assert PairOk(q, j, s.levels[j], s.levels[j + 1]);
    }
  }

  /** Changing one level keeps the invariant if its neighbours do not notice. */
  lemma LevelReplaced(q: Query, s: State, i: nat, l: Level)
    requires Inv(q, s) && i < |s.levels| && LevelOk(q, s, l)
    requires l.name == s.levels[i].name && (l.res.Waiting? <==> s.levels[i].res.Waiting?)
    requires 0 < i ==> PairOk(q, i - 1, s.levels[i - 1], l)
    requires i < |s.levels| - 1 ==> PairOk(q, i, l, s.levels[i + 1])
    requires i == |s.levels| - 1 ==>
      !l.subOpen && (Active(l) <==> Active(s.levels[i])) && (l.phase.Returned? ==> !l.res.Waiting?)
    requires i == 0 ==> (Passed(l) <==> Passed(s.levels[0]))
    ensures Inv(q, s.(levels := s.levels[i := l]))
  {
    hide VerdictAt, PairOk, Active, Passed;
    var t := s.(levels := s.levels[i := l]);
    forall x ensures LevelOk(q, s, x) <==> LevelOk(q, t, x) {
      SameLast(q, s, t, x);
    }
    hide LevelOk;
    forall j | 0 <= j < |t.levels| - 1 ensures PairOk(q, j, t.levels[j], t.levels[j + 1]) {
      assert PairOk(q, j, s.levels[j], s.levels[j + 1]);
    }
  }

  lemma SameLast(q: Query, s: State, t: State, l: Level)
    requires s.levels != [] && |t.levels| == |s.levels|
    requires Last(t).name == Last(s).name && (Last(t).res.Waiting? <==> Last(s).res.Waiting?)
    ensures LevelOk(q, s, l) <==> LevelOk(q, t, l)
  {
    hide VerdictAt;
  }

  /** What the invariant says of one level and its neighbours. */
  lemma Around(q: Query, s: State, i: nat)
    requires Inv(q, s) && i < |s.levels|
    ensures LevelOk(q, s, s.levels[i])
    ensures 0 < i ==> PairOk(q, i - 1, s.levels[i - 1], s.levels[i])
    ensures i < |s.levels| - 1 ==> PairOk(q, i, s.levels[i], s.levels[i + 1])
    ensures i == |s.levels| - 1 ==> !s.levels[i].subOpen
  {
    hide VerdictAt, PairOk, LevelOk;
    if 0 < i {
      assert PairOk(q, i - 1, s.levels[i - 1], s.levels[i - 1 + 1]);
    }
  }

  lemma CloseResInv(q: Query, s: State, i: nat)
    requires Inv(q, s) && Enabled(s, CloseRes(i))
    ensures Inv(q, Apply(q, s, CloseRes(i)))
  {
    hide Inv, VerdictAt, Token, LastVerdict;
    Around(q, s, i);
    LevelReplaced(q, s, i, Settle(s.levels[i].(res := Closed)));
  }

  lemma RecvSubInv(q: Query, s: State, i: nat)
    requires Inv(q, s) && Enabled(s, RecvSub(i))
    ensures Inv(q, Apply(q, s, RecvSub(i)))
  {
    hide VerdictAt;
  }

  lemma CloseSubInv(q: Query, s: State, i: nat)
    requires Inv(q, s) && Enabled(s, CloseSub(i))
    ensures Inv(q, Apply(q, s, CloseSub(i)))
  {
    hide Inv, VerdictAt, Token, LastVerdict;
    Around(q, s, i);
    LevelReplaced(q, s, i, Settle(s.levels[i].(subOpen := false)));
  }

  lemma EmitInv(q: Query, s: State, i: nat)
    requires Inv(q, s) && Enabled(s, Emit(i))
    ensures Inv(q, Apply(q, s, Emit(i)))
  {
    hide Inv, VerdictAt;
    Around(q, s, i);
    LevelReplaced(q, s, i, Apply(q, s, Emit(i)).levels[i]);
  }

  lemma TopRecvInv(q: Query, s: State)
    requires Inv(q, s) && Enabled(s, TopRecv)
    ensures Inv(q, Apply(q, s, TopRecv))
  {
    hide VerdictAt;
  }

  /** A level that ended without sending anything had nothing to send: the last lookup was silent. */
  lemma {:induction false} SilentBelow(q: Query, s: State, i: nat)
    requires Inv(q, s) && i < |s.levels| && s.levels[i].phase.Returned? && !s.levels[i].emitted
    ensures !Last(s).res.Waiting? && LastVerdict(q, s).Silent?
    decreases |s.levels| - i
  {
    if i < |s.levels| - 1 {
      assert PairOk(q, i, s.levels[i], s.levels[i + 1]);
      SilentBelow(q, s, i + 1);
    }
  }

  lemma TopClosedInv(q: Query, s: State)
    requires Inv(q, s) && Enabled(s, TopClosed)
    ensures Inv(q, Apply(q, s, TopClosed))
  {
    if !s.levels[0].emitted {
      SilentBelow(q, s, 0);
    }
    hide VerdictAt;
  }

  lemma StepInv(q: Query, s: State, a: Action)
    requires Inv(q, s) && Enabled(s, a)
    ensures Inv(q, Apply(q, s, a))
  {
    match a {
      case RecvRes(i) => RecvResInv(q, s, i);
      case CloseRes(i) => CloseResInv(q, s, i);
      case RecvSub(i) => RecvSubInv(q, s, i);
      case CloseSub(i) => CloseSubInv(q, s, i);
      case Emit(i) => EmitInv(q, s, i);
      case TopRecv => TopRecvInv(q, s);
      case TopClosed => TopClosedInv(q, s);
    }
  }

  // ----- no schedule gets stuck

  lemma {:induction false} LevelsNotStuck(q: Query, s: State, i: nat)
    requires Inv(q, s) && s.top.Reading? && i < |s.levels|
    requires s.levels[i].out.None? && !s.levels[i].phase.Returned?
    ensures exists a :: Enabled(s, a)
    decreases |s.levels| - i
  {
    var l := s.levels[i];
    assert LevelOk(q, s, l);
    if l.phase.Emitting? {
      assert Enabled(s, Emit(i));
    } else if l.res.Waiting? {
      assert Enabled(s, RecvRes(i));
    } else if l.res.Drained? {
      assert Enabled(s, CloseRes(i));
    } else {
      assert i < |s.levels| - 1;
      var below := s.levels[i + 1];
      if below.out.Some? {
        assert Enabled(s, RecvSub(i));
      } else if below.phase.Returned? {
        assert Enabled(s, CloseSub(i));
      } else {
        LevelsNotStuck(q, s, i + 1);
      }
    }
  }

  lemma NotStuck(q: Query, s: State)
    requires Inv(q, s) && s.top.Reading?
    ensures exists a :: Enabled(s, a)
  {
    if s.levels[0].out.Some? {
      assert Enabled(s, TopRecv);
    } else if s.levels[0].phase.Returned? {
      assert Enabled(s, TopClosed);
    } else {
      LevelsNotStuck(q, s, 0);
    }
  }

  // ----- every schedule ends

  function LevelWork(l: Level): nat {
    (if l.res.Waiting? then 2 else if l.res.Drained? then 1 else 0)
    + (if l.subOpen then 1 else 0)
    + (if l.emitted then 0 else if l.phase.Emitting? then 1 else 2)
  }

  function LevelsWork(ls: seq<Level>): nat {
    if ls == [] then 0 else LevelWork(ls[|ls| - 1]) + LevelsWork(ls[..|ls| - 1])
  }

  /** A bound on the steps to come of a resolution that makes at most `m` lookups. */
  function Work(m: nat, s: State): nat
    requires |s.levels| <= m
  {
    5 * (m - |s.levels|) + LevelsWork(s.levels) +
    match s.top
    case Reading(None) => 2
    case Reading(Some(_)) => 1
    case Done(_) => 0
  }

  lemma {:induction false} LevelsWorkUpdate(ls: seq<Level>, i: nat, l: Level)
    requires i < |ls|
    ensures LevelsWork(ls[i := l]) == LevelsWork(ls) - LevelWork(ls[i]) + LevelWork(l)
  {
    var n := |ls| - 1;
    if i == n {
      assert ls[i := l][..n] == ls[..n];
    } else {
      LevelsWorkUpdate(ls[..n], i, l);
      assert ls[i := l][..n] == ls[..n][i := l];
    }
  }

  lemma StepWork(q: Query, s: State, a: Action, m: nat)
    requires Inv(q, s) && Enabled(s, a) && |s.levels| <= m && |Apply(q, s, a).levels| <= m
    ensures Work(m, Apply(q, s, a)) < Work(m, s)
  {
    match a {
      case TopRecv => TopRecvWork(q, s, m);
      case TopClosed =>
      case RecvSub(i) => RecvSubWork(q, s, i, m);
      case RecvRes(i) => RecvResWork(q, s, i, m);
      case CloseRes(i) => LevelsWorkUpdate(s.levels, i, Settle(s.levels[i].(res := Closed)));
      case CloseSub(i) => LevelsWorkUpdate(s.levels, i, Settle(s.levels[i].(subOpen := false)));
      case Emit(i) => EmitWork(q, s, i, m);
    }
  }

  lemma TopRecvWork(q: Query, s: State, m: nat)
    requires Inv(q, s) && Enabled(s, TopRecv) && |s.levels| <= m
    ensures Work(m, Apply(q, s, TopRecv)) < Work(m, s)
  {
    LevelsWorkUpdate(s.levels, 0, s.levels[0].(out := None));
    hide LevelsWork, Inv;
  }

  lemma RecvSubWork(q: Query, s: State, i: nat, m: nat)
    requires Inv(q, s) && Enabled(s, RecvSub(i)) && |s.levels| <= m
    ensures Work(m, Apply(q, s, RecvSub(i))) < Work(m, s)
  {
    Around(q, s, i);
    hide Inv, LevelOk, LevelsWork, VerdictAt;
    var up, below := s.levels[i], s.levels[i + 1];
    var up' := up.(phase := Emitting(below.out.value, false));
    assert !Active(up) && LevelWork(up') < LevelWork(up);
    assert LevelWork(below.(out := None)) == LevelWork(below);
    hide LevelWork, PairOk;
    LevelsWorkUpdate(s.levels, i, up');
    LevelsWorkUpdate(s.levels[i := up'], i + 1, below.(out := None));
  }

  lemma RecvResWork(q: Query, s: State, i: nat, m: nat)
    requires Inv(q, s) && Enabled(s, RecvRes(i)) && |s.levels| <= m
    requires |Apply(q, s, RecvRes(i)).levels| <= m
    ensures Work(m, Apply(q, s, RecvRes(i))) < Work(m, s)
  {
    var t := Apply(q, s, RecvRes(i));
    assert LevelOk(q, s, s.levels[i]);
    LevelsWorkUpdate(s.levels, i, t.levels[i]);
    if VerdictAt(q, i, s.levels[i].name).Recurse? {
      assert t.levels[..|s.levels|] == s.levels[i := t.levels[i]];
    }
    hide VerdictAt, Inv;
  }

  lemma EmitWork(q: Query, s: State, i: nat, m: nat)
    requires Inv(q, s) && Enabled(s, Emit(i)) && |s.levels| <= m
    ensures Work(m, Apply(q, s, Emit(i))) < Work(m, s)
  {
    assert LevelOk(q, s, s.levels[i]);
    LevelsWorkUpdate(s.levels, i, Apply(q, s, Emit(i)).levels[i]);
    hide LevelsWork, Inv;
  }

  // ----- every run

  ghost predicate IsRun(q: Query, run: seq<State>, actions: seq<Action>) {
    && |run| == |actions| + 1
    && run[0] == Initial(q)
    && forall i :: 0 <= i < |actions| ==> Enabled(run[i], actions[i]) && run[i + 1] == Apply(q, run[i], actions[i])
  }

  lemma {:induction false} RunInv(q: Query, run: seq<State>, actions: seq<Action>, i: nat)
    requires IsRun(q, run, actions) && i < |run|
    ensures Inv(q, run[i])
  {
    if i == 0 {
      InitialInv(q);
    } else {
      RunInv(q, run, actions, i - 1);
      assert run[i - 1 + 1] == Apply(q, run[i - 1], actions[i - 1]);
      StepInv(q, run[i - 1], actions[i - 1]);
    }
  }

  /** The levels follow the chain. */
  lemma {:induction false} LevelInChain(q: Query, s: State, i: nat, m: nat)
    requires Inv(q, s) && i < |s.levels| && Ends(q, 0, q.name, m)
    ensures i < m && Ends(q, i, s.levels[i].name, m - i)
  {
    if 0 < i {
      LevelInChain(q, s, i - 1, m);
      assert PairOk(q, i - 1, s.levels[i - 1], s.levels[i - 1 + 1]);
    }
  }

  lemma {:induction false} RunWork(q: Query, run: seq<State>, actions: seq<Action>, i: nat, m: nat)
    requires IsRun(q, run, actions) && i < |run| && Ends(q, 0, q.name, m)
    ensures |run[i].levels| <= m && i + Work(m, run[i]) <= 5 * m + 1
  {
    RunInv(q, run, actions, i);
    LevelInChain(q, run[i], |run[i].levels| - 1, m);
    if i == 0 {
      assert LevelsWork([NewLevel(q.name)]) == 4;
    } else {
      RunWork(q, run, actions, i - 1, m);
      RunInv(q, run, actions, i - 1);
      assert run[i - 1 + 1] == Apply(q, run[i - 1], actions[i - 1]);
      hide Inv, Work, Apply;
      StepWork(q, run[i - 1], actions[i - 1], m);
    }
  }

  lemma {:induction false} ChainIsLastVerdict(q: Query, s: State, i: nat)
    requires Inv(q, s) && i < |s.levels| <= q.depth && !LastVerdict(q, s).Recurse?
    ensures Chain(q, i, s.levels[i].name) == Answer(LastVerdict(q, s))
    decreases |s.levels| - i
  {
    if i < |s.levels| - 1 {
      assert PairOk(q, i, s.levels[i], s.levels[i + 1]);
      ChainIsLastVerdict(q, s, i + 1);
    }
  }

  /**
   With a depth limit, every schedule makes at most that many lookups and a bounded number of steps, can go on
   until it is done, and then returns the answer at the end of the chain.
   */
  lemma ResolveIsChain(q: Query, run: seq<State>, actions: seq<Action>)
    requires IsRun(q, run, actions) && 0 < q.depth
    ensures var s := run[|actions|];
      && |s.levels| <= q.depth
      && |actions| <= 5 * q.depth + 1
      && (s.top.Reading? ==> exists a :: Enabled(s, a))
      && (s.top.Done? ==> s.top.result == Chain(q, 0, q.name))
  {
    var s := run[|actions|];
    RunInv(q, run, actions, |actions|);
    LimitEnds(q, 0, q.name);
    RunWork(q, run, actions, |actions|, q.depth);
    if s.top.Reading? {
      NotStuck(q, s);
    } else {
      ChainIsLastVerdict(q, s, 0);
    }
  }

  /**
   Without a limit too, a resolution that is done has followed the chain to its end, and never gets stuck before.
   If the chain ends within `m` lookups, the resolution makes no more than that and ends after a bounded number of
   steps.
   */
  lemma UnlimitedResolve(q: Query, run: seq<State>, actions: seq<Action>)
    requires IsRun(q, run, actions)
    ensures var s := run[|actions|];
      && s.levels != [] && s.levels[0].name == q.name
      && (forall i :: 0 <= i < |s.levels| - 1 ==> VerdictAt(q, i, s.levels[i].name) == Recurse(s.levels[i + 1].name))
      && (s.top.Reading? ==> exists a :: Enabled(s, a))
      && (s.top.Done? ==> !LastVerdict(q, s).Recurse? && s.top.result == Answer(LastVerdict(q, s)))
      && (forall m: nat :: Ends(q, 0, q.name, m) ==> |s.levels| <= m && |actions| <= 5 * m + 1)
      && (s.top.Done? ==> Ends(q, 0, q.name, |s.levels|))
  {
    var s := run[|actions|];
    RunInv(q, run, actions, |actions|);
    if s.top.Reading? {
      NotStuck(q, s);
    } else {
      DoneEnds(q, s, 0);
    }
    forall i | 0 <= i < |s.levels| - 1 ensures VerdictAt(q, i, s.levels[i].name) == Recurse(s.levels[i + 1].name) {
      assert PairOk(q, i, s.levels[i], s.levels[i + 1]);
    }
    forall m: nat | Ends(q, 0, q.name, m) ensures |s.levels| <= m && |actions| <= 5 * m + 1 {
      RunWork(q, run, actions, |actions|, m);
    }
  }

  lemma {:induction false} DoneEnds(q: Query, s: State, i: nat)
    requires Inv(q, s) && i < |s.levels| && !LastVerdict(q, s).Recurse?
    ensures Ends(q, i, s.levels[i].name, |s.levels| - i)
    decreases |s.levels| - i
  {
    if i < |s.levels| - 1 {
      assert PairOk(q, i, s.levels[i], s.levels[i + 1]);
      DoneEnds(q, s, i + 1);
    }
  }

  // ----- the answer in terms of the lookups alone

  /** The names looked up one after the other, each the IPNS value of the one before it. */
  ghost predicate IsChain(q: Query, names: seq<string>) {
    && names != [] && names[0] == q.name
    && forall i :: 0 <= i < |names| - 1 ==> q.lookup(i, names[i]) == Value("/ipns/" + names[i + 1])
  }

  /** What the last lookup of a chain decides. Only a chain as long as the depth limit ends at an IPNS name. */
  ghost predicate Decides(q: Query, names: seq<string>, r: Result)
    requires names != []
  {
    match q.lookup(|names| - 1, names[|names| - 1])
    case Nothing => r == Result("", Some(ResolveFailed))
    case Failure(e) => r == Result("", Some(e))
    case Value(v) =>
      if "/ipns/" <= v then |names| == q.depth && r == Result(v, Some(ResolveRecursion)) else r == Result(v, None)
  }

  function NamesOf(ls: seq<Level>): (names: seq<string>)
    ensures |names| == |ls| && forall i :: 0 <= i < |ls| ==> names[i] == ls[i].name
  {
    seq(|ls|, i requires 0 <= i < |ls| => ls[i].name)
  }

  /** With or without a limit, a resolution that is done returns what the last lookup of its chain decides. */
  lemma ResolveDecides(q: Query, run: seq<State>, actions: seq<Action>)
    requires IsRun(q, run, actions) && run[|actions|].top.Done?
    ensures var s := run[|actions|];
      && IsChain(q, NamesOf(s.levels)) && Decides(q, NamesOf(s.levels), s.top.result)
      && (0 < q.depth ==> |s.levels| <= q.depth)
  {
    var s := run[|actions|];
    RunInv(q, run, actions, |actions|);
    if 0 < q.depth {
      LimitEnds(q, 0, q.name);
      LevelInChain(q, s, |s.levels| - 1, q.depth);
    }
    hide IsRun;
    forall i | 0 <= i < |s.levels| - 1
      ensures q.lookup(i, s.levels[i].name) == Value(IPNS_PREFIX + s.levels[i + 1].name)
    {
      assert PairOk(q, i, s.levels[i], s.levels[i + 1]);
    }
  }
}
