/**
 The request log and its in-place clean-up (commands/reqlog.go).
 */
module ReqLog {

  // ----- order-preserving selection

  /** The elements of `s` that are flagged, in order. */
  ghost function Selected<T>(s: seq<T>, f: seq<bool>): seq<T>
    requires |s| == |f|
  {
    if s == [] then []
    else
      var n := |s| - 1;
      Selected(s[..n], f[..n]) + if f[n] then [s[n]] else []
  }

  ghost predicate Increasing(ps: seq<nat>) {
    forall i, j :: 0 <= i < j < |ps| ==> ps[i] < ps[j]
  }

  lemma {:induction false} SelectedMembers<T>(s: seq<T>, f: seq<bool>, x: T)
    requires |s| == |f|
    ensures x in Selected(s, f) <==> exists i :: 0 <= i < |s| && s[i] == x && f[i]
  {
    if s != [] {
      var n := |s| - 1;
      SelectedMembers(s[..n], f[..n], x);
      if i :| 0 <= i < n && s[i] == x && f[i] {
        assert s[..n][i] == x && f[..n][i];
      }
    }
  }

  lemma {:induction false} SelectedIncreasing(ps: seq<nat>, f: seq<bool>)
    requires |ps| == |f| && Increasing(ps)
    ensures Increasing(Selected<nat>(ps, f))
  {
    if ps != [] {
      var n := |ps| - 1;
      SelectedIncreasing(ps[..n], f[..n]);
      var qs := Selected<nat>(ps[..n], f[..n]);
      forall i | 0 <= i < |qs| ensures qs[i] < ps[n] {
        SelectedMembers(ps[..n], f[..n], qs[i]);
      }
    }
  }

  lemma {:induction false} SelectedPairs<T>(all: seq<T>, s: seq<T>, ps: seq<nat>, f: seq<bool>)
    requires |s| == |ps| == |f| && forall i :: 0 <= i < |ps| ==> ps[i] < |all| && s[i] == all[ps[i]]
    ensures var t, qs := Selected(s, f), Selected<nat>(ps, f);
      |t| == |qs| && forall i :: 0 <= i < |qs| ==> qs[i] < |all| && t[i] == all[qs[i]]
  {
    if s != [] {
      var n := |s| - 1;
      SelectedPairs(all, s[..n], ps[..n], f[..n]);
    }
  }

  /** `s` holds elements of `all` in their order, at least those that are alive; `ps` are their positions. */
  ghost predicate Keeps<T>(all: seq<T>, alive: seq<bool>, s: seq<T>, ps: seq<nat>) {
    && |all| == |alive| && |s| == |ps| && Increasing(ps)
    && (forall i :: 0 <= i < |ps| ==> ps[i] < |all| && s[i] == all[ps[i]])
    && (forall p :: 0 <= p < |all| && alive[p] ==> p in ps)
  }

  /** Selecting at least the live elements keeps this. */
  lemma KeepsSelected<T>(all: seq<T>, alive: seq<bool>, s: seq<T>, ps: seq<nat>, f: seq<bool>)
    requires Keeps(all, alive, s, ps) && |f| == |s|
    requires forall i :: 0 <= i < |f| && alive[ps[i]] ==> f[i]
    ensures Keeps(all, alive, Selected(s, f), Selected<nat>(ps, f))
  {
    SelectedIncreasing(ps, f);
    SelectedPairs(all, s, ps, f);
    forall p: nat | p < |all| && alive[p] ensures p in Selected<nat>(ps, f) {
      var i :| 0 <= i < |ps| && ps[i] == p;
      SelectedMembers<nat>(ps, f, p);
    }
  }

  lemma KeepsOneMore<T>(all: seq<T>, alive: seq<bool>, s: seq<T>, ps: seq<nat>, x: T, live: bool)
    requires Keeps(all, alive, s, ps)
    ensures Keeps(all + [x], alive + [live], s + [x], ps + [|all|])
  {
    assert forall p :: p in ps ==> p in ps + [|all|];
    assert (ps + [|all|])[|ps|] == |all|;
  }

  lemma KeepsWithLess<T>(all: seq<T>, alive: seq<bool>, alive': seq<bool>, s: seq<T>, ps: seq<nat>)
    requires Keeps(all, alive, s, ps) && |alive'| == |alive|
    requires forall i :: 0 <= i < |alive| ==> alive'[i] ==> alive[i]
    ensures Keeps(all, alive', s, ps)
  {
  }

  /** Every live element of `all` is in `s`. */
  ghost predicate Holds<T>(all: seq<T>, alive: seq<bool>, s: seq<T>)
    requires |all| == |alive|
  {
    forall p :: 0 <= p < |all| && alive[p] ==> all[p] in s
  }

  lemma HoldsOneMore<T>(all: seq<T>, alive: seq<bool>, s: seq<T>, x: T, live: bool)
    requires |all| == |alive| && Holds(all, alive, s)
    ensures Holds(all + [x], alive + [live], s + [x])
  {
  }

  /** The flags spare whatever is alive. */
  ghost predicate Spares<T>(all: seq<T>, alive: seq<bool>, s: seq<T>, f: seq<bool>)
    requires |all| == |alive| && |s| == |f|
  {
    forall p, i :: 0 <= p < |all| && 0 <= i < |s| && alive[p] && s[i] == all[p] ==> f[i]
  }

  lemma HoldsSelected<T>(all: seq<T>, alive: seq<bool>, s: seq<T>, f: seq<bool>)
    requires |all| == |alive| && |s| == |f| && Holds(all, alive, s) && Spares(all, alive, s, f)
    ensures Holds(all, alive, Selected(s, f))
  {
    forall p | 0 <= p < |all| && alive[p] ensures all[p] in Selected(s, f) {
      SelectedMembers(s, f, all[p]);
    }
  }

  lemma {:induction false} SelectedNoMore<T>(s: seq<T>, f: seq<bool>)
    requires |s| == |f|
    ensures |Selected(s, f)| <= |s|
  {
    if s != [] {
      SelectedNoMore(s[..|s| - 1], f[..|s| - 1]);
    }
  }

  /** Selecting fewer elements gives fewer. */
  lemma {:induction false} SelectedTight<T>(s: seq<T>, f: seq<bool>, g: seq<bool>)
    requires |s| == |f| == |g| && forall i :: 0 <= i < |s| && g[i] ==> f[i]
    ensures |Selected(s, g)| <= |Selected(s, f)|
    ensures |Selected(s, g)| == |Selected(s, f)| ==> f == g
  {
    if s != [] {
      var n := |s| - 1;
      SelectedTight(s[..n], f[..n], g[..n]);
      assert f == f[..n] + [f[n]] && g == g[..n] + [g[n]];
    }
  }

  lemma SelectedMore<T>(s: seq<T>, f: seq<bool>, j: nat)
    requires |s| == |f| && j < |s|
    ensures Selected(s[..j + 1], f[..j + 1]) == Selected(s[..j], f[..j]) + if f[j] then [s[j]] else []
  {
    assert s[..j + 1][..j] == s[..j] && f[..j + 1][..j] == f[..j];
  }

  /** What an in-place selection leaves behind if it stops at the `j`-th element. */
  ghost function Interrupted<T>(s: seq<T>, f: seq<bool>, j: nat): seq<T>
    requires |s| == |f| && j <= |s|
  {
    var done := Selected(s[..j], f[..j]);
    SelectedNoMore(s[..j], f[..j]);
    done + s[|done|..]
  }

  lemma InterruptedStep<T>(s: seq<T>, f: seq<bool>, j: nat)
    requires |s| == |f| && j < |s|
    ensures var i := |Selected(s[..j], f[..j])|;
      && i <= j && |Interrupted(s, f, j)| == |s| && Interrupted(s, f, j)[j] == s[j]
      && |Selected(s[..j + 1], f[..j + 1])| == (if f[j] then i + 1 else i)
      && Interrupted(s, f, j + 1) == if f[j] then Interrupted(s, f, j)[i := s[j]] else Interrupted(s, f, j)
  {
    SelectedNoMore(s[..j], f[..j]);
    SelectedMore(s, f, j);
    hide Selected;
  }

  lemma InterruptedEnds<T>(s: seq<T>, f: seq<bool>)
    requires |s| == |f|
    ensures Selected(s[..0], f[..0]) == [] && Interrupted(s, f, 0) == s
    ensures |Selected(s, f)| <= |s| == |Interrupted(s, f, |s|)|
    ensures Interrupted(s, f, |s|)[..|Selected(s, f)|] == Selected(s, f)
  {
    SelectedNoMore(s, f);
    assert s[..|s|] == s && f[..|s|] == f;
  }

  /** Nothing live is lost, though an element may come twice. */
  lemma HoldsInterrupted<T>(all: seq<T>, alive: seq<bool>, s: seq<T>, f: seq<bool>, j: nat)
    requires |all| == |alive| && |s| == |f| && j <= |s| && Holds(all, alive, s) && Spares(all, alive, s, f)
    ensures Holds(all, alive, Interrupted(s, f, j))
  {
    SelectedNoMore(s[..j], f[..j]);
    forall p | 0 <= p < |all| && alive[p] ensures all[p] in Interrupted(s, f, j) {
      var i :| 0 <= i < |s| && s[i] == all[p];
      SelectedMembers(s[..j], f[..j], all[p]);
      if i < j {
        assert s[..j][i] == all[p] && f[..j][i];
      } else {
        assert all[p] in s[|Selected(s[..j], f[..j])|..];
      }
    }
  }

  // ----- the log

  class ReqLogEntry {
    var active: bool
    var endTime: int

    constructor (active: bool, endTime: int)
      ensures this.active == active && this.endTime == endTime
    {
      this.active, this.endTime := active, endTime;
    }
  }

  ghost function Actives(s: seq<ReqLogEntry?>): (f: seq<bool>)
    reads s
    ensures |f| == |s| && forall i :: 0 <= i < |s| ==> f[i] == (s[i] != null && s[i].active)
  {
    seq(|s|, i requires 0 <= i < |s| reads s => s[i] != null && s[i].active)
  }

  /** An entry stays while it is active, and for `keep` after its end. */
  ghost function Staying(s: seq<ReqLogEntry?>, keep: int, now: int): (f: seq<bool>)
    reads s
    ensures |f| == |s|
    ensures forall i :: 0 <= i < |s| ==> f[i] == (s[i] != null && (s[i].active || s[i].endTime + keep > now))
  {
    seq(|s|, i requires 0 <= i < |s| reads s => s[i] != null && (s[i].active || s[i].endTime + keep > now))
  }

  /** The entries that stay are the active ones and those whose end is less than the time to keep ago. */
  lemma StayingMeaning(s: seq<ReqLogEntry?>, keep: int, now: int, e: ReqLogEntry?)
    ensures e in Selected(s, Staying(s, keep, now)) <==> e in s && e != null && (e.active || now - e.endTime < keep)
  {
    SelectedMembers(s, Staying(s, keep, now), e);
    hide Selected;
    if e in s {
      var i :| 0 <= i < |s| && s[i] == e;
      assert Staying(s, keep, now)[i] <==> e != null && (e.active || e.endTime + keep > now);
    }
  }

  /** Without a time to keep, exactly the active entries stay if and only if no other one ends in the future. */
  lemma ActivesOnly(s: seq<ReqLogEntry?>, now: int)
    ensures null !in s ==>
      (Selected(s, Staying(s, 0, now)) == Selected(s, Actives(s)) <==>
       forall e :: e in s && !e.active ==> e.endTime <= now)
  {
    var f, g := Staying(s, 0, now), Actives(s);
    if null !in s {
      assert (forall e :: e in s && !e.active ==> e.endTime <= now) ==> f == g;
      if Selected(s, f) == Selected(s, g) {
        SelectedTight(s, f, g);
        forall e | e in s && !e.active ensures e.endTime <= now {
          var i :| 0 <= i < |s| && s[i] == e;
          assert f[i] == g[i];
        }
      }
    }
  }

  /** What a clean-up makes of the log: the entries that stay or, if it panics at the first nil entry, a mixture. */
  ghost predicate CleanedUp(was: seq<ReqLogEntry?>, flags: seq<bool>, r: seq<ReqLogEntry?>, panicked: bool)
    requires |was| == |flags|
  {
    && (panicked <==> null in was)
    && (!panicked ==> r == Selected(was, flags))
    && (panicked ==> exists j ::
          0 <= j < |was| && null !in was[..j] && was[j] == null && r == Interrupted(was, flags, j))
  }

  lemma CleanedUpHolds(all: seq<ReqLogEntry?>, alive: seq<bool>, was: seq<ReqLogEntry?>, flags: seq<bool>,
                       r: seq<ReqLogEntry?>, panicked: bool)
    requires |all| == |alive| && |was| == |flags| && Holds(all, alive, was) && Spares(all, alive, was, flags)
    requires CleanedUp(was, flags, r, panicked)
    ensures Holds(all, alive, r)
  {
    hide Holds, Spares, Selected, Interrupted;
    if panicked {
      var j :| 0 <= j < |was| && null !in was[..j] && was[j] == null && r == Interrupted(was, flags, j);
      HoldsInterrupted(all, alive, was, flags, j);
    } else {
      HoldsSelected(all, alive, was, flags);
    }
  }

  /** A clean-up never gets rid of a nil entry, so the next one panics too. */
  lemma NilStays(was: seq<ReqLogEntry?>, flags: seq<bool>, r: seq<ReqLogEntry?>, panicked: bool)
    requires |was| == |flags| && CleanedUp(was, flags, r, panicked)
    ensures null in was ==> panicked && null in r
    ensures !panicked ==> null !in was && r == Selected(was, flags)
  {
    hide Selected, Interrupted;
    if panicked {
      var j :| 0 <= j < |was| && null !in was[..j] && was[j] == null && r == Interrupted(was, flags, j);
      InterruptedStep(was, flags, j);
    }
  }

  class ReqLog {
    /** The slice: the first `len` places of its array. */
    var buf: array<ReqLogEntry?>
    var len: nat
    var nextID: nat
    var keep: int
    /** Every entry added so far, and the positions of those still in the log. */
    ghost var arrivals: seq<ReqLogEntry?>
    ghost var kept: seq<nat>

    ghost predicate Bounded()
      reads this`buf, this`len
    {
      len <= buf.Length
    }

    ghost function Requests(): (s: seq<ReqLogEntry?>)
      requires Bounded()
      reads this`buf, this`len, buf
    {
      buf[..len]
    }

    /** The log holds every added entry that is active. */
    ghost predicate Valid()
      reads this, buf, arrivals
    {
      Bounded() && Holds(arrivals, Actives(arrivals), Requests())
    }

    /** The log holds added entries in the order of arrival, among them every active one. */
    ghost predicate Ordered()
      reads this, buf, arrivals
    {
      Bounded() && Keeps(arrivals, Actives(arrivals), Requests(), kept)
    }

    /** Some entry is nil. */
    ghost predicate Poisoned()
      reads this, buf
    {
      Bounded() && null in Requests()
    }

    constructor (keep: int)
      ensures Valid() && Ordered() && arrivals == [] && this.keep == keep && fresh(buf) && Requests() == []
    {
      buf := new ReqLogEntry?[0];
      len, nextID, this.keep, arrivals, kept := 0, 0, keep, [], [];
    }

    /** Moves the entries that stay to the front, in place. Meeting a nil entry is a panic. */
    method Compact(now: int) returns (panicked: bool)
      requires Bounded()
      modifies this`len, buf
      ensures Bounded() && CleanedUp(old(Requests()), old(Staying(Requests(), keep, now)), Requests(), panicked)
    {
      hide Selected, Interrupted;
      ghost var was, flags := Requests(), Staying(Requests(), keep, now);
      InterruptedEnds(was, flags);
      var i := 0;
      for j := 0 to len
        invariant len == |was| <= buf.Length && null !in was[..j]
        invariant i == |Selected(was[..j], flags[..j])|
        invariant buf[..len] == Interrupted(was, flags, j)
      {
        InterruptedStep(was, flags, j);
        var rj := buf[j];
        assert rj == buf[..len][j] && was[..j + 1] == was[..j] + [rj];
        if rj == null {
          return true;
        }
        if rj.active || rj.endTime + keep > now {
          buf[i] := rj;
          i := i + 1;
        }
      }
      assert was[..len] == was && flags[..len] == flags;
      assert buf[..i] == buf[..len][..i];
      len := i;
      return false;
    }

    method Cleanup(now: int) returns (panicked: bool)
      requires Valid()
      modifies this`len, this`kept, buf
      ensures Valid() && CleanedUp(old(Requests()), old(Staying(Requests(), keep, now)), Requests(), panicked)
      ensures old(Ordered()) && !panicked ==> Ordered()
      ensures old(Poisoned()) ==> panicked && Poisoned()
    {
      hide Keeps, Holds, Spares, CleanedUp;
      ghost var was, flags, alive := Requests(), Staying(Requests(), keep, now), Actives(arrivals);
      LiveSpared(now);
      if Ordered() {
        KeepsLive(now);
      }
      panicked := Compact(now);
      CleanedUpHolds(arrivals, alive, was, flags, Requests(), panicked);
      NilStays(was, flags, Requests(), panicked);
      hide Selected;
      assert Actives(arrivals) == alive;
      if old(Ordered()) {
        kept := Selected<nat>(kept, flags);
      }
    }

    lemma LiveSpared(now: int)
      requires Valid()
      ensures Spares(arrivals, Actives(arrivals), Requests(), Staying(Requests(), keep, now))
    {
    }

    lemma KeepsLive(now: int)
      requires Ordered()
      ensures var flags := Staying(Requests(), keep, now);
        |kept| == |flags| && Keeps(arrivals, Actives(arrivals), Selected(Requests(), flags), Selected<nat>(kept, flags))
    {
      KeepsSelected(arrivals, Actives(arrivals), Requests(), kept, Staying(Requests(), keep, now));
    }

    /** Only when the number of entries is a multiple of ten. */
    method MaybeCleanup(now: int) returns (panicked: bool)
      requires Valid()
      modifies this`len, this`kept, buf
      ensures Valid()
      ensures if old(len) % 10 == 0
              then CleanedUp(old(Requests()), old(Staying(Requests(), keep, now)), Requests(), panicked)
              else Requests() == old(Requests()) && !panicked
      ensures old(Ordered()) && !panicked ==> Ordered()
      ensures old(Poisoned()) ==> Poisoned()
    {
      panicked := false;
      if len % 10 == 0 {
        panicked := Cleanup(now);
      }
    }

    method AddEntry(e: ReqLogEntry?, now: int) returns (panicked: bool)
      requires Valid()
      modifies this, buf
      ensures Valid() && arrivals == old(arrivals) + [e] && nextID == old(nextID) + 1 && keep == old(keep)
      ensures buf == old(buf) || fresh(buf)
      ensures var rs := old(Requests()) + [e];
        if (e == null || !e.active) && |rs| % 10 == 0 then CleanedUp(rs, Staying(rs, keep, now), Requests(), panicked)
        else Requests() == rs && !panicked
      ensures old(Ordered()) && !panicked ==> Ordered()
      ensures old(Poisoned()) || e == null ==> Poisoned()
    {
      hide Keeps, Holds, CleanedUp;
      nextID := nextID + 1;
      Append(e);
      ghost var rs, flags := Requests(), Staying(Requests(), keep, now);
      panicked := false;
      if e == null || !e.active {
        panicked := MaybeCleanup(now);
        assert Staying(rs, keep, now) == flags;
      }
    }

    method Append(e: ReqLogEntry?)
      requires Valid()
      modifies this`buf, this`len, this`arrivals, this`kept, buf
      ensures Valid() && (buf == old(buf) || fresh(buf))
      ensures arrivals == old(arrivals) + [e] && Requests() == old(Requests()) + [e]
      ensures old(Ordered()) ==> Ordered()
    {
      hide Keeps, Holds, Requests;
      ArrivesLast(e);
      PutLast(e);
      arrivals, kept := arrivals + [e], kept + [|arrivals|];
    }

    /** What holds of the log once `e` has been put last. */
    lemma ArrivesLast(e: ReqLogEntry?)
      requires Valid()
      ensures Holds(arrivals + [e], Actives(arrivals + [e]), Requests() + [e])
      ensures Ordered() ==> Keeps(arrivals + [e], Actives(arrivals + [e]), Requests() + [e], kept + [|arrivals|])
    {
      hide Keeps, Holds, Requests;
      var live := e != null && e.active;
      assert Actives(arrivals + [e]) == Actives(arrivals) + [live];
      HoldsOneMore(arrivals, Actives(arrivals), Requests(), e, live);
      if Ordered() {
        KeepsOneMore(arrivals, Actives(arrivals), Requests(), kept, e, live);
      }
    }

    method PutLast(e: ReqLogEntry?)
      requires Bounded()
      modifies this`buf, this`len, buf
      ensures Bounded() && (buf == old(buf) || fresh(buf)) && Requests() == old(Requests()) + [e]
    {
      if len == buf.Length {
        Grow();
      }
      buf[len] := e;
      len := len + 1;
    }

    /** A full slice moves to a larger array. */
    method Grow()
      requires Bounded()
      modifies this`buf
      ensures Bounded() && fresh(buf) && len < buf.Length && Requests() == old(Requests())
    {
      var bigger := new ReqLogEntry?[2 * len + 1];
      forall i | 0 <= i < len {
        bigger[i] := buf[i];
      }
      buf := bigger;
    }

    /** Finishing a nil entry is a panic. */
    method Finish(e: ReqLogEntry?, now: int) returns (panicked: bool)
      requires Valid()
      modifies this`len, this`kept, buf, e
      ensures Valid()
      ensures e == null ==> panicked && Requests() == old(Requests())
      ensures e != null ==> !e.active && e.endTime == now
      ensures e != null ==> var rs := old(Requests());
        if |rs| % 10 == 0 then CleanedUp(rs, Staying(rs, keep, now), Requests(), panicked)
        else Requests() == rs && !panicked
      ensures old(Ordered()) && !panicked ==> Ordered()
      ensures old(Poisoned()) ==> Poisoned()
    {
      hide Keeps, Holds, CleanedUp;
      if e == null {
        return true;
      }
      Mark(e, now);
      ghost var rs, flags := Requests(), Staying(Requests(), keep, now);
      panicked := MaybeCleanup(now);
      assert Staying(rs, keep, now) == flags;
    }

    method Mark(e: ReqLogEntry, now: int)
      requires Valid()
      modifies e
      ensures Valid() && Requests() == old(Requests()) && !e.active && e.endTime == now
      ensures old(Ordered()) ==> Ordered()
    {
      ghost var alive, rs := Actives(arrivals), Requests();
      e.active := false;
      e.endTime := now;
      if old(Ordered()) {
        KeepsWithLess(arrivals, alive, Actives(arrivals), rs, kept);
      }
      hide Keeps;
    }

    /**
     Drops every entry that is not active, unless it ends in the future. A panic leaves the time to keep at 0.
     */
    method ClearInactive(now: int) returns (panicked: bool)
      requires Valid()
      modifies this`len, this`kept, this`keep, buf
      ensures Valid() && keep == (if panicked then 0 else old(keep))
      ensures CleanedUp(old(Requests()), old(Staying(Requests(), 0, now)), Requests(), panicked)
      ensures !panicked ==>
        (Requests() == Selected(old(Requests()), old(Actives(Requests()))) <==>
         forall e :: e in old(Requests()) && !e.active ==> e.endTime <= now)
      ensures old(Ordered()) && !panicked ==> Ordered()
      ensures old(Poisoned()) ==> panicked && Poisoned()
    {
      hide Keeps, Holds, Selected, CleanedUp;
      ghost var rs, flags := Requests(), Staying(Requests(), 0, now);
      ActivesOnly(rs, now);
      var k := keep;
      keep := 0;
      assert Requests() == rs && Staying(rs, keep, now) == flags;
      panicked := Cleanup(now);
      NilStays(rs, flags, Requests(), panicked);
      if !panicked {
        keep := k;
      }
    }

    method SetKeepTime(t: int)
      modifies this`keep
      ensures keep == t
    {
      keep := t;
    }
  }

  /** An expired entry, an active one and nil: the clean-up moves the active one forward before it panics. */
  lemma CleanUpDoubles(a: ReqLogEntry, b: ReqLogEntry, r: seq<ReqLogEntry?>, panicked: bool)
    requires CleanedUp([a, b, null], [false, true, false], r, panicked)
    ensures panicked && r == [b, b, null]
  {
    var s: seq<ReqLogEntry?>, f := [a, b, null], [false, true, false];
    assert s[2] == null;
    assert s[..2] == [a, b] && f[..2] == [false, true];
    assert Selected<ReqLogEntry?>([a, b], [false, true]) == [b] by {
      assert [a, b][..1] == [a] && [false, true][..1] == [false];
      assert Selected<ReqLogEntry?>([a], [false]) == [];
    }
    assert Interrupted(s, f, 2) == [b, b, null];
  }

  /** A log in which an active entry comes twice, and every further clean-up panics. */
  method Doubled(now: int) returns (log: ReqLog, b: ReqLogEntry)
    ensures log.Valid() && log.Requests() == [b, b, null] && log.Poisoned() && log.keep == 0
  {
    hide Keeps, Holds, CleanedUp, Selected, Interrupted, ReqLog.Requests;
    var a := new ReqLogEntry(false, now);
    b := new ReqLogEntry(true, 0);
    log := Filled(a, b, now);
    assert Staying([a, b, null], 0, now) == [false, true, false];
    var p := log.ClearInactive(now);
    CleanUpDoubles(a, b, log.Requests(), p);
  }

  method Filled(a: ReqLogEntry, b: ReqLogEntry, now: int) returns (log: ReqLog)
    ensures fresh(log) && fresh(log.buf) && log.Valid() && log.Poisoned() && log.Requests() == [a, b, null]
  {
    hide Keeps, Holds, CleanedUp, Selected, Interrupted, ReqLog.Requests;
    log := new ReqLog(3600);
    var p := log.AddEntry(a, now);
    assert log.Requests() == [a];
    p := log.AddEntry(b, now);
    assert log.Requests() == [a, b];
    p := log.AddEntry(null, now);
  }
}
