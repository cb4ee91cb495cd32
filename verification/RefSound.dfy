/**
 `ipfs refs --unique` without a depth limit: whatever other roots miss, a root with nothing missing below it is
 listed in full (core/commands/refs.go). Under a limit that fails.
 */
module RefSound {
  import opened Dags
  import opened RefTable
  import opened RefRuns

  /** Nothing is missing at or below `c`. */
  ghost predicate Sound(g: Dag, c: Cid) {
    forall d :: Reaches(g, c, d) ==> d in g
  }

  lemma SoundChild(g: Dag, c: Cid, i: nat)
    requires i < |Links(g, c)| && Sound(g, c)
    ensures Sound(g, Links(g, c)[i].cid)
  {
    var m := Links(g, c)[i].cid;
    assert Child(g, c, m);
    forall d | Reaches(g, m, d) ensures d in g {
      var k: nat :| Steps(g, m, k, d);
      PrependStep(g, c, m, k, d);
    }
  }

  lemma SoundIsThere(g: Dag, c: Cid)
    requires Sound(g, c)
    ensures c in g
  {
    assert Steps(g, c, 0, c);
  }

  /** The mode this is about: unique, no limit, and nothing fails but a fetch of a missing block. */
  ghost predicate Unlimited(k: Setting) {
    k.unique && k.maxDepth < 0 && Reliable(k)
  }

  /** `c` is written, and its children are recorded. */
  ghost predicate Finished(k: Setting, w: Writer, c: Cid) {
    c in Written(w.out) && forall i :: 0 <= i < |Links(k.dag, c)| ==> Links(k.dag, c)[i].cid in w.seen
  }

  /** Whatever `w'` has recorded beyond `w` is finished, unless something below it is missing. */
  ghost predicate Finishes(k: Setting, w: Writer, w': Writer) {
    && w.seen.Keys <= w'.seen.Keys && Written(w.out) <= Written(w'.out)
    && forall c :: c in w'.seen && c !in w.seen && Sound(k.dag, c) ==> Finished(k, w', c)
  }

  lemma FinishesTransitive(k: Setting, w0: Writer, w1: Writer, w2: Writer)
    requires Finishes(k, w0, w1) && Finishes(k, w1, w2)
    ensures Finishes(k, w0, w2)
  {
    hide Sound, Written;
  }

  lemma WrittenMore(out: seq<Edge>, e: Edge)
    ensures Written(out + [e]) == Written(out) + {e.to}
  {
    assert (out + [e])[..|out|] == out;
  }

  lemma {:induction false} LinkRunFinishes(k: Setting, rank: Cid -> nat, w: Writer, n: Cid, depth: nat, i: nat)
    requires Unlimited(k) && Ranked(k.dag, rank) && i < |Links(k.dag, n)|
    ensures var (w', ok) := LinkRun(k, rank, w, n, depth, i);
      && Finishes(k, w, w')
      && (if ok then Links(k.dag, n)[i].cid in w'.seen else !Sound(k.dag, n))
    decreases rank(n), 0, 0
  {
    hide NodeRun, Sound, Written;
    var l := Links(k.dag, n)[i];
    if Sound(k.dag, n) {
      SoundChild(k.dag, n, i);
      SoundIsThere(k.dag, l.cid);
    }
    if l.cid in w.seen {
      assert LinkRun(k, rank, w, n, depth, i) == (w, true);
    } else {
      var w1 := w.(seen := w.seen[l.cid := depth + 1]);
      var (w2, ok) := FetchAndWrite(k, w1, n, l, true);
      if ok {
        WrittenMore(w.out, Edge(n, l.cid, l.name));
        NodeRunFinishes(k, rank, w2, l.cid, depth + 1, |Links(k.dag, l.cid)|);
      } else if Sound(k.dag, l.cid) {
        SoundIsThere(k.dag, l.cid);
      }
    }
  }

  lemma {:induction false} NodeRunFinishes(k: Setting, rank: Cid -> nat, w: Writer, n: Cid, depth: nat, i: nat)
    requires Unlimited(k) && Ranked(k.dag, rank) && i <= |Links(k.dag, n)|
    ensures var (w', ok) := NodeRun(k, rank, w, n, depth, i);
      && Finishes(k, w, w')
      && (if ok then forall j :: 0 <= j < i ==> Links(k.dag, n)[j].cid in w'.seen else !Sound(k.dag, n))
    decreases rank(n), 1, i
  {
    hide LinkRun, Sound, Written;
    if 0 < i {
      NodeRunFinishes(k, rank, w, n, depth, i - 1);
      var (w1, ok1) := NodeRun(k, rank, w, n, depth, i - 1);
      if ok1 {
        LinkRunFinishes(k, rank, w1, n, depth, i - 1);
        FinishesTransitive(k, w, w1, LinkRun(k, rank, w1, n, depth, i - 1).0);
      }
    }
  }

  /** What holds between roots: recorded CIDs with nothing missing below them are finished, and so are such roots. */
  ghost predicate AllFinished(k: Setting, objs: seq<Cid>, w: Writer) {
    && (forall c :: c in w.seen && Sound(k.dag, c) ==> Finished(k, w, c))
    && forall r, i :: r in objs && Sound(k.dag, r) && 0 <= i < |Links(k.dag, r)| ==> Links(k.dag, r)[i].cid in w.seen
  }

  lemma AllFinishedMore(k: Setting, rank: Cid -> nat, objs: seq<Cid>, w: Writer, c: Cid)
    requires Unlimited(k) && Ranked(k.dag, rank) && AllFinished(k, objs, w)
    ensures AllFinished(k, objs + [c], RootRun(k, rank, w, c).0)
  {
    hide Sound, Written, NodeRun;
    var (w1, got) := Get(k, w, c);
    if Sound(k.dag, c) {
      SoundIsThere(k.dag, c);
    }
    if got {
      NodeRunFinishes(k, rank, w1, c, 0, |Links(k.dag, c)|);
    }
  }

  lemma {:induction false} SoundIsListed(k: Setting, objs: seq<Cid>, w: Writer, r: Cid, d: nat, x: Cid)
    requires AllFinished(k, objs, w) && r in objs && Sound(k.dag, r) && 1 <= d && Steps(k.dag, r, d, x)
    ensures x in w.seen && Sound(k.dag, x) && x in Written(w.out)
  {
    hide Written;
    var m :| Steps(k.dag, r, d - 1, m) && Child(k.dag, m, x);
    if 1 < d {
      SoundIsListed(k, objs, w, r, d - 1, m);
    }
    var i :| 0 <= i < |Links(k.dag, m)| && Links(k.dag, m)[i].cid == x;
    SoundChild(k.dag, m, i);
    hide Sound;
  }

  /** Everything below a root with nothing missing is listed. */
  lemma SoundRootsListed(k: Setting, objs: seq<Cid>, w: Writer)
    requires AllFinished(k, objs, w)
    ensures forall r, x :: r in objs && Sound(k.dag, r) && InRange(k.dag, k.maxDepth, {r}, x) ==> x in Written(w.out)
  {
    hide AllFinished, Written, Sound;
    forall r, x | r in objs && Sound(k.dag, r) && InRange(k.dag, k.maxDepth, {r}, x) ensures x in Written(w.out) {
      var d: nat :| 1 <= d && Steps(k.dag, r, d, x);
      SoundIsListed(k, objs, w, r, d, x);
    }
  }

  // ----- under a limit

  /**
   The first root reaches the shared node 2 at depth 1 and, below its first child, a missing block. The second root
   reaches the shared node at depth 2, from where the missing block is out of range.
   */
  const SHALLOW: Dag := map[
    Cid(0) := [Link("", Cid(2))], Cid(1) := [Link("", Cid(3))], Cid(3) := [Link("", Cid(2))],
    Cid(2) := [Link("", Cid(4)), Link("", Cid(5))], Cid(4) := [Link("", Cid(6))], Cid(5) := []]

  const DROP: Cid -> nat := (c: Cid) =>
    if c == Cid(1) then 4 else if c.digest == 0 || c.digest == 3 then 3 else if c.digest == 2 then 2
    else if c.digest == 4 then 1 else 0

  const THREE_DEEP := Setting(SHALLOW, true, 3, _ => true, _ => true)

  /** What the first root leaves behind. */
  const LEFT := Writer(map[Cid(2) := 1, Cid(4) := 2, Cid(6) := 3],
                       [Edge(Cid(0), Cid(2), ""), Edge(Cid(2), Cid(4), "")], 4, 2)

  /** Node 4 fails with its missing child, and node 2 with node 4. */
  lemma ShallowNodesFail()
    requires Ranked(SHALLOW, DROP)
    ensures var e := Edge(Cid(0), Cid(2), "");
      NodeRun(THREE_DEEP, DROP, Writer(map[Cid(2) := 1], [e], 2, 1), Cid(2), 1, 2) == (LEFT, false)
  {
    var k, m, y, z := THREE_DEEP, Cid(2), Cid(4), Cid(6);
    var e, f := Edge(Cid(0), m, ""), Edge(m, y, "");
    var w := Writer(map[m := 1, y := 2], [e, f], 3, 2);
    assert FetchAndWrite(k, LEFT.(gets := 3), y, Link("", z), true) == (LEFT, false);
    assert LinkRun(k, DROP, w, y, 2, 0) == (LEFT, false);
    assert NodeRun(k, DROP, w, y, 2, 1) == (LEFT, false);
    var v := Writer(map[m := 1], [e], 2, 1);
    assert [e] + [f] == [e, f];
    assert FetchAndWrite(k, v.(seen := w.seen), m, Link("", y), true) == (w, true);
    assert LinkRun(k, DROP, v, m, 1, 0) == (LEFT, false);
    assert NodeRun(k, DROP, v, m, 1, 1) == (LEFT, false);
  }

  lemma ShallowRanked()
    ensures Ranked(SHALLOW, DROP)
  {
  }

  lemma ShallowRootFails()
    requires Ranked(SHALLOW, DROP)
    ensures RootRun(THREE_DEEP, DROP, NEW_WRITER, Cid(0)) == (LEFT, false)
  {
    var k, c, m := THREE_DEEP, Cid(0), Cid(2);
    ShallowNodesFail();
    var w, e := Writer(map[], [], 1, 0), Edge(c, m, "");
    assert Visit(k, map[], m, 1) == (map[m := 1], true, true) && [] + [e] == [e];
    assert FetchAndWrite(k, w.(seen := map[m := 1]), c, Link("", m), true) == (Writer(map[m := 1], [e], 2, 1), true);
    assert |Links(SHALLOW, m)| == 2 && Links(SHALLOW, c) == [Link("", m)];
    hide Visit, FetchAndWrite, Ranked;
    assert LinkRun(k, DROP, w, c, 0, 0) == (LEFT, false);
    assert NodeRun(k, DROP, w, c, 0, 1) == (LEFT, false);
  }

  /** The second root only writes its child. */
  lemma DeepRootSucceeds()
    requires Ranked(SHALLOW, DROP)
    ensures RootRun(THREE_DEEP, DROP, LEFT, Cid(1)) ==
      (Writer(LEFT.seen[Cid(3) := 1], LEFT.out + [Edge(Cid(1), Cid(3), "")], 6, 3), true)
  {
    var k, d, a := THREE_DEEP, Cid(1), Cid(3);
    var w := Writer(LEFT.seen[a := 1], LEFT.out + [Edge(d, a, "")], 6, 3);
    assert LinkRun(k, DROP, w, a, 1, 0) == (w, true);
    assert NodeRun(k, DROP, w, a, 1, 1) == (w, true);
    var v := LEFT.(gets := 5);
    assert FetchAndWrite(k, v.(seen := w.seen), d, Link("", a), true) == (w, true);
    assert LinkRun(k, DROP, v, d, 0, 0) == (w, true);
    assert NodeRun(k, DROP, v, d, 0, 1) == (w, true);
  }

  lemma LastStep(g: Dag, a: Cid, n: nat, c: Cid) returns (m: Cid)
    requires Steps(g, a, n + 1, c)
    ensures Steps(g, a, n, m) && Child(g, m, c)
  {
    m :| Steps(g, a, n, m) && Child(g, m, c);
  }

  lemma NoStep(g: Dag, a: Cid, c: Cid)
    requires Steps(g, a, 0, c)
    ensures a == c
  {
  }

  lemma ShallowChildren(m: Cid, c: Cid)
    requires Child(SHALLOW, m, c)
    ensures m == Cid(1) ==> c == Cid(3)
    ensures m == Cid(3) ==> c == Cid(2)
    ensures m == Cid(2) ==> c in {Cid(4), Cid(5)}
  {
  }

  /** The second root reaches its child, the shared node and that node's children, in this order. */
  lemma DeepRange(n: nat, c: Cid)
    requires Steps(SHALLOW, Cid(1), n, c) && n <= 3
    ensures c in [{Cid(1)}, {Cid(3)}, {Cid(2)}, {Cid(4), Cid(5)}][n]
  {
    hide Steps, Child;
    if n == 0 {
      NoStep(SHALLOW, Cid(1), c);
    } else {
      var m := LastStep(SHALLOW, Cid(1), n - 1, c);
      DeepRange(n - 1, m);
      ShallowChildren(m, c);
    }
  }

  /** In a reliable run, a root with everything in range there succeeds and is not listed in full. */
  ghost predicate LosesWhole(k: Setting, rank: Cid -> nat, c: Cid, d: Cid, x: Cid)
    requires Ranked(k.dag, rank)
  {
    var (w1, ok1) := RootRun(k, rank, NEW_WRITER, c);
    var (w2, ok2) := RootRun(k, rank, w1, d);
    && k.unique && Reliable(k) && !ok1 && ok2 && !Incomplete(k.dag, k.maxDepth, {d})
    && InRange(k.dag, k.maxDepth, {d}, x) && x !in Written(w2.out)
  }

  lemma LimitLoses()
    ensures exists k: Setting, rank: Cid -> nat, c, d, x :: Ranked(k.dag, rank) && LosesWhole(k, rank, c, d, x)
  {
    ShallowRanked();
    ShallowRootFails();
    DeepRootSucceeds();
    hide RootRun, Ranked;
    DeepNode();
    DeepWritten();
    assert LosesWhole(THREE_DEEP, DROP, Cid(0), Cid(1), Cid(5));
  }

  lemma DeepNode()
    ensures InRange(SHALLOW, 3, {Cid(1)}, Cid(5)) && !Incomplete(SHALLOW, 3, {Cid(1)})
  {
    hide Steps;
    DeepPath();
    forall c, n: nat | 1 <= n <= 3 && Steps(SHALLOW, Cid(1), n, c) ensures c in SHALLOW {
      DeepRange(n, c);
    }
  }

  lemma DeepPath()
    ensures Steps(SHALLOW, Cid(1), 3, Cid(5))
  {
    var d := Cid(1);
    assert Steps(SHALLOW, d, 0, d);
    hide Steps;
    AppendStep(SHALLOW, d, 0, d, 0);
    AppendStep(SHALLOW, d, 1, Cid(3), 0);
    AppendStep(SHALLOW, d, 2, Cid(2), 1);
  }

  lemma DeepWritten()
    ensures Cid(5) !in Written(LEFT.out + [Edge(Cid(1), Cid(3), "")])
  {
    WrittenMeaning(LEFT.out + [Edge(Cid(1), Cid(3), "")], Cid(5));
    hide Written;
  }
}
