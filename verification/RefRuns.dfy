/**
 The depth-limited traversal of `ipfs refs` as functions from one state of the writer to the next, and what it
 lists with and without --unique (core/commands/refs.go).
 */
module RefRuns {
  import opened Dags
  import opened RefTable

  datatype Edge = Edge(from: Cid, to: Cid, name: string)

  /** The options, and the fate of the n-th fetch and of the n-th edge handed to the emitter. */
  datatype Setting = Setting(dag: Dag, unique: bool, maxDepth: int, fetches: nat -> bool, emits: nat -> bool)

  ghost predicate Reliable(k: Setting) {
    forall n :: k.fetches(n) && k.emits(n)
  }

  /** The state of a writer: its table, the edges the emitter accepted, and the fetches and edges so far. */
  datatype Writer = Writer(seen: Table, out: seq<Edge>, gets: nat, puts: nat)

  const NEW_WRITER := Writer(map[], [], 0, 0)

  // ----- the traversal

  /** What `visit` decides: the new table, whether to go deeper and whether to write. */
  function Visit(k: Setting, seen: Table, c: Cid, depth: nat): (Table, bool, bool) {
    if !Within(k.maxDepth, depth) then (seen, false, false)
    else if !k.unique then (seen, depth != k.maxDepth, true)
    else if Recorded(k.maxDepth, seen, c, depth) then (seen, false, false)
    else (seen[c := depth], depth != k.maxDepth, c !in seen)
  }

  /** A fetch fails for a block that is not there. */
  function Get(k: Setting, w: Writer, c: Cid): (Writer, bool) {
    (w.(gets := w.gets + 1), k.fetches(w.gets) && c in k.dag)
  }

  /** Fetches the node behind a link and, if asked to, emits its edge. */
  function FetchAndWrite(k: Setting, w: Writer, n: Cid, l: Link, shouldWrite: bool): (Writer, bool) {
    var (w1, got) := Get(k, w, l.cid);
    if !got || !shouldWrite then (w1, got)
    else if !k.emits(w1.puts) then (w1.(puts := w1.puts + 1), false)
    else (w1.(puts := w1.puts + 1, out := w1.out + [Edge(n, l.cid, l.name)]), true)
  }

  /** The turn of the loop for the `i`-th link of `n`, and whether it went well. */
  ghost function LinkRun(k: Setting, rank: Cid -> nat, w: Writer, n: Cid, depth: nat, i: nat): (Writer, bool)
    requires Ranked(k.dag, rank) && i < |Links(k.dag, n)|
    decreases rank(n), 0, 0
  {
    var l := Links(k.dag, n)[i];
    var (seen, goDeeper, shouldWrite) := Visit(k, w.seen, l.cid, depth + 1);
    var w1 := w.(seen := seen);
    if !shouldWrite && !goDeeper then (w1, true)
    else
      var (w2, ok) := FetchAndWrite(k, w1, n, l, shouldWrite);
      if ok && goDeeper then NodeRun(k, rank, w2, l.cid, depth + 1, |Links(k.dag, l.cid)|) else (w2, ok)
  }

  /** The turns for the first `i` links of `n`; the first one that fails ends them. */
  ghost function NodeRun(k: Setting, rank: Cid -> nat, w: Writer, n: Cid, depth: nat, i: nat): (Writer, bool)
    requires Ranked(k.dag, rank) && i <= |Links(k.dag, n)|
    decreases rank(n), 1, i
  {
    if i == 0 then (w, true)
    else
      var (w1, ok) := NodeRun(k, rank, w, n, depth, i - 1);
      if ok then LinkRun(k, rank, w1, n, depth, i - 1) else (w1, false)
  }

  ghost function RootRun(k: Setting, rank: Cid -> nat, w: Writer, c: Cid): (Writer, bool)
    requires Ranked(k.dag, rank)
  {
    var (w1, got) := Get(k, w, c);
    if got then NodeRun(k, rank, w1, c, 0, |Links(k.dag, c)|) else (w1, false)
  }

  lemma {:induction false} FailedRun(k: Setting, rank: Cid -> nat, w: Writer, n: Cid, depth: nat, i: nat, j: nat)
    requires Ranked(k.dag, rank) && i <= j <= |Links(k.dag, n)| && !NodeRun(k, rank, w, n, depth, i).1
    ensures NodeRun(k, rank, w, n, depth, j) == NodeRun(k, rank, w, n, depth, i)
    decreases j
  {
    if i < j {
      FailedRun(k, rank, w, n, depth, i, j - 1);
    }
  }

  // ----- the edges written

  ghost function Written(out: seq<Edge>): set<Cid> {
    if out == [] then {} else Written(out[..|out| - 1]) + {out[|out| - 1].to}
  }

  /** A link to a block that is there. */
  ghost predicate IsLink(g: Dag, e: Edge) {
    Link(e.name, e.to) in Links(g, e.from) && e.to in g
  }

  /** Edges of the DAG, no two of them to the same CID. */
  ghost predicate Listing(g: Dag, out: seq<Edge>) {
    out == [] || (
      var init, e := out[..|out| - 1], out[|out| - 1];
      IsLink(g, e) && e.to !in Written(init) && Listing(g, init))
  }

  lemma ListingMore(g: Dag, out: seq<Edge>, e: Edge)
    requires Listing(g, out) && e.to !in Written(out) && IsLink(g, e)
    ensures Listing(g, out + [e]) && Written(out + [e]) == Written(out) + {e.to}
  {
    assert (out + [e])[..|out|] == out;
  }

  lemma {:induction false} WrittenMeaning(out: seq<Edge>, c: Cid)
    ensures c in Written(out) <==> exists i :: 0 <= i < |out| && out[i].to == c
  {
    if out != [] {
      var n := |out| - 1;
      WrittenMeaning(out[..n], c);
      if i :| 0 <= i < n && out[i].to == c {
        assert out[..n][i].to == c;
      }
    }
  }

  lemma {:induction false} ListingMeaning(g: Dag, out: seq<Edge>)
    requires Listing(g, out)
    ensures forall i, j :: 0 <= i < j < |out| ==> out[i].to != out[j].to
    ensures forall i :: 0 <= i < |out| ==> IsLink(g, out[i])
  {
    hide IsLink;
    if out != [] {
      var n := |out| - 1;
      ListingMeaning(g, out[..n]);
      forall i | 0 <= i < n ensures out[i].to != out[n].to && IsLink(g, out[i]) {
        WrittenMeaning(out[..n], out[n].to);
        assert out[..n][i] == out[i];
      }
    }
  }

  // ----- what a traversal with --unique does

  /** What holds all through a traversal from `r` that found the table `base`. */
  ghost predicate Traversing(k: Setting, base: Table, r: Cid, w: Writer) {
    && Opened(k.dag, k.maxDepth, base, r, w.seen) && Improves(base, w.seen) && Bounded(k.maxDepth, w.seen)
    && Listing(k.dag, w.out) && Written(w.out) <= w.seen.Keys
  }

  ghost predicate Advances(k: Setting, w: Writer, w': Writer, ok: bool) {
    Progress(k.dag, k.maxDepth, w.seen, w'.seen, Written(w.out), Written(w'.out), ok)
  }

  lemma {:induction false} LinkRunUnique(
      k: Setting, rank: Cid -> nat, base: Table, r: Cid, w: Writer, n: Cid, depth: nat, i: nat)
    requires k.unique && Ranked(k.dag, rank) && Traversing(k, base, r, w)
    requires Within(k.maxDepth, depth) && OpenSteps(k.dag, k.maxDepth, base, r, depth, n) && i < |Links(k.dag, n)|
    ensures var (w', ok) := LinkRun(k, rank, w, n, depth, i);
      && Traversing(k, base, r, w') && Advances(k, w, w', ok)
      && (ok && Within(k.maxDepth, depth + 1) ==> Recorded(k.maxDepth, w'.seen, Links(k.dag, n)[i].cid, depth + 1))
      && (!ok && Reliable(k) ==> Incomplete(k.dag, k.maxDepth, {r}))
    decreases rank(n), 0, 0
  {
    hide OpenSteps, Progress, Traversing, Incomplete, Written, Reliable, NodeRun;
    var l := Links(k.dag, n)[i];
    ProgressReflexive(k.dag, k.maxDepth, w.seen, Written(w.out));
    if Within(k.maxDepth, depth + 1) && !Recorded(k.maxDepth, w.seen, l.cid, depth + 1) {
      VisitTraversing(k, base, r, w, n, depth, i);
      var w1 := w.(seen := w.seen[l.cid := depth + 1]);
      var (w2, ok) := FetchAndWrite(k, w1, n, l, l.cid !in w.seen);
      WriteTraversing(k, base, r, w, w1, n, depth, i);
      if ok && depth + 1 != k.maxDepth {
        NodeRunUnique(k, rank, base, r, w2, l.cid, depth + 1, |Links(k.dag, l.cid)|);
        var (w3, ok3) := NodeRun(k, rank, w2, l.cid, depth + 1, |Links(k.dag, l.cid)|);
        ProgressBelow(k.dag, k.maxDepth, w.seen, w3.seen, Written(w.out), Written(w3.out), l.cid, depth + 1, ok3);
      }
    }
  }

  /** Recording the child of a node on an open path. */
  lemma VisitTraversing(k: Setting, base: Table, r: Cid, w: Writer, n: Cid, depth: nat, i: nat)
    requires Traversing(k, base, r, w) && OpenSteps(k.dag, k.maxDepth, base, r, depth, n) && i < |Links(k.dag, n)|
    requires Within(k.maxDepth, depth + 1) && !Recorded(k.maxDepth, w.seen, Links(k.dag, n)[i].cid, depth + 1)
    ensures var c := Links(k.dag, n)[i].cid; var w1 := w.(seen := w.seen[c := depth + 1]);
      && Traversing(k, base, r, w1) && Advances(k, w, w1, false)
      && OpenSteps(k.dag, k.maxDepth, base, r, depth + 1, c)
      && (c !in k.dag ==> Incomplete(k.dag, k.maxDepth, {r}))
      && (depth + 1 == k.maxDepth ==> c !in w.seen)
  {
    hide Listing, Written, Incomplete, OpenSteps, Opened, Improves, Bounded, Recorded, Progress;
    var c := Links(k.dag, n)[i].cid;
    ImprovesMore(k.maxDepth, base, w.seen, c, depth + 1);
    AppendOpenStep(k.dag, k.maxDepth, base, r, depth, n, i);
    OpenedMore(k.dag, k.maxDepth, base, r, w.seen, c, depth + 1);
    ProgressVisit(k.dag, k.maxDepth, w.seen, Written(w.out), c, depth + 1);
    if c !in k.dag {
      OpenMissing(k.dag, k.maxDepth, base, r, depth + 1, c);
    }
  }

  /** Fetching and, if it is new, writing the child just recorded. */
  lemma WriteTraversing(k: Setting, base: Table, r: Cid, w: Writer, w1: Writer, n: Cid, depth: nat, i: nat)
    requires i < |Links(k.dag, n)| && w1 == w.(seen := w.seen[Links(k.dag, n)[i].cid := depth + 1])
    requires Traversing(k, base, r, w) && Traversing(k, base, r, w1)
    requires Within(k.maxDepth, depth + 1) && !Recorded(k.maxDepth, w.seen, Links(k.dag, n)[i].cid, depth + 1)
    ensures var l := Links(k.dag, n)[i]; var (w2, ok) := FetchAndWrite(k, w1, n, l, l.cid !in w.seen);
      && Traversing(k, base, r, w2) && w2.seen == w1.seen
      && (ok ==> Written(w2.out) == if l.cid in w.seen then Written(w.out) else Written(w.out) + {l.cid})
      && (!ok ==> w2.out == w.out && Advances(k, w, w2, false))
      && (ok && depth + 1 == k.maxDepth ==> Advances(k, w, w2, true))
      && (!ok && Reliable(k) ==> l.cid !in k.dag)
  {
    hide Progress, Opened, Improves, Listing, Written;
    var l := Links(k.dag, n)[i];
    ProgressVisit(k.dag, k.maxDepth, w.seen, Written(w.out), l.cid, depth + 1);
    var (w2, ok) := FetchAndWrite(k, w1, n, l, l.cid !in w.seen);
    if ok && l.cid !in w.seen {
      ListingMore(k.dag, w.out, Edge(n, l.cid, l.name));
    }
  }

  lemma {:induction false} NodeRunUnique(
      k: Setting, rank: Cid -> nat, base: Table, r: Cid, w: Writer, n: Cid, depth: nat, i: nat)
    requires k.unique && Ranked(k.dag, rank) && Traversing(k, base, r, w)
    requires Within(k.maxDepth, depth) && OpenSteps(k.dag, k.maxDepth, base, r, depth, n) && i <= |Links(k.dag, n)|
    ensures var (w', ok) := NodeRun(k, rank, w, n, depth, i);
      && Traversing(k, base, r, w') && Advances(k, w, w', ok)
      && (ok && Within(k.maxDepth, depth + 1) ==>
            forall j :: 0 <= j < i ==> Recorded(k.maxDepth, w'.seen, Links(k.dag, n)[j].cid, depth + 1))
      && (!ok && Reliable(k) ==> Incomplete(k.dag, k.maxDepth, {r}))
    decreases rank(n), 1, i
  {
    hide OpenSteps, Progress, Traversing, Incomplete, Written, Reliable, LinkRun;
    if i == 0 {
      ProgressReflexive(k.dag, k.maxDepth, w.seen, Written(w.out));
    } else {
      NodeRunUnique(k, rank, base, r, w, n, depth, i - 1);
      var (w1, ok1) := NodeRun(k, rank, w, n, depth, i - 1);
      if ok1 {
        LinkRunUnique(k, rank, base, r, w1, n, depth, i - 1);
        var (w2, ok2) := LinkRun(k, rank, w1, n, depth, i - 1);
        var v, v1, v2 := Written(w.out), Written(w1.out), Written(w2.out);
        ProgressTransitive(k.dag, k.maxDepth, w.seen, w1.seen, w2.seen, v, v1, v2, ok2);
        ProgressRecorded(k.dag, k.maxDepth, w1.seen, w2.seen, v1, v2, ok2);
      }
    }
  }

  // ----- one root, on a table that earlier roots have filled

  /** What holds of a writer between roots. */
  ghost predicate Ready(k: Setting, w: Writer) {
    Bounded(k.maxDepth, w.seen) && Listing(k.dag, w.out) && Written(w.out) <= w.seen.Keys
  }

  lemma RootRunUnique(k: Setting, rank: Cid -> nat, w: Writer, c: Cid)
    requires k.unique && Ranked(k.dag, rank) && Ready(k, w)
    ensures var (w', ok) := RootRun(k, rank, w, c);
      && Ready(k, w') && Advances(k, w, w', ok) && Opened(k.dag, k.maxDepth, w.seen, c, w'.seen)
      && (ok ==> c in k.dag && Covers(k.dag, k.maxDepth, w'.seen, c, 0))
      && (!ok && Reliable(k) ==> c !in k.dag || Incomplete(k.dag, k.maxDepth, {c}))
  {
    hide Listing, Progress, Bounded, Written;
    var (w1, got) := Get(k, w, c);
    ProgressReflexive(k.dag, k.maxDepth, w.seen, Written(w.out));
    if got {
      assert OpenSteps(k.dag, k.maxDepth, w.seen, c, 0, c);
      NodeRunUnique(k, rank, w.seen, c, w1, c, 0, |Links(k.dag, c)|);
    }
  }

  /**
   What a successful call lists: a CID is written for the first time exactly when it was not recorded before and
   an open path leads to it. Whatever lies behind pruned nodes only is left out, and no error is reported.
   */
  lemma NewlyListed(k: Setting, rank: Cid -> nat, w: Writer, c: Cid)
    requires k.unique && Ranked(k.dag, rank) && Ready(k, w) && RootRun(k, rank, w, c).1
    ensures var w' := RootRun(k, rank, w, c).0;
      && Written(w.out) <= Written(w'.out)
      && forall x :: x in Written(w'.out) && x !in Written(w.out) <==>
           x !in w.seen && OpenTo(k.dag, k.maxDepth, w.seen, c, x)
  {
    RootRunUnique(k, rank, w, c);
    NewlyRecorded(k.dag, k.maxDepth, w.seen, c, RootRun(k, rank, w, c).0.seen);
    hide OpenTo, RootRun, Written, Listing, Bounded, Opened, Explored;
  }

  /** After a successful call everything in range has been listed exactly when nothing in range is cut off. */
  lemma AllListedUnlessCutOff(k: Setting, rank: Cid -> nat, w: Writer, c: Cid)
    requires k.unique && Ranked(k.dag, rank) && Ready(k, w) && RootRun(k, rank, w, c).1
    ensures (forall x :: InRange(k.dag, k.maxDepth, {c}, x) ==> x in Written(RootRun(k, rank, w, c).0.out)) <==>
      !exists x :: CutOff(k, w.seen, Written(w.out), c, x)
  {
    NewlyListed(k, rank, w, c);
    hide OpenTo, RootRun, Written, InRange, Ready;
    var w' := RootRun(k, rank, w, c).0;
    forall x
      ensures InRange(k.dag, k.maxDepth, {c}, x) && x !in Written(w'.out) <==>
        CutOff(k, w.seen, Written(w.out), c, x)
    {
    }
  }

  /** Not listed yet, and either recorded already or reached by no open path. */
  ghost predicate CutOff(k: Setting, seen: Table, written: set<Cid>, c: Cid, x: Cid) {
    InRange(k.dag, k.maxDepth, {c}, x) && x !in written && (x in seen || !OpenTo(k.dag, k.maxDepth, seen, c, x))
  }

  /** A run that loses part of the DAG: the first root fails, the second succeeds, and `x` is never met. */
  ghost predicate Loses(k: Setting, rank: Cid -> nat, c: Cid, d: Cid, x: Cid)
    requires Ranked(k.dag, rank)
  {
    var (w1, ok1) := RootRun(k, rank, NEW_WRITER, c);
    var (w2, ok2) := RootRun(k, rank, w1, d);
    && k.unique && !ok1 && ok2 && InRange(k.dag, k.maxDepth, {d}, x) && x in k.dag
    && x !in w2.seen && x !in Written(w2.out)
  }

  /** Two roots share a node with two links. */
  const SHARED: Dag := map[
    Cid(0) := [Link("", Cid(2))], Cid(1) := [Link("", Cid(2))],
    Cid(2) := [Link("", Cid(3)), Link("", Cid(4))], Cid(3) := [], Cid(4) := []]

  const HEIGHT: Cid -> nat := (c: Cid) => if c.digest < 2 then 2 else if c.digest == 2 then 1 else 0

  /** The third fetch fails. */
  const ONE_FAILURE := Setting(SHARED, true, -1, n => n != 2, _ => true)

  /** The traversal of the shared node ends at its first link. */
  lemma SharedNodeFails()
    requires Ranked(SHARED, HEIGHT)
    ensures var w := Writer(map[Cid(2) := 1], [Edge(Cid(0), Cid(2), "")], 2, 1);
      NodeRun(ONE_FAILURE, HEIGHT, w, Cid(2), 1, 2) == (w.(seen := map[Cid(2) := 1, Cid(3) := 2], gets := 3), false)
  {
    var k, m, z := ONE_FAILURE, Cid(2), Cid(3);
    var w := Writer(map[m := 1], [Edge(Cid(0), m, "")], 2, 1);
    var failed := w.(seen := map[m := 1, z := 2], gets := 3);
    assert FetchAndWrite(k, failed.(gets := 2), m, Link("", z), true) == (failed, false);
    assert LinkRun(k, HEIGHT, w, m, 1, 0) == (failed, false);
    assert NodeRun(k, HEIGHT, w, m, 1, 1) == (failed, false);
  }

  /** The first root writes the shared node, and fails with it. */
  lemma FirstRootFails()
    ensures Ranked(SHARED, HEIGHT)
    ensures RootRun(ONE_FAILURE, HEIGHT, NEW_WRITER, Cid(0)) ==
      (Writer(map[Cid(2) := 1, Cid(3) := 2], [Edge(Cid(0), Cid(2), "")], 3, 1), false)
  {
    var k, c, m, z := ONE_FAILURE, Cid(0), Cid(2), Cid(3);
    var edge := Edge(c, m, "");
    var shared, failed := Writer(map[m := 1], [edge], 2, 1), Writer(map[m := 1, z := 2], [edge], 3, 1);
    SharedNodeFails();
    var w := Writer(map[], [], 1, 0);
    assert Visit(k, map[], m, 1) == (map[m := 1], true, true);
    assert [] + [edge] == [edge];
    assert FetchAndWrite(k, w.(seen := map[m := 1]), c, Link("", m), true) == (shared, true);
    assert LinkRun(k, HEIGHT, w, c, 0, 0) == NodeRun(k, HEIGHT, shared, m, 1, 2);
    assert NodeRun(k, HEIGHT, w, c, 0, 1) == (failed, false);
  }

  /** The second link of the shared node is never listed, although the second root reports success. */
  lemma LossHappens()
    ensures exists k: Setting, rank: Cid -> nat, c, d, x :: Ranked(k.dag, rank) && Loses(k, rank, c, d, x)
  {
    FirstRootFails();
    var k, d, m, x := ONE_FAILURE, Cid(1), Cid(2), Cid(4);
    var edge := Edge(Cid(0), m, "");
    var failed := Writer(map[m := 1, Cid(3) := 2], [edge], 3, 1);
    var again := failed.(gets := 4);
    assert LinkRun(k, HEIGHT, again, d, 0, 0) == (again, true);
    assert NodeRun(k, HEIGHT, again, d, 0, 1) == (again, true);
    assert RootRun(k, HEIGHT, failed, d) == (again, true);
    assert InRange(SHARED, -1, {d}, x) by {
      assert Steps(SHARED, d, 0, d);
      AppendStep(SHARED, d, 0, d, 0);
      AppendStep(SHARED, d, 1, m, 1);
    }
    assert Written([edge]) == {m};
    assert Loses(k, HEIGHT, Cid(0), d, x);
  }

  // ----- the output of the mode without --unique

  /** The edges of `n`'s links from the `i`-th on, each followed by the edges below it. */
  ghost function EdgesFrom(g: Dag, rank: Cid -> nat, maxDepth: int, n: Cid, depth: nat, i: nat): seq<Edge>
    requires Ranked(g, rank)
    decreases rank(n), |Links(g, n)| - i
  {
    if i >= |Links(g, n)| || !Within(maxDepth, depth + 1) then []
    else
      var l := Links(g, n)[i];
      [Edge(n, l.cid, l.name)]
      + (if depth + 1 == maxDepth then [] else EdgesFrom(g, rank, maxDepth, l.cid, depth + 1, 0))
      + EdgesFrom(g, rank, maxDepth, n, depth, i + 1)
  }

  lemma EdgesEnd(g: Dag, rank: Cid -> nat, maxDepth: int, n: Cid, depth: nat)
    requires Ranked(g, rank)
    ensures EdgesFrom(g, rank, maxDepth, n, depth, |Links(g, n)|) == []
  {
  }

  lemma EdgesUnfold(g: Dag, rank: Cid -> nat, maxDepth: int, n: Cid, depth: nat, i: nat)
    requires Ranked(g, rank) && i < |Links(g, n)| && Within(maxDepth, depth + 1)
    ensures
      var l := Links(g, n)[i];
      EdgesFrom(g, rank, maxDepth, n, depth, i) ==
        [Edge(n, l.cid, l.name)]
        + (if depth + 1 == maxDepth then [] else EdgesFrom(g, rank, maxDepth, l.cid, depth + 1, 0))
        + EdgesFrom(g, rank, maxDepth, n, depth, i + 1)
  {
  }

  /** `es` is what the turns from the `i`-th to before the `j`-th list or, after a failure, a beginning of it. */
  ghost predicate Turns(g: Dag, rank: Cid -> nat, maxDepth: int, n: Cid, depth: nat, i: nat, j: nat,
                        es: seq<Edge>, ok: bool)
    requires Ranked(g, rank)
  {
    && es <= EdgesFrom(g, rank, maxDepth, n, depth, i)
    && (ok ==> es + EdgesFrom(g, rank, maxDepth, n, depth, j) == EdgesFrom(g, rank, maxDepth, n, depth, i))
  }

  lemma TurnStopsShort(g: Dag, rank: Cid -> nat, maxDepth: int, n: Cid, depth: nat, i: nat)
    requires Ranked(g, rank) && i < |Links(g, n)|
    ensures Turns(g, rank, maxDepth, n, depth, i, i + 1, [], false)
    ensures !Within(maxDepth, depth + 1) ==> Turns(g, rank, maxDepth, n, depth, i, i + 1, [], true)
  {
  }

  lemma TurnGoesOn(g: Dag, rank: Cid -> nat, maxDepth: int, n: Cid, depth: nat, i: nat, fs: seq<Edge>, ok: bool)
    requires Ranked(g, rank) && i < |Links(g, n)| && Within(maxDepth, depth + 1)
    requires
      var c := Links(g, n)[i].cid;
      if depth + 1 == maxDepth then fs == []
      else Turns(g, rank, maxDepth, c, depth + 1, 0, |Links(g, c)|, fs, ok)
    ensures
      var l := Links(g, n)[i];
      Turns(g, rank, maxDepth, n, depth, i, i + 1, [Edge(n, l.cid, l.name)] + fs, ok)
  {
    EdgesUnfold(g, rank, maxDepth, n, depth, i);
    EdgesEnd(g, rank, maxDepth, Links(g, n)[i].cid, depth + 1);
    hide EdgesFrom;
    var l := Links(g, n)[i];
    var below := if depth + 1 == maxDepth then [] else EdgesFrom(g, rank, maxDepth, l.cid, depth + 1, 0);
    assert ok && depth + 1 != maxDepth ==> fs == below;
    PrefixBetween(Edge(n, l.cid, l.name), fs, below, EdgesFrom(g, rank, maxDepth, n, depth, i + 1));
  }

  lemma PrefixBetween(e: Edge, fs: seq<Edge>, below: seq<Edge>, rest: seq<Edge>)
    requires fs <= below
    ensures [e] + fs <= [e] + below + rest
  {
  }

  lemma TurnsAddUp(g: Dag, rank: Cid -> nat, maxDepth: int, n: Cid, depth: nat, i: nat,
                   es: seq<Edge>, fs: seq<Edge>, ok: bool)
    requires Ranked(g, rank)
    requires Turns(g, rank, maxDepth, n, depth, 0, i, es, true) && Turns(g, rank, maxDepth, n, depth, i, i + 1, fs, ok)
    ensures Turns(g, rank, maxDepth, n, depth, 0, i + 1, es + fs, ok)
  {
    hide EdgesFrom;
  }

  lemma {:induction false} LinkRunPlain(
      k: Setting, rank: Cid -> nat, r: Cid, w: Writer, n: Cid, depth: nat, i: nat)
    requires !k.unique && Ranked(k.dag, rank) && i < |Links(k.dag, n)|
    requires Within(k.maxDepth, depth) && Steps(k.dag, r, depth, n)
    ensures var (w', ok) := LinkRun(k, rank, w, n, depth, i);
      && w.out <= w'.out && Turns(k.dag, rank, k.maxDepth, n, depth, i, i + 1, w'.out[|w.out|..], ok)
      && (!ok && Reliable(k) ==> Incomplete(k.dag, k.maxDepth, {r}))
    decreases rank(n), 0, 0
  {
    hide Turns, NodeRun, Steps, Incomplete, EdgesFrom, Reliable;
    var l := Links(k.dag, n)[i];
    TurnStopsShort(k.dag, rank, k.maxDepth, n, depth, i);
    assert w.out[|w.out|..] == [];
    if Within(k.maxDepth, depth + 1) {
      AppendStep(k.dag, r, depth, n, i);
      var (w2, ok) := FetchAndWrite(k, w, n, l, true);
      FetchPlain(k, r, w, n, depth, i);
      if ok && depth + 1 != k.maxDepth {
        NodeRunPlain(k, rank, r, w2, l.cid, depth + 1, |Links(k.dag, l.cid)|);
        var (w3, ok3) := NodeRun(k, rank, w2, l.cid, depth + 1, |Links(k.dag, l.cid)|);
        TurnGoesOn(k.dag, rank, k.maxDepth, n, depth, i, w3.out[|w2.out|..], ok3);
        assert w3.out[|w.out|..] == [Edge(n, l.cid, l.name)] + w3.out[|w2.out|..];
      } else if ok {
        TurnGoesOn(k.dag, rank, k.maxDepth, n, depth, i, [], true);
        assert w2.out[|w.out|..] == [Edge(n, l.cid, l.name)] + [];
      }
    }
  }

  lemma FetchPlain(k: Setting, r: Cid, w: Writer, n: Cid, depth: nat, i: nat)
    requires i < |Links(k.dag, n)|
    requires Within(k.maxDepth, depth + 1) && Steps(k.dag, r, depth + 1, Links(k.dag, n)[i].cid)
    ensures var l := Links(k.dag, n)[i]; var (w2, ok) := FetchAndWrite(k, w, n, l, true);
      && w2.out == w.out + (if ok then [Edge(n, l.cid, l.name)] else [])
      && (!ok && Reliable(k) ==> Incomplete(k.dag, k.maxDepth, {r}))
  {
    var l := Links(k.dag, n)[i];
    if l.cid !in k.dag {
      assert InRange(k.dag, k.maxDepth, {r}, l.cid);
    }
  }

  lemma {:induction false} NodeRunPlain(
      k: Setting, rank: Cid -> nat, r: Cid, w: Writer, n: Cid, depth: nat, i: nat)
    requires !k.unique && Ranked(k.dag, rank) && i <= |Links(k.dag, n)|
    requires Within(k.maxDepth, depth) && Steps(k.dag, r, depth, n)
    ensures var (w', ok) := NodeRun(k, rank, w, n, depth, i);
      && w.out <= w'.out && Turns(k.dag, rank, k.maxDepth, n, depth, 0, i, w'.out[|w.out|..], ok)
      && (!ok && Reliable(k) ==> Incomplete(k.dag, k.maxDepth, {r}))
    decreases rank(n), 1, i
  {
    hide LinkRun, Steps, Incomplete, EdgesFrom, Reliable;
    if 0 < i {
      NodeRunPlain(k, rank, r, w, n, depth, i - 1);
      var (w1, ok1) := NodeRun(k, rank, w, n, depth, i - 1);
      if ok1 {
        LinkRunPlain(k, rank, r, w1, n, depth, i - 1);
        var (w2, ok2) := LinkRun(k, rank, w1, n, depth, i - 1);
        TurnsAddUp(k.dag, rank, k.maxDepth, n, depth, i - 1, w1.out[|w.out|..], w2.out[|w1.out|..], ok2);
        assert w2.out[|w.out|..] == w1.out[|w.out|..] + w2.out[|w1.out|..];
      }
    }
  }

  /** Without --unique a root adds its preorder listing, or a beginning of it after a failure. */
  lemma RootRunPlain(k: Setting, rank: Cid -> nat, w: Writer, c: Cid)
    requires !k.unique && Ranked(k.dag, rank)
    ensures var (w', ok) := RootRun(k, rank, w, c);
      && w.out <= w'.out <= w.out + EdgesFrom(k.dag, rank, k.maxDepth, c, 0, 0)
      && (ok ==> c in k.dag && w'.out == w.out + EdgesFrom(k.dag, rank, k.maxDepth, c, 0, 0))
      && (!ok && Reliable(k) ==> c !in k.dag || Incomplete(k.dag, k.maxDepth, {c}))
  {
    var (w1, got) := Get(k, w, c);
    if got {
      NodeRunPlain(k, rank, c, w1, c, 0, |Links(k.dag, c)|);
      EdgesEnd(k.dag, rank, k.maxDepth, c, 0);
      hide EdgesFrom, NodeRun;
      var w' := NodeRun(k, rank, w1, c, 0, |Links(k.dag, c)|).0;
      assert w'.out == w.out + w'.out[|w.out|..];
    }
  }

  // ----- every root in turn on one writer

  ghost function AllEdges(g: Dag, rank: Cid -> nat, maxDepth: int, roots: seq<Cid>): seq<Edge>
    requires Ranked(g, rank)
  {
    if roots == [] then []
    else AllEdges(g, rank, maxDepth, roots[..|roots| - 1]) + EdgesFrom(g, rank, maxDepth, roots[|roots| - 1], 0, 0)
  }

  /** What holds of the writer once the roots `objs` have had their turn; `ok` if none of them failed. */
  ghost predicate AfterRoots(k: Setting, rank: Cid -> nat, objs: seq<Cid>, w: Writer, ok: bool)
    requires Ranked(k.dag, rank)
  {
    && (ok ==> forall r :: r in objs ==> r in k.dag)
    && (!ok && Reliable(k) ==>
          (exists r :: r in objs && r !in k.dag) || Incomplete(k.dag, k.maxDepth, Elements(objs)))
    && (!k.unique && ok ==> w.out == AllEdges(k.dag, rank, k.maxDepth, objs))
    && (k.unique ==> Ready(k, w) && Genuine(k.dag, Elements(objs), w.seen) && (ok ==> Complete(k, objs, w)))
  }

  ghost predicate Complete(k: Setting, objs: seq<Cid>, w: Writer) {
    && Advances(k, NEW_WRITER, w, true)
    && forall r :: r in objs ==> Covers(k.dag, k.maxDepth, w.seen, r, 0)
  }

  lemma NoRoots(k: Setting, rank: Cid -> nat)
    requires Ranked(k.dag, rank)
    ensures AfterRoots(k, rank, [], NEW_WRITER, true)
  {
    ProgressReflexive(k.dag, k.maxDepth, map[], {});
  }

  lemma SameListing(k: Setting, rank: Cid -> nat, objs: seq<Cid>, w: Writer, w': Writer, ok: bool)
    requires Ranked(k.dag, rank) && AfterRoots(k, rank, objs, w, ok) && w'.seen == w.seen && w'.out == w.out
    ensures AfterRoots(k, rank, objs, w', ok)
  {
  }

  lemma OneMoreRoot(k: Setting, rank: Cid -> nat, objs: seq<Cid>, w: Writer, ok: bool, c: Cid)
    requires Ranked(k.dag, rank) && AfterRoots(k, rank, objs, w, ok)
    ensures var (w', fine) := RootRun(k, rank, w, c); AfterRoots(k, rank, objs + [c], w', ok && fine)
  {
    hide EdgesFrom, Incomplete, Genuine, Ready, RootRun, Reliable, Advances, Written, Covers;
    var (w', fine) := RootRun(k, rank, w, c);
    assert Elements(objs + [c]) == Elements(objs) + {c} && (objs + [c])[..|objs|] == objs;
    IncompleteWidens(k.dag, k.maxDepth, Elements(objs), Elements(objs + [c]));
    IncompleteWidens(k.dag, k.maxDepth, {c}, Elements(objs + [c]));
    if k.unique {
      RootRunUnique(k, rank, w, c);
      GenuineMore(k.dag, k.maxDepth, Elements(objs), w.seen, c, w'.seen);
      if ok && fine {
        CompleteMore(k, rank, objs, w, c);
      }
    } else {
      RootRunPlain(k, rank, w, c);
    }
    if !(ok && fine) && Reliable(k) {
      assert c in objs + [c] && forall r :: r in objs ==> r in objs + [c];
    }
  }

  lemma CompleteMore(k: Setting, rank: Cid -> nat, objs: seq<Cid>, w: Writer, c: Cid)
    requires k.unique && Ranked(k.dag, rank) && Ready(k, w) && Complete(k, objs, w) && RootRun(k, rank, w, c).1
    ensures Complete(k, objs + [c], RootRun(k, rank, w, c).0)
  {
    hide RootRun, Ready, Progress, Opened, Written;
    RootRunUnique(k, rank, w, c);
    var w' := RootRun(k, rank, w, c).0;
    ProgressTransitive(k.dag, k.maxDepth, map[], w.seen, w'.seen, Written([]), Written(w.out), Written(w'.out), true);
    ProgressRecorded(k.dag, k.maxDepth, w.seen, w'.seen, Written(w.out), Written(w'.out), true);
  }

  /**
   What each root has come to: a root that went well is there and, with --unique, has its children recorded; unless the
   environment failed, one that did not is missing or has a block in range missing.
   */
  ghost predicate EachRoot(k: Setting, objs: seq<Cid>, oks: seq<bool>, w: Writer)
    requires |oks| == |objs|
  {
    forall i :: 0 <= i < |objs| ==>
      && (oks[i] ==> objs[i] in k.dag && (k.unique ==> Covers(k.dag, k.maxDepth, w.seen, objs[i], 0)))
      && (!oks[i] && Reliable(k) ==> objs[i] !in k.dag || Incomplete(k.dag, k.maxDepth, {objs[i]}))
  }

  lemma EachRootMore(k: Setting, rank: Cid -> nat, objs: seq<Cid>, oks: seq<bool>, w: Writer, c: Cid)
    requires Ranked(k.dag, rank) && |oks| == |objs| && EachRoot(k, objs, oks, w) && (k.unique ==> Ready(k, w))
    ensures var (w', fine) := RootRun(k, rank, w, c); EachRoot(k, objs + [c], oks + [fine], w')
  {
    hide EdgesFrom, Incomplete, Ready, RootRun, Reliable, Written, Progress, Opened, Recorded;
    var (w', fine) := RootRun(k, rank, w, c);
    if k.unique {
      RootRunUnique(k, rank, w, c);
      ProgressRecorded(k.dag, k.maxDepth, w.seen, w'.seen, Written(w.out), Written(w'.out), fine);
    } else {
      RootRunPlain(k, rank, w, c);
    }
  }

  /**
   Without --unique the output is made of one part for each root, in order: the root's whole listing if it went well,
   and a beginning of it otherwise.
   */
  ghost predicate Parts(k: Setting, rank: Cid -> nat, objs: seq<Cid>, oks: seq<bool>, out: seq<Edge>)
    requires Ranked(k.dag, rank) && |oks| == |objs|
  {
    if objs == [] then out == []
    else
      var n := |objs| - 1;
      exists m :: 0 <= m <= |out| && Parts(k, rank, objs[..n], oks[..n], out[..m]) &&
                  Part(k, rank, objs[n], oks[n], out[m..])
  }

  ghost predicate Part(k: Setting, rank: Cid -> nat, c: Cid, ok: bool, es: seq<Edge>)
    requires Ranked(k.dag, rank)
  {
    var all := EdgesFrom(k.dag, rank, k.maxDepth, c, 0, 0);
    es <= all && (ok ==> es == all)
  }

  lemma PartsMore(k: Setting, rank: Cid -> nat, objs: seq<Cid>, oks: seq<bool>, w: Writer, c: Cid)
    requires !k.unique && Ranked(k.dag, rank) && |oks| == |objs| && Parts(k, rank, objs, oks, w.out)
    ensures var (w', fine) := RootRun(k, rank, w, c); Parts(k, rank, objs + [c], oks + [fine], w'.out)
  {
    hide EdgesFrom, Incomplete, RootRun, Parts;
    RootRunPlain(k, rank, w, c);
    var (w', fine) := RootRun(k, rank, w, c);
    var part := w'.out[|w.out|..];
    assert w'.out == w.out + part;
    assert Part(k, rank, c, fine, part);
    PartsAppend(k, rank, objs, oks, w.out, c, fine, part);
  }

  lemma PartsAppend(k: Setting, rank: Cid -> nat, objs: seq<Cid>, oks: seq<bool>, out: seq<Edge>,
                    c: Cid, ok: bool, part: seq<Edge>)
    requires Ranked(k.dag, rank) && |oks| == |objs| && Parts(k, rank, objs, oks, out) && Part(k, rank, c, ok, part)
    ensures Parts(k, rank, objs + [c], oks + [ok], out + part)
  {
    hide Part;
    var n, m := |objs|, |out|;
    assert (objs + [c])[..n] == objs && (oks + [ok])[..n] == oks;
    assert (out + part)[..m] == out && (out + part)[m..] == part;
  }

  /** So the listing of a root that went well stands in the output as a whole. */
  lemma {:induction false} PartsHold(
      k: Setting, rank: Cid -> nat, objs: seq<Cid>, oks: seq<bool>, out: seq<Edge>, i: nat)
    requires Ranked(k.dag, rank) && |oks| == |objs| && Parts(k, rank, objs, oks, out) && i < |objs| && oks[i]
    ensures exists a, b :: 0 <= a <= b <= |out| && out[a..b] == EdgesFrom(k.dag, rank, k.maxDepth, objs[i], 0, 0)
    decreases |objs|
  {
    hide EdgesFrom;
    var n := |objs| - 1;
    var m :| 0 <= m <= |out| && Parts(k, rank, objs[..n], oks[..n], out[..m]) &&
             Part(k, rank, objs[n], oks[n], out[m..]);
    if i == n {
      assert out[m..|out|] == out[m..];
    } else {
      PartsHold(k, rank, objs[..n], oks[..n], out[..m], i);
      var a, b :| 0 <= a <= b <= m && out[..m][a..b] == EdgesFrom(k.dag, rank, k.maxDepth, objs[i], 0, 0);
      assert out[..m][a..b] == out[a..b];
    }
  }

  /** With --unique: one edge for each CID written, all in range, and without a failure exactly those in range. */
  lemma UniqueListing(k: Setting, rank: Cid -> nat, done: seq<Cid>, objs: seq<Cid>, w: Writer, ok: bool)
    requires k.unique && Ranked(k.dag, rank) && AfterRoots(k, rank, done, w, ok)
    requires done <= objs && (ok ==> done == objs)
    ensures forall i, j :: 0 <= i < j < |w.out| ==> w.out[i].to != w.out[j].to
    ensures forall i :: 0 <= i < |w.out| ==>
      IsLink(k.dag, w.out[i]) && InRange(k.dag, k.maxDepth, Elements(objs), w.out[i].to)
    ensures ok ==> w.seen.Keys == Written(w.out)
    ensures ok ==> forall c :: c in w.seen <==> InRange(k.dag, k.maxDepth, Elements(objs), c)
    ensures ok && 0 <= k.maxDepth ==> forall c :: c in w.seen ==>
      && (exists r :: r in objs && Steps(k.dag, r, w.seen[c], c))
      && (forall r, d: nat :: r in objs && 1 <= d && Steps(k.dag, r, d, c) ==> w.seen[c] <= d)
  {
    hide Steps, IsLink, Listing, Written, EdgesFrom, AllEdges, Incomplete, InRange;
    ListingMeaning(k.dag, w.out);
    GenuineInRange(k.dag, k.maxDepth, Elements(done), w.seen);
    forall i | 0 <= i < |w.out| ensures InRange(k.dag, k.maxDepth, Elements(objs), w.out[i].to) {
      WrittenMeaning(w.out, w.out[i].to);
      InRangeWidens(k.dag, k.maxDepth, Elements(done), Elements(objs), w.out[i].to);
    }
    if ok {
      ExploredIsExact(k.dag, k.maxDepth, Elements(objs), w.seen);
    }
  }
}
