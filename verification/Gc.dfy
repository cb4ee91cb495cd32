/**
 Garbage collection: mark what the pins need, then sweep the rest (gc/gc.go).
 */
module Gc {
  import opened Prelude
  import opened Dags
  import opened Walks

  // ----- the blocks and the pins

  /**
   What asking for links yields: the links of a CID in `dag`, an error for one in `garbled`, and for any other
   that it was not found. The hash of an `insecure` CID is not acceptable.
   */
  datatype View = View(dag: Dag, garbled: set<Cid>, insecure: set<Cid>)

  datatype Pins = Pins(recursive: seq<Cid>, direct: seq<Cid>, internal: seq<Cid>)

  /** The links of `c` cannot be had; best-effort roots forgive that it was not found. */
  predicate Faulty(v: View, bestEffort: bool, c: Cid) {
    c !in v.dag && (bestEffort ==> c in v.garbled)
  }

  ghost predicate Below(g: Dag, roots: seq<Cid>, c: Cid) {
    exists r :: r in roots && Reaches(g, r, c)
  }

  /** The direct pins and everything below recursive pins and best-effort roots. */
  ghost predicate Kept(g: Dag, pins: Pins, bestEffortRoots: seq<Cid>, kept: set<Cid>) {
    forall c :: c in kept <==> c in pins.direct || Below(g, pins.recursive, c) || Below(g, bestEffortRoots, c)
  }

  /** The marked set. Internal pins are walked last, so their walk stops at whatever is kept already. */
  ghost predicate Marks(g: Dag, pins: Pins, bestEffortRoots: seq<Cid>, kept: set<Cid>, marked: set<Cid>) {
    && Kept(g, pins, bestEffortRoots, kept)
    && (forall c :: c in marked <==> c in kept || Reached(g, kept, Elements(pins.internal), c))
  }

  predicate Bad(v: View, bestEffort: bool, c: Cid) {
    c in v.insecure || Faulty(v, bestEffort, c)
  }

  /** A node that marking comes across and must not accept. */
  ghost predicate Unmarkable(v: View, pins: Pins, bestEffortRoots: seq<Cid>, c: Cid) {
    || (Below(v.dag, pins.recursive, c) && (c in v.insecure || c !in v.dag))
    || (Below(v.dag, bestEffortRoots, c) && (c in v.insecure || (c in v.garbled && c !in v.dag)))
    || ((c in v.insecure || c !in v.dag) &&
        exists kept :: Kept(v.dag, pins, bestEffortRoots, kept) && Reached(v.dag, kept, Elements(pins.internal), c))
  }

  // ----- marking

  /** Walks from every root in turn. `errors` says that some links could not be had. */
  method Descendants(v: View, bestEffort: bool, visited0: set<Cid>, roots: seq<Cid>, mayCancel: bool)
    returns (visited: set<Cid>, errors: bool, cancelled: bool)
    ensures visited0 <= visited && (cancelled ==> mayCancel && errors)
    ensures forall c :: c in visited && c !in visited0 ==> Reached(v.dag, visited0, Elements(roots), c)
    ensures !errors ==> Expanded(v.dag, visited0, Elements(roots), visited)
    ensures !errors ==> forall c :: c in visited && c !in visited0 ==> !Bad(v, bestEffort, c)
    ensures errors && !cancelled ==>
      exists c :: Reached(v.dag, visited0, Elements(roots), c) && Bad(v, bestEffort, c)
  {
    hide Reached, Faulty;
    ghost var g := v.dag;
    visited, errors, cancelled := visited0, false, false;
    for i := 0 to |roots|
      invariant !errors && !cancelled
      invariant Expanded(g, visited0, Elements(roots[..i]), visited)
      invariant forall c :: c in visited && c !in visited0 ==> c !in v.insecure
    {
      var more, outcome := Walk(v.dag, roots[i], false, visited, v.insecure, mayCancel);
      ReachedWidens(g, visited0, visited, {roots[i]}, Elements(roots));
      ReachedWidens(g, visited0, visited0, Elements(roots[..i]), Elements(roots));
      if outcome != Finished {
        assert outcome.Broken? ==> Bad(v, bestEffort, outcome.at);
        return more, true, outcome.Cancelled?;
      }
      ExpandedTransitive(g, visited0, visited, more, Elements(roots[..i]), {roots[i]});
      assert Elements(roots[..i + 1]) == Elements(roots[..i]) + {roots[i]};
      visited := more;
    }
    assert roots[..|roots|] == roots;
    errors := exists c :: c in visited && c !in visited0 && Faulty(v, bestEffort, c);
  }

  /** Which failures from outside may occur: a cancelled context, errors of listing pins or blocks, of deletions. */
  datatype May = May(cancel: bool, list: bool, delete: bool)

  /**
   The marked set, or nothing if any links could not be had. `outside`: the context was cancelled, or asking for the
   pins failed.
   */
  method ColoredSet(v: View, pins: Pins, bestEffortRoots: seq<Cid>, may: May)
    returns (marked: set<Cid>, ok: bool, outside: bool, ghost kept: set<Cid>)
    ensures ok ==> Marks(v.dag, pins, bestEffortRoots, kept, marked)
    ensures ok ==> forall c :: !Unmarkable(v, pins, bestEffortRoots, c)
    ensures !ok && !outside ==> exists c :: Unmarkable(v, pins, bestEffortRoots, c)
    ensures outside ==> !ok && (may.cancel || may.list)
  {
    ghost var g := v.dag;
    var failed := Fails(may.list);
    if failed {
      return {}, false, true, {};
    }
    var s1, e1, c1 := Descendants(v, false, {}, pins.recursive, may.cancel);
    var s2, e2, c2 := Descendants(v, true, s1, bestEffortRoots, may.cancel);
    failed := Fails(may.list);
    if failed {
      return {}, false, true, {};
    }
    var s3 := s2 + Elements(pins.direct);
    failed := Fails(may.list);
    if failed {
      return {}, false, true, {};
    }
    var s4, e3, c3 := Descendants(v, false, s3, pins.internal, may.cancel);
    var interrupted := Fails(may.cancel);
    marked, ok, outside, kept := s4, !(e1 || e2 || e3 || interrupted), c1 || c2 || c3 || interrupted, s3;
    hide Reached, Expanded, Bad, Below;
    if ok {
      MarkingAccepted(v, pins, bestEffortRoots, s1, s2, s4);
    } else if !outside {
      if e1 {
        MarkingRefusedEarly(v, pins, bestEffortRoots, pins.recursive, {}, false);
      } else if e2 {
        MarkingRefusedEarly(v, pins, bestEffortRoots, bestEffortRoots, s1, true);
      } else {
        MarkedBelow(v.dag, pins, bestEffortRoots, s1, s2);
        ghost var c :| Reached(g, s3, Elements(pins.internal), c) && Bad(v, false, c);
        assert Unmarkable(v, pins, bestEffortRoots, c);
      }
    }
  }

  /** The first two walks find exactly what lies below the recursive pins and the best-effort roots. */
  lemma MarkedBelow(g: Dag, pins: Pins, bestEffortRoots: seq<Cid>, s1: set<Cid>, s2: set<Cid>)
    requires Expanded(g, {}, Elements(pins.recursive), s1)
    requires Expanded(g, s1, Elements(bestEffortRoots), s2)
    ensures forall c :: c in s1 <==> Below(g, pins.recursive, c)
    ensures forall c :: c in s2 <==> Below(g, pins.recursive, c) || Below(g, bestEffortRoots, c)
    ensures Kept(g, pins, bestEffortRoots, s2 + Elements(pins.direct))
  {
    BelowIsReached(g, {}, pins.recursive);
    ExpandedIsExact(g, {}, Elements(pins.recursive), s1);
    ExpandedTransitive(g, {}, s1, s2, Elements(pins.recursive), Elements(bestEffortRoots));
    BelowEither(g, pins.recursive, bestEffortRoots, s2);
    hide Reached, Below;
  }

  lemma MarkingAccepted(v: View, pins: Pins, bestEffortRoots: seq<Cid>,
                        s1: set<Cid>, s2: set<Cid>, s4: set<Cid>)
    requires Expanded(v.dag, {}, Elements(pins.recursive), s1)
    requires Expanded(v.dag, s1, Elements(bestEffortRoots), s2)
    requires Expanded(v.dag, s2 + Elements(pins.direct), Elements(pins.internal), s4)
    requires forall c :: c in s1 ==> !Bad(v, false, c)
    requires forall c :: c in s2 && c !in s1 ==> !Bad(v, true, c)
    requires forall c :: c in s4 && c !in s2 + Elements(pins.direct) ==> !Bad(v, false, c)
    ensures Marks(v.dag, pins, bestEffortRoots, s2 + Elements(pins.direct), s4)
    ensures forall c :: !Unmarkable(v, pins, bestEffortRoots, c)
  {
    var kept := s2 + Elements(pins.direct);
    MarkedBelow(v.dag, pins, bestEffortRoots, s1, s2);
    ExpandedIsExact(v.dag, kept, Elements(pins.internal), s4);
    forall c ensures !Unmarkable(v, pins, bestEffortRoots, c) {
      hide Below, Expanded;
      forall other | Kept(v.dag, pins, bestEffortRoots, other) ensures other == kept {
        assert forall d :: d in other <==> d in kept;
      }
      if Reached(v.dag, kept, Elements(pins.internal), c) {
        ReachedAvoids(v.dag, kept, Elements(pins.internal), c);
      }
    }
  }

  lemma MarkingRefusedEarly(v: View, pins: Pins, bestEffortRoots: seq<Cid>,
                            roots: seq<Cid>, avoid: set<Cid>, bestEffort: bool)
    requires roots == if bestEffort then bestEffortRoots else pins.recursive
    requires exists c :: Reached(v.dag, avoid, Elements(roots), c) && Bad(v, bestEffort, c)
    ensures exists c :: Unmarkable(v, pins, bestEffortRoots, c)
  {
    BelowIsReached(v.dag, avoid, roots);
    hide Reached, Below;
    var c :| Reached(v.dag, avoid, Elements(roots), c) && Bad(v, bestEffort, c);
    assert Unmarkable(v, pins, bestEffortRoots, c);
  }

  lemma BelowIsReached(g: Dag, avoid: set<Cid>, roots: seq<Cid>)
    ensures forall c :: Reached(g, avoid, Elements(roots), c) ==> Below(g, roots, c)
    ensures forall c :: Below(g, roots, c) ==> Reached(g, {}, Elements(roots), c)
  {
    ReachedWidens(g, {}, avoid, Elements(roots), Elements(roots));
    forall c ensures Reached(g, {}, Elements(roots), c) <==> Below(g, roots, c) {
      ReachedIsReaches(g, Elements(roots), c);
    }
  }

  lemma BelowEither(g: Dag, rs: seq<Cid>, qs: seq<Cid>, s: set<Cid>)
    requires Expanded(g, {}, Elements(rs) + Elements(qs), s)
    ensures forall c :: c in s <==> Below(g, rs, c) || Below(g, qs, c)
  {
    ExpandedIsExact(g, {}, Elements(rs) + Elements(qs), s);
    forall c ensures c in s <==> Below(g, rs, c) || Below(g, qs, c) {
      ReachedIsReaches(g, Elements(rs) + Elements(qs), c);
    }
  }

  // ----- what the internal pins keep

  /** Kept for another reason than the link from a direct pin, or met by the last walk on another way. */
  ghost predicate Retained(g: Dag, pins: Pins, bestEffortRoots: seq<Cid>, kept: set<Cid>, e: Cid) {
    || e in pins.direct
    || Below(g, pins.recursive, e)
    || Below(g, bestEffortRoots, e)
    || Reached(g, kept, Elements(pins.internal), e)
  }

  /**
   Everything below the internal pins is marked exactly when each child of a direct pin below them is kept for
   another reason: a direct pin hides its children from the last walk.
   */
  lemma InternalPinsMarked(g: Dag, pins: Pins, bestEffortRoots: seq<Cid>, kept: set<Cid>, marked: set<Cid>)
    requires Marks(g, pins, bestEffortRoots, kept, marked)
    ensures (forall c :: Below(g, pins.internal, c) ==> c in marked) <==>
      forall d, e :: d in pins.direct && Below(g, pins.internal, d) && Child(g, d, e) ==>
        Retained(g, pins, bestEffortRoots, kept, e)
  {
    MarkedUnlessHidden(g, pins, bestEffortRoots, kept, marked);
    hide Reached, Below;
    assert forall e :: e in marked <==> Retained(g, pins, bestEffortRoots, kept, e);
    forall d ensures ChildrenIn(g, d, marked) <==> forall e :: Child(g, d, e) ==> e in marked {
      forall i | 0 <= i < |Links(g, d)| ensures Child(g, d, Links(g, d)[i].cid) {
      }
    }
  }

  lemma MarkedUnlessHidden(g: Dag, pins: Pins, bestEffortRoots: seq<Cid>, kept: set<Cid>, marked: set<Cid>)
    requires Marks(g, pins, bestEffortRoots, kept, marked)
    ensures (forall c :: Below(g, pins.internal, c) ==> c in marked) <==>
      (forall d :: d in pins.direct && Below(g, pins.internal, d) ==> ChildrenIn(g, d, marked))
  {
    if forall c :: Below(g, pins.internal, c) ==> c in marked {
      forall d, i | d in pins.direct && Below(g, pins.internal, d) && 0 <= i < |Links(g, d)|
        ensures Links(g, d)[i].cid in marked
      {
        BelowChild(g, pins.internal, d, i);
      }
    }
    if forall d :: d in pins.direct && Below(g, pins.internal, d) ==> ChildrenIn(g, d, marked) {
      forall c | Below(g, pins.internal, c) ensures c in marked {
        var r, k: nat :| r in pins.internal && Steps(g, r, k, c);
        InternalStepsMarked(g, pins, bestEffortRoots, kept, marked, r, k, c);
      }
    }
  }

  lemma BelowChild(g: Dag, roots: seq<Cid>, c: Cid, i: nat)
    requires Below(g, roots, c) && i < |Links(g, c)|
    ensures Below(g, roots, Links(g, c)[i].cid)
  {
    var r, k: nat :| r in roots && Steps(g, r, k, c);
    AppendStep(g, r, k, c, i);
  }

  lemma {:induction false} InternalStepsMarked(g: Dag, pins: Pins, bestEffortRoots: seq<Cid>, kept: set<Cid>,
                                               marked: set<Cid>, r: Cid, k: nat, c: Cid)
    requires Marks(g, pins, bestEffortRoots, kept, marked)
    requires forall d :: d in pins.direct && Below(g, pins.internal, d) ==> ChildrenIn(g, d, marked)
    requires r in pins.internal && Steps(g, r, k, c)
    ensures c in marked
  {
    if k == 0 {
      assert c !in kept ==> Walkable(g, kept, r, 0, r);
    } else {
      var m :| Steps(g, r, k - 1, m) && Child(g, m, c);
      InternalStepsMarked(g, pins, bestEffortRoots, kept, marked, r, k - 1, m);
      var i :| 0 <= i < |Links(g, m)| && Links(g, m)[i].cid == c;
      if Below(g, pins.recursive, m) {
        BelowChild(g, pins.recursive, m, i);
      } else if Below(g, bestEffortRoots, m) {
        BelowChild(g, bestEffortRoots, m, i);
      } else if m in pins.direct {
        assert Below(g, pins.internal, m);
      } else if c !in kept {
        var q, j: nat :| q in Elements(pins.internal) && Walkable(g, kept, q, j, m);
        assert Walkable(g, kept, q, j + 1, c);
      }
    }
  }

  /** The documented promise that everything the pinner uses is kept can fail: here the last block is swept. */
  lemma InternalPinsCutOff()
    ensures exists g, pins, kept, marked, c ::
      Marks(g, pins, [], kept, marked) && Below(g, pins.internal, c) && c in g && c !in marked
  {
    var a, d, e := Cid(0), Cid(1), Cid(2);
    var g: Dag := map[a := [Link("", d)], d := [Link("", e)], e := []];
    var pins := Pins([], [d], [a]);
    assert Links(g, a)[0].cid == d && Links(g, d)[0].cid == e;
    assert Below(g, pins.internal, e) by {
      assert Steps(g, a, 0, a);
      AppendStep(g, a, 0, a, 0);
      AppendStep(g, a, 1, d, 0);
      assert pins.internal[0] == a && Reaches(g, a, e);
    }
    forall c ensures c in {a, d} <==> c in {d} || Reached(g, {d}, Elements(pins.internal), c) {
      if c == a {
        assert Walkable(g, {d}, a, 0, a);
      } else if Reached(g, {d}, Elements(pins.internal), c) {
        var r, k: nat :| r in Elements(pins.internal) && Walkable(g, {d}, r, k, c);
        CutOffWalk(g, a, d, k, c);
      }
    }
    assert Marks(g, pins, [], {d}, {a, d});
  }

  lemma {:induction false} CutOffWalk(g: Dag, a: Cid, d: Cid, k: nat, c: Cid)
    requires Links(g, a) == [Link("", d)] && Walkable(g, {d}, a, k, c)
    ensures c == a
  {
    if 0 < k {
      var m :| Walkable(g, {d}, a, k - 1, m) && Child(g, m, c);
      CutOffWalk(g, a, d, k - 1, m);
      assert false;
    }
  }

  // ----- sweeping

  type Blocks = map<Cid, Bytes>

  class Blockstore {
    var blocks: Blocks

    /** A deletion that reports an error, if it may fail, may or may not have taken effect. */
    method DeleteBlock(k: Cid, mayFail: bool) returns (ok: bool)
      modifies this
      ensures blocks == old(blocks) - {k} || (!ok && blocks == old(blocks))
      ensures !ok ==> mayFail
    {
      ok := *;
      ok := ok || !mayFail;
      var gone := *;
      if ok || gone {
        blocks := blocks - {k};
      }
    }
  }

  datatype Result =
    | KeyRemoved(key: Cid) | CannotDelete(key: Cid) | CannotDeleteSomeBlocks | MarkingFailed | ListingFailed

  /** How a collection went: no sweep at all, one cut short, one with failed deletions, or a full one. */
  datatype Run = Aborted | CutShort | Incomplete | Complete

  /** One result for each of the keys: removed, or not to be deleted. */
  ghost predicate Reports(output: seq<Result>, keys: set<Cid>) {
    && (forall i, j :: 0 <= i < j < |output| ==> output[i] != output[j])
    && (forall x :: x in output ==> (x.KeyRemoved? || x.CannotDelete?) && x.key in keys)
    && (forall k :: k in keys ==> (KeyRemoved(k) in output) != (CannotDelete(k) in output))
  }

  lemma ReportsMore(output: seq<Result>, keys: set<Cid>, k: Cid)
    requires Reports(output, keys) && k !in keys
    ensures Reports(output + [KeyRemoved(k)], keys + {k}) && Reports(output + [CannotDelete(k)], keys + {k})
  {
  }

  /** Nothing marked is gone, nothing has changed, and what is reported removed is gone. */
  ghost predicate Honest(before: Blocks, marked: set<Cid>, blocks: Blocks, output: seq<Result>) {
    && (forall c :: c in before && c in marked ==> c in blocks)
    && (forall c :: c in blocks ==> c in before && blocks[c] == before[c])
    && (forall k :: KeyRemoved(k) in output ==> k in before && k !in blocks)
  }

  /** A sweep that has still to come to the keys in `left`; `clean` as long as no deletion has failed. */
  ghost predicate Sweeping(before: Blocks, marked: set<Cid>, left: set<Cid>, blocks: Blocks, output: seq<Result>,
                           clean: bool) {
    && left <= before.Keys && Honest(before, marked, blocks, output)
    && (forall c :: c in left ==> c in blocks)
    && Reports(output, before.Keys - left - marked)
    && (if clean then forall x :: x in output ==> x.KeyRemoved? else exists k :: CannotDelete(k) in output)
  }

  lemma SweepStart(before: Blocks, marked: set<Cid>)
    ensures Sweeping(before, marked, before.Keys, before, [], true)
  {
  }

  lemma SweepSkips(before: Blocks, marked: set<Cid>, left: set<Cid>, blocks: Blocks, output: seq<Result>,
                   clean: bool, k: Cid)
    requires Sweeping(before, marked, left, blocks, output, clean) && k in left && k in marked
    ensures Sweeping(before, marked, left - {k}, blocks, output, clean)
  {
    assert before.Keys - (left - {k}) - marked == before.Keys - left - marked;
  }

  lemma HonestDeletes(before: Blocks, marked: set<Cid>, blocks: Blocks, output: seq<Result>, k: Cid)
    requires Honest(before, marked, blocks, output) && k in before && k !in marked
    ensures Honest(before, marked, blocks - {k}, output)
    ensures Honest(before, marked, blocks - {k}, output + [KeyRemoved(k)])
    ensures Honest(before, marked, blocks - {k}, output + [CannotDelete(k)])
    ensures Honest(before, marked, blocks, output + [CannotDelete(k)])
  {
  }

  lemma SweptMore(before: Blocks, marked: set<Cid>, left: set<Cid>, output: seq<Result>, k: Cid)
    requires Reports(output, before.Keys - left - marked) && k in left && left <= before.Keys && k !in marked
    ensures Reports(output + [KeyRemoved(k)], before.Keys - (left - {k}) - marked)
    ensures Reports(output + [CannotDelete(k)], before.Keys - (left - {k}) - marked)
  {
    hide Reports;
    ReportsMore(output, before.Keys - left - marked, k);
    assert before.Keys - (left - {k}) - marked == before.Keys - left - marked + {k};
  }

  /** A deletion that went well. */
  lemma SweepDeletes(before: Blocks, marked: set<Cid>, left: set<Cid>, blocks: Blocks, output: seq<Result>,
                     clean: bool, k: Cid)
    requires Sweeping(before, marked, left, blocks, output, clean) && k in left && k !in marked
    ensures Sweeping(before, marked, left - {k}, blocks - {k}, output + [KeyRemoved(k)], clean)
    ensures Honest(before, marked, blocks - {k}, output)
  {
    hide Reports, Honest;
    SweptMore(before, marked, left, output, k);
    HonestDeletes(before, marked, blocks, output, k);
    if !clean {
      var c :| CannotDelete(c) in output;
      assert CannotDelete(c) in output + [KeyRemoved(k)];
    }
  }

  /** One that did not, whether or not it took effect. */
  lemma SweepFails(before: Blocks, marked: set<Cid>, left: set<Cid>, blocks: Blocks, output: seq<Result>,
                   clean: bool, k: Cid)
    requires Sweeping(before, marked, left, blocks, output, clean) && k in left && k !in marked
    ensures Sweeping(before, marked, left - {k}, blocks - {k}, output + [CannotDelete(k)], false)
    ensures Sweeping(before, marked, left - {k}, blocks, output + [CannotDelete(k)], false)
  {
    hide Reports, Honest;
    SweptMore(before, marked, left, output, k);
    HonestDeletes(before, marked, blocks, output, k);
    assert CannotDelete(k) in output + [CannotDelete(k)];
  }

  /** What a sweep that has come to all keys has done. */
  lemma SweepEnds(before: Blocks, marked: set<Cid>, blocks: Blocks, output: seq<Result>, clean: bool)
    requires Sweeping(before, marked, {}, blocks, output, clean)
    ensures Honest(before, marked, blocks, output) && Reports(output, before.Keys - marked)
    ensures clean ==> (forall x :: x in output ==> x.KeyRemoved?) && blocks.Keys == before.Keys * marked
    ensures !clean ==> exists k :: CannotDelete(k) in output
    ensures Honest(before, marked, blocks, output + [CannotDeleteSomeBlocks])
  {
    assert before.Keys - {} - marked == before.Keys - marked;
    if clean {
      forall c | c in before && c !in marked ensures c !in blocks {
        assert c in before.Keys - marked && KeyRemoved(c) in output;
      }
    }
  }

  /** Deletes whatever is not marked. */
  method Sweep(bs: Blockstore, gcs: set<Cid>, may: May) returns (output: seq<Result>, run: Run)
    modifies bs
    ensures !run.Aborted? && Honest(old(bs.blocks), gcs, bs.blocks, output)
    ensures !may.cancel ==> !run.CutShort?
    ensures !may.delete ==> !run.Incomplete?
    ensures run.Complete? ==> bs.blocks.Keys == old(bs.blocks).Keys * gcs
    ensures run.Complete? ==> Reports(output, old(bs.blocks).Keys - gcs) && forall x :: x in output ==> x.KeyRemoved?
    ensures run.Incomplete? ==> output != [] && output[|output| - 1] == CannotDeleteSomeBlocks
    ensures run.Incomplete? ==> Reports(output[..|output| - 1], old(bs.blocks).Keys - gcs)
    ensures run.Incomplete? ==> exists k :: CannotDelete(k) in output
  {
    hide Sweeping, Reports, Honest;
    output, run := [], Complete;
    var keychan := bs.blocks.Keys;
    ghost var before := bs.blocks;
    SweepStart(before, gcs);
    SweepHonest(before, gcs, keychan, bs.blocks, output, true);
    while keychan != {}
      invariant run.Complete? || (run.Incomplete? && may.delete)
      invariant Sweeping(before, gcs, keychan, bs.blocks, output, run.Complete?)
    {
      SweepHonest(before, gcs, keychan, bs.blocks, output, run.Complete?);
      var done := Fails(may.cancel);
      if done {
        return output, CutShort;
      }
      var k :| k in keychan;
      if k in gcs {
        SweepSkips(before, gcs, keychan, bs.blocks, output, run.Complete?, k);
      } else {
        SweepDeletes(before, gcs, keychan, bs.blocks, output, run.Complete?, k);
        SweepFails(before, gcs, keychan, bs.blocks, output, run.Complete?, k);
        var deleted := bs.DeleteBlock(k, may.delete);
        done := Fails(may.cancel);
        if done {
          return output, CutShort;
        }
        if deleted {
          output := output + [KeyRemoved(k)];
        } else {
          run := Incomplete;
          output := output + [CannotDelete(k)];
        }
      }
      keychan := keychan - {k};
    }
    SweepEnds(before, gcs, bs.blocks, output, run.Complete?);
    if run.Incomplete? {
      ghost var reports := output;
      output := output + [CannotDeleteSomeBlocks];
      assert output[..|output| - 1] == reports;
    }
  }

  lemma SweepHonest(before: Blocks, marked: set<Cid>, left: set<Cid>, blocks: Blocks, output: seq<Result>, clean: bool)
    requires Sweeping(before, marked, left, blocks, output, clean)
    ensures Honest(before, marked, blocks, output) && left <= before.Keys
  {
  }

  /** Marks and sweeps. */
  method GC(bs: Blockstore, v: View, pins: Pins, bestEffortRoots: seq<Cid>, may: May)
    returns (output: seq<Result>, run: Run, ghost kept: set<Cid>, ghost marked: set<Cid>)
    modifies bs
    // nothing is deleted unless everything could be marked, and then nothing that is marked
    ensures run.Aborted? ==> bs.blocks == old(bs.blocks) && (output == [MarkingFailed] || output == [ListingFailed])
    ensures !run.Aborted? ==> Marks(v.dag, pins, bestEffortRoots, kept, marked)
    ensures !run.Aborted? ==> Honest(old(bs.blocks), marked, bs.blocks, output)
    // it comes to that only if some node could not be accepted, or a failure came from outside
    ensures !run.Aborted? ==> forall c :: !Unmarkable(v, pins, bestEffortRoots, c)
    ensures run.Aborted? && !may.cancel && !may.list ==> exists c :: Unmarkable(v, pins, bestEffortRoots, c)
    ensures !may.cancel ==> !run.CutShort?
    ensures !may.delete ==> !run.Incomplete?
    // a full run leaves exactly the marked blocks, and a sweep reports on every other block once
    ensures run.Complete? ==> bs.blocks.Keys == old(bs.blocks).Keys * marked
    ensures run.Complete? ==> Reports(output, old(bs.blocks).Keys - marked) && forall x :: x in output ==> x.KeyRemoved?
    ensures run.Incomplete? ==> output != [] && output[|output| - 1] == CannotDeleteSomeBlocks
    ensures run.Incomplete? ==> Reports(output[..|output| - 1], old(bs.blocks).Keys - marked)
    ensures run.Incomplete? ==> exists k :: CannotDelete(k) in output
    // recursive pins that were complete stay complete
    ensures forall r, c :: r in pins.recursive && Reaches(v.dag, r, c) && c in old(bs.blocks) ==>
      c in bs.blocks && bs.blocks[c] == old(bs.blocks)[c]
  {
    hide Unmarkable, Reports, Reached;
    var gcs, ok, outside;
    gcs, ok, outside, kept := ColoredSet(v, pins, bestEffortRoots, may);
    marked := gcs;
    if !ok {
      return [MarkingFailed], Aborted, kept, marked;
    }
    var failed := Fails(may.list);
    if failed {
      return [ListingFailed], Aborted, kept, marked;
    }
    output, run := Sweep(bs, gcs, may);
    forall r, c | r in pins.recursive && Reaches(v.dag, r, c) ensures c in marked {
      assert Below(v.dag, pins.recursive, c);
    }
  }
}
