/**
 What the `seen` table of a refs traversal means: which CIDs it holds, how deep, and what later traversals
 find because of it (core/commands/refs.go).
 */
module RefTable {
  import opened Dags

  /** The depth at which each CID was met last. */
  type Table = map<Cid, nat>

  predicate Within(maxDepth: int, k: nat) {
    maxDepth < 0 || k <= maxDepth
  }

  /** `c` lies between one and `maxDepth` links below one of the roots; a negative limit is no limit. */
  ghost predicate InRange(g: Dag, maxDepth: int, roots: set<Cid>, c: Cid) {
    exists r, k :: r in roots && 1 <= k && (0 <= maxDepth ==> k <= maxDepth) && Steps(g, r, k, c)
  }

  /** A block in range is missing. */
  ghost predicate Incomplete(g: Dag, maxDepth: int, roots: set<Cid>) {
    exists c :: InRange(g, maxDepth, roots, c) && c !in g
  }

  lemma InRangeWidens(g: Dag, maxDepth: int, rs: set<Cid>, qs: set<Cid>, c: Cid)
    requires rs <= qs
    ensures InRange(g, maxDepth, rs, c) ==> InRange(g, maxDepth, qs, c)
  {
  }

  lemma IncompleteWidens(g: Dag, maxDepth: int, rs: set<Cid>, qs: set<Cid>)
    requires rs <= qs
    ensures Incomplete(g, maxDepth, rs) ==> Incomplete(g, maxDepth, qs)
  {
    if c :| InRange(g, maxDepth, rs, c) && c !in g {
      InRangeWidens(g, maxDepth, rs, qs, c);
    }
  }

  /** Met at depth `k`, the CID is pruned. */
  predicate Recorded(maxDepth: int, seen: Table, c: Cid, k: nat) {
    c in seen && (0 <= maxDepth ==> seen[c] <= k)
  }

  // ----- paths that a table leaves open

  /** A link path from `r` to `c` on which no node is pruned at its position. */
  ghost predicate OpenSteps(g: Dag, maxDepth: int, base: Table, r: Cid, k: nat, c: Cid) {
    if k == 0 then r == c
    else !Recorded(maxDepth, base, c, k) && exists m :: OpenSteps(g, maxDepth, base, r, k - 1, m) && Child(g, m, c)
  }

  /** Some such path reaches `c` within the limit. */
  ghost predicate OpenTo(g: Dag, maxDepth: int, base: Table, r: Cid, c: Cid) {
    exists k :: 1 <= k && Within(maxDepth, k) && OpenSteps(g, maxDepth, base, r, k, c)
  }

  lemma AppendOpenStep(g: Dag, maxDepth: int, base: Table, r: Cid, k: nat, m: Cid, i: nat)
    requires OpenSteps(g, maxDepth, base, r, k, m) && i < |Links(g, m)|
    requires !Recorded(maxDepth, base, Links(g, m)[i].cid, k + 1)
    ensures OpenSteps(g, maxDepth, base, r, k + 1, Links(g, m)[i].cid)
  {
    assert Child(g, m, Links(g, m)[i].cid);
  }

  lemma {:induction false} OpenStepsAreSteps(g: Dag, maxDepth: int, base: Table, r: Cid, k: nat, c: Cid)
    requires OpenSteps(g, maxDepth, base, r, k, c)
    ensures Steps(g, r, k, c)
  {
    if 0 < k {
      var m :| OpenSteps(g, maxDepth, base, r, k - 1, m) && Child(g, m, c);
      OpenStepsAreSteps(g, maxDepth, base, r, k - 1, m);
    }
  }

  lemma OpenMissing(g: Dag, maxDepth: int, base: Table, r: Cid, k: nat, c: Cid)
    requires OpenSteps(g, maxDepth, base, r, k, c) && 1 <= k && Within(maxDepth, k) && c !in g
    ensures Incomplete(g, maxDepth, {r})
  {
    OpenStepsAreSteps(g, maxDepth, base, r, k, c);
    assert InRange(g, maxDepth, {r}, c);
  }

  // ----- how a traversal changes the table

  /** Every child of `n`, a node met at `depth`, has been recorded, unless the limit forbids it. */
  ghost predicate Covers(g: Dag, maxDepth: int, seen: Table, n: Cid, depth: nat) {
    Within(maxDepth, depth + 1) ==>
      forall i :: 0 <= i < |Links(g, n)| ==> Recorded(maxDepth, seen, Links(g, n)[i].cid, depth + 1)
  }

  /** Every entry that is new or lower than `before` has had its children recorded. */
  ghost predicate Explored(g: Dag, maxDepth: int, before: Table, seen: Table) {
    forall c :: c in seen ==>
      (c in before && before[c] == seen[c]) || Covers(g, maxDepth, seen, c, seen[c])
  }

  predicate Improves(before: Table, seen: Table) {
    forall c :: c in before ==> c in seen && seen[c] <= before[c]
  }

  predicate Bounded(maxDepth: int, seen: Table) {
    forall c :: c in seen ==> 1 <= seen[c] && Within(maxDepth, seen[c])
  }

  /** Every entry that is new or lower than `base` is the length of an open path from `r`. */
  ghost predicate Opened(g: Dag, maxDepth: int, base: Table, r: Cid, seen: Table) {
    forall c :: c in seen ==>
      (c in base && base[c] == seen[c]) || OpenSteps(g, maxDepth, base, r, seen[c], c)
  }

  /** Recording a node at the end of an open path. */
  lemma OpenedMore(g: Dag, maxDepth: int, base: Table, r: Cid, seen: Table, c: Cid, depth: nat)
    requires Opened(g, maxDepth, base, r, seen) && OpenSteps(g, maxDepth, base, r, depth, c)
    ensures Opened(g, maxDepth, base, r, seen[c := depth])
  {
    hide OpenSteps;
  }

  lemma ImprovesMore(maxDepth: int, base: Table, seen: Table, c: Cid, depth: nat)
    requires Improves(base, seen) && !Recorded(maxDepth, seen, c, depth)
    ensures Improves(base, seen[c := depth])
    ensures forall d, k :: Recorded(maxDepth, base, d, k) ==> Recorded(maxDepth, seen, d, k)
  {
  }

  /** Newly written CIDs were newly recorded, and unless something failed every newly recorded CID was written. */
  ghost predicate Fresh(before: Table, seen: Table, written0: set<Cid>, written: set<Cid>, ok: bool) {
    && written0 <= written
    && (forall c :: c in written && c !in written0 ==> c in seen && c !in before)
    && (ok ==> forall c :: c in seen && c !in before ==> c in written)
  }

  /** What a stretch of the traversal does to the table and to the CIDs written. */
  ghost predicate Progress(g: Dag, maxDepth: int, before: Table, seen: Table,
                           written0: set<Cid>, written: set<Cid>, ok: bool) {
    && Improves(before, seen)
    && Fresh(before, seen, written0, written, ok)
    && (ok ==> Explored(g, maxDepth, before, seen))
  }

  lemma ProgressReflexive(g: Dag, maxDepth: int, seen: Table, written: set<Cid>)
    ensures forall ok :: Progress(g, maxDepth, seen, seen, written, written, ok)
  {
  }

  lemma ProgressTransitive(g: Dag, maxDepth: int, s0: Table, s1: Table, s2: Table,
                           w0: set<Cid>, w1: set<Cid>, w2: set<Cid>, ok: bool)
    requires Progress(g, maxDepth, s0, s1, w0, w1, true) && Progress(g, maxDepth, s1, s2, w1, w2, ok)
    ensures Progress(g, maxDepth, s0, s2, w0, w2, ok)
  {
    if ok {
      forall c | c in s2 && !(c in s0 && s0[c] == s2[c])
        ensures Covers(g, maxDepth, s2, c, s2[c])
      {
        if c in s1 && s1[c] == s2[c] {
          assert Covers(g, maxDepth, s1, c, s1[c]);
        }
      }
    }
  }

  lemma ProgressRecorded(g: Dag, maxDepth: int, s0: Table, s1: Table, w0: set<Cid>, w1: set<Cid>, ok: bool)
    requires Progress(g, maxDepth, s0, s1, w0, w1, ok)
    ensures Improves(s0, s1)
    ensures forall c, k :: Recorded(maxDepth, s0, c, k) ==> Recorded(maxDepth, s1, c, k)
  {
  }

  /** Recording `c` at a new depth, writing it or not. Only a node at the limit needs no exploring. */
  lemma ProgressVisit(g: Dag, maxDepth: int, seen: Table, written: set<Cid>, c: Cid, depth: nat)
    requires Bounded(maxDepth, seen)
    requires 1 <= depth && Within(maxDepth, depth) && !Recorded(maxDepth, seen, c, depth)
    ensures Bounded(maxDepth, seen[c := depth])
    ensures Progress(g, maxDepth, seen, seen[c := depth], written, written, false)
    ensures depth == maxDepth ==> c !in seen
    ensures depth == maxDepth ==> Progress(g, maxDepth, seen, seen[c := depth], written, written + {c}, true)
  {
  }

  /** Recording `c`, writing it if it is new, and then exploring everything below it. */
  lemma ProgressBelow(g: Dag, maxDepth: int, s0: Table, s2: Table,
                      w0: set<Cid>, w2: set<Cid>, c: Cid, depth: nat, ok: bool)
    requires !Recorded(maxDepth, s0, c, depth)
    requires Progress(g, maxDepth, s0[c := depth], s2, if c in s0 then w0 else w0 + {c}, w2, ok)
    requires ok ==> Covers(g, maxDepth, s2, c, depth)
    ensures Progress(g, maxDepth, s0, s2, w0, w2, ok)
    ensures ok ==> Recorded(maxDepth, s2, c, depth)
  {
  }

  // ----- what a finished traversal has found

  /** Every node at the end of an open path has been recorded at that depth or above. */
  lemma {:induction false} OpenIsRecorded(g: Dag, maxDepth: int, base: Table, seen: Table, r: Cid, k: nat, c: Cid)
    requires Explored(g, maxDepth, base, seen) && Covers(g, maxDepth, seen, r, 0)
    requires OpenSteps(g, maxDepth, base, r, k, c) && 1 <= k && Within(maxDepth, k)
    ensures Recorded(maxDepth, seen, c, k)
  {
    var m :| OpenSteps(g, maxDepth, base, r, k - 1, m) && Child(g, m, c);
    if 1 < k {
      OpenIsRecorded(g, maxDepth, base, seen, r, k - 1, m);
      assert !Recorded(maxDepth, base, m, k - 1);
      assert Covers(g, maxDepth, seen, m, seen[m]);
    }
  }

  /** A finished traversal from `r` records, beyond the table it started from, what open paths reach. */
  lemma NewlyRecorded(g: Dag, maxDepth: int, base: Table, r: Cid, seen: Table)
    requires Explored(g, maxDepth, base, seen) && Covers(g, maxDepth, seen, r, 0)
    requires Opened(g, maxDepth, base, r, seen) && Bounded(maxDepth, seen)
    ensures forall c :: c in seen && c !in base <==> c !in base && OpenTo(g, maxDepth, base, r, c)
  {
    forall c, k: nat | 1 <= k && Within(maxDepth, k) && OpenSteps(g, maxDepth, base, r, k, c) ensures c in seen {
      OpenIsRecorded(g, maxDepth, base, seen, r, k, c);
    }
  }

  /** Recorded depths are lengths of link paths from a root. */
  ghost predicate Genuine(g: Dag, roots: set<Cid>, seen: Table) {
    forall c :: c in seen ==> exists r :: r in roots && Steps(g, r, seen[c], c)
  }

  lemma GenuineMore(g: Dag, maxDepth: int, roots: set<Cid>, base: Table, r: Cid, seen: Table)
    requires Genuine(g, roots, base) && Opened(g, maxDepth, base, r, seen)
    ensures Genuine(g, roots + {r}, seen)
  {
    forall c | c in seen ensures exists q :: q in roots + {r} && Steps(g, q, seen[c], c) {
      if c in base && base[c] == seen[c] {
        var q :| q in roots && Steps(g, q, base[c], c);
        assert q in roots + {r};
      } else {
        OpenStepsAreSteps(g, maxDepth, base, r, seen[c], c);
        assert r in roots + {r};
      }
    }
  }

  lemma GenuineInRange(g: Dag, maxDepth: int, roots: set<Cid>, seen: Table)
    requires Genuine(g, roots, seen) && Bounded(maxDepth, seen)
    ensures forall c :: c in seen ==>
      && InRange(g, maxDepth, roots, c)
      && exists r :: r in roots && Steps(g, r, seen[c], c)
  {
  }

  /** A fully explored table holds exactly the CIDs in range and, under a limit, their shortest distances. */
  lemma {:induction false} ExploredIsExact(g: Dag, maxDepth: int, roots: set<Cid>, seen: Table)
    requires Genuine(g, roots, seen) && Bounded(maxDepth, seen)
    requires Explored(g, maxDepth, map[], seen)
    requires forall r :: r in roots ==> Covers(g, maxDepth, seen, r, 0)
    ensures forall c :: c in seen <==> InRange(g, maxDepth, roots, c)
    ensures 0 <= maxDepth ==> forall c, r, k: nat ::
      c in seen && r in roots && 1 <= k && Steps(g, r, k, c) ==> seen[c] <= k
  {
    forall r, k: nat, c | r in roots && 1 <= k && Within(maxDepth, k) && Steps(g, r, k, c)
      ensures Recorded(maxDepth, seen, c, k)
    {
      StepsAreOpen(g, maxDepth, r, k, c);
      OpenIsRecorded(g, maxDepth, map[], seen, r, k, c);
    }
  }

  lemma {:induction false} StepsAreOpen(g: Dag, maxDepth: int, r: Cid, k: nat, c: Cid)
    requires Steps(g, r, k, c)
    ensures OpenSteps(g, maxDepth, map[], r, k, c)
  {
    if 0 < k {
      var m :| Steps(g, r, k - 1, m) && Child(g, m, c);
      StepsAreOpen(g, maxDepth, r, k - 1, m);
    }
  }
}
