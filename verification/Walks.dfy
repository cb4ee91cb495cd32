/**
 The concurrent DAG walk with a shared visited set, as garbage collection and pin listing use it:
 workers visit CIDs and fetch their links in any order.
 */
module Walks {
  import opened Dags

  /** `b` is `k` links below `a` along a path none of whose nodes is in `avoid`. */
  ghost predicate Walkable(g: Dag, avoid: set<Cid>, a: Cid, k: nat, b: Cid) {
    b !in avoid &&
    if k == 0 then a == b else exists m :: Walkable(g, avoid, a, k - 1, m) && Child(g, m, b)
  }

  ghost predicate Reached(g: Dag, avoid: set<Cid>, roots: set<Cid>, c: Cid) {
    exists r, k :: r in roots && Walkable(g, avoid, r, k, c)
  }

  ghost predicate ChildrenIn(g: Dag, c: Cid, s: set<Cid>) {
    forall i :: 0 <= i < |Links(g, c)| ==> Links(g, c)[i].cid in s
  }

  /** What walks from `roots` make of a visited set: every new member is reached, and has been expanded. */
  ghost predicate Expanded(g: Dag, before: set<Cid>, roots: set<Cid>, after: set<Cid>) {
    && before <= after
    && roots <= after
    && forall c :: c in after && c !in before ==> Reached(g, before, roots, c) && ChildrenIn(g, c, after)
  }

  /** The visited set does not depend on the order of the walk. */
  lemma {:induction false} ExpandedIsExact(g: Dag, before: set<Cid>, roots: set<Cid>, after: set<Cid>)
    requires Expanded(g, before, roots, after)
    ensures forall c :: c in after <==> c in before || Reached(g, before, roots, c)
  {
    forall r, k: nat, c | r in roots && Walkable(g, before, r, k, c) ensures c in after {
      WalkableIsVisited(g, before, roots, after, r, k, c);
    }
  }

  lemma {:induction false} WalkableIsVisited(
      g: Dag, before: set<Cid>, roots: set<Cid>, after: set<Cid>, r: Cid, k: nat, c: Cid)
    requires Expanded(g, before, roots, after)
    requires r in roots && Walkable(g, before, r, k, c)
    ensures c in after
  {
    if 0 < k {
      var m :| Walkable(g, before, r, k - 1, m) && Child(g, m, c);
      WalkableIsVisited(g, before, roots, after, r, k - 1, m);
      assert m !in before;
    }
  }

  lemma {:induction false} WalkableAvoidingLess(g: Dag, less: set<Cid>, more: set<Cid>, a: Cid, k: nat, b: Cid)
    requires less <= more && Walkable(g, more, a, k, b)
    ensures Walkable(g, less, a, k, b)
  {
    if 0 < k {
      var m :| Walkable(g, more, a, k - 1, m) && Child(g, m, b);
      WalkableAvoidingLess(g, less, more, a, k - 1, m);
    }
  }

  lemma ReachedWidens(g: Dag, less: set<Cid>, more: set<Cid>, rs: set<Cid>, qs: set<Cid>)
    requires less <= more && rs <= qs
    ensures forall c :: Reached(g, more, rs, c) ==> Reached(g, less, qs, c)
  {
    forall c | Reached(g, more, rs, c) ensures Reached(g, less, qs, c) {
      var r, k: nat :| r in rs && Walkable(g, more, r, k, c);
      WalkableAvoidingLess(g, less, more, r, k, c);
    }
  }

  lemma ReachedAvoids(g: Dag, avoid: set<Cid>, roots: set<Cid>, c: Cid)
    requires Reached(g, avoid, roots, c)
    ensures c !in avoid
  {
  }

  /** Walks on the same visited set compose. */
  lemma ExpandedTransitive(g: Dag, s0: set<Cid>, s1: set<Cid>, s2: set<Cid>, rs: set<Cid>, qs: set<Cid>)
    requires Expanded(g, s0, rs, s1) && Expanded(g, s1, qs, s2)
    ensures Expanded(g, s0, rs + qs, s2)
  {
    ReachedWidens(g, s0, s0, rs, rs + qs);
    ReachedWidens(g, s0, s1, qs, rs + qs);
    hide Reached;
  }

  lemma {:induction false} WalkableIsSteps(g: Dag, a: Cid, k: nat, b: Cid)
    ensures Walkable(g, {}, a, k, b) <==> Steps(g, a, k, b)
  {
    if 0 < k {
      var j: nat, none: set<Cid> := k - 1, {};
      forall m ensures Walkable(g, none, a, j, m) <==> Steps(g, a, j, m) {
        WalkableIsSteps(g, a, j, m);
      }
    }
  }

  /** With nothing visited yet, a walk visits everything below its roots. */
  lemma ReachedIsReaches(g: Dag, roots: set<Cid>, c: Cid)
    ensures Reached(g, {}, roots, c) <==> exists r :: r in roots && Reaches(g, r, c)
  {
    forall r, k ensures Walkable(g, {}, r, k, c) <==> Steps(g, r, k, c) {
      WalkableIsSteps(g, r, k, c);
    }
  }

  function Targets(ls: seq<Link>): seq<Cid> {
    seq(|ls|, i requires 0 <= i < |ls| => ls[i].cid)
  }

  /** Every CID a walk can come across. */
  function Universe(g: Dag, root: Cid): set<Cid> {
    {root} + set c, i | c in g && 0 <= i < |g[c]| :: g[c][i].cid
  }

  lemma TargetsInUniverse(g: Dag, root: Cid)
    ensures root in Universe(g, root)
    ensures forall c, d :: d in Targets(Links(g, c)) ==> d in Universe(g, root)
  {
  }

  /** A walk that skips its root starts at the root's children. */
  function Starts(g: Dag, root: Cid, skipRoot: bool): set<Cid> {
    if skipRoot then Elements(Targets(Links(g, root))) else {root}
  }

  /** Why a walk stopped before its end: the context was cancelled, or the links of a node could not be had. */
  datatype Outcome = Finished | Cancelled | Broken(at: Cid)

  function Without<T>(s: seq<T>, j: nat): (r: seq<T>)
    requires j < |s|
    ensures |r| == |s| - 1
    ensures forall x :: x in s ==> x == s[j] || x in r
    ensures forall x :: x in r ==> x in s
  {
    s[..j] + s[j + 1..]
  }

  ghost predicate Pending(g: Dag, c: Cid, visited: set<Cid>, todo: seq<Cid>) {
    forall i :: 0 <= i < |Links(g, c)| ==> Links(g, c)[i].cid in visited || Links(g, c)[i].cid in todo
  }

  /** The state of a walk: what has been visited, what waits to be visited, and whose links are being fetched. */
  ghost predicate Walking(g: Dag, before: set<Cid>, starts: set<Cid>, broken: set<Cid>,
                          visited: set<Cid>, todo: seq<Cid>, fetching: seq<Cid>) {
    && before <= visited
    && (forall c :: c in starts ==> c in visited || c in todo)
    && (forall c :: c in todo ==> c in before || Reached(g, before, starts, c))
    && (forall c :: c in fetching ==> c in visited && c !in before)
    && (forall c :: c in visited && c !in before ==>
          && Reached(g, before, starts, c)
          && (c in fetching || (c !in broken && Pending(g, c, visited, todo))))
  }

  lemma WalkingStart(g: Dag, before: set<Cid>, starts: set<Cid>, broken: set<Cid>, todo: seq<Cid>)
    requires Elements(todo) == starts
    ensures Walking(g, before, starts, broken, before, todo, [])
  {
    forall c | c in todo && c !in before ensures Reached(g, before, starts, c) {
      assert Walkable(g, before, c, 0, c);
    }
  }

  lemma WalkingVisit(g: Dag, before: set<Cid>, starts: set<Cid>, broken: set<Cid>,
                     visited: set<Cid>, todo: seq<Cid>, fetching: seq<Cid>, j: nat)
    requires Walking(g, before, starts, broken, visited, todo, fetching) && j < |todo|
    ensures todo[j] in visited ==> Walking(g, before, starts, broken, visited, Without(todo, j), fetching)
    ensures todo[j] !in visited ==>
      Walking(g, before, starts, broken, visited + {todo[j]}, Without(todo, j), fetching + [todo[j]])
  {
    hide Reached;
  }

  lemma WalkingExpand(g: Dag, before: set<Cid>, starts: set<Cid>, broken: set<Cid>,
                      visited: set<Cid>, todo: seq<Cid>, fetching: seq<Cid>, j: nat)
    requires Walking(g, before, starts, broken, visited, todo, fetching) && j < |fetching| && fetching[j] !in broken
    ensures Walking(g, before, starts, broken, visited, todo + Targets(Links(g, fetching[j])), Without(fetching, j))
  {
    var c := fetching[j];
    var cs := Targets(Links(g, c));
    forall i | 0 <= i < |cs| ensures cs[i] in before || Reached(g, before, starts, cs[i]) {
      var r, k: nat :| r in starts && Walkable(g, before, r, k, c);
      assert Child(g, c, cs[i]);
      assert cs[i] !in before ==> Walkable(g, before, r, k + 1, cs[i]);
    }
    hide Reached;
    assert Pending(g, c, visited, todo + cs) by {
      assert forall i :: 0 <= i < |Links(g, c)| ==> Links(g, c)[i].cid == cs[i] && cs[i] in todo + cs;
    }
  }

  lemma WalkingEnd(g: Dag, before: set<Cid>, starts: set<Cid>, broken: set<Cid>, visited: set<Cid>)
    requires Walking(g, before, starts, broken, visited, [], [])
    ensures Expanded(g, before, starts, visited)
    ensures forall c :: c in visited && c !in before ==> c !in broken
  {
    hide Reached;
  }

  /**
   Walks the DAG below `root`, adding what it visits to a set that earlier walks may have filled.
   Asking for the links of a node in `broken` ends the walk with an error; the context may be cancelled
   only if `mayCancel` is set.
   */
  method Walk(g: Dag, root: Cid, skipRoot: bool, visited0: set<Cid>, broken: set<Cid>, mayCancel: bool)
    returns (visited: set<Cid>, outcome: Outcome)
    ensures visited0 <= visited
    ensures forall c :: c in visited && c !in visited0 ==> Reached(g, visited0, Starts(g, root, skipRoot), c)
    ensures outcome.Finished? ==> Expanded(g, visited0, Starts(g, root, skipRoot), visited)
    ensures outcome.Finished? ==> forall c :: c in visited && c !in visited0 ==> c !in broken
    ensures outcome.Finished? && skipRoot ==> root !in broken
    ensures outcome.Cancelled? ==> mayCancel
    ensures outcome.Broken? ==> outcome.at in broken
    ensures outcome.Broken? ==>
      Reached(g, visited0, Starts(g, root, skipRoot), outcome.at) || (skipRoot && outcome.at == root)
  {
    hide Reached, Walking, Expanded, Universe, Targets;
    ghost var starts := Starts(g, root, skipRoot);
    visited := visited0;
    if skipRoot && root in broken {
      return visited, Broken(root);
    }
    var todo, fetching := if skipRoot then Targets(Links(g, root)) else [root], [];
    WalkingStart(g, visited0, starts, broken, todo);
    TargetsInUniverse(g, root);
    while todo != [] || fetching != []
      invariant Walking(g, visited0, starts, broken, visited, todo, fetching)
      invariant visited0 <= visited
      invariant forall c :: c in todo ==> c in Universe(g, root)
      decreases |Universe(g, root) - visited| + |fetching|, |todo|
    {
      WalkingSound(g, visited0, starts, broken, visited, todo, fetching);
      var cancelled, visit := *, *;
      if cancelled && mayCancel {
        return visited, Cancelled;
      }
      if fetching == [] || (visit && todo != []) {
        var j :| 0 <= j < |todo|;
        var c := todo[j];
        WalkingVisit(g, visited0, starts, broken, visited, todo, fetching, j);
        todo := Without(todo, j);
        if c !in visited {
          assert Universe(g, root) - (visited + {c}) == Universe(g, root) - visited - {c};
          visited := visited + {c};
          fetching := fetching + [c];
        }
      } else {
        var j :| 0 <= j < |fetching|;
        var c := fetching[j];
        if c in broken {
          return visited, Broken(c);
        }
        WalkingExpand(g, visited0, starts, broken, visited, todo, fetching, j);
        fetching := Without(fetching, j);
        todo := todo + Targets(Links(g, c));
      }
    }
    WalkingSound(g, visited0, starts, broken, visited, todo, fetching);
    WalkingEnd(g, visited0, starts, broken, visited);
    return visited, Finished;
  }

  lemma WalkingSound(g: Dag, before: set<Cid>, starts: set<Cid>, broken: set<Cid>,
                     visited: set<Cid>, todo: seq<Cid>, fetching: seq<Cid>)
    requires Walking(g, before, starts, broken, visited, todo, fetching)
    ensures forall c :: c in visited && c !in before ==> Reached(g, before, starts, c)
    ensures forall c :: c in fetching ==> Reached(g, before, starts, c)
  {
    hide Reached;
  }
}
