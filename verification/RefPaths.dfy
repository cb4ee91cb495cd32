/**
 What `ipfs refs` without --unique lists: one edge for every link path within the limit, in preorder.
 A link path is written as the link index taken at each node.
 */
module RefPaths {
  import opened Dags
  import opened RefTable
  import opened RefRuns

  type Path = seq<nat>

  ghost predicate IsPath(g: Dag, n: Cid, p: Path)
    decreases |p|
  {
    p == [] || (p[0] < |Links(g, n)| && IsPath(g, Links(g, n)[p[0]].cid, p[1..]))
  }

  ghost function PathEnd(g: Dag, n: Cid, p: Path): Cid
    requires IsPath(g, n, p)
    decreases |p|
  {
    if p == [] then n else PathEnd(g, Links(g, n)[p[0]].cid, p[1..])
  }

  /** The last link of a path, with the node it leaves. */
  ghost function LastEdge(g: Dag, n: Cid, p: Path): Edge
    requires p != [] && IsPath(g, n, p)
    decreases |p|
  {
    var l := Links(g, n)[p[0]];
    if |p| == 1 then Edge(n, l.cid, l.name) else LastEdge(g, l.cid, p[1..])
  }

  /** Preorder: a path comes before its extensions, and earlier links come before later ones. */
  ghost predicate Before(p: Path, q: Path) {
    q != [] && (p == [] || p[0] < q[0] || (p[0] == q[0] && Before(p[1..], q[1..])))
  }

  ghost function Prefixed(i: nat, ps: seq<Path>): (qs: seq<Path>)
    ensures |qs| == |ps| && forall j :: 0 <= j < |qs| ==> qs[j] == [i] + ps[j]
  {
    seq(|ps|, j requires 0 <= j < |ps| => [i] + ps[j])
  }

  /** The paths below `n` that start with link `i` or a later one, in the order the traversal meets them. */
  ghost function PathsFrom(g: Dag, rank: Cid -> nat, maxDepth: int, n: Cid, depth: nat, i: nat): seq<Path>
    requires Ranked(g, rank)
    decreases rank(n), |Links(g, n)| - i
  {
    if i >= |Links(g, n)| || !Within(maxDepth, depth + 1) then []
    else [[i]] + PathsVia(g, rank, maxDepth, n, depth, i) + PathsFrom(g, rank, maxDepth, n, depth, i + 1)
  }

  ghost function PathsVia(g: Dag, rank: Cid -> nat, maxDepth: int, n: Cid, depth: nat, i: nat): seq<Path>
    requires Ranked(g, rank) && i < |Links(g, n)|
    decreases rank(n), 0
  {
    if depth + 1 == maxDepth then []
    else Prefixed(i, PathsFrom(g, rank, maxDepth, Links(g, n)[i].cid, depth + 1, 0))
  }

  ghost predicate Follows(g: Dag, n: Cid, es: seq<Edge>, ps: seq<Path>) {
    |es| == |ps| &&
    forall j :: 0 <= j < |ps| ==> ps[j] != [] && IsPath(g, n, ps[j]) && es[j] == LastEdge(g, n, ps[j])
  }

  lemma FollowsPrefixed(g: Dag, n: Cid, i: nat, es: seq<Edge>, ps: seq<Path>)
    requires i < |Links(g, n)| && Follows(g, Links(g, n)[i].cid, es, ps)
    ensures Follows(g, n, es, Prefixed(i, ps))
  {
    forall j | 0 <= j < |ps|
      ensures var q := Prefixed(i, ps)[j]; q != [] && IsPath(g, n, q) && es[j] == LastEdge(g, n, q)
    {
      assert Prefixed(i, ps)[j][1..] == ps[j];
    }
  }

  /** The listing is, edge by edge, the last edges of the paths. */
  lemma {:induction false} EdgesFollowPaths(g: Dag, rank: Cid -> nat, maxDepth: int, n: Cid, depth: nat, i: nat)
    requires Ranked(g, rank)
    ensures Follows(g, n, EdgesFrom(g, rank, maxDepth, n, depth, i), PathsFrom(g, rank, maxDepth, n, depth, i))
    decreases rank(n), |Links(g, n)| - i
  {
    if i < |Links(g, n)| && Within(maxDepth, depth + 1) {
      var c := Links(g, n)[i].cid;
      var es, ps := EdgesFrom(g, rank, maxDepth, c, depth + 1, 0), PathsFrom(g, rank, maxDepth, c, depth + 1, 0);
      EdgesFollowPaths(g, rank, maxDepth, c, depth + 1, 0);
      FollowsPrefixed(g, n, i, es, ps);
      EdgesFollowPaths(g, rank, maxDepth, n, depth, i + 1);
      EdgesUnfold(g, rank, maxDepth, n, depth, i);
      var e, via := Edge(n, c, Links(g, n)[i].name), PathsVia(g, rank, maxDepth, n, depth, i);
      assert Follows(g, n, [e], [[i]]) by {
        assert [i][1..] == [] && IsPath(g, n, [i]);
      }
      FollowsConcat(g, n, [e], if depth + 1 == maxDepth then [] else es, [[i]], via);
      FollowsConcat(g, n, [e] + (if depth + 1 == maxDepth then [] else es),
                    EdgesFrom(g, rank, maxDepth, n, depth, i + 1),
                    [[i]] + via, PathsFrom(g, rank, maxDepth, n, depth, i + 1));
    }
  }

  lemma FollowsConcat(g: Dag, n: Cid, es: seq<Edge>, fs: seq<Edge>, ps: seq<Path>, qs: seq<Path>)
    requires Follows(g, n, es, ps) && Follows(g, n, fs, qs)
    ensures Follows(g, n, es + fs, ps + qs)
  {
  }

  lemma PathsUnfold(g: Dag, rank: Cid -> nat, maxDepth: int, n: Cid, depth: nat, i: nat)
    requires Ranked(g, rank)
    ensures PathsFrom(g, rank, maxDepth, n, depth, i) ==
      if i >= |Links(g, n)| || !Within(maxDepth, depth + 1) then []
      else [[i]] + PathsVia(g, rank, maxDepth, n, depth, i) + PathsFrom(g, rank, maxDepth, n, depth, i + 1)
  {
  }

  /** The paths listed are exactly the non-empty ones within the limit. */
  lemma {:induction false} PathsAreAll(g: Dag, rank: Cid -> nat, maxDepth: int, n: Cid, depth: nat, i: nat, p: Path)
    requires Ranked(g, rank)
    ensures p in PathsFrom(g, rank, maxDepth, n, depth, i) <==>
      p != [] && IsPath(g, n, p) && i <= p[0] && (0 <= maxDepth ==> depth + |p| <= maxDepth)
    decreases rank(n), |Links(g, n)| - i
  {
    hide PathsFrom;
    PathsUnfold(g, rank, maxDepth, n, depth, i);
    if i < |Links(g, n)| && Within(maxDepth, depth + 1) {
      PathsAreAll(g, rank, maxDepth, n, depth, i + 1, p);
      if p != [] {
        PathsAreAll(g, rank, maxDepth, Links(g, n)[i].cid, depth + 1, 0, p[1..]);
        PathViaLink(g, rank, maxDepth, n, depth, i, p);
      }
      assert p in [[i]] <==> p == [i];
    }
  }

  /** The paths through one link. */
  lemma PathViaLink(g: Dag, rank: Cid -> nat, maxDepth: int, n: Cid, depth: nat, i: nat, p: Path)
    requires Ranked(g, rank) && i < |Links(g, n)| && Within(maxDepth, depth + 1) && p != []
    requires var c := Links(g, n)[i].cid; p[1..] in PathsFrom(g, rank, maxDepth, c, depth + 1, 0) <==>
      p[1..] != [] && IsPath(g, c, p[1..]) && Within(maxDepth, depth + |p|)
    ensures p == [i] || p in PathsVia(g, rank, maxDepth, n, depth, i) <==>
      p[0] == i && IsPath(g, n, p) && Within(maxDepth, depth + |p|)
  {
    hide PathsFrom;
    PrefixedMembers(i, PathsFrom(g, rank, maxDepth, Links(g, n)[i].cid, depth + 1, 0), p);
    if p[0] == i && p[1..] == [] {
      assert p == [i];
    }
  }

  lemma PrefixedMembers(i: nat, ps: seq<Path>, p: Path)
    requires p != []
    ensures p in Prefixed(i, ps) <==> p[0] == i && p[1..] in ps
  {
    if p[0] == i && p[1..] in ps {
      var j :| 0 <= j < |ps| && ps[j] == p[1..];
      assert Prefixed(i, ps)[j] == p;
    }
  }

  ghost predicate Sorted(ps: seq<Path>) {
    forall a, b :: 0 <= a < b < |ps| ==> Before(ps[a], ps[b])
  }

  lemma SortedPrefixed(i: nat, ps: seq<Path>)
    requires Sorted(ps)
    ensures Sorted(Prefixed(i, ps))
  {
    var qs := Prefixed(i, ps);
    forall a, b | 0 <= a < b < |qs| ensures Before(qs[a], qs[b]) {
      assert qs[a][1..] == ps[a] && qs[b][1..] == ps[b];
    }
  }

  lemma SortedConcat(ps: seq<Path>, qs: seq<Path>)
    requires Sorted(ps) && Sorted(qs)
    requires forall a, b :: 0 <= a < |ps| && 0 <= b < |qs| ==> Before(ps[a], qs[b])
    ensures Sorted(ps + qs)
  {
    hide Before;
  }

  /** They come in preorder, so no path comes twice. */
  lemma {:induction false} PathsAreSorted(g: Dag, rank: Cid -> nat, maxDepth: int, n: Cid, depth: nat, i: nat)
    requires Ranked(g, rank)
    ensures Sorted(PathsFrom(g, rank, maxDepth, n, depth, i))
    decreases rank(n), |Links(g, n)| - i
  {
    hide PathsFrom, PathsVia, Sorted;
    PathsUnfold(g, rank, maxDepth, n, depth, i);
    if i < |Links(g, n)| && Within(maxDepth, depth + 1) {
      var c := Links(g, n)[i].cid;
      var below, rest := PathsFrom(g, rank, maxDepth, c, depth + 1, 0), PathsFrom(g, rank, maxDepth, n, depth, i + 1);
      PathsAreSorted(g, rank, maxDepth, n, depth, i + 1);
      PathsAreSorted(g, rank, maxDepth, c, depth + 1, 0);
      SortedPrefixed(i, below);
      PathsStart(g, rank, maxDepth, n, depth, i + 1);
      PathsStart(g, rank, maxDepth, c, depth + 1, 0);
      ViaIsPrefixed(g, rank, maxDepth, n, depth, i);
      SortedParts(i, below, PathsVia(g, rank, maxDepth, n, depth, i), rest);
    } else {
      SortedNone();
    }
  }

  lemma SortedNone()
    ensures Sorted([])
  {
  }

  lemma ViaIsPrefixed(g: Dag, rank: Cid -> nat, maxDepth: int, n: Cid, depth: nat, i: nat)
    requires Ranked(g, rank) && i < |Links(g, n)|
    ensures var via := PathsVia(g, rank, maxDepth, n, depth, i);
      via == [] || via == Prefixed(i, PathsFrom(g, rank, maxDepth, Links(g, n)[i].cid, depth + 1, 0))
  {
    hide PathsFrom;
  }

  lemma PathsStart(g: Dag, rank: Cid -> nat, maxDepth: int, n: Cid, depth: nat, i: nat)
    requires Ranked(g, rank)
    ensures var ps := PathsFrom(g, rank, maxDepth, n, depth, i);
      forall b :: 0 <= b < |ps| ==> ps[b] != [] && i <= ps[b][0]
  {
    hide PathsFrom, IsPath;
    var ps := PathsFrom(g, rank, maxDepth, n, depth, i);
    forall b | 0 <= b < |ps| ensures ps[b] != [] && i <= ps[b][0] {
      PathsAreAll(g, rank, maxDepth, n, depth, i, ps[b]);
    }
  }

  lemma SortedParts(i: nat, below: seq<Path>, via: seq<Path>, rest: seq<Path>)
    requires via == [] || via == Prefixed(i, below)
    requires Sorted(Prefixed(i, below)) && Sorted(rest)
    requires forall b :: 0 <= b < |below| ==> below[b] != []
    requires forall b :: 0 <= b < |rest| ==> rest[b] != [] && i < rest[b][0]
    ensures Sorted([[i]] + via + rest)
  {
    forall b | 0 <= b < |via| ensures Before([i], via[b]) {
      assert via[b][1..] == below[b];
    }
    SortedConcat([[i]], via);
    SortedConcat([[i]] + via, rest);
  }

  lemma {:induction false} PathSteps(g: Dag, n: Cid, p: Path)
    requires IsPath(g, n, p)
    ensures Steps(g, n, |p|, PathEnd(g, n, p))
    ensures p != [] ==> LastEdge(g, n, p).to == PathEnd(g, n, p)
    decreases |p|
  {
    if p != [] {
      var c := Links(g, n)[p[0]].cid;
      PathSteps(g, c, p[1..]);
      assert Child(g, n, c);
      PrependStep(g, n, c, |p| - 1, PathEnd(g, n, p));
    }
  }

  lemma {:induction false} StepsPath(g: Dag, n: Cid, k: nat, c: Cid) returns (p: Path)
    requires Steps(g, n, k, c)
    ensures |p| == k && IsPath(g, n, p) && PathEnd(g, n, p) == c
    decreases k
  {
    if k == 0 {
      p := [];
    } else {
      var m := FirstStep(g, n, k, c);
      var i :| 0 <= i < |Links(g, n)| && Links(g, n)[i].cid == m;
      p := StepsPath(g, m, k - 1, c);
      assert ([i] + p)[1..] == p;
      p := [i] + p;
    }
  }

  /** The targets listed below one root are the CIDs in range of it: what --unique lists. */
  lemma EdgeTargets(g: Dag, rank: Cid -> nat, maxDepth: int, n: Cid, c: Cid)
    requires Ranked(g, rank)
    ensures c in Written(EdgesFrom(g, rank, maxDepth, n, 0, 0)) <==> InRange(g, maxDepth, {n}, c)
  {
    hide EdgesFrom, PathsFrom, Written, InRange;
    WrittenMeaning(EdgesFrom(g, rank, maxDepth, n, 0, 0), c);
    if i :| 0 <= i < |EdgesFrom(g, rank, maxDepth, n, 0, 0)| && EdgesFrom(g, rank, maxDepth, n, 0, 0)[i].to == c {
      TargetInRange(g, rank, maxDepth, n, i);
    }
    if InRange(g, maxDepth, {n}, c) {
      var i := InRangeTarget(g, rank, maxDepth, n, c);
    }
  }

  lemma TargetInRange(g: Dag, rank: Cid -> nat, maxDepth: int, n: Cid, i: nat)
    requires Ranked(g, rank) && i < |EdgesFrom(g, rank, maxDepth, n, 0, 0)|
    ensures InRange(g, maxDepth, {n}, EdgesFrom(g, rank, maxDepth, n, 0, 0)[i].to)
  {
    hide EdgesFrom, PathsFrom, Steps, LastEdge, PathEnd;
    EdgesFollowPaths(g, rank, maxDepth, n, 0, 0);
    var p := PathsFrom(g, rank, maxDepth, n, 0, 0)[i];
    PathsAreAll(g, rank, maxDepth, n, 0, 0, p);
    PathSteps(g, n, p);
  }

  lemma InRangeTarget(g: Dag, rank: Cid -> nat, maxDepth: int, n: Cid, c: Cid) returns (i: nat)
    requires Ranked(g, rank) && InRange(g, maxDepth, {n}, c)
    ensures i < |EdgesFrom(g, rank, maxDepth, n, 0, 0)| && EdgesFrom(g, rank, maxDepth, n, 0, 0)[i].to == c
  {
    hide EdgesFrom, PathsFrom, Steps, LastEdge, PathEnd;
    EdgesFollowPaths(g, rank, maxDepth, n, 0, 0);
    var k: nat :| 1 <= k && (0 <= maxDepth ==> k <= maxDepth) && Steps(g, n, k, c);
    var p := StepsPath(g, n, k, c);
    PathsAreAll(g, rank, maxDepth, n, 0, 0, p);
    PathSteps(g, n, p);
    var ps := PathsFrom(g, rank, maxDepth, n, 0, 0);
    i :| 0 <= i < |ps| && ps[i] == p;
  }

  lemma {:induction false} AllEdgeTargets(g: Dag, rank: Cid -> nat, maxDepth: int, objs: seq<Cid>, c: Cid)
    requires Ranked(g, rank)
    ensures c in Written(AllEdges(g, rank, maxDepth, objs)) <==> InRange(g, maxDepth, Elements(objs), c)
  {
    hide EdgesFrom, Steps, Written;
    if objs == [] {
      WrittenMeaning([], c);
    } else {
      var init, last := objs[..|objs| - 1], objs[|objs| - 1];
      AllEdgeTargets(g, rank, maxDepth, init, c);
      EdgeTargets(g, rank, maxDepth, last, c);
      assert Elements(objs) == Elements(init) + {last};
      WrittenConcat(AllEdges(g, rank, maxDepth, init), EdgesFrom(g, rank, maxDepth, last, 0, 0));
    }
  }

  lemma {:induction false} WrittenConcat(es: seq<Edge>, fs: seq<Edge>)
    ensures Written(es + fs) == Written(es) + Written(fs)
  {
    if fs == [] {
      assert es + fs == es;
    } else {
      var init := fs[..|fs| - 1];
      WrittenConcat(es, init);
      assert (es + fs)[..|es + fs| - 1] == es + init;
    }
  }
}
