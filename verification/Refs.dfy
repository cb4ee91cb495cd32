/**
 `ipfs refs`: RefWriter, the depth-limited traversal that lists links (core/commands/refs.go).
 */
module Refs {
  import opened Dags
  import opened RefTable
  import opened RefRuns
  import opened RefSound

  class RefWriter {
    const k: Setting
    ghost const rank: Cid -> nat
    var seen: Table
    /** Every edge the emitter has accepted. */
    var out: seq<Edge>
    /** How many nodes were fetched, and how many edges and errors were handed to the emitter. */
    var gets: nat
    var puts: nat

    ghost function View(): Writer
      reads this
    {
      Writer(seen, out, gets, puts)
    }

    constructor (k: Setting, ghost rank: Cid -> nat)
      ensures this.k == k && this.rank == rank && View() == NEW_WRITER
    {
      this.k, this.rank := k, rank;
      seen, out, gets, puts := map[], [], 0, 0;
    }

    method Visit(c: Cid, depth: nat) returns (goDeeper: bool, shouldWrite: bool)
      modifies this`seen
      ensures (seen, goDeeper, shouldWrite) == RefRuns.Visit(k, old(seen), c, depth)
      ensures k.unique && Within(k.maxDepth, depth) ==> Recorded(k.maxDepth, seen, c, depth)
      ensures shouldWrite && k.unique ==> c !in old(seen)
    {
      var atMaxDepth := k.maxDepth >= 0 && depth == k.maxDepth;
      var overMaxDepth := k.maxDepth >= 0 && depth > k.maxDepth;
      if overMaxDepth {
        return false, false;
      }
      if !k.unique {
        return !atMaxDepth, true;
      }
      var ok := c in seen;
      if ok && (k.maxDepth < 0 || seen[c] <= depth) {
        return false, false;
      }
      seen := seen[c := depth];
      return !atMaxDepth, !ok;
    }

    method Get(c: Cid) returns (ok: bool)
      modifies this`gets
      ensures (View(), ok) == RefRuns.Get(k, old(View()), c)
    {
      ok := k.fetches(gets) && c in k.dag;
      gets := gets + 1;
    }

    /** The context may be done, or the emitter may refuse the edge. */
    method WriteEdge(from: Cid, to: Cid, name: string) returns (ok: bool)
      modifies this`out, this`puts
      ensures puts == old(puts) + 1 && ok == k.emits(old(puts))
      ensures out == if ok then old(out) + [Edge(from, to, name)] else old(out)
    {
      ok := k.emits(puts);
      puts := puts + 1;
      if ok {
        out := out + [Edge(from, to, name)];
      }
    }

    /** Fetches the node behind a link and, if asked to, emits its edge. */
    method FetchAndWrite(n: Cid, l: Link, shouldWrite: bool) returns (ok: bool)
      modifies this`out, this`gets, this`puts
      ensures (View(), ok) == RefRuns.FetchAndWrite(k, old(View()), n, l, shouldWrite)
      ensures |out| == |old(out)| + if ok && shouldWrite then 1 else 0
    {
      ok := Get(l.cid);
      if ok && shouldWrite {
        ok := WriteEdge(n, l.cid, l.name);
      }
    }

    method WriteRefsRecursive(n: Cid, depth: nat) returns (count: nat, ok: bool)
      requires Ranked(k.dag, rank)
      modifies this
      ensures (View(), ok) == NodeRun(k, rank, old(View()), n, depth, |Links(k.dag, n)|)
      ensures |out| == |old(out)| + count
      decreases rank(n), 1
    {
      hide LinkRun;
      count := 0;
      for i := 0 to |Links(k.dag, n)|
        invariant (View(), true) == NodeRun(k, rank, old(View()), n, depth, i)
        invariant |out| == |old(out)| + count
      {
        var c, fine := WriteLink(n, i, depth);
        count := count + c;
        if !fine {
          FailedRun(k, rank, old(View()), n, depth, i + 1, |Links(k.dag, n)|);
          return count, false;
        }
      }
      return count, true;
    }

    /** One turn of the loop over a node's links. */
    method WriteLink(n: Cid, i: nat, depth: nat) returns (count: nat, ok: bool)
      requires Ranked(k.dag, rank) && i < |Links(k.dag, n)|
      modifies this
      ensures (View(), ok) == LinkRun(k, rank, old(View()), n, depth, i)
      ensures |out| == |old(out)| + count
      decreases rank(n), 0
    {
      hide NodeRun, RefRuns.Visit, RefRuns.FetchAndWrite;
      var l := Links(k.dag, n)[i];
      var goDeeper, shouldWrite := Visit(l.cid, depth + 1);
      if !shouldWrite && !goDeeper {
        return 0, true;
      }
      ok := FetchAndWrite(n, l, shouldWrite);
      count := if ok && shouldWrite then 1 else 0;
      if ok && goDeeper {
        var c;
        c, ok := WriteRefsRecursive(l.cid, depth + 1);
        count := count + c;
      }
    }

    method WriteRefs(c: Cid) returns (count: nat, ok: bool)
      requires Ranked(k.dag, rank)
      modifies this
      ensures (View(), ok) == RootRun(k, rank, old(View()), c)
      ensures |out| == |old(out)| + count
    {
      ok := Get(c);
      if !ok {
        return 0, false;
      }
      count, ok := WriteRefsRecursive(c, 0);
    }

    /** Reports that a root failed. */
    method EmitError() returns (ok: bool)
      modifies this`puts
      ensures ok == k.emits(old(puts))
    {
      ok := k.emits(puts);
      puts := puts + 1;
    }
  }

  /** The command's loop: one writer, every root in turn, going on to the next root after a failure. */
  method Run(k: Setting, ghost rank: Cid -> nat, objs: seq<Cid>)
    returns (out: seq<Edge>, depths: map<Cid, nat>, oks: seq<bool>)
    requires Ranked(k.dag, rank)
    // every root has its turn, unless the error of one cannot be emitted
    ensures |oks| == |objs| || (|oks| < |objs| && exists n :: !k.emits(n))
    // what each root comes to
    ensures forall i :: 0 <= i < |oks| && oks[i] ==> objs[i] in k.dag
    ensures Reliable(k) ==> |oks| == |objs|
    ensures Reliable(k) ==> forall i :: 0 <= i < |oks| && !oks[i] ==>
      objs[i] !in k.dag || Incomplete(k.dag, k.maxDepth, {objs[i]})
    // with --unique
    ensures k.unique ==> forall i, j :: 0 <= i < j < |out| ==> out[i].to != out[j].to
    ensures k.unique ==> forall i :: 0 <= i < |out| ==>
      IsLink(k.dag, out[i]) && InRange(k.dag, k.maxDepth, Elements(objs), out[i].to)
    ensures k.unique ==> forall i :: 0 <= i < |oks| && oks[i] ==> Covers(k.dag, k.maxDepth, depths, objs[i], 0)
    ensures k.unique && Reliable(k) && k.maxDepth < 0 ==> forall r, x ::
      r in objs && Sound(k.dag, r) && InRange(k.dag, k.maxDepth, {r}, x) ==> x in Written(out)
    ensures k.unique && AllFine(objs, oks) ==> depths.Keys == Written(out)
    ensures k.unique && AllFine(objs, oks) ==>
      forall c :: c in depths <==> InRange(k.dag, k.maxDepth, Elements(objs), c)
    ensures k.unique && AllFine(objs, oks) && 0 <= k.maxDepth ==> forall c :: c in depths ==>
      && (exists r :: r in objs && Steps(k.dag, r, depths[c], c))
      && (forall r, d: nat :: r in objs && 1 <= d && Steps(k.dag, r, d, c) ==> depths[c] <= d)
    // without it
    ensures !k.unique ==> Parts(k, rank, objs[..|oks|], oks, out)
    ensures !k.unique && AllFine(objs, oks) ==> out == AllEdges(k.dag, rank, k.maxDepth, objs)
  {
    hide RootRun, AfterRoots, EachRoot, Parts, AllFinished, Incomplete, InRange, Covers;
    var rw := new RefWriter(k, rank);
    var i := 0;
    oks := [];
    StartRun(k, rank);
    while i < |objs|
      invariant |oks| == i <= |objs| && rw.k == k && rw.rank == rank && Going(k, rank, objs[..i], oks, rw.View())
    {
      assert objs[..i + 1] == objs[..i] + [objs[i]];
      GoOn(k, rank, objs[..i], oks, rw.View(), objs[i]);
      var _, fine := rw.WriteRefs(objs[i]);
      i, oks := i + 1, oks + [fine];
      if !fine {
        ghost var w := rw.View();
        var emitted := rw.EmitError();
        GoingSame(k, rank, objs[..i], oks, w, rw.View());
        if !emitted {
          assert !k.emits(w.puts) && !oks[i - 1];
          break;
        }
      }
    }
    out, depths := rw.out, rw.seen;
    assert i == |objs| ==> objs[..i] == objs;
    RunMeaning(k, rank, objs[..i], oks, rw.View());
    if k.unique {
      UniqueListing(k, rank, objs[..i], objs, rw.View(), AllTrue(oks));
    }
  }

  ghost predicate AllTrue(oks: seq<bool>) {
    forall i :: 0 <= i < |oks| ==> oks[i]
  }

  /** Every root had its turn and went well. */
  ghost predicate AllFine(objs: seq<Cid>, oks: seq<bool>) {
    |oks| == |objs| && AllTrue(oks)
  }

  /** What holds after the roots `objs`. */
  ghost predicate Going(k: Setting, rank: Cid -> nat, objs: seq<Cid>, oks: seq<bool>, w: Writer)
    requires Ranked(k.dag, rank) && |oks| == |objs|
  {
    && AfterRoots(k, rank, objs, w, AllTrue(oks)) && EachRoot(k, objs, oks, w)
    && (Unlimited(k) ==> AllFinished(k, objs, w))
    && (!k.unique ==> Parts(k, rank, objs, oks, w.out))
  }

  lemma StartRun(k: Setting, rank: Cid -> nat)
    requires Ranked(k.dag, rank)
    ensures Going(k, rank, [], [], NEW_WRITER)
  {
    NoRoots(k, rank);
  }

  lemma GoOn(k: Setting, rank: Cid -> nat, objs: seq<Cid>, oks: seq<bool>, w: Writer, c: Cid)
    requires Ranked(k.dag, rank) && |oks| == |objs| && Going(k, rank, objs, oks, w)
    ensures var (w', fine) := RootRun(k, rank, w, c); Going(k, rank, objs + [c], oks + [fine], w')
  {
    AfterRootsReady(k, rank, objs, w, AllTrue(oks));
    hide RootRun, AfterRoots, EachRoot, Parts, AllFinished;
    var (w', fine) := RootRun(k, rank, w, c);
    OneMoreRoot(k, rank, objs, w, AllTrue(oks), c);
    assert AllTrue(oks + [fine]) <==> AllTrue(oks) && fine by {
      assert (oks + [fine])[|oks|] == fine;
      assert forall i :: 0 <= i < |oks| ==> (oks + [fine])[i] == oks[i];
    }
    EachRootMore(k, rank, objs, oks, w, c);
    if Unlimited(k) {
      AllFinishedMore(k, rank, objs, w, c);
    }
    if !k.unique {
      PartsMore(k, rank, objs, oks, w, c);
    }
  }

  lemma AfterRootsReady(k: Setting, rank: Cid -> nat, objs: seq<Cid>, w: Writer, ok: bool)
    requires Ranked(k.dag, rank) && AfterRoots(k, rank, objs, w, ok)
    ensures k.unique ==> Ready(k, w)
  {
  }

  /** Emitting an error changes neither the table nor the edges. */
  lemma GoingSame(k: Setting, rank: Cid -> nat, objs: seq<Cid>, oks: seq<bool>, w: Writer, w': Writer)
    requires Ranked(k.dag, rank) && |oks| == |objs| && Going(k, rank, objs, oks, w)
    requires w'.seen == w.seen && w'.out == w.out
    ensures Going(k, rank, objs, oks, w')
  {
    hide Parts;
  }

  lemma RunMeaning(k: Setting, rank: Cid -> nat, objs: seq<Cid>, oks: seq<bool>, w: Writer)
    requires Ranked(k.dag, rank) && |oks| == |objs| && Going(k, rank, objs, oks, w)
    ensures AfterRoots(k, rank, objs, w, AllTrue(oks))
    ensures forall i :: 0 <= i < |oks| && oks[i] ==> objs[i] in k.dag
    ensures Reliable(k) ==> forall i :: 0 <= i < |oks| && !oks[i] ==>
      objs[i] !in k.dag || Incomplete(k.dag, k.maxDepth, {objs[i]})
    ensures k.unique ==> forall i :: 0 <= i < |oks| && oks[i] ==> Covers(k.dag, k.maxDepth, w.seen, objs[i], 0)
    ensures !k.unique ==> Parts(k, rank, objs, oks, w.out)
    ensures !k.unique && AllTrue(oks) ==> w.out == AllEdges(k.dag, rank, k.maxDepth, objs)
    ensures Unlimited(k) ==> forall r, x ::
      r in objs && Sound(k.dag, r) && InRange(k.dag, k.maxDepth, {r}, x) ==> x in Written(w.out)
  {
    hide Parts, Covers, Incomplete, AllFinished, Sound, InRange;
    if Unlimited(k) {
      SoundRootsListed(k, objs, w);
    }
  }
}
