/**
 Merkle-DAGs as the traversals of the node see them: a finite table from CIDs to the
 links of the block behind them, and the number of links between two blocks.
 */
module Dags {

  datatype Cid = Cid(digest: nat)

  datatype Link = Link(name: string, cid: Cid)

  /** The links that can be had. A CID outside the table has none to follow. */
  type Dag = map<Cid, seq<Link>>

  function Elements(cs: seq<Cid>): set<Cid> {
    set c | c in cs
  }

  function Links(g: Dag, c: Cid): seq<Link> {
    if c in g then g[c] else []
  }

  ghost predicate Child(g: Dag, a: Cid, b: Cid) {
    exists i :: 0 <= i < |Links(g, a)| && Links(g, a)[i].cid == b
  }

  /** `b` is reached from `a` by following exactly `k` links. */
  ghost predicate Steps(g: Dag, a: Cid, k: nat, b: Cid) {
    if k == 0 then a == b else exists m :: Steps(g, a, k - 1, m) && Child(g, m, b)
  }

  ghost predicate Reaches(g: Dag, a: Cid, b: Cid) {
    exists k :: Steps(g, a, k, b)
  }

  /** A block names its children by hash, so links cannot form a cycle: some rank falls along every link. */
  ghost predicate Ranked(g: Dag, rank: Cid -> nat) {
    forall a, i :: 0 <= i < |Links(g, a)| ==> rank(Links(g, a)[i].cid) < rank(a)
  }

  lemma AppendStep(g: Dag, a: Cid, k: nat, m: Cid, i: nat)
    requires Steps(g, a, k, m) && i < |Links(g, m)|
    ensures Steps(g, a, k + 1, Links(g, m)[i].cid)
  {
    assert Child(g, m, Links(g, m)[i].cid);
  }

  lemma {:induction false} PrependStep(g: Dag, a: Cid, m: Cid, k: nat, b: Cid)
    requires Child(g, a, m) && Steps(g, m, k, b)
    ensures Steps(g, a, k + 1, b)
  {
    if k == 0 {
      assert Steps(g, a, 0, a);
    } else {
      var p :| Steps(g, m, k - 1, p) && Child(g, p, b);
      PrependStep(g, a, m, k - 1, p);
    }
  }

  lemma {:induction false} FirstStep(g: Dag, a: Cid, k: nat, b: Cid) returns (m: Cid)
    requires 0 < k && Steps(g, a, k, b)
    ensures Child(g, a, m) && Steps(g, m, k - 1, b)
  {
    var p :| Steps(g, a, k - 1, p) && Child(g, p, b);
    if k == 1 {
      m := b;
    } else {
      m := FirstStep(g, a, k - 1, p);
      assert Steps(g, m, k - 2, p);
    }
  }
}
