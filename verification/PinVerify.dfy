/**
 Verifying pins: the memoised recursion that finds what is broken below each recursive pin
 (core/commands/pin.go, core/coreapi/pin.go).
 */
module PinVerify {
  import opened Prelude
  import opened Dags

  datatype Fault = InsecureCid | CannotGetLinks

  datatype BadNode = BadNode(cid: Cid, err: Fault)

  datatype Status = Status(ok: bool, badNodes: seq<BadNode>)

  /**
   The links that can be had, whether or not a block had to be fetched for them, and the CIDs whose hash is not
   acceptable. The command checks hashes and lists bad nodes on demand; the core API checks no hash and always
   lists them.
   */
  datatype Check = Check(dag: Dag, insecure: set<Cid>, explain: bool)

  function FaultOf(k: Check, c: Cid): Option<Fault> {
    if c in k.insecure then Some(InsecureCid) else if c !in k.dag then Some(CannotGetLinks) else None
  }

  function BadStatus(k: Check, c: Cid, err: Fault): Status {
    Status(false, if k.explain then [BadNode(c, err)] else [])
  }

  function Merge(s: Status, r: Status): Status {
    if r.ok then s else Status(false, s.badNodes + r.badNodes)
  }

  // ----- the recursion without a memo

  function Plain(k: Check, ghost rank: Cid -> nat, c: Cid): Status
    requires Ranked(k.dag, rank)
    decreases rank(c), 1, 0
  {
    if FaultOf(k, c).Some? then BadStatus(k, c, FaultOf(k, c).value)
    else PlainLinks(k, rank, c, |Links(k.dag, c)|)
  }

  /** The status after the first `i` links of `c`. */
  function PlainLinks(k: Check, ghost rank: Cid -> nat, c: Cid, i: nat): Status
    requires Ranked(k.dag, rank) && i <= |Links(k.dag, c)|
    decreases rank(c), 0, i
  {
    if i == 0 then Status(true, [])
    else Merge(PlainLinks(k, rank, c, i - 1), Plain(k, rank, Links(k.dag, c)[i - 1].cid))
  }

  // ----- what a status means

  /** The DAG with nothing below a faulty node. */
  function Accepted(k: Check): Dag {
    map c | c in k.dag && c !in k.insecure :: k.dag[c]
  }

  lemma AcceptedLinks(k: Check, c: Cid)
    ensures Links(Accepted(k), c) == if FaultOf(k, c).None? then Links(k.dag, c) else []
  {
  }

  /** `b` is reached along nodes without fault. A bad hash is reported before anything is fetched. */
  ghost predicate BrokenBelow(k: Check, c: Cid, b: BadNode) {
    && Reaches(Accepted(k), c, b.cid)
    && match b.err
       case InsecureCid => b.cid in k.insecure
       case CannotGetLinks => b.cid !in k.insecure && b.cid !in k.dag
  }

  lemma ReachesFirst(g: Dag, c: Cid, d: Cid)
    ensures Reaches(g, c, d) <==> c == d || exists i :: 0 <= i < |Links(g, c)| && Reaches(g, Links(g, c)[i].cid, d)
  {
    if c == d {
      assert Steps(g, c, 0, d);
    } else if Reaches(g, c, d) {
      var n: nat :| Steps(g, c, n, d);
      var m := FirstStep(g, c, n, d);
    }
    if i :| 0 <= i < |Links(g, c)| && Reaches(g, Links(g, c)[i].cid, d) {
      var m := Links(g, c)[i].cid;
      var n: nat :| Steps(g, m, n, d);
      assert Child(g, c, m);
      PrependStep(g, c, m, n, d);
    }
  }

  /** A pin is reported broken exactly when something below it is, and each report names what and why. */
  lemma {:induction false} StatusMeaning(k: Check, rank: Cid -> nat, c: Cid)
    requires Ranked(k.dag, rank)
    ensures var s := Plain(k, rank, c);
      && (s.ok <==> forall b :: !BrokenBelow(k, c, b))
      && (forall b :: b in s.badNodes <==> k.explain && BrokenBelow(k, c, b))
    decreases rank(c), 1, 0
  {
    var g := Accepted(k);
    if FaultOf(k, c).Some? {
      forall d ensures Reaches(g, c, d) <==> c == d {
        ReachesFirst(g, c, d);
      }
      assert BrokenBelow(k, c, BadNode(c, FaultOf(k, c).value));
    } else {
      LinksMeaning(k, rank, c, |Links(k.dag, c)|);
      forall b ensures BrokenBelow(k, c, b) <==> BrokenVia(k, c, |Links(k.dag, c)|, b) {
        ReachesFirst(g, c, b.cid);
        AcceptedLinks(k, c);
      }
    }
  }

  /** Something is broken below one of the first `i` links. */
  ghost predicate BrokenVia(k: Check, c: Cid, i: nat, b: BadNode)
    requires i <= |Links(k.dag, c)|
  {
    exists j :: 0 <= j < i && BrokenBelow(k, Links(k.dag, c)[j].cid, b)
  }

  lemma {:induction false} LinksMeaning(k: Check, rank: Cid -> nat, c: Cid, i: nat)
    requires Ranked(k.dag, rank) && i <= |Links(k.dag, c)|
    ensures var s := PlainLinks(k, rank, c, i);
      && (s.ok <==> forall b :: !BrokenVia(k, c, i, b))
      && (forall b :: b in s.badNodes <==> k.explain && BrokenVia(k, c, i, b))
    decreases rank(c), 0, i
  {
    hide BrokenBelow, Plain;
    if 0 < i {
      LinksMeaning(k, rank, c, i - 1);
      StatusMeaning(k, rank, Links(k.dag, c)[i - 1].cid);
      var h: nat, d := i - 1, Links(k.dag, c)[i - 1].cid;
      assert forall b :: BrokenVia(k, c, i, b) ==> BrokenVia(k, c, h, b) || BrokenBelow(k, d, b);
      assert forall b :: BrokenVia(k, c, h, b) ==> BrokenVia(k, c, i, b);
      assert forall b :: BrokenBelow(k, d, b) ==> BrokenVia(k, c, i, b);
    }
  }

  /** So a pin is ok exactly when every node below it, in the whole DAG, is sound. */
  lemma OkMeansSound(k: Check, rank: Cid -> nat, c: Cid)
    requires Ranked(k.dag, rank)
    ensures Plain(k, rank, c).ok <==> forall d :: Reaches(k.dag, c, d) ==> d in k.dag && d !in k.insecure
  {
    StatusMeaning(k, rank, c);
    forall d, n: nat | Steps(k.dag, c, n, d)
      ensures (exists b :: BrokenBelow(k, c, b)) || (FaultOf(k, d).None? && Steps(Accepted(k), c, n, d))
    {
      SoundPath(k, c, n, d);
    }
    forall d, n: nat | Steps(Accepted(k), c, n, d) ensures Steps(k.dag, c, n, d) {
      AcceptedPath(k, c, n, d);
    }
    if b :| BrokenBelow(k, c, b) {
      var n: nat :| Steps(Accepted(k), c, n, b.cid);
      assert Reaches(k.dag, c, b.cid);
    }
  }

  lemma {:induction false} SoundPath(k: Check, c: Cid, n: nat, d: Cid)
    requires Steps(k.dag, c, n, d)
    ensures (exists b :: BrokenBelow(k, c, b)) || (FaultOf(k, d).None? && Steps(Accepted(k), c, n, d))
  {
    if 0 < n {
      var m :| Steps(k.dag, c, n - 1, m) && Child(k.dag, m, d);
      SoundPath(k, c, n - 1, m);
      if !exists b :: BrokenBelow(k, c, b) {
        AcceptedLinks(k, m);
        assert Child(Accepted(k), m, d);
      }
    }
    if Steps(Accepted(k), c, n, d) && FaultOf(k, d).Some? {
      assert BrokenBelow(k, c, BadNode(d, FaultOf(k, d).value));
    }
  }

  lemma {:induction false} AcceptedPath(k: Check, c: Cid, n: nat, d: Cid)
    requires Steps(Accepted(k), c, n, d)
    ensures Steps(k.dag, c, n, d)
  {
    if 0 < n {
      var m :| Steps(Accepted(k), c, n - 1, m) && Child(Accepted(k), m, d);
      AcceptedPath(k, c, n - 1, m);
      AcceptedLinks(k, m);
      assert Child(k.dag, m, d);
    }
  }

  // ----- the memoised recursion

  class Verifier {
    const check: Check
    ghost const rank: Cid -> nat
    var visited: map<Cid, Status>

    ghost predicate Valid()
      reads this
    {
      Ranked(check.dag, rank) && forall c :: c in visited ==> visited[c] == Plain(check, rank, c)
    }

    constructor (check: Check, ghost rank: Cid -> nat)
      requires Ranked(check.dag, rank)
      ensures Valid() && this.check == check && this.rank == rank
    {
      this.check, this.rank, visited := check, rank, map[];
    }

    method CheckPin(root: Cid) returns (status: Status)
      requires Valid()
      modifies this
      ensures Valid() && status == Plain(check, rank, root)
      ensures root in visited && forall c :: c in old(visited) ==> c in visited
      decreases rank(root)
    {
      if root in visited {
        return visited[root];
      }
      var fault := FaultOf(check, root);
      if fault.Some? {
        status := BadStatus(check, root, fault.value);
        visited := visited[root := status];
        return;
      }
      status := Status(true, []);
      var links := Links(check.dag, root);
      for i := 0 to |links|
        invariant Valid() && status == PlainLinks(check, rank, root, i)
        invariant forall c :: c in old(visited) ==> c in visited
      {
        var res := CheckPin(links[i].cid);
        if !res.ok {
          status := Status(false, status.badNodes + res.badNodes);
        }
      }
      visited := visited[root := status];
    }
  }

  function Report(k: Check, ghost rank: Cid -> nat, includeOk: bool, pins: seq<Cid>): seq<(Cid, Status)>
    requires Ranked(k.dag, rank)
  {
    if pins == [] then []
    else
      var s := Plain(k, rank, pins[|pins| - 1]);
      Report(k, rank, includeOk, pins[..|pins| - 1]) + if !s.ok || includeOk then [(pins[|pins| - 1], s)] else []
  }

  /** A pin is reported if everything is, or if something at or below it has a bad hash or links that cannot be had. */
  ghost predicate Reported(k: Check, includeOk: bool, c: Cid) {
    includeOk || exists d :: Reaches(k.dag, c, d) && (d in k.insecure || d !in k.dag)
  }

  /** The report has one entry for each pin that is reported, with its status, in the order of the pins. */
  lemma {:induction false} ReportInOrder(k: Check, rank: Cid -> nat, includeOk: bool, pins: seq<Cid>)
    returns (ps: seq<nat>)
    requires Ranked(k.dag, rank)
    ensures |ps| == |Report(k, rank, includeOk, pins)|
    ensures forall i, j :: 0 <= i < j < |ps| ==> ps[i] < ps[j]
    ensures forall j :: 0 <= j < |ps| ==>
      ps[j] < |pins| && Report(k, rank, includeOk, pins)[j] == (pins[ps[j]], Plain(k, rank, pins[ps[j]]))
    ensures forall i :: 0 <= i < |pins| ==> (i in ps <==> Reported(k, includeOk, pins[i]))
  {
    hide Plain, Reaches;
    if pins == [] {
      ps := [];
    } else {
      var n := |pins| - 1;
      ps := ReportInOrder(k, rank, includeOk, pins[..n]);
      OkMeansSound(k, rank, pins[n]);
      if Reported(k, includeOk, pins[n]) {
        ps := ps + [n];
      }
    }
  }

  lemma ReportMeaning(k: Check, rank: Cid -> nat, includeOk: bool, pins: seq<Cid>, c: Cid, s: Status)
    requires Ranked(k.dag, rank)
    ensures (c, s) in Report(k, rank, includeOk, pins) <==>
      c in pins && s == Plain(k, rank, c) && Reported(k, includeOk, c)
  {
    var ps := ReportInOrder(k, rank, includeOk, pins);
    hide Plain, Reported, Report;
    if c in pins && s == Plain(k, rank, c) && Reported(k, includeOk, c) {
      var i :| 0 <= i < |pins| && pins[i] == c;
      var j :| 0 <= j < |ps| && ps[j] == i;
      assert Report(k, rank, includeOk, pins)[j] == (c, s);
    }
  }

  /** Checks the recursive pins in turn with one memo table, until all are checked or the context is done. */
  method PinVerify(check: Check, ghost rank: Cid -> nat, includeOk: bool, recPins: seq<Cid>, mayCancel: bool)
    returns (out: seq<(Cid, Status)>, checked: nat, cancelled: bool)
    requires Ranked(check.dag, rank)
    ensures checked <= |recPins| && out == Report(check, rank, includeOk, recPins[..checked])
    ensures !cancelled ==> checked == |recPins|
    ensures cancelled ==> mayCancel
  {
    var v := new Verifier(check, rank);
    out, checked, cancelled := [], 0, false;
    while checked < |recPins|
      invariant checked <= |recPins| && v.Valid() && v.check == check && v.rank == rank
      invariant out == Report(check, rank, includeOk, recPins[..checked])
    {
      var status := v.CheckPin(recPins[checked]);
      assert recPins[..checked + 1][..checked] == recPins[..checked];
      if !status.ok || includeOk {
        var done := *;
        if done && mayCancel {
          return out, checked, true;
        }
        out := out + [(recPins[checked], status)];
      }
      checked := checked + 1;
    }
  }
}
