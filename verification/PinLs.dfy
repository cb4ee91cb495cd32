/**
 Listing pins: each pinned CID once, under the strongest of its pin types (core/coreapi/pin.go).
 */
module PinLs {
  import opened Prelude
  import opened Dags
  import opened Walks

  datatype PinType = Recursive | Direct | Indirect

  datatype Query = Only(kind: PinType) | All

  datatype Pin = Pin(kind: PinType, cid: Cid)

  ghost predicate StrictlyBelow(g: Dag, roots: seq<Cid>, c: Cid) {
    exists r, k :: r in roots && 1 <= k && Steps(g, r, k, c)
  }

  /** What a query lists under each type. Only the full listing ranks direct pins below recursive ones. */
  ghost predicate Listed(g: Dag, rkeys: seq<Cid>, dkeys: seq<Cid>, q: Query, p: Pin) {
    match p.kind
    case Recursive => q in {All, Only(Recursive)} && p.cid in rkeys
    case Direct => q in {All, Only(Direct)} && p.cid in dkeys && (q.All? ==> p.cid !in rkeys)
    case Indirect =>
      q in {All, Only(Indirect)} && p.cid !in rkeys && p.cid !in dkeys && StrictlyBelow(g, rkeys, p.cid)
  }

  ghost predicate Distinct(out: seq<Pin>) {
    forall i, j :: 0 <= i < j < |out| ==> out[i].cid != out[j].cid
  }

  /** Emits the keys that have not been visited yet. */
  method AddToResultKeys(keyList: seq<Cid>, kind: PinType, keys0: set<Cid>, out0: seq<Pin>, mayCancel: bool)
    returns (keys: set<Cid>, out: seq<Pin>, ok: bool)
    requires Distinct(out0) && forall p :: p in out0 ==> p.cid in keys0
    ensures Distinct(out) && forall p :: p in out ==> p.cid in keys
    ensures forall p :: p in out ==> p in out0 || (p.kind == kind && p.cid in keyList && p.cid !in keys0)
    ensures !ok ==> mayCancel
    ensures ok ==> keys == keys0 + Elements(keyList)
    ensures ok ==> forall p :: p in out <==> p in out0 || (p.kind == kind && p.cid in keyList && p.cid !in keys0)
  {
    keys, out := keys0, out0;
    for i := 0 to |keyList|
      invariant Distinct(out) && forall p :: p in out ==> p.cid in keys
      invariant keys == keys0 + Elements(keyList[..i])
      invariant forall p :: p in out <==> p in out0 || (p.kind == kind && p.cid in keyList[..i] && p.cid !in keys0)
    {
      var c := keyList[i];
      assert keyList[..i + 1] == keyList[..i] + [c];
      if c !in keys {
        var cancelled := *;
        keys := keys + {c};
        if cancelled && mayCancel {
          return keys, out, false;
        }
        out := out + [Pin(kind, c)];
      }
    }
    assert keyList[..|keyList|] == keyList;
    return keys, out, true;
  }

  /** The members of a set come out in any order. */
  method Keys(s: set<Cid>) returns (ks: seq<Cid>)
    ensures Elements(ks) == s
  {
    ks := [];
    var left := s;
    while left != {}
      invariant left <= s && Elements(ks) == s - left
    {
      var c :| c in left;
      assert Elements(ks + [c]) == Elements(ks) + {c};
      left := left - {c};
      ks := ks + [c];
    }
  }

  function AllStarts(g: Dag, roots: seq<Cid>): set<Cid> {
    set r, c | r in roots && c in Starts(g, r, true) :: c
  }

  /** Walks below every recursive pin, leaving out the pins themselves unless another pin reaches them. */
  method WalkBelow(g: Dag, missing: set<Cid>, rkeys: seq<Cid>, mayCancel: bool) returns (below: set<Cid>, ok: bool)
    ensures ok ==> forall c :: c in below <==> StrictlyBelow(g, rkeys, c)
    ensures ok ==> forall c :: c in missing ==> c !in rkeys && !StrictlyBelow(g, rkeys, c)
    ensures !ok && !mayCancel ==> exists c :: c in missing && (c in rkeys || StrictlyBelow(g, rkeys, c))
  {
    hide Reached, Expanded, Starts;
    below := {};
    ghost var none: set<Cid> := {};
    ExpandedNothing(g);
    assert AllStarts(g, rkeys[..0]) == none;
    for i := 0 to |rkeys|
      invariant Expanded(g, none, AllStarts(g, rkeys[..i]), below)
      invariant forall c :: c in below ==> c !in missing
      invariant forall j :: 0 <= j < i ==> rkeys[j] !in missing
    {
      var more, outcome := Walk(g, rkeys[i], true, below, missing, mayCancel);
      if outcome != Finished {
        if outcome.Broken? {
          ReachedWidens(g, none, below, Starts(g, rkeys[i], true), AllStarts(g, rkeys));
          StrictlyBelowIsReached(g, rkeys, outcome.at);
        }
        return more, false;
      }
      ExpandedTransitive(g, none, below, more, AllStarts(g, rkeys[..i]), Starts(g, rkeys[i], true));
      assert rkeys[..i + 1] == rkeys[..i] + [rkeys[i]];
      assert AllStarts(g, rkeys[..i + 1]) == AllStarts(g, rkeys[..i]) + Starts(g, rkeys[i], true);
      below := more;
    }
    assert rkeys[..|rkeys|] == rkeys;
    ExpandedIsExact(g, none, AllStarts(g, rkeys), below);
    forall c ensures Reached(g, none, AllStarts(g, rkeys), c) <==> StrictlyBelow(g, rkeys, c) {
      StrictlyBelowIsReached(g, rkeys, c);
    }
    return below, true;
  }

  lemma ExpandedNothing(g: Dag)
    ensures Expanded(g, {}, {}, {})
  {
  }

  lemma StrictlyBelowIsReached(g: Dag, rkeys: seq<Cid>, c: Cid)
    ensures Reached(g, {}, AllStarts(g, rkeys), c) <==> StrictlyBelow(g, rkeys, c)
  {
    ReachedIsReaches(g, AllStarts(g, rkeys), c);
    hide Reached;
    if StrictlyBelow(g, rkeys, c) {
      var r, k: nat :| r in rkeys && 1 <= k && Steps(g, r, k, c);
      var m := FirstStep(g, r, k, c);
      StartsAreChildren(g, r, m);
    }
    if s, k: nat :| s in AllStarts(g, rkeys) && Steps(g, s, k, c) {
      var r :| r in rkeys && s in Starts(g, r, true);
      StartsAreChildren(g, r, s);
      PrependStep(g, r, s, k, c);
    }
  }

  lemma StartsAreChildren(g: Dag, r: Cid, c: Cid)
    ensures c in Starts(g, r, true) <==> Child(g, r, c)
  {
    if Child(g, r, c) {
      var i :| 0 <= i < |Links(g, r)| && Links(g, r)[i].cid == c;
      assert Targets(Links(g, r))[i] == c;
    }
  }

  /**
   The listing. Missing links below a recursive pin, a cancellation, or if `mayFail` is set an error of asking for the
   pins, end it early with an error.
   */
  method PinLsAll(g: Dag, missing: set<Cid>, rkeys: seq<Cid>, dkeys: seq<Cid>, q: Query, mayCancel: bool, mayFail: bool)
    returns (out: seq<Pin>, ok: bool)
    ensures Distinct(out)
    ensures forall p :: p in out ==> Listed(g, rkeys, dkeys, q, p)
    ensures ok ==> forall p :: p in out <==> Listed(g, rkeys, dkeys, q, p)
    ensures ok && q in {All, Only(Indirect)} ==>
      forall c :: c in missing ==> c !in rkeys && !StrictlyBelow(g, rkeys, c)
    ensures !ok && !mayCancel && !mayFail ==> q in {All, Only(Indirect)}
    ensures !ok && !mayCancel && !mayFail ==> exists c :: c in missing && (c in rkeys || StrictlyBelow(g, rkeys, c))
  {
    hide StrictlyBelow;
    var keys: set<Cid> := {};
    out, ok := [], true;
    if q in {All, Only(Recursive)} {
      var failed := Fails(mayFail);
      if failed {
        return out, false;
      }
      keys, out, ok := AddToResultKeys(rkeys, Recursive, keys, out, mayCancel);
      if !ok {
        return;
      }
    }
    if q in {All, Only(Direct)} {
      var failed := Fails(mayFail);
      if failed {
        return out, false;
      }
      keys, out, ok := AddToResultKeys(dkeys, Direct, keys, out, mayCancel);
      if !ok {
        return;
      }
    }
    if q == Only(Indirect) {
      var failed := Fails(mayFail);
      if failed {
        return out, false;
      }
      keys := keys + Elements(dkeys) + Elements(rkeys);
    }
    if q in {All, Only(Indirect)} {
      var failed := Fails(mayFail);
      if failed {
        return out, false;
      }
      var below;
      below, ok := WalkBelow(g, missing, rkeys, mayCancel);
      if !ok {
        return;
      }
      var ks := Keys(below);
      keys, out, ok := AddToResultKeys(ks, Indirect, keys, out, mayCancel);
    }
  }
}
