/**
 Shared repositories: opened once for each key, closed by the last holder (repo/onlyone.go).
 Every method body is one critical section.
 */
module SharedRepos {

  type Key = nat

  const TWO_32: nat := 0x1_0000_0000

  /** The uint32 that a number becomes. */
  function Uint32(n: int): nat {
    n % TWO_32
  }

  lemma Uint32Up(n: int)
    ensures Uint32(Uint32(n) + 1) == Uint32(n + 1)
  {
  }

  lemma Uint32Down(n: int)
    ensures Uint32(Uint32(n) - 1) == Uint32(n - 1)
    ensures Uint32(n - 1) == 0 <==> Uint32(n) == 1
  {
  }

  /** An opened repository with its reference count, an uint32. `closes` counts the calls to its own Close. */
  class Ref {
    const key: Key
    var refs: nat
    var closes: nat

    constructor (key: Key)
      ensures this.key == key && refs == 0 && closes == 0
    {
      this.key, refs, closes := key, 0, 0;
    }
  }

  class OnlyOne {
    var active: map<Key, Ref>
    /** Every repository opened so far, with the times it was handed out less the times it was given back. */
    ghost var balance: map<Ref, int>

    ghost predicate Valid()
      reads this, balance.Keys
    {
      Indexed() && forall r :: r in balance ==> Counts(r, balance[r], IsActive(r))
    }

    ghost predicate Indexed()
      reads this
    {
      forall k :: k in active ==> active[k] in balance && active[k].key == k
    }

    ghost predicate IsActive(r: Ref)
      reads this
    {
      r.key in active && active[r.key] == r
    }

    /** All is well but for `q`, which is about to be handed out. */
    ghost predicate AboutTo(q: Ref)
      reads this, q, balance.Keys
    {
      && Indexed() && q in balance && IsActive(q) && 0 <= balance[q] && q.refs == Uint32(balance[q]) && q.closes == 0
      && forall r :: r in balance && r != q ==> Counts(r, balance[r], IsActive(r))
    }

    /** A repository is active while it has holders, and has been closed once when it has none. */
    ghost predicate Counts(r: Ref, held: int, isActive: bool)
      reads r
    {
      && r.refs == Uint32(held)
      && (isActive <==> 0 < held)
      && r.closes == (if 0 < held then 0 else 1)
    }

    /** The repositories of a key that are open. */
    ghost function OpenRepos(k: Key): set<Ref>
      reads this, balance.Keys
    {
      set r | r in balance && r.key == k && r.closes == 0
    }

    constructor ()
      ensures Valid() && balance == map[]
    {
      active, balance := map[], map[];
    }

    /** At most one repository is open for a key. */
    lemma OneOpen(k: Key)
      requires Valid()
      ensures OpenRepos(k) == if k in active then {active[k]} else {}
    {
    }

    /** `fails`: the repository could not be opened. */
    method Open(key: Key, fails: bool) returns (r: Ref?)
      requires Valid()
      modifies this, balance.Keys
      ensures Valid()
      ensures r == null <==> key !in old(active) && fails
      ensures r == null ==> active == old(active) && balance == old(balance)
      ensures r != null ==> r.key == key && active == old(active)[key := r]
      ensures r != null && key in old(active) ==>
        r == old(active)[key] && balance == old(balance)[r := old(balance)[r] + 1]
      ensures r != null && key !in old(active) ==> fresh(r) && balance == old(balance)[r := 1]
    {
      if key !in active {
        if fails {
          return null;
        }
        r := Create(key);
      } else {
        r := active[key];
      }
      Take(r);
    }

    method Create(key: Key) returns (r: Ref)
      requires Valid() && key !in active
      modifies this
      ensures fresh(r) && r.key == key && AboutTo(r)
      ensures active == old(active)[key := r] && balance == old(balance)[r := 0]
    {
      r := new Ref(key);
      active := active[key := r];
      balance := balance[r := 0];
    }

    method Take(r: Ref)
      requires AboutTo(r)
      modifies this`balance, r
      ensures Valid() && balance == old(balance)[r := old(balance)[r] + 1]
    {
      Uint32Up(balance[r]);
      hide Uint32;
      r.refs := Uint32(r.refs + 1);
      balance := balance[r := balance[r] + 1];
    }

    /**
     A handle is given back, or one too many. Things go wrong if and only if the count says that one holder is left
     and it is not so: 2^32 or more others hold the repository still, or 2^32 handles too many have been given back.
     Then a repository is closed while others hold it, or a second time; and whatever is active under its key is no
     longer handed out.
     */
    method Close(r: Ref)
      requires Valid() && r in balance
      modifies this, r
      ensures balance == old(balance)[r := old(balance)[r] - 1]
      ensures Valid() <==> (old(r.refs) == 1 ==> old(balance)[r] == 1)
      ensures old(r.refs) != 1 ==> active == old(active) && r.closes == old(r.closes)
      ensures old(r.refs) == 1 ==> active == old(active) - {r.key}
      ensures old(r.refs) == 1 ==> r.closes == if 0 < old(balance)[r] then 1 else 2
      ensures old(balance)[r] <= 0 && r.key in old(active) ==>
        var newer := old(active)[r.key]; newer != r && newer.closes == 0 && 0 < balance[newer]
    {
      assert Uint32(1) == 1;
      hide Uint32;
      Uint32Down(balance[r]);
      ghost var held := balance[r];
      balance := balance[r := held - 1];
      r.refs := Uint32(r.refs - 1);
      if r.refs > 0 {
        return;
      }
      active := active - {r.key};
      r.closes := r.closes + 1;
      assert !IsActive(r) && (held != 1 ==> !Counts(r, balance[r], IsActive(r)));
    }
  }

  /** The count says that one holder is left although another number is exactly 2^32 or a multiple of it away. */
  lemma WrongLastHolder(held: int)
    ensures Uint32(held) == 1 && held != 1 <==> exists m :: m != 0 && held == 1 + m * 0x1_0000_0000
  {
    if Uint32(held) == 1 {
      assert held == 1 + held / TWO_32 * TWO_32;
    }
  }

  /** `r` has been given back `i` times too often since `newer` was opened under its key. */
  ghost predicate Superseded(o: OnlyOne, r: Ref, newer: Ref, i: nat)
    reads o
  {
    && r != newer && r.key == newer.key && o.active == map[r.key := newer]
    && o.balance == map[r := 0 - i, newer := 1]
  }

  lemma CountAfterSurplus(i: nat)
    requires i < TWO_32
    ensures Uint32(0 - i) == 1 <==> i == TWO_32 - 1
  {
  }

  method GiveBackAgain(o: OnlyOne, r: Ref, newer: Ref, ghost i: nat)
    requires o.Valid() && Superseded(o, r, newer, i) && i < TWO_32 - 1
    modifies o, r
    ensures o.Valid() && Superseded(o, r, newer, i + 1)
  {
    hide Uint32;
    CountAfterSurplus(i);
    assert o.Counts(r, 0 - i, o.IsActive(r));
    o.Close(r);
  }

  method Supersede() returns (o: OnlyOne, r: Ref, newer: Ref)
    ensures fresh(o) && fresh(r) && fresh(newer) && o.Valid() && Superseded(o, r, newer, 0)
  {
    o := new OnlyOne();
    var first := o.Open(0, false);
    r := first;
    assert o.Counts(r, 1, o.IsActive(r));
    o.Close(r);
    var second := o.Open(0, false);
    newer := second;
  }

  /**
   The 2^32-th handle too many: the first repository is closed a second time, and the newer one, still held, is no
   longer handed out.
   */
  method SurplusCloses() returns (o: OnlyOne, r: Ref, newer: Ref)
    ensures r.key == newer.key && r.closes == 2 && r.key !in o.active
    ensures newer in o.balance && o.balance[newer] == 1 && newer.closes == 0
    ensures !o.Valid()
  {
    hide Uint32;
    o, r, newer := Supersede();
    var i := 0;
    while i < TWO_32 - 1
      invariant i <= TWO_32 - 1 && fresh(o) && fresh(r) && o.Valid() && Superseded(o, r, newer, i)
    {
      GiveBackAgain(o, r, newer, i);
      i := i + 1;
    }
    CountAfterSurplus(i);
    assert o.Counts(r, 0 - i, o.IsActive(r)) && o.Counts(newer, 1, o.IsActive(newer));
    o.Close(r);
  }

  /** With 2^32 + 1 holders, the first of them to leave closes the repository for the others. */
  method TooManyHolders() returns (o: OnlyOne, r: Ref)
    ensures r in o.balance && o.balance[r] == TWO_32 && r.closes == 1 && r.key !in o.active
    ensures !o.Valid()
  {
    assert Uint32(TWO_32 + 1) == 1;
    hide Uint32;
    o := new OnlyOne();
    var first := o.Open(0, false);
    r := first;
    var i := 0;
    while i < TWO_32
      invariant i <= TWO_32 && fresh(o) && fresh(r) && o.Valid() && Shared(o, r, i + 1)
    {
      OpenAgain(o, r, i + 1);
      i := i + 1;
    }
    assert o.Counts(r, TWO_32 + 1, o.IsActive(r));
    o.Close(r);
  }

  /** `r` is the only repository, and has been handed out `n` times. */
  ghost predicate Shared(o: OnlyOne, r: Ref, n: nat)
    reads o
  {
    o.active == map[r.key := r] && o.balance == map[r := n]
  }

  method OpenAgain(o: OnlyOne, r: Ref, ghost n: nat)
    requires o.Valid() && Shared(o, r, n)
    modifies o, r
    ensures o.Valid() && Shared(o, r, n + 1)
  {
    hide Uint32;
    var again := o.Open(r.key, false);
  }
}
