/**
 Publishing IPNS records: how sequence numbers are assigned (namesys/publisher.go).
 */
module Publisher {
  import opened Prelude
  import opened Base32
  import opened Base32Number

  type PeerId = Bytes

  const UINT64_MAX: nat := 0xffff_ffff_ffff_ffff
  const TWO_64: nat := UINT64_MAX + 1

  type uint64 = n: nat | n <= UINT64_MAX

  datatype Record = Record(value: string, sequence: uint64)

  /** Sequence numbers wrap around. */
  function Next(n: uint64): uint64 {
    if n == UINT64_MAX then 0 else n + 1
  }

  function IpnsDsKey(id: PeerId): string {
    "/ipns/" + EncodeToString(id)
  }

  lemma IpnsDsKeyInjective(id: PeerId, id': PeerId)
    requires IpnsDsKey(id) == IpnsDsKey(id')
    ensures id == id'
  {
    assert IpnsDsKey(id)[6..] == EncodeToString(id) && IpnsDsKey(id')[6..] == EncodeToString(id');
    EncodeInjective(id, id');
  }

  /** The key of a peer is its id as a base 32 number, and decodes to it. */
  lemma IpnsDsKeyText(id: PeerId)
    ensures var k, d := IpnsDsKey(id), Digits(id);
      && |k| == 6 + |d| == 6 + (8 * |id| + 4) / 5 && k[..6] == "/ipns/"
      && (forall i :: 0 <= i < |d| ==> k[6 + i] == "ABCDEFGHIJKLMNOPQRSTUVWXYZ234567"[d[i] as int])
      && Number(d) == ByteNumber(id) * Fill(|id|)
      && DecodeString(k[6..]) == Some(id)
  {
    EncodingIsNumber(id);
    DecodeEncode(id);
    hide EncodeToString, DecodeString, Digits, Number, ByteNumber;
    assert IpnsDsKey(id)[6..] == EncodeToString(id);
  }

  // ----- histories of records

  /** Each record follows from the one before it: the number goes up when the value changes. */
  ghost predicate Sequential(h: seq<Record>) {
    forall i :: 0 <= i < |h| - 1 ==> Follows(h[i], h[i + 1])
  }

  predicate Follows(last: Record, e: Record) {
    e.sequence == if e.value == last.value then last.sequence else Next(last.sequence)
  }

  lemma SequentialNone()
    ensures Sequential([])
  {
  }

  lemma SequentialMore(h: seq<Record>, e: Record)
    requires Sequential(h)
    requires h == [] || Follows(h[|h| - 1], e)
    ensures Sequential(h + [e])
  {
  }

  /** No change of value comes after the last number there is. */
  ghost predicate NeverWraps(h: seq<Record>) {
    forall i :: 0 <= i < |h| - 1 ==> h[i].sequence == UINT64_MAX ==> h[i + 1].value == h[i].value
  }

  ghost predicate Ascending(h: seq<Record>) {
    forall i, j :: 0 <= i < j < |h| ==> h[i].sequence <= h[j].sequence
  }

  lemma {:induction false} AscendsBetween(h: seq<Record>, i: nat, j: nat)
    requires Sequential(h) && NeverWraps(h) && i <= j < |h|
    ensures h[i].sequence <= h[j].sequence
  {
    if i < j {
      AscendsBetween(h, i, j - 1);
      assert Follows(h[j - 1], h[j - 1 + 1]);
    }
  }

  /** The numbers of a history ascend exactly as long as they never wrap. */
  lemma AscendingUnlessWrapped(h: seq<Record>)
    requires Sequential(h)
    ensures Ascending(h) <==> NeverWraps(h)
  {
    if NeverWraps(h) {
      forall i, j | 0 <= i < j < |h| ensures h[i].sequence <= h[j].sequence {
        AscendsBetween(h, i, j);
      }
    }
    if i :| 0 <= i < |h| - 1 && h[i].sequence == UINT64_MAX && h[i + 1].value != h[i].value {
      assert Follows(h[i], h[i + 1]);
    }
  }

  /** Publishing another value after the record with the largest number makes the number fall. */
  lemma NumberFalls(last: Record, value: string)
    requires last.sequence == UINT64_MAX && value != last.value
    ensures Sequential([last, Record(value, 0)]) && !Ascending([last, Record(value, 0)])
  {
    assert Follows(last, Record(value, 0));
    assert [last, Record(value, 0)][0].sequence > [last, Record(value, 0)][1].sequence;
  }

  // ----- a number stands for one value

  /** How often the value changes between two records of a history. */
  ghost function Changes(h: seq<Record>, i: nat, j: nat): nat
    requires i <= j < |h|
    decreases j
  {
    if i == j then 0 else Changes(h, i, j - 1) + if h[j].value == h[j - 1].value then 0 else 1
  }

  lemma NextCounts(n: nat)
    ensures n % TWO_64 <= UINT64_MAX && Next(n % TWO_64) == (n + 1) % TWO_64
  {
  }

  /** The number counts the changes modulo 2^64, whether it wraps or not. */
  lemma {:induction false} NumberCountsChanges(h: seq<Record>, i: nat, j: nat)
    requires Sequential(h) && i <= j < |h|
    ensures h[j].sequence == (h[i].sequence + Changes(h, i, j)) % TWO_64
    ensures Changes(h, i, j) <= j - i
    ensures Changes(h, i, j) == 0 ==> h[i].value == h[j].value
  {
    if i < j {
      NumberCountsChanges(h, i, j - 1);
      assert Follows(h[j - 1], h[j - 1 + 1]);
      NextCounts(h[i].sequence + Changes(h, i, j - 1));
      hide Sequential, Next;
    }
  }

  ghost predicate Unambiguous(h: seq<Record>) {
    forall i, j :: 0 <= i < |h| && 0 <= j < |h| && h[i].sequence == h[j].sequence ==> h[i].value == h[j].value
  }

  lemma SameNumberSameValue(h: seq<Record>, i: nat, j: nat)
    requires Sequential(h) && |h| <= TWO_64 && i < |h| && j < |h| && h[i].sequence == h[j].sequence
    ensures h[i].value == h[j].value
  {
    NumberCountsChanges(h, if i <= j then i else j, if i <= j then j else i);
  }

  /** The history of a value that changes 2^64 times and then no more. */
  ghost function Everchanging(n: nat): seq<Record> {
    seq(n, i requires i >= 0 =>
      if i >= TWO_64 then Record("third", 0) else Record(if i % 2 == 0 then "first" else "second", i))
  }

  lemma EverchangingRepeats(n: nat)
    requires TWO_64 < n
    ensures |Everchanging(n)| == n && Sequential(Everchanging(n)) && !Unambiguous(Everchanging(n))
  {
    var h := Everchanging(n);
    forall i | 0 <= i < n - 1 ensures Follows(h[i], h[i + 1]) {
    }
    assert h[0].sequence == h[TWO_64].sequence && h[0].value[0] != h[TWO_64].value[0];
  }

  /** A number stands for one value in every history of at most 2^64 records, and not in every longer one. */
  lemma NumbersStandForValues(n: nat)
    ensures (forall h :: Sequential(h) && |h| == n ==> Unambiguous(h)) <==> n <= 0x1_0000_0000_0000_0000
  {
    if n <= TWO_64 {
      forall h: seq<Record>, i: nat, j: nat
        | Sequential(h) && |h| == n && i < |h| && j < |h| && h[i].sequence == h[j].sequence
        ensures h[i].value == h[j].value
      {
        SameNumberSameValue(h, i, j);
      }
    } else {
      EverchangingRepeats(n);
    }
  }

  /** One more record under a key, and nothing else. */
  ghost function Extended(stored: map<string, seq<Record>>, k: string, e: Record): map<string, seq<Record>> {
    stored[k := (if k in stored then stored[k] else []) + [e]]
  }

  /** `stored` are the histories that end with the records of the datastore. */
  ghost predicate Histories(ds: map<string, Record>, stored: map<string, seq<Record>>) {
    stored.Keys == ds.Keys && forall k :: k in stored ==> EndsWith(stored[k], ds[k])
  }

  ghost predicate EndsWith(h: seq<Record>, e: Record) {
    h != [] && h[|h| - 1] == e && Sequential(h)
  }

  lemma HistoriesMore(ds: map<string, Record>, stored: map<string, seq<Record>>, k: string, e: Record)
    requires Histories(ds, stored) && (k in ds ==> Follows(ds[k], e))
    ensures Histories(ds[k := e], Extended(stored, k, e))
  {
    hide Follows, Sequential;
    var h := if k in stored then stored[k] else [];
    SequentialNone();
    SequentialMore(h, e);
    assert EndsWith(h + [e], e);
    hide EndsWith;
  }

  // ----- the publisher

  datatype Outcome<+T> = Ok(value: T) | Err

  /** The record that a new one follows: the stored one or, if there is none, the one that routing has to offer. */
  function Previous(ds: map<string, Record>, key: string, routed: Option<Record>): Option<Record> {
    if key in ds then Some(ds[key]) else routed
  }

  /** The first record of all has number 0. */
  ghost predicate Succeeds(last: Option<Record>, e: Record) {
    if last.Some? then Follows(last.value, e) else e.sequence == 0
  }

  class IpnsPublisher {
    var ds: map<string, Record>
    /** Every record that the datastore has held under a key, in order. */
    ghost var stored: map<string, seq<Record>>

    ghost predicate Valid()
      reads this
    {
      Histories(ds, stored)
    }

    constructor (ds: map<string, Record>)
      ensures Valid() && this.ds == ds
    {
      this.ds := ds;
      stored := map k | k in ds :: [ds[k]];
    }

    /** `routed` is what the routing system has to offer; not finding a record there is no error. */
    method GetPublished(id: PeerId, checkRouting: bool, routed: Option<Record>, mayFail: bool)
      returns (r: Outcome<Option<Record>>)
      ensures r.Err? ==> mayFail
      ensures r.Ok? && IpnsDsKey(id) in ds ==> r.value == Some(ds[IpnsDsKey(id)])
      ensures r.Ok? && IpnsDsKey(id) !in ds ==> r.value == if checkRouting then routed else None
    {
      var failed := *;
      if failed && mayFail {
        return Err;
      }
      if IpnsDsKey(id) in ds {
        return Ok(Some(ds[IpnsDsKey(id)]));
      }
      if !checkRouting {
        return Ok(None);
      }
      return Ok(routed);
    }

    /**
     If `mayFail` is set, signing the record or storing it may fail, or flushing it once it has been stored. In that
     last case the record is there although an error is reported.
     */
    method UpdateRecord(id: PeerId, value: string, routed: Option<Record>, mayFail: bool) returns (r: Outcome<Record>)
      requires Valid()
      modifies this
      ensures Valid()
      ensures r.Err? ==> mayFail
      ensures r.Ok? ==> Published(old(ds), old(stored), id, value, routed, r.value)
      ensures r.Err? ==> (ds == old(ds) && stored == old(stored)) ||
                         exists e :: Published(old(ds), old(stored), id, value, routed, e)
    {
      hide IpnsDsKey, Histories, Extended;
      var rec := GetPublished(id, true, routed, mayFail);
      if rec.Err? {
        return Err;
      }
      var seqno: uint64 := if rec.value.Some? then rec.value.value.sequence else 0;
      if rec.value.Some? && value != rec.value.value.value {
        seqno := Next(seqno);
      }
      var signed, put, synced := *, *, *;
      if mayFail && (!signed || !put) {
        return Err;
      }
      var entry := Record(value, seqno);
      Put(IpnsDsKey(id), entry);
      assert Published(old(ds), old(stored), id, value, routed, entry);
      return if synced || !mayFail then Ok(entry) else Err;
    }

    /** The record has been stored as the successor of the one before it, and nothing else has changed. */
    ghost predicate Published(ds0: map<string, Record>, stored0: map<string, seq<Record>>, id: PeerId, value: string,
                              routed: Option<Record>, e: Record)
      reads this
    {
      var key := IpnsDsKey(id);
      && e.value == value && Succeeds(Previous(ds0, key, routed), e)
      && ds == ds0[key := e] && stored == Extended(stored0, key, e)
    }

    method Put(key: string, entry: Record)
      requires Valid() && (key in ds ==> Follows(ds[key], entry))
      modifies this
      ensures Valid() && ds == old(ds)[key := entry] && stored == Extended(old(stored), key, entry)
    {
      hide Histories, Extended, Follows;
      HistoriesMore(ds, stored, key, entry);
      ds := ds[key := entry];
      stored := Extended(stored, key, entry);
    }
  }
}
