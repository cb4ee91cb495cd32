/**
 The registry of forwarded p2p streams (p2p/stream.go). Every method body is one critical section, so what the
 methods keep holds after every interleaving of them.
 */
module Streams {

  type Peer = nat

  const TWO_64: nat := 0x1_0000_0000_0000_0000

  /** The uint64 that a count becomes. */
  function Uint64(n: nat): nat {
    n % TWO_64
  }

  lemma Uint64Next(n: nat)
    ensures Uint64(Uint64(n) + 1) == Uint64(n + 1)
    ensures n < TWO_64 ==> Uint64(n) == n
  {
  }

  class Stream {
    const peer: Peer
    var id: nat

    constructor (peer: Peer)
      ensures this.peer == peer
    {
      this.peer, id := peer, 0;
    }
  }

  ghost function Live(streams: map<nat, Stream>, p: Peer): set<nat> {
    set id | id in streams && streams[id].peer == p
  }

  function CountOf(conns: map<Peer, int>, p: Peer): int {
    if p in conns then conns[p] else 0
  }

  /** `conns` counts the live streams of every peer; the entry and the tag exist exactly for peers that have any. */
  ghost predicate Counted(streams: map<nat, Stream>, conns: map<Peer, int>, tagged: set<Peer>) {
    && tagged == conns.Keys
    && (forall p :: p in conns ==> 0 < conns[p])
    && (forall p :: CountOf(conns, p) == |Live(streams, p)|)
  }

  lemma LiveMore(streams: map<nat, Stream>, id: nat, s: Stream, p: Peer)
    requires id !in streams
    ensures |Live(streams[id := s], p)| == |Live(streams, p)| + if p == s.peer then 1 else 0
  {
    if p == s.peer {
      assert Live(streams[id := s], p) == Live(streams, p) + {id};
    } else {
      assert Live(streams[id := s], p) == Live(streams, p);
    }
  }

  lemma LiveLess(streams: map<nat, Stream>, id: nat, p: Peer)
    requires id in streams
    ensures |Live(streams - {id}, p)| == |Live(streams, p)| - if p == streams[id].peer then 1 else 0
  {
    if p == streams[id].peer {
      assert Live(streams - {id}, p) == Live(streams, p) - {id};
    } else {
      assert Live(streams - {id}, p) == Live(streams, p);
    }
  }

  lemma CountedMore(streams: map<nat, Stream>, conns: map<Peer, int>, tagged: set<Peer>, id: nat, s: Stream)
    requires Counted(streams, conns, tagged) && id !in streams
    ensures Counted(streams[id := s], conns[s.peer := CountOf(conns, s.peer) + 1], tagged + {s.peer})
  {
    var conns' := conns[s.peer := CountOf(conns, s.peer) + 1];
    forall p ensures CountOf(conns', p) == |Live(streams[id := s], p)| {
      LiveMore(streams, id, s, p);
      assert CountOf(conns, p) == |Live(streams, p)|;
    }
    hide Live;
  }

  lemma CountedLess(streams: map<nat, Stream>, conns: map<Peer, int>, tagged: set<Peer>, id: nat)
    requires Counted(streams, conns, tagged) && id in streams
    ensures var p := streams[id].peer;
      && p in conns && 0 < conns[p]
      && if conns[p] == 1 then Counted(streams - {id}, conns - {p}, tagged - {p})
         else Counted(streams - {id}, conns[p := conns[p] - 1], tagged)
  {
    var p := streams[id].peer;
    assert id in Live(streams, p) && CountOf(conns, p) == |Live(streams, p)|;
    var conns' := if conns[p] == 1 then conns - {p} else conns[p := conns[p] - 1];
    forall q ensures CountOf(conns', q) == |Live(streams - {id}, q)| {
      LiveLess(streams, id, q);
      assert CountOf(conns, q) == |Live(streams, q)|;
    }
    hide Live;
  }

  /** Registering under an id that is still in use spoils the counts: the stream that had it is forgotten. */
  lemma CountedCollision(streams: map<nat, Stream>, conns: map<Peer, int>, tagged: set<Peer>, id: nat, s: Stream)
    requires Counted(streams, conns, tagged) && id in streams
    ensures !Counted(streams[id := s], conns[s.peer := CountOf(conns, s.peer) + 1], tagged + {s.peer})
  {
    var q := streams[id].peer;
    var conns' := conns[s.peer := CountOf(conns, s.peer) + 1];
    LiveLess(streams, id, q);
    LiveMore(streams - {id}, id, s, q);
    assert (streams - {id})[id := s] == streams[id := s];
    assert CountOf(conns, q) == |Live(streams, q)|;
    assert CountOf(conns', q) == CountOf(conns, q) + if q == s.peer then 1 else 0;
    hide Live;
  }

  ghost predicate Placed(streams: map<nat, Stream>, registered: seq<Stream>) {
    forall id :: id in streams ==> id < |registered| && streams[id] == registered[id]
  }

  lemma PlacedMore(streams: map<nat, Stream>, registered: seq<Stream>, s: Stream)
    requires Placed(streams, registered)
    ensures |registered| !in streams && Placed(streams[|registered| := s], registered + [s])
  {
  }

  ghost predicate Labelled(registered: seq<Stream>)
    reads registered
  {
    forall i :: 0 <= i < |registered| ==>
      i <= registered[i].id < |registered| && registered[registered[i].id] == registered[i]
  }

  ghost predicate Once(registered: seq<Stream>, s: Stream) {
    s in registered && forall i, j :: 0 <= i < j < |registered| ==> registered[i] != s || registered[j] != s
  }

  class StreamRegistry {
    var Streams: map<nat, Stream>
    var conns: map<Peer, int>
    /** An uint64. */
    var nextID: nat
    /** The peers that carry the registry's tag in the connection manager. */
    var tagged: set<Peer>
    /** The streams registered so far. */
    ghost var registered: seq<Stream>

    ghost predicate Valid()
      reads this
    {
      nextID == Uint64(|registered|) && Counted(Streams, conns, tagged)
    }

    /** The ids given so far are all different, and every stream carries the last one it was given. */
    ghost predicate Unwrapped()
      reads this, registered
    {
      |registered| <= 0x1_0000_0000_0000_0000 && Placed(Streams, registered) && Labelled(registered)
    }

    constructor ()
      ensures Valid() && Unwrapped() && Streams == map[] && registered == []
    {
      Streams, conns, nextID, tagged, registered := map[], map[], 0, {}, [];
      assert forall p :: Live(map[], p) == {};
    }

    /** Until the counter has wrapped around, the next id is never in use. */
    lemma NextIsFree()
      requires Valid() && Unwrapped() && |registered| < 0x1_0000_0000_0000_0000
      ensures nextID == |registered| && nextID !in Streams
    {
    }

    /** The counts stay exact if and only if the next id is not in use. */
    method Register(s: Stream)
      requires Valid()
      modifies this, s
      ensures Valid() <==> old(nextID) !in old(Streams)
      ensures registered == old(registered) + [s] && s.id == old(nextID)
      ensures Streams == old(Streams)[s.id := s]
      ensures old(Unwrapped()) && |registered| <= 0x1_0000_0000_0000_0000 ==> Valid() && Unwrapped()
    {
      hide Counted, CountOf, Labelled, Placed, Uint64;
      if nextID in Streams {
        CountedCollision(Streams, conns, tagged, nextID, s);
      } else {
        CountedMore(Streams, conns, tagged, nextID, s);
      }
      Uint64Next(|registered|);
      if Placed(Streams, registered) {
        PlacedMore(Streams, registered, s);
      }
      tagged := tagged + {s.peer};
      conns := conns[s.peer := CountOf(conns, s.peer) + 1];
      Label(s);
      Streams := Streams[nextID := s];
      nextID := Uint64(nextID + 1);
    }

    method Label(s: Stream)
      modifies this`registered, s
      ensures s.id == nextID && registered == old(registered) + [s]
      ensures old(Labelled(registered)) && nextID == |old(registered)| ==> Labelled(registered)
    {
      s.id := nextID;
      registered := registered + [s];
    }

    method Deregister(streamID: nat)
      requires Valid()
      modifies this
      ensures Valid() && registered == old(registered) && nextID == old(nextID)
      ensures Streams == old(Streams) - {streamID}
      ensures streamID !in old(Streams) ==> conns == old(conns) && tagged == old(tagged)
    {
      if streamID !in Streams {
        return;
      }
      CountedLess(Streams, conns, tagged, streamID);
      hide Counted;
      var p := Streams[streamID].peer;
      conns := conns[p := conns[p] - 1];
      if conns[p] < 1 {
        assert conns - {p} == old(conns) - {p};
        conns := conns - {p};
        tagged := tagged - {p};
      }
      Streams := Streams - {streamID};
    }

    /** Close and Reset differ only in what they do to the remote endpoint. */
    method Close(s: Stream)
      requires Valid()
      modifies this
      ensures Valid() && registered == old(registered)
      ensures Streams == old(Streams) - {s.id}
      ensures s.id !in old(Streams) ==> conns == old(conns) && tagged == old(tagged)
      ensures old(Unwrapped()) ==> Unwrapped()
      // a stream that was registered once is removed, and no other is
      ensures old(Unwrapped()) && Once(registered, s) ==>
        forall id :: id in Streams <==> id in old(Streams) && old(Streams)[id] != s
    {
      if Unwrapped() && Once(registered, s) {
        OnlyUnder(s);
      }
      hide Labelled, Once;
      Deregister(s.id);
    }

    lemma OnlyUnder(s: Stream)
      requires Unwrapped() && Once(registered, s)
      ensures forall id :: id in Streams && Streams[id] == s ==> id == s.id
      ensures s.id in Streams ==> Streams[s.id] == s
    {
      var i :| 0 <= i < |registered| && registered[i] == s;
      assert registered[s.id] == s;
    }
  }

  /** `first` is the only live stream, and it was registered first of all. */
  ghost predicate Outlives(r: StreamRegistry, first: Stream)
    reads r, r.registered, first
  {
    r.Valid() && r.Unwrapped() && r.Streams == map[0 := first] && first.id == 0
  }

  method ComeAndGo(r: StreamRegistry, first: Stream)
    requires Outlives(r, first) && |r.registered| < TWO_64
    modifies r
    ensures Outlives(r, first) && |r.registered| == |old(r.registered)| + 1
  {
    hide Counted, Labelled, Placed, Uint64;
    r.NextIsFree();
    var s := new Stream(1);
    r.Register(s);
    r.Close(s);
  }

  method RegisterFirst() returns (r: StreamRegistry, first: Stream)
    ensures fresh(r) && fresh(first) && Outlives(r, first) && |r.registered| == 1
  {
    hide Counted, Labelled, Placed, Uint64;
    r := new StreamRegistry();
    first := new Stream(0);
    r.NextIsFree();
    r.Register(first);
  }

  method RegisterAgain(r: StreamRegistry, first: Stream) returns (last: Stream)
    requires Outlives(r, first) && |r.registered| == TWO_64
    modifies r
    ensures fresh(last) && last.id == 0 && r.Streams == map[0 := last] && !r.Valid()
  {
    assert r.nextID == 0;
    hide Counted, Labelled, Placed, Uint64;
    last := new Stream(1);
    r.Register(last);
  }

  /** A stream that outlives 2^64 - 1 others loses its entry to the next one, and the counts are wrong from then on. */
  method ReusedId() returns (r: StreamRegistry, first: Stream, last: Stream)
    ensures first != last && first.id == last.id == 0 && r.Streams == map[0 := last]
    ensures !r.Valid()
  {
    hide Counted, Labelled, Placed, Uint64;
    r, first := RegisterFirst();
    var i := 1;
    while i < TWO_64
      invariant i <= TWO_64 && fresh(r) && Outlives(r, first) && |r.registered| == i
    {
      ComeAndGo(r, first);
      i := i + 1;
    }
    last := RegisterAgain(r, first);
  }
}
