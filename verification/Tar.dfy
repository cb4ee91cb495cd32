/**
 Tar export: the reader that streams a tree of header nodes as a tar archive (tar/format.go).
 */
module Tar {
  import opened Prelude

  datatype Error = NotFound | NotProtobuf | NotAFile | ReadFailed | NotATarchive

  // ----- the DAG behind the archive

  datatype Fetch = Found(node: Node) | Missing(err: Error)

  datatype Link = Link(name: string, target: Fetch)

  /**
   A protobuf node has data and named links. `content` is what a DAG reader on the node delivers: bytes, and
   then either the end of the file or an error; or the error of opening the reader.
   */
  datatype Node =
    | ProtoNode(data: Bytes, links: seq<Link>, content: Content)
    | OtherNode

  datatype Content = Readable(bytes: Bytes, failure: Option<Error>) | Unreadable(err: Error)

  function FindLink(links: seq<Link>, name: string): Option<Link> {
    if links == [] then None
    else if links[0].name == name then Some(links[0])
    else FindLink(links[1..], name)
  }

  function AsProto(f: Fetch): Option<Error> {
    if f.Missing? then Some(f.err) else if f.node.OtherNode? then Some(NotProtobuf) else None
  }

  const TARCHIVE: Bytes := [0x69, 0x70, 0x66, 0x73, 0x2f, 0x74, 0x61, 0x72]

  /** What bytes spell. */
  function Text(b: Bytes): (t: string)
    ensures |t| == |b|
  {
    seq(|b|, i requires 0 <= i < |b| => b[i] as char)
  }

  lemma TarchiveText(b: Bytes)
    ensures b == TARCHIVE <==> Text(b) == "ipfs/tar"
  {
    if Text(b) == "ipfs/tar" {
      forall i | 0 <= i < |b| ensures b[i] == TARCHIVE[i] {
        assert Text(b)[i] == b[i] as char == "ipfs/tar"[i];
      }
    }
  }

  // ----- the archive, declaratively

  const BLOCK_SIZE: nat := 512

  function PadLength(size: nat): nat {
    (BLOCK_SIZE - size % BLOCK_SIZE) % BLOCK_SIZE
  }

  function Zeros(n: nat): (z: Bytes)
    ensures |z| == n && forall i :: 0 <= i < n ==> z[i] == 0
  {
    seq(n, _ => 0)
  }

  /** A stream of bytes that ends normally or, if `failure` is set, with an error. */
  datatype Archive = Archive(bytes: Bytes, failure: Option<Error>)

  const EMPTY := Archive([], None)

  function Then(a: Archive, b: Archive): Archive {
    if a.failure.Some? then a else Archive(a.bytes + b.bytes, b.failure)
  }

  /** The archive of a list of links is the archives of the links, one after the other. */
  function Export(links: seq<Link>): Archive {
    if links == [] then EMPTY else Then(ExportLink(links[0]), Export(links[1..]))
  }

  /** A header, then the padded file behind the link named "data", or else everything below the header. */
  function ExportLink(l: Link): Archive {
    var bad := AsProto(l.target);
    if bad.Some? then Archive([], bad)
    else
      var header := l.target.node;
      var d := FindLink(header.links, "data");
      if d.None? then Then(Archive(header.data, None), Export(header.links))
      else
        var badData := AsProto(d.value.target);
        if badData.Some? then Archive([], badData)
        else match d.value.target.node.content
          case Unreadable(e) => Archive([], Some(e))
          case Readable(bytes, failure) =>
            Then(Archive(header.data, None), ExportFile(bytes, failure, |bytes|))
  }

  /** What is left of a file of `size` bytes when `rest` has not been delivered yet. */
  function ExportFile(rest: Bytes, failure: Option<Error>, size: nat): Archive {
    if failure.Some? then Archive(rest, failure) else Archive(rest + Zeros(PadLength(size)), None)
  }

  lemma ThenAssociative(a: Archive, b: Archive, c: Archive)
    ensures Then(Then(a, b), c) == Then(a, Then(b, c))
  {
    assert (a.bytes + b.bytes) + c.bytes == a.bytes + (b.bytes + c.bytes);
  }

  // ----- how many reads an archive can take

  function LinksWork(links: seq<Link>): nat {
    if links == [] then 0 else LinkWork(links[0]) + LinksWork(links[1..])
  }

  function LinkWork(l: Link): nat {
    if AsProto(l.target).Some? then 1
    else
      var header := l.target.node;
      var d := FindLink(header.links, "data");
      |header.data| + 2 +
      if d.None? then 1 + LinksWork(header.links)
      else if AsProto(d.value.target).None? && d.value.target.node.content.Readable? then
        |d.value.target.node.content.bytes| + 1 + BLOCK_SIZE
      else 0
  }

  // ----- the reader

  /** A DAG reader part way through a file, with the count of bytes it has delivered. */
  datatype CountReader = CountReader(rest: Bytes, failure: Option<Error>, n: nat)

  datatype Status = More | Eof | Failed(err: Error)

  /** What a read promises: the bytes it delivers and what is left make up what there was. */
  ghost predicate Delivers(before: Archive, got: Bytes, status: Status, after: Archive) {
    match status
    case More => before == Then(Archive(got, None), after)
    case Eof => got == [] && before == EMPTY
    case Failed(e) => before == Archive(got, Some(e))
  }

  /** What is left of a reader's fields: header, then child, then file, then padding, then the other links. */
  ghost function Left(hdr: Option<Bytes>, child: Archive, file: Option<CountReader>, pad: nat,
                      links: seq<Link>): Archive {
    Then(Archive(if hdr.Some? then hdr.value else [], None), Then(child, Then(FileLeft(file, pad), Export(links))))
  }

  ghost function FileLeft(file: Option<CountReader>, pad: nat): Archive {
    if file.None? then Archive(Zeros(pad), None)
    else ExportFile(file.value.rest, file.value.failure, file.value.n + |file.value.rest|)
  }

  lemma LeftHeader(h: Bytes, n: nat, child: Archive, file: Option<CountReader>, pad: nat, links: seq<Link>)
    requires n <= |h|
    ensures Left(Some(h), child, file, pad, links) ==
      Then(Archive(h[..n], None), Left(Some(h[n..]), child, file, pad, links))
    ensures h == [] ==> Left(Some(h), child, file, pad, links) == Left(None, child, file, pad, links)
  {
    hide FileLeft;
    assert h == h[..n] + h[n..];
    var later := Then(child, Then(FileLeft(file, pad), Export(links)));
    ThenAssociative(Archive(h[..n], None), Archive(h[n..], None), later);
  }

  lemma LeftChild(child: Archive, got: Bytes, status: Status, child': Archive,
                  file: Option<CountReader>, pad: nat, links: seq<Link>)
    requires Delivers(child, got, status, child')
    ensures Delivers(Left(None, child, file, pad, links), got, if status.Eof? then More else status,
                     Left(None, if status.Eof? then EMPTY else child', file, pad, links))
  {
    hide FileLeft, Export;
    ThenAssociative(Archive(got, None), child', Then(FileLeft(file, pad), Export(links)));
  }

  lemma LeftFile(r: CountReader, n: nat, links: seq<Link>)
    requires n <= |r.rest|
    ensures Left(None, EMPTY, Some(r), 0, links) ==
      Then(Archive(r.rest[..n], None), Left(None, EMPTY, Some(CountReader(r.rest[n..], r.failure, r.n + n)), 0, links))
    ensures n == |r.rest| && r.failure.Some? ==> Left(None, EMPTY, Some(r), 0, links) == Archive(r.rest[..n], r.failure)
    ensures n == |r.rest| && r.failure.None? ==>
      Left(None, EMPTY, Some(r), 0, links) ==
        Then(Archive(r.rest[..n], None), Left(None, EMPTY, None, PadLength(r.n + n), links))
  {
    hide Export, FileLeft, Left;
    var r' := CountReader(r.rest[n..], r.failure, r.n + n);
    FileLeftSplit(r, n);
    LeftPlain(Some(r), 0, links);
    LeftPlain(Some(r'), 0, links);
    ThenAssociative(Archive(r.rest[..n], None), FileLeft(Some(r'), 0), Export(links));
    if n == |r.rest| && r.failure.None? {
      LeftPlain(None, PadLength(r.n + n), links);
      ThenAssociative(Archive(r.rest[..n], None), FileLeft(None, PadLength(r.n + n)), Export(links));
    }
  }

  lemma LeftPlain(file: Option<CountReader>, pad: nat, links: seq<Link>)
    ensures Left(None, EMPTY, file, pad, links) == Then(FileLeft(file, pad), Export(links))
  {
    hide Export, FileLeft;
  }

  /** A file comes in parts, and ends with its error or with its padding. */
  lemma FileLeftSplit(r: CountReader, n: nat)
    requires n <= |r.rest|
    ensures FileLeft(Some(r), 0) ==
      Then(Archive(r.rest[..n], None), FileLeft(Some(CountReader(r.rest[n..], r.failure, r.n + n)), 0))
    ensures n == |r.rest| && r.failure.Some? ==> FileLeft(Some(r), 0) == Archive(r.rest[..n], r.failure)
    ensures n == |r.rest| && r.failure.None? ==>
      FileLeft(Some(r), 0) == Then(Archive(r.rest[..n], None), FileLeft(None, PadLength(r.n + n)))
  {
    assert r.rest == r.rest[..n] + r.rest[n..];
  }

  lemma LeftPad(pad: nat, n: nat, got: Bytes, links: seq<Link>)
    requires n <= pad && |got| == n && forall i :: 0 <= i < n ==> got[i] == 0
    ensures Left(None, EMPTY, None, pad, links) == Then(Archive(got, None), Left(None, EMPTY, None, pad - n, links))
  {
    hide Export;
    assert Zeros(pad) == got + Zeros(pad - n);
    ThenAssociative(Archive(got, None), Archive(Zeros(pad - n), None), Export(links));
  }

  /** What the lookups behind a link find. A fault in the data link leaves the header behind. */
  datatype Opened =
    | Fault(err: Error, left: Option<Bytes>)
    | WithFile(header: Bytes, reader: CountReader)
    | WithLinks(header: Bytes, links: seq<Link>)

  function Open(l: Link): Opened {
    var bad := AsProto(l.target);
    if bad.Some? then Fault(bad.value, None)
    else
      var header := l.target.node;
      var d := FindLink(header.links, "data");
      if d.None? then WithLinks(header.data, header.links)
      else if AsProto(d.value.target).Some? then Fault(AsProto(d.value.target).value, Some(header.data))
      else match d.value.target.node.content
        case Unreadable(e) => Fault(e, Some(header.data))
        case Readable(bytes, failure) => WithFile(header.data, CountReader(bytes, failure, 0))
  }

  lemma ExportLinkOpen(l: Link)
    ensures ExportLink(l) ==
      match Open(l)
      case Fault(e, _) => Archive([], Some(e))
      case WithFile(h, r) => Then(Archive(h, None), FileLeft(Some(r), 0))
      case WithLinks(h, ls) => Then(Archive(h, None), Export(ls))
  {
    hide Then, ExportFile, Export, FindLink;
  }

  /** Taking up a link puts its header and its file or children where the reader will look for them. */
  lemma LeftNext(links: seq<Link>)
    requires links != []
    ensures Left(None, EMPTY, None, 0, links) ==
      match Open(links[0])
      case Fault(e, _) => Archive([], Some(e))
      case WithFile(h, r) => Left(Some(h), EMPTY, Some(r), 0, links[1..])
      case WithLinks(h, ls) => Left(Some(h), Export(ls), None, 0, links[1..])
  {
    hide Export, ExportLink, FileLeft, Left, Open;
    LeftNothing(links);
    ExportUnfold(links);
    ExportLinkOpen(links[0]);
    var rest := Export(links[1..]);
    match Open(links[0]) {
      case Fault(_, _) =>
      case WithFile(h, r) =>
        LeftWithFile(h, r, links[1..]);
        ThenAssociative(Archive(h, None), FileLeft(Some(r), 0), rest);
      case WithLinks(h, ls) =>
        LeftWithLinks(h, Export(ls), links[1..]);
        ThenAssociative(Archive(h, None), Export(ls), rest);
    }
  }

  lemma LeftNothing(links: seq<Link>)
    ensures Left(None, EMPTY, None, 0, links) == Export(links)
  {
    hide Export;
  }

  lemma LeftWithFile(h: Bytes, r: CountReader, links: seq<Link>)
    ensures Left(Some(h), EMPTY, Some(r), 0, links) ==
      Then(Archive(h, None), Then(FileLeft(Some(r), 0), Export(links)))
  {
    hide Export, FileLeft;
  }

  lemma LeftWithLinks(h: Bytes, child: Archive, links: seq<Link>)
    ensures Left(Some(h), child, None, 0, links) == Then(Archive(h, None), Then(child, Export(links)))
  {
    hide Export;
  }

  lemma WorkNext(links: seq<Link>)
    requires links != []
    ensures LinksWork(links) > LinksWork(links[1..]) +
      match Open(links[0])
      case Fault(_, _) => 0
      case WithFile(h, r) => |h| + 1 + |r.rest| + 1 + BLOCK_SIZE
      case WithLinks(h, ls) => |h| + 1 + LinksWork(ls) + 1
  {
    assert LinksWork(links) == LinkWork(links[0]) + LinksWork(links[1..]);
    hide FindLink;
  }

  lemma ExportUnfold(links: seq<Link>)
    requires links != []
    ensures Export(links) == Then(ExportLink(links[0]), Export(links[1..]))
  {
  }

  /** Delivers at least one byte unless the file or the buffer is at its end; the end may come with the last bytes. */
  method ReadFile(r: CountReader, b: array<byte>) returns (n: nat, status: Status, r': CountReader)
    modifies b
    ensures n <= b.Length && n <= |r.rest|
    ensures b[..n] == r.rest[..n] && r' == CountReader(r.rest[n..], r.failure, r.n + n)
    ensures status.More? && 0 < b.Length ==> 0 < n
    ensures !status.More? ==> n == |r.rest| && status == if r.failure.Some? then Failed(r.failure.value) else Eof
  {
    n :| 0 <= n <= b.Length && n <= |r.rest| && (0 < b.Length && 0 < |r.rest| ==> 0 < n);
    forall i | 0 <= i < n {
      b[i] := r.rest[i];
    }
    var more := *;
    if n < |r.rest| || (more && 0 < n) || b.Length == 0 {
      status := More;
    } else {
      status := if r.failure.Some? then Failed(r.failure.value) else Eof;
    }
    r' := CountReader(r.rest[n..], r.failure, r.n + n);
  }

  method CopyInto(src: Bytes, b: array<byte>)
    requires |src| <= b.Length
    modifies b
    ensures b[..|src|] == src
  {
    forall i | 0 <= i < |src| {
      b[i] := src[i];
    }
  }

  class TarReader {
    var links: seq<Link>
    var childRead: TarReader?
    var hdrBuf: Option<Bytes>
    var fileRead: Option<CountReader>
    var pad: nat
    ghost var Repr: set<TarReader>

    ghost predicate Valid()
      reads this, Repr
      decreases Repr
    {
      && this in Repr
      && (fileRead.Some? ==> pad == 0)
      && (childRead != null ==>
            childRead in Repr && childRead.Repr <= Repr && this !in childRead.Repr && childRead.Valid())
    }

    /** Everything this reader has still to deliver. */
    ghost function Rest(): Archive
      requires Valid()
      reads this, Repr
      decreases Repr
    {
      Left(hdrBuf, if childRead != null then childRead.Rest() else EMPTY, fileRead, pad, links)
    }

    /** A bound on the reads that are still to come. */
    ghost function Work(): nat
      requires Valid()
      reads this, Repr
      decreases Repr
    {
      (if hdrBuf.Some? then |hdrBuf.value| + 1 else 0)
      + (if childRead != null then childRead.Work() + 1 else 0)
      + (if fileRead.Some? then |fileRead.value.rest| + 1 + BLOCK_SIZE else 0)
      + pad
      + LinksWork(links)
    }

    constructor (links: seq<Link>)
      ensures Valid() && fresh(Repr)
      ensures Rest() == Export(links) && Work() == LinksWork(links)
    {
      this.links := links;
      childRead, hdrBuf, fileRead, pad := null, None, None, 0;
      Repr := {this};
    }

    /** The next bytes of the archive, or its end. */
    method Read(b: array<byte>) returns (n: nat, status: Status)
      requires Valid()
      modifies Repr, b
      ensures Valid() && fresh(Repr - old(Repr)) && n <= b.Length
      ensures Delivers(old(Rest()), b[..n], status, Rest())
      ensures status.More? && 0 < b.Length ==> Work() < old(Work())
      decreases Work()
    {
      hide Then, Left, Export;
      if hdrBuf.Some? {
        n := ReadHeader(b);
        return n, More;
      }
      if childRead != null {
        ghost var child := childRead.Rest();
        n, status := childRead.Read(b);
        LeftChild(child, b[..n], status, childRead.Rest(), fileRead, pad, links);
        Repr := Repr + childRead.Repr;
        if status.Eof? {
          childRead := null;
          return n, More;
        }
        return n, status;
      }
      if fileRead.Some? {
        n, status := ReadData(b);
        return n, status;
      }
      if 0 < pad {
        n := ReadPad(b);
        return n, More;
      }
      status := Next();
      if status != More {
        return 0, status;
      }
      n, status := Read(b);
    }

    method ReadHeader(b: array<byte>) returns (n: nat)
      requires Valid() && hdrBuf.Some?
      modifies this, b
      ensures Valid() && Repr == old(Repr) && n <= b.Length
      ensures Delivers(old(Rest()), b[..n], More, Rest())
      ensures 0 < b.Length ==> Work() < old(Work())
    {
      hide Then, Left, Export, FileLeft, LinksWork;
      var h := hdrBuf.value;
      ghost var child := if childRead != null then childRead.Rest() else EMPTY;
      n := if |h| < b.Length then |h| else b.Length;
      LeftHeader(h, n, child, fileRead, pad, links);
      if h == [] {
        hdrBuf := None;
        return 0;
      }
      CopyInto(h[..n], b);
      hdrBuf := Some(h[n..]);
    }

    method ReadData(b: array<byte>) returns (n: nat, status: Status)
      requires Valid() && hdrBuf.None? && childRead == null && fileRead.Some?
      modifies this, b
      ensures Valid() && Repr == old(Repr) && n <= b.Length && !status.Eof?
      ensures Delivers(old(Rest()), b[..n], status, Rest())
      ensures status.More? && 0 < b.Length ==> Work() < old(Work())
    {
      hide Then, Left, Export;
      var r;
      n, status, r := ReadFile(fileRead.value, b);
      LeftFile(fileRead.value, n, links);
      if status.Eof? {
        pad := (BLOCK_SIZE - r.n % BLOCK_SIZE) % BLOCK_SIZE;
        fileRead := None;
        return n, More;
      }
      fileRead := Some(r);
    }

    method ReadPad(b: array<byte>) returns (n: nat)
      requires Valid() && hdrBuf.None? && childRead == null && fileRead.None? && 0 < pad
      modifies this, b
      ensures Valid() && Repr == old(Repr) && n <= b.Length
      ensures Delivers(old(Rest()), b[..n], More, Rest())
      ensures 0 < b.Length ==> Work() < old(Work())
    {
      hide Then, Left, Export;
      n := if pad < b.Length then pad else b.Length;
      forall i | 0 <= i < n {
        b[i] := 0;
      }
      LeftPad(pad, n, b[..n], links);
      pad := pad - n;
    }

    /** Takes up the next link: its header, and the file or the children behind it. */
    method Next() returns (status: Status)
      requires Valid() && hdrBuf.None? && childRead == null && fileRead.None? && pad == 0
      modifies this
      ensures Valid() && fresh(Repr - old(Repr))
      ensures status.More? ==> Rest() == old(Rest()) && Work() < old(Work())
      ensures !status.More? ==> Delivers(old(Rest()), [], status, EMPTY)
    {
      if links == [] {
        return Eof;
      }
      LeftNext(links);
      WorkNext(links);
      hide Then, Left, Export, LinksWork, Open;
      var next := Open(links[0]);
      links := links[1..];
      match next {
        case Fault(e, left) =>
          hdrBuf := left;
          return Failed(e);
        case WithFile(header, reader) =>
          hdrBuf, fileRead := Some(header), Some(reader);
        case WithLinks(header, ls) =>
          hdrBuf := Some(header);
          Descend(ls);
      }
      return More;
    }

    /** A nested reader takes over the children of a header that has any. */
    method Descend(ls: seq<Link>)
      requires Valid() && childRead == null && fileRead.None? && pad == 0
      modifies this`childRead, this`Repr
      ensures Valid() && fresh(Repr - old(Repr))
      ensures Rest() == Left(hdrBuf, Export(ls), None, 0, links)
      ensures Work() <= old(Work()) + LinksWork(ls) + 1
    {
      hide Then, Left;
      if ls != [] {
        childRead := new TarReader(ls);
        Repr := Repr + childRead.Repr;
      }
    }
  }

  lemma ThenEmpty(a: Archive)
    ensures Then(EMPTY, a) == a
  {
  }

  lemma ThenDelivers(bytes: Bytes, before: Archive, got: Bytes, status: Status, after: Archive)
    requires Delivers(before, got, status, after)
    ensures Then(Archive(bytes, None), before) ==
      match status
      case More => Then(Archive(bytes + got, None), after)
      case Eof => Archive(bytes + got, None)
      case Failed(e) => Archive(bytes + got, Some(e))
  {
    ThenAssociative(Archive(bytes, None), Archive(got, None), after);
  }

  /** Opens the archive below a root node. */
  method ExportTar(root: Node) returns (r: TarReader?, err: Option<Error>)
    requires root.ProtoNode?
    ensures err.None? <==> Text(root.data) == "ipfs/tar"
    ensures err.None? <==> r != null
    ensures err.Some? ==> err.value == NotATarchive
    ensures r != null ==>
      r.Valid() && fresh(r.Repr) && r.Rest() == Export(root.links) && r.Work() == LinksWork(root.links)
  {
    TarchiveText(root.data);
    if root.data != TARCHIVE {
      return null, Some(NotATarchive);
    }
    r := new TarReader(root.links);
    err := None;
  }

  /** Opens an archive and reads it to its end with buffers of any size. */
  method ReadAll(root: Node) returns (bytes: Bytes, failure: Option<Error>, calls: nat)
    requires root.ProtoNode?
    ensures Archive(bytes, failure) ==
      if Text(root.data) == "ipfs/tar" then Export(root.links) else Archive([], Some(NotATarchive))
    ensures calls <= LinksWork(root.links) + 1
  {
    hide Then, Export, LinksWork, Text;
    var r, err := ExportTar(root);
    bytes, calls := [], 0;
    if err.Some? {
      return bytes, err, calls;
    }
    ThenEmpty(r.Rest());
    while true
      invariant r.Valid() && fresh(r.Repr)
      invariant Export(root.links) == Then(Archive(bytes, None), r.Rest())
      invariant calls + r.Work() <= LinksWork(root.links)
      decreases r.Work()
    {
      var size: nat :| 0 < size;
      var b := new byte[size];
      ghost var before := r.Rest();
      var n, status := r.Read(b);
      calls := calls + 1;
      ThenDelivers(bytes, before, b[..n], status, r.Rest());
      bytes := bytes + b[..n];
      match status {
        case More =>
        case Eof => return bytes, None, calls;
        case Failed(e) => return bytes, Some(e), calls;
      }
    }
  }
}
