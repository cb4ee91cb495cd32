/**
 What a tar export is, said without the reader: a grammar for the archives of a tree and for where they break off
 (tar/format.go). The export that the reader delivers is exactly what the grammar describes.
 */
module TarFormat {
  import opened Prelude
  import opened Tar

  /** `p` is the file, filled up with zeros to the next multiple of 512 bytes. */
  ghost predicate Padded(p: Bytes, file: Bytes) {
    && file <= p && |p| % 512 == 0 && |p| < |file| + 512
    && forall i :: |file| <= i < |p| ==> p[i] == 0
  }

  lemma PadToBlock(size: nat)
    ensures (size + PadLength(size)) % 512 == 0 && PadLength(size) < 512
  {
  }

  /** There is one way to pad a file, and the export uses it. */
  lemma PaddedIsExport(p: Bytes, file: Bytes)
    ensures Padded(p, file) <==> ExportFile(file, None, |file|) == Archive(p, None)
  {
    PadToBlock(|file|);
    hide PadLength;
    var q := file + Zeros(PadLength(|file|));
    if Padded(p, file) {
      SameMultiple(|file|, |p|, |q|);
      assert p == q;
    }
  }

  lemma SameMultiple(n: nat, a: nat, b: nat)
    requires n <= a < n + 512 && a % 512 == 0 && n <= b < n + 512 && b % 512 == 0
    ensures a == b
  {
  }

  /** The first link with a name. */
  ghost predicate IsFirst(links: seq<Link>, name: string, i: nat) {
    i < |links| && links[i].name == name && forall j :: 0 <= j < i ==> links[j].name != name
  }

  lemma {:induction false} FindLinkIsFirst(links: seq<Link>, name: string)
    ensures FindLink(links, name).None? <==> forall i: nat :: !IsFirst(links, name, i)
    ensures forall i: nat :: IsFirst(links, name, i) ==> FindLink(links, name) == Some(links[i])
  {
    if links != [] {
      if links[0].name == name {
        assert IsFirst(links, name, 0);
      } else {
        FindLinkIsFirst(links[1..], name);
        forall i: nat | IsFirst(links[1..], name, i) ensures IsFirst(links, name, i + 1) {
          assert forall j :: 0 < j <= i ==> links[j] == links[1..][j - 1];
        }
        forall i: nat | IsFirst(links, name, i) ensures 0 < i && IsFirst(links[1..], name, i - 1) {
        }
      }
    }
  }

  // ----- the grammar

  /** The archive of a list of links: the archives of the links, one after the other. */
  ghost predicate IsTar(links: seq<Link>, bytes: Bytes) {
    if links == [] then bytes == []
    else exists m :: 0 <= m <= |bytes| && IsEntry(links[0], bytes[..m]) && IsTar(links[1..], bytes[m..])
  }

  /** A header, then the padded file behind its first link named "data", or else the archive of its links. */
  ghost predicate IsEntry(l: Link, bytes: Bytes) {
    && l.target.Found? && l.target.node.ProtoNode?
    && var header := l.target.node;
       && header.data <= bytes
       && var rest := bytes[|header.data|..];
          if exists i: nat :: IsFirst(header.links, "data", i) then
            exists i: nat, file :: IsFirst(header.links, "data", i) && IsFile(header.links[i].target, file) &&
                                   Padded(rest, file)
          else IsTar(header.links, rest)
  }

  ghost predicate IsFile(t: Fetch, file: Bytes) {
    t.Found? && t.node.ProtoNode? && t.node.content == Readable(file, None)
  }

  /** Reading breaks off with an error after some bytes. */
  ghost predicate BreaksOff(links: seq<Link>, bytes: Bytes, e: Error) {
    && links != []
    && (|| EntryBreaksOff(links[0], bytes, e)
        || exists m :: 0 <= m <= |bytes| && IsEntry(links[0], bytes[..m]) && BreaksOff(links[1..], bytes[m..], e))
  }

  /** A node that cannot be had, or is of another kind, yields nothing, not even its header. */
  ghost predicate EntryBreaksOff(l: Link, bytes: Bytes, e: Error) {
    if !(l.target.Found? && l.target.node.ProtoNode?) then bytes == [] && IsFault(l.target, e)
    else
      var header := l.target.node;
      if exists i: nat :: IsFirst(header.links, "data", i) then
        exists i: nat ::
          IsFirst(header.links, "data", i) && FileBreaksOff(header.data, header.links[i].target, bytes, e)
      else header.data <= bytes && BreaksOff(header.links, bytes[|header.data|..], e)
  }

  ghost predicate IsFault(t: Fetch, e: Error) {
    t == Missing(e) || (t == Found(OtherNode) && e == NotProtobuf)
  }

  ghost predicate FileBreaksOff(header: Bytes, t: Fetch, bytes: Bytes, e: Error) {
    || (bytes == [] && IsFault(t, e))
    || (t.Found? && t.node.ProtoNode? &&
        match t.node.content
        case Unreadable(err) => bytes == [] && e == err
        case Readable(file, failure) => bytes == header + file && failure == Some(e))
  }

  // ----- the export follows it

  lemma HeaderThen(h: Bytes, a: Archive, bytes: Bytes, failure: Option<Error>)
    ensures Then(Archive(h, None), a) == Archive(bytes, failure) <==>
      h <= bytes && a == Archive(bytes[|h|..], failure)
  {
    if h <= bytes {
      assert bytes == h + bytes[|h|..];
    }
    assert (h + a.bytes)[|h|..] == a.bytes;
  }

  /** Two parts make up the whole in one way only. */
  lemma ThenParts(a: Archive, b: Archive, bytes: Bytes, failure: Option<Error>)
    ensures Then(a, b) == Archive(bytes, failure) <==>
      || (a.failure.Some? && a == Archive(bytes, failure))
      || exists m :: 0 <= m <= |bytes| && a == Archive(bytes[..m], None) && b == Archive(bytes[m..], failure)
  {
    if a.failure.None? && Then(a, b) == Archive(bytes, failure) {
      var m := |a.bytes|;
      assert bytes[..m] == a.bytes && bytes[m..] == b.bytes;
    }
    forall m | 0 <= m <= |bytes| ensures bytes == bytes[..m] + bytes[m..] {
    }
  }

  /** An archive that ends well is one the grammar describes, and the other way round. */
  lemma {:induction false} ExportIsTar(links: seq<Link>, bytes: Bytes)
    ensures IsTar(links, bytes) <==> Export(links) == Archive(bytes, None)
    decreases links, 1
  {
    if links != [] {
      ExportUnfold(links);
      forall m | 0 <= m <= |bytes|
        ensures IsEntry(links[0], bytes[..m]) <==> ExportLink(links[0]) == Archive(bytes[..m], None)
        ensures IsTar(links[1..], bytes[m..]) <==> Export(links[1..]) == Archive(bytes[m..], None)
      {
        EntryIsExport(links[0], bytes[..m]);
        ExportIsTar(links[1..], bytes[m..]);
      }
      hide IsEntry, Export, ExportLink, Then;
      ThenParts(ExportLink(links[0]), Export(links[1..]), bytes, None);
    }
  }

  lemma {:induction false} EntryIsExport(l: Link, bytes: Bytes)
    ensures IsEntry(l, bytes) <==> ExportLink(l) == Archive(bytes, None)
    decreases l, 0
  {
    if l.target.Found? && l.target.node.ProtoNode? {
      var header := l.target.node;
      FindLinkIsFirst(header.links, "data");
      if i: nat :| IsFirst(header.links, "data", i) {
        EntryWithFile(l, bytes, i);
      } else {
        if header.data <= bytes {
          ExportIsTar(header.links, bytes[|header.data|..]);
        }
        HeaderThen(header.data, Export(header.links), bytes, None);
        hide FindLink, IsTar, Export, Then, IsFirst;
      }
    }
  }

  lemma EntryWithFile(l: Link, bytes: Bytes, i: nat)
    requires l.target.Found? && l.target.node.ProtoNode? && IsFirst(l.target.node.links, "data", i)
    ensures IsEntry(l, bytes) <==> ExportLink(l) == Archive(bytes, None)
  {
    var header := l.target.node;
    var t := header.links[i].target;
    FindLinkIsFirst(header.links, "data");
    OneFirst(header.links, "data");
    hide FindLink, IsFirst, IsTar, Export, Padded, ExportFile, Then;
    if t.Found? && t.node.ProtoNode? && t.node.content.Readable? {
      var file, failure := t.node.content.bytes, t.node.content.failure;
      HeaderThen(header.data, ExportFile(file, failure, |file|), bytes, None);
      if header.data <= bytes && failure.None? {
        PaddedIsExport(bytes[|header.data|..], file);
      }
      FailedFile(file, failure);
    }
  }

  lemma OneFirst(links: seq<Link>, name: string)
    ensures forall i: nat, j: nat :: IsFirst(links, name, i) && IsFirst(links, name, j) ==> i == j
  {
  }

  lemma FailedFile(file: Bytes, failure: Option<Error>)
    ensures failure.Some? ==> ExportFile(file, failure, |file|) == Archive(file, failure)
    ensures failure.None? ==> ExportFile(file, failure, |file|).failure.None?
  {
  }

  /** And an archive breaks off where the grammar says so, with the same error. */
  lemma {:induction false} ExportBreaksOff(links: seq<Link>, bytes: Bytes, e: Error)
    ensures BreaksOff(links, bytes, e) <==> Export(links) == Archive(bytes, Some(e))
    decreases links, 1
  {
    if links != [] {
      ExportUnfold(links);
      EntryBreaks(links[0], bytes, e);
      forall m | 0 <= m <= |bytes|
        ensures IsEntry(links[0], bytes[..m]) <==> ExportLink(links[0]) == Archive(bytes[..m], None)
        ensures BreaksOff(links[1..], bytes[m..], e) <==> Export(links[1..]) == Archive(bytes[m..], Some(e))
      {
        EntryIsExport(links[0], bytes[..m]);
        ExportBreaksOff(links[1..], bytes[m..], e);
      }
      hide IsEntry, EntryBreaksOff, Export, ExportLink, Then;
      ThenParts(ExportLink(links[0]), Export(links[1..]), bytes, Some(e));
    }
  }

  lemma {:induction false} EntryBreaks(l: Link, bytes: Bytes, e: Error)
    ensures EntryBreaksOff(l, bytes, e) <==> ExportLink(l) == Archive(bytes, Some(e))
    decreases l, 0
  {
    if l.target.Found? && l.target.node.ProtoNode? {
      var header := l.target.node;
      FindLinkIsFirst(header.links, "data");
      if i: nat :| IsFirst(header.links, "data", i) {
        FileBreaks(l, bytes, e, i);
      } else {
        if header.data <= bytes {
          ExportBreaksOff(header.links, bytes[|header.data|..], e);
        }
        HeaderThen(header.data, Export(header.links), bytes, Some(e));
        hide FindLink, BreaksOff, Export, Then, IsFirst;
      }
    }
  }

  lemma FileBreaks(l: Link, bytes: Bytes, e: Error, i: nat)
    requires l.target.Found? && l.target.node.ProtoNode? && IsFirst(l.target.node.links, "data", i)
    ensures EntryBreaksOff(l, bytes, e) <==> ExportLink(l) == Archive(bytes, Some(e))
  {
    var header := l.target.node;
    var t := header.links[i].target;
    FindLinkIsFirst(header.links, "data");
    OneFirst(header.links, "data");
    hide FindLink, IsFirst, BreaksOff, Export, ExportFile, Then;
    if t.Found? && t.node.ProtoNode? && t.node.content.Readable? {
      var file, failure := t.node.content.bytes, t.node.content.failure;
      HeaderThen(header.data, ExportFile(file, failure, |file|), bytes, Some(e));
      FailedFile(file, failure);
      if header.data <= bytes {
        assert bytes == header.data + bytes[|header.data|..];
      }
      assert (header.data + file)[|header.data|..] == file;
    }
  }
}
