/**
 `ipfs cat`: an offset and a limit applied across several files (core/commands/cat.go).
 */
module Cat {
  import opened Prelude

  datatype Error = GetFailed | IsDir | NotSupported | SizeFailed | SeekFailed

  /** What a path resolves to. The `fault` of a file shows when it is opened: seeking fails, or asking its size. */
  datatype Source = File(bytes: Bytes, fault: Option<Error>) | Other(err: Error)

  /** A file that has been seeked to `from`, with or without a limit on what is read of it. */
  datatype Reader = Reader(file: Bytes, from: nat, limit: Option<nat>)

  const TWO_63: nat := 0x8000_0000_0000_0000
  const TWO_64: nat := 0x1_0000_0000_0000_0000

  /** File sizes are int64. */
  predicate Sized(files: seq<Source>) {
    forall i :: 0 <= i < |files| && files[i].File? ==> |files[i].bytes| < TWO_63
  }

  // ----- the bytes asked for

  function Take(b: Bytes, n: nat): Bytes {
    if n < |b| then b[..n] else b
  }

  function Drop(b: Bytes, n: nat): Bytes {
    if n < |b| then b[n..] else []
  }

  /** A negative limit is no limit. */
  function Window(b: Bytes, offset: nat, max: int): Bytes {
    if max < 0 then Drop(b, offset) else Take(Drop(b, offset), max)
  }

  function Content(files: seq<Source>): Bytes {
    if files == [] then []
    else Content(files[..|files| - 1]) + (if files[|files| - 1].File? then files[|files| - 1].bytes else [])
  }

  /** What one reader yields. */
  function Part(r: Reader): Bytes {
    if r.limit.Some? then Take(Drop(r.file, r.from), r.limit.value) else Drop(r.file, r.from)
  }

  /** What the readers yield one after the other. */
  function Delivered(readers: seq<Reader>): Bytes {
    if readers == [] then [] else Delivered(readers[..|readers| - 1]) + Part(readers[|readers| - 1])
  }

  /** What goes wrong with the `i`-th path. A file that lies before the offset is not opened. */
  function Failure(files: seq<Source>, i: nat, offset: nat): Option<Error>
    requires i < |files|
  {
    if files[i].Other? then Some(files[i].err)
    else if |Content(files[..i + 1])| < offset then None
    else files[i].fault
  }

  /** Nothing goes wrong with the first `n` paths. */
  predicate Fine(files: seq<Source>, n: nat, offset: nat)
    requires n <= |files|
  {
    forall i :: 0 <= i < n ==> Failure(files, i, offset).None?
  }

  lemma FineNone(files: seq<Source>, offset: nat)
    ensures Fine(files, 0, offset)
  {
  }

  lemma FineNext(files: seq<Source>, n: nat, offset: nat)
    requires n < |files| && Fine(files, n, offset) && Sized(files)
    ensures files[n].File? ==> |files[n].bytes| < TWO_63
    ensures Failure(files, n, offset).None? ==> Fine(files, n + 1, offset)
    ensures files[n].Other? ==> Failure(files, n, offset) == Some(files[n].err)
    ensures files[n].File? ==>
      Failure(files, n, offset) == if |Content(files[..n])| + |files[n].bytes| < offset then None else files[n].fault
  {
    hide Content;
    if files[n].File? {
      ContentMore(files, n);
    }
  }

  lemma ContentMore(files: seq<Source>, i: nat)
    requires i < |files| && files[i].File?
    ensures Content(files[..i + 1]) == Content(files[..i]) + files[i].bytes
  {
    assert files[..i + 1][..i] == files[..i];
  }

  lemma DeliveredMore(readers: seq<Reader>, r: Reader)
    ensures Delivered(readers + [r]) == Delivered(readers) + Part(r)
  {
    assert (readers + [r])[..|readers|] == readers;
  }

  lemma DropMore(b: Bytes, c: Bytes, offset: nat)
    ensures Drop(b + c, offset) == Drop(b, offset) + Drop(c, if offset < |b| then 0 else offset - |b|)
    ensures |b| + |c| <= offset ==> Drop(b + c, offset) == Drop(b, offset)
  {
  }

  lemma LimitReached(got: Bytes, r: Reader, size: nat, max: nat)
    requires r.limit.None? && r.from <= |r.file| && size == |r.file| - r.from
    requires |got| < max <= |got| + size
    ensures got + Part(r.(limit := Some(max - |got|))) == Take(got + Part(r), max)
    ensures max == |got| + size ==> got + Part(r) == Take(got + Part(r), max)
    ensures |Take(got + Part(r), max)| == max
  {
  }

  /** Once the limit is reached, further files change nothing. */
  lemma {:induction false} WindowFull(files: seq<Source>, n: nat, offset: nat, max: nat)
    requires n <= |files| && max <= |Drop(Content(files[..n]), offset)|
    ensures Window(Content(files), offset, max) == Window(Content(files[..n]), offset, max)
    decreases |files|
  {
    if n < |files| {
      var init := files[..|files| - 1];
      assert init[..n] == files[..n];
      WindowFull(init, n, offset, max);
      DropMore(Content(init), if files[|files| - 1].File? then files[|files| - 1].bytes else [], offset);
      DropPrefix(files, n, offset);
    } else {
      assert files[..n] == files;
    }
  }

  lemma {:induction false} DropPrefix(files: seq<Source>, n: nat, offset: nat)
    requires n <= |files|
    ensures |Drop(Content(files[..n]), offset)| <= |Drop(Content(files), offset)|
    decreases |files|
  {
    if n < |files| {
      var init := files[..|files| - 1];
      assert init[..n] == files[..n];
      DropPrefix(init, n, offset);
    } else {
      assert files[..n] == files;
    }
  }

  lemma WindowCases(b: Bytes, offset: nat, max: int)
    ensures max < 0 || |Drop(b, offset)| <= max ==> Window(b, offset, max) == Drop(b, offset)
    ensures 0 <= max ==> Window(b, offset, max) == Take(Drop(b, offset), max)
  {
  }

  // ----- the command

  /** The uint64 that a count becomes. */
  function Uint64(n: nat): nat {
    n % TWO_64
  }

  lemma AddWraps(a: nat, b: nat)
    ensures Uint64(Uint64(a) + b) == Uint64(a + b)
    ensures a + b < TWO_64 ==> Uint64(a + b) == a + b
    ensures Uint64(a) == a % 0x1_0000_0000_0000_0000
  {
  }

  /** Opens a file at its offset, limiting the reader if the bytes got so far and the file reach the limit. */
  method OpenAt(file: Bytes, off: nat, max: int, length0: nat, ghost got: Bytes)
    returns (r: Reader, length: nat, full: bool)
    requires off <= |file| < TWO_63 && max < TWO_63 && max != 0
    requires length0 == Uint64(|got|) && (0 < max ==> |got| < max)
    ensures full <==> 0 < max <= |got + Drop(file, off)|
    ensures length == Uint64(|got + Part(r)|)
    ensures full ==> got + Part(r) == Take(got + Drop(file, off), max)
    ensures !full ==> Part(r) == Drop(file, off)
  {
    r := Reader(file, off, None);
    var size := |file| - off;
    PartWhole(r);
    AddWraps(|got|, size);
    length := Uint64(length0 + size);
    full := max > 0 && length >= max;
    if full {
      LimitReached(got, r, size, max);
      var overshoot := length - max;
      if overshoot != 0 {
        r := r.(limit := Some(size - overshoot));
        length := max;
      }
    }
  }

  /** `used` is the number of paths taken. The limit may be reached before a path that fails is met. */
  method Cat(files: seq<Source>, offset: nat, max: int)
    returns (readers: seq<Reader>, length: nat, err: Option<Error>, used: nat)
    requires offset < TWO_63 && max < TWO_63 && Sized(files)
    ensures used <= |files| && (max != 0 ==> Fine(files, used, offset))
    // what is read
    ensures err.None? ==> Delivered(readers) == Window(Content(files[..used]), offset, max)
    ensures err.None? ==> Delivered(readers) == Window(Content(files), offset, max)
    ensures err.None? ==> used == |files| || |Delivered(readers)| == max
    // the length announced, an uint64
    ensures err.None? ==> length == |Delivered(readers)| % 0x1_0000_0000_0000_0000
    ensures err.None? && 0 <= max ==> length == |Delivered(readers)|
    // the first path that fails ends the command, unless the limit was reached before
    ensures err.Some? ==> readers == [] && length == 0
    ensures err.Some? ==> used < |files| && Failure(files, used, offset) == err
    ensures err.Some? ==> max < 0 || |Drop(Content(files[..used]), offset)| < max
  {
    hide Delivered, Content, Part, Take, Drop, Window, Uint64, Failure, Fine, Sized;
    readers, length, err, used := [], 0, None, 0;
    DeliveredNone();
    FineNone(files, offset);
    if max == 0 {
      NothingAsked(files, offset);
      AddWraps(0, 0);
      return;
    }
    var off := offset;
    ghost var before := Content(files[..0]);
    while used < |files|
      invariant used <= |files| && err.None? && Fine(files, used, offset) && before == Content(files[..used])
      invariant Delivered(readers) == Drop(before, offset)
      invariant off == if |before| < offset then offset - |before| else 0
      invariant length == Uint64(|Delivered(readers)|)
      invariant 0 < max ==> |Delivered(readers)| < max
    {
      FineNext(files, used, offset);
      if files[used].Other? {
        return [], 0, Some(files[used].err), used;
      }
      var file := files[used].bytes;
      ContentMore(files, used);
      DropMore(before, file, offset);
      if off > |file| {
        before := before + file;
        used := used + 1;
        off := off - |file|;
        continue;
      }
      if files[used].fault.Some? {
        return [], 0, files[used].fault, used;
      }
      before := before + file;
      used := used + 1;
      var r, full;
      r, length, full := OpenAt(file, off, max, length, Delivered(readers));
      off := 0;
      DeliveredMore(readers, r);
      readers := readers + [r];
      if full {
        WindowReached(files, used, offset, max);
        AddWraps(max, 0);
        return;
      }
    }
    assert files[..|files|] == files;
    WindowCases(before, offset, max);
    AddWraps(|Delivered(readers)|, 0);
  }

  lemma WindowReached(files: seq<Source>, n: nat, offset: nat, max: nat)
    requires n <= |files| && max <= |Drop(Content(files[..n]), offset)| && max < TWO_63
    ensures Window(Content(files[..n]), offset, max) == Take(Drop(Content(files[..n]), offset), max)
    ensures Window(Content(files), offset, max) == Window(Content(files[..n]), offset, max)
    ensures |Window(Content(files[..n]), offset, max)| == max == Uint64(max)
  {
    WindowFull(files, n, offset, max);
  }

  lemma NothingAsked(files: seq<Source>, offset: nat)
    ensures Window(Content(files), offset, 0) == [] == Window(Content(files[..0]), offset, 0)
  {
  }

  lemma DeliveredNone()
    ensures Delivered([]) == [] == Content([]) && Uint64(0) == 0 && forall offset :: Drop([], offset) == []
  {
  }

  lemma PartWhole(r: Reader)
    requires r.limit.None? && r.from <= |r.file|
    ensures Part(r) == Drop(r.file, r.from) && |Part(r)| == |r.file| - r.from
  {
  }
}
