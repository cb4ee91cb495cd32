/**
 Base 32 without padding (section 6 of RFC 4648), as key file names and record keys use it.
 Decoding follows Go's encoding/base32: line breaks are skipped, and a last group of 1, 3 or 6
 characters adds no bytes.
 */
module Base32 {
  import opened Prelude

  newtype digit = x: int | 0 <= x < 32

  // ----- five bytes and eight digits

  function Group(b: Bytes): (d: seq<digit>)
    requires |b| == 5
    ensures |d| == 8
  {
    [(b[0] / 8) as digit,
     (b[0] % 8 * 4 + b[1] / 64) as digit,
     (b[1] / 2 % 32) as digit,
     (b[1] % 2 * 16 + b[2] / 16) as digit,
     (b[2] % 16 * 2 + b[3] / 128) as digit,
     (b[3] / 4 % 32) as digit,
     (b[3] % 4 * 8 + b[4] / 32) as digit,
     (b[4] % 32) as digit]
  }

  function Ungroup(d: seq<digit>): (b: Bytes)
    requires |d| == 8
    ensures |b| == 5
  {
    [d[0] as byte * 8 + d[1] as byte / 4,
     d[1] as byte % 4 * 64 + d[2] as byte * 2 + d[3] as byte / 16,
     d[3] as byte % 16 * 16 + d[4] as byte / 2,
     d[4] as byte % 2 * 128 + d[5] as byte * 4 + d[6] as byte / 8,
     d[6] as byte % 8 * 32 + d[7] as byte]
  }

  /** A digit made of the low part `x` of one byte and the high part `y` of the next comes apart again. */
  lemma SplitDigit(x: int, y: int)
    ensures 0 <= y < 4 ==> (x * 4 + y) / 4 == x && (x * 4 + y) % 4 == y
    ensures 0 <= y < 16 ==> (x * 16 + y) / 16 == x && (x * 16 + y) % 16 == y
    ensures 0 <= y < 2 ==> (x * 2 + y) / 2 == x && (x * 2 + y) % 2 == y
    ensures 0 <= y < 8 ==> (x * 8 + y) / 8 == x && (x * 8 + y) % 8 == y
  {
  }

  /** A byte that three digits share is made of its top, middle and bottom bits. */
  lemma ByteParts(b: int)
    requires 0 <= b < 256
    ensures b / 64 * 64 + b / 2 % 32 * 2 + b % 2 == b
    ensures b / 128 * 128 + b / 4 % 32 * 4 + b % 4 == b
  {
    assert b == b / 2 * 2 + b % 2 && b == b / 4 * 4 + b % 4;
    LowFive(b / 2, b / 64);
    LowFive(b / 4, b / 128);
  }

  lemma LowFive(h: int, t: int)
    requires 32 * t <= h < 32 * t + 32
    ensures h == t * 32 + h % 32
  {
  }

  lemma UngroupGroup(b: Bytes)
    requires |b| == 5
    ensures Ungroup(Group(b)) == b
  {
    UngroupStart(b);
    UngroupEnd(b);
    hide Group, Ungroup;
  }

  lemma UngroupStart(b: Bytes)
    requires |b| == 5
    ensures Ungroup(Group(b))[0] == b[0] && Ungroup(Group(b))[1] == b[1]
  {
    var b0, b1, b2 := b[0] as int, b[1] as int, b[2] as int;
    SplitDigit(b0 % 8, b1 / 64);
    SplitDigit(b1 % 2, b2 / 16);
    ByteParts(b1);
  }

  lemma UngroupEnd(b: Bytes)
    requires |b| == 5
    ensures Ungroup(Group(b))[2] == b[2] && Ungroup(Group(b))[3] == b[3] && Ungroup(Group(b))[4] == b[4]
  {
    var b1, b2, b3, b4 := b[1] as int, b[2] as int, b[3] as int, b[4] as int;
    SplitDigit(b1 % 2, b2 / 16);
    SplitDigit(b2 % 16, b3 / 128);
    SplitDigit(b3 % 4, b4 / 32);
    ByteParts(b3);
  }

  /** Bytes after the end count as zero. */
  function Padded(b: Bytes): (p: Bytes)
    requires |b| <= 5
    ensures |p| == 5
  {
    b + seq(5 - |b|, _ => 0)
  }

  function PaddedDigits(d: seq<digit>): (p: seq<digit>)
    requires |d| <= 8
    ensures |p| == 8
  {
    d + seq(8 - |d|, _ => 0)
  }

  /** The number of digits that `n` bytes take, and the number of bytes that `n` digits hold. */
  function DigitCount(n: nat): nat
    requires n <= 5
  {
    if n == 0 then 0 else if n == 1 then 2 else if n == 2 then 4 else if n == 3 then 5 else if n == 4 then 7 else 8
  }

  function ByteCount(n: nat): nat
    requires n <= 8
  {
    if n == 2 then 1 else if n == 4 then 2 else if n == 5 then 3 else if n == 7 then 4 else if n == 8 then 5 else 0
  }

  function Digits(s: Bytes): seq<digit> {
    if |s| < 5 then Group(Padded(s))[..DigitCount(|s|)] else Group(s[..5]) + Digits(s[5..])
  }

  function BytesOf(d: seq<digit>): Bytes {
    if |d| < 8 then Ungroup(PaddedDigits(d))[..ByteCount(|d|)] else Ungroup(d[..8]) + BytesOf(d[8..])
  }

  /** The digits that a short group leaves out are zero. */
  lemma ZeroTail(s: Bytes, i: nat)
    requires |s| < 5 && DigitCount(|s|) <= i < 8
    ensures Group(Padded(s))[i] == 0
  {
    var p := Padded(s);
    assert forall j :: |s| <= j < 5 ==> p[j] == 0;
  }

  lemma PadBack(s: Bytes)
    requires |s| < 5
    ensures PaddedDigits(Group(Padded(s))[..DigitCount(|s|)]) == Group(Padded(s))
  {
    forall i | DigitCount(|s|) <= i < 8 ensures Group(Padded(s))[i] == 0 {
      ZeroTail(s, i);
    }
    hide Group, Padded;
  }

  lemma LastGroup(s: Bytes)
    requires |s| < 5
    ensures BytesOf(Digits(s)) == s
  {
    hide Group, Ungroup;
    var p := Padded(s);
    var d := Group(p)[..DigitCount(|s|)];
    PadBack(s);
    UngroupGroup(p);
    assert Digits(s) == d && BytesOf(d) == p[..ByteCount(|d|)];
  }

  lemma {:induction false} BytesDigits(s: Bytes)
    ensures BytesOf(Digits(s)) == s
  {
    if |s| < 5 {
      LastGroup(s);
    } else {
      UngroupGroup(s[..5]);
      BytesDigits(s[5..]);
      hide Group, Ungroup;
      var d := Digits(s);
      assert d[..8] == Group(s[..5]) && d[8..] == Digits(s[5..]);
      assert s == s[..5] + s[5..];
    }
  }

  // ----- characters

  function Upper(d: digit): char {
    if d < 26 then 'A' + d as char else '2' + (d - 26) as char
  }

  function DigitOf(c: char): Option<digit> {
    if 'A' <= c <= 'Z' then Some((c - 'A') as digit)
    else if '2' <= c <= '7' then Some((c - '2') as digit + 26)
    else None
  }

  function ToLower(s: string): (t: string)
    ensures |t| == |s|
  {
    seq(|s|, i requires 0 <= i < |s| => if 'A' <= s[i] <= 'Z' then s[i] - 'A' + 'a' else s[i])
  }

  /**
   Of the letters beyond ASCII, only the dotless i and the long s have an upper case among the base 32 characters;
   the others decode no more after the conversion than before.
   */
  function UpperCase(c: char): char {
    if 'a' <= c <= 'z' then c - 'a' + 'A'
    else if c == '\U{0131}' then 'I'
    else if c == '\U{017F}' then 'S'
    else c
  }

  function ToUpper(s: string): (t: string)
    ensures |t| == |s|
  {
    seq(|s|, i requires 0 <= i < |s| => UpperCase(s[i]))
  }

  function EncodeToString(s: Bytes): string {
    var d := Digits(s);
    seq(|d|, i requires 0 <= i < |d| => Upper(d[i]))
  }

  function SkipLineBreaks(s: string): string {
    if s == [] then []
    else (if s[0] == '\n' || s[0] == '\r' then [] else [s[0]]) + SkipLineBreaks(s[1..])
  }

  function DigitsOf(s: string): Option<seq<digit>> {
    if s == [] then Some([])
    else
      var d, rest := DigitOf(s[0]), DigitsOf(s[1..]);
      if d.Some? && rest.Some? then Some([d.value] + rest.value) else None
  }

  function DecodeString(s: string): Option<Bytes> {
    var d := DigitsOf(SkipLineBreaks(s));
    if d.Some? then Some(BytesOf(d.value)) else None
  }

  lemma {:induction false} EncodedIsClean(s: string)
    requires forall i :: 0 <= i < |s| ==> DigitOf(s[i]).Some?
    ensures SkipLineBreaks(s) == s
  {
    if s != [] {
      EncodedIsClean(s[1..]);
    }
  }

  lemma {:induction false} DigitsOfUpper(s: string, d: seq<digit>)
    requires |s| == |d| && forall i :: 0 <= i < |d| ==> s[i] == Upper(d[i])
    ensures DigitsOf(s) == Some(d)
  {
    if d != [] {
      DigitsOfUpper(s[1..], d[1..]);
      assert DigitOf(Upper(d[0])) == Some(d[0]);
      assert d == [d[0]] + d[1..];
    }
  }

  lemma DecodeEncode(s: Bytes)
    ensures DecodeString(EncodeToString(s)) == Some(s)
  {
    var d, t := Digits(s), EncodeToString(s);
    DigitsOfUpper(t, d);
    assert forall i :: 0 <= i < |t| ==> t[i] == Upper(d[i]) && DigitOf(t[i]).Some?;
    EncodedIsClean(t);
    BytesDigits(s);
  }

  /** Lower-casing the encoded text loses nothing. */
  lemma LowerUpper(s: Bytes)
    ensures ToUpper(ToLower(EncodeToString(s))) == EncodeToString(s)
  {
    var d, t := Digits(s), EncodeToString(s);
    forall i | 0 <= i < |t| ensures ToUpper(ToLower(t))[i] == t[i] {
      assert t[i] == Upper(d[i]);
    }
  }

  lemma EncodeInjective(s: Bytes, t: Bytes)
    requires EncodeToString(s) == EncodeToString(t)
    ensures s == t
  {
    DecodeEncode(s);
    DecodeEncode(t);
  }
}
