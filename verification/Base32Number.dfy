/**
 What base 32 encoding is, said without groups of digits: the text is a number in base 32 over the alphabet of
 section 6 of RFC 4648, namely that of the bytes, shifted by the bits that fill up the last digit.
 */
module Base32Number {
  import opened Prelude
  import opened Base32

  function Number(d: seq<digit>): nat {
    if d == [] then 0 else Number(d[..|d| - 1]) * 32 + d[|d| - 1] as nat
  }

  function ByteNumber(s: Bytes): nat {
    if s == [] then 0 else ByteNumber(s[..|s| - 1]) * 256 + s[|s| - 1] as nat
  }

  function Pow(b: nat, e: nat): nat {
    if e == 0 then 1 else Pow(b, e - 1) * b
  }

  /** Two to the number of bits that fill up the last digit of `n` bytes. */
  function Fill(n: nat): nat {
    [1, 4, 16, 2, 8][n % 5]
  }

  // ----- numbers of sequences

  lemma NumberAppend(d: seq<digit>, x: digit)
    ensures Number(d + [x]) == Number(d) * 32 + x as nat
  {
    assert (d + [x])[..|d|] == d;
  }

  lemma ByteNumberAppend(s: Bytes, x: byte)
    ensures ByteNumber(s + [x]) == ByteNumber(s) * 256 + x as nat
  {
    assert (s + [x])[..|s|] == s;
  }

  lemma {:induction false} NumberConcat(a: seq<digit>, b: seq<digit>)
    ensures Number(a + b) == Number(a) * Pow(32, |b|) + Number(b)
  {
    if b == [] {
      assert a + b == a;
    } else {
      var init, x := b[..|b| - 1], b[|b| - 1];
      NumberConcat(a, init);
      assert a + b == (a + init) + [x] && b == init + [x];
      NumberAppend(a + init, x);
      NumberAppend(init, x);
      assert Pow(32, |b|) == Pow(32, |init|) * 32;
      hide Number, Pow;
      Distribute(Number(a), Pow(32, |init|), Number(init), 32);
    }
  }

  lemma {:induction false} ByteNumberConcat(a: Bytes, b: Bytes)
    ensures ByteNumber(a + b) == ByteNumber(a) * Pow(256, |b|) + ByteNumber(b)
  {
    if b == [] {
      assert a + b == a;
    } else {
      var init, x := b[..|b| - 1], b[|b| - 1];
      ByteNumberConcat(a, init);
      assert a + b == (a + init) + [x] && b == init + [x];
      ByteNumberAppend(a + init, x);
      ByteNumberAppend(init, x);
      assert Pow(256, |b|) == Pow(256, |init|) * 256;
      hide ByteNumber, Pow;
      Distribute(ByteNumber(a), Pow(256, |init|), ByteNumber(init), 256);
    }
  }

  lemma Distribute(a: nat, p: nat, c: nat, b: nat)
    ensures (a * p + c) * b == a * (p * b) + c * b
  {
  }

  lemma {:induction false} ZerosNumber(d: seq<digit>)
    requires forall i :: 0 <= i < |d| ==> d[i] == 0
    ensures Number(d) == 0
  {
    if d != [] {
      ZerosNumber(d[..|d| - 1]);
    }
  }

  lemma {:induction false} ZeroBytesNumber(s: Bytes)
    requires forall i :: 0 <= i < |s| ==> s[i] == 0
    ensures ByteNumber(s) == 0
  {
    if s != [] {
      ZeroBytesNumber(s[..|s| - 1]);
    }
  }

  // ----- one group

  lemma NumberOfEight(d: seq<digit>)
    requires |d| == 8
    ensures Number(d) ==
      d[0] as nat * 0x8_0000_0000 + d[1] as nat * 0x4000_0000 + d[2] as nat * 0x200_0000 + d[3] as nat * 0x10_0000 +
      d[4] as nat * 0x8000 + d[5] as nat * 0x400 + d[6] as nat * 0x20 + d[7] as nat
  {
    NumberAppend([], d[0]);
    NumberAppend([d[0]], d[1]);
    NumberAppend([d[0], d[1]], d[2]);
    NumberAppend([d[0], d[1], d[2]], d[3]);
    NumberAppend([d[0], d[1], d[2], d[3]], d[4]);
    NumberAppend([d[0], d[1], d[2], d[3], d[4]], d[5]);
    NumberAppend([d[0], d[1], d[2], d[3], d[4], d[5]], d[6]);
    NumberAppend([d[0], d[1], d[2], d[3], d[4], d[5], d[6]], d[7]);
    Displays(d);
    hide Number;
    assert Number([]) == 0 by { NumberOfNone(); }
  }

  lemma NumberOfNone()
    ensures Number([]) == 0 && ByteNumber([]) == 0
  {
  }

  lemma Displays(d: seq<digit>)
    requires |d| == 8
    ensures [] + [d[0]] == [d[0]] && [d[0]] + [d[1]] == [d[0], d[1]]
    ensures [d[0], d[1]] + [d[2]] == [d[0], d[1], d[2]]
    ensures [d[0], d[1], d[2]] + [d[3]] == [d[0], d[1], d[2], d[3]]
    ensures [d[0], d[1], d[2], d[3]] + [d[4]] == [d[0], d[1], d[2], d[3], d[4]]
    ensures [d[0], d[1], d[2], d[3], d[4]] + [d[5]] == [d[0], d[1], d[2], d[3], d[4], d[5]]
    ensures [d[0], d[1], d[2], d[3], d[4], d[5]] + [d[6]] == [d[0], d[1], d[2], d[3], d[4], d[5], d[6]]
    ensures [d[0], d[1], d[2], d[3], d[4], d[5], d[6]] + [d[7]] == d
  {
  }

  lemma NumberOfFive(s: Bytes)
    requires |s| == 5
    ensures ByteNumber(s) ==
      s[0] as nat * 0x1_0000_0000 + s[1] as nat * 0x100_0000 + s[2] as nat * 0x1_0000 +
      s[3] as nat * 0x100 + s[4] as nat
  {
    NumberOfNone();
    hide ByteNumber;
    ByteNumberAppend([], s[0]);
    ByteNumberAppend([s[0]], s[1]);
    ByteNumberAppend([s[0], s[1]], s[2]);
    ByteNumberAppend([s[0], s[1], s[2]], s[3]);
    ByteNumberAppend([s[0], s[1], s[2], s[3]], s[4]);
    assert [] + [s[0]] == [s[0]] && [s[0]] + [s[1]] == [s[0], s[1]];
    assert [s[0], s[1]] + [s[2]] == [s[0], s[1], s[2]];
    assert [s[0], s[1], s[2]] + [s[3]] == [s[0], s[1], s[2], s[3]];
    assert [s[0], s[1], s[2], s[3]] + [s[4]] == s;
  }

  /** Five bytes and their eight digits are the same number. */
  lemma GroupNumber(b: Bytes)
    requires |b| == 5
    ensures Number(Group(b)) == ByteNumber(b)
  {
    NumberOfEight(Group(b));
    NumberOfFive(b);
    GroupSum(b[0] as nat, b[1] as nat, b[2] as nat, b[3] as nat, b[4] as nat);
    hide Number, ByteNumber;
  }

  lemma GroupSum(b0: nat, b1: nat, b2: nat, b3: nat, b4: nat)
    requires b1 < 256 && b3 < 256
    ensures
      b0 / 8 * 0x8_0000_0000 + (b0 % 8 * 4 + b1 / 64) * 0x4000_0000 + b1 / 2 % 32 * 0x200_0000 +
      (b1 % 2 * 16 + b2 / 16) * 0x10_0000 + (b2 % 16 * 2 + b3 / 128) * 0x8000 + b3 / 4 % 32 * 0x400 +
      (b3 % 4 * 8 + b4 / 32) * 0x20 + b4 % 32 ==
      b0 * 0x1_0000_0000 + b1 * 0x100_0000 + b2 * 0x1_0000 + b3 * 0x100 + b4
  {
    ByteParts(b1);
    ByteParts(b3);
  }

  // ----- all groups

  lemma {:induction false} PowAdd(b: nat, m: nat, n: nat)
    ensures Pow(b, m + n) == Pow(b, m) * Pow(b, n)
  {
    if 0 < n {
      PowAdd(b, m, n - 1);
      Associate(Pow(b, m), Pow(b, n - 1), b);
    }
  }

  lemma SmallPowers()
    ensures Pow(32, 0) == 1 && Pow(32, 1) == 0x20 && Pow(32, 3) == 0x8000 && Pow(32, 4) == 0x10_0000
    ensures Pow(32, 6) == 0x4000_0000 && Pow(32, 8) == 0x100_0000_0000
    ensures Pow(256, 1) == 0x100 && Pow(256, 2) == 0x1_0000 && Pow(256, 3) == 0x100_0000
    ensures Pow(256, 4) == 0x1_0000_0000 && Pow(256, 5) == 0x100_0000_0000
  {
    assert Pow(32, 2) == 0x400;
    assert Pow(32, 5) == 0x200_0000;
    assert Pow(32, 7) == 0x8_0000_0000;
  }

  lemma {:induction false} DigitsLength(s: Bytes)
    ensures |Digits(s)| == (8 * |s| + 4) / 5
  {
    hide Group;
    if 5 <= |s| {
      DigitsLength(s[5..]);
      assert Digits(s) == Group(s[..5]) + Digits(s[5..]);
    }
  }

  lemma Associate(a: nat, b: nat, c: nat)
    ensures a * (b * c) == a * b * c
  {
  }

  lemma FillPeriod(n: nat)
    requires 5 <= n
    ensures Fill(n) == Fill(n - 5) && (8 * n + 4) / 5 == 8 + (8 * (n - 5) + 4) / 5
  {
  }

  lemma FillPowerSmall(n: nat)
    requires n < 5
    ensures Pow(32, (8 * n + 4) / 5) == Pow(256, n) * Fill(n)
  {
    SmallPowers();
    assert Pow(32, 2) == 0x400 && Pow(32, 5) == 0x200_0000 && Pow(32, 7) == 0x8_0000_0000 && Pow(256, 0) == 1;
    hide Pow;
  }

  /** The digits of `n` bytes hold their bits and those that fill up the last digit. */
  lemma {:induction false} FillPower(n: nat)
    ensures Pow(32, (8 * n + 4) / 5) == Pow(256, n) * Fill(n)
  {
    hide Pow, Fill;
    if n < 5 {
      FillPowerSmall(n);
    } else {
      var m := n - 5;
      SmallPowers();
      FillPeriod(n);
      FillPower(m);
      PowAdd(32, 8, (8 * m + 4) / 5);
      PowAdd(256, 5, m);
      Associate(Pow(256, 5), Pow(256, m), Fill(m));
    }
  }

  lemma PaddedParts(s: Bytes)
    requires |s| < 5
    ensures Padded(s) == s + Padded(s)[|s|..] && forall i :: |s| <= i < 5 ==> Padded(s)[i] == 0
  {
  }

  lemma DigitsParts(s: Bytes)
    requires |s| < 5
    ensures var k, full := DigitCount(|s|), Group(Padded(s));
      k <= 8 && Digits(s) == full[..k] && full == full[..k] + full[k..] && forall i :: k <= i < 8 ==> full[i] == 0
  {
    hide Group, Padded;
    var k, full := DigitCount(|s|), Group(Padded(s));
    forall i | k <= i < 8 ensures full[i] == 0 {
      ZeroTail(s, i);
    }
  }

  /** A last group of at most four bytes, compared at full width. */
  lemma ShortGroup(s: Bytes)
    requires |s| < 5
    ensures Number(Digits(s)) * Pow(32, 8 - DigitCount(|s|)) == ByteNumber(s) * Pow(256, 5 - |s|)
  {
    hide Group, Padded, Digits, Pow, Number, ByteNumber;
    PaddedParts(s);
    DigitsParts(s);
    var k, full, zeros := DigitCount(|s|), Group(Padded(s)), Padded(s)[|s|..];
    GroupNumber(Padded(s));
    NumberConcat(full[..k], full[k..]);
    ZerosNumber(full[k..]);
    ByteNumberConcat(s, zeros);
    ZeroBytesNumber(zeros);
  }

  lemma ShortGroupNumber(s: Bytes)
    requires |s| < 5
    ensures Number(Digits(s)) == ByteNumber(s) * Fill(|s|)
  {
    hide Number, ByteNumber, Digits, Pow;
    ShortGroup(s);
    SmallPowers();
    ShortCancel(Number(Digits(s)), ByteNumber(s), |s|);
  }

  lemma ShortCancel(x: nat, y: nat, n: nat)
    requires n < 5 && x * Pow(32, 8 - DigitCount(n)) == y * Pow(256, 5 - n)
    ensures x == y * Fill(n)
  {
    SmallPowers();
    hide Pow;
  }

  /** Putting a group in front: `p` and `q` are the weights that the rest gives it. */
  lemma Combine(digits: nat, group: nat, q: nat, rest: nat, p: nat, f: nat)
    requires digits == group * q + rest * f && q == p * f
    ensures digits == (group * p + rest) * f
  {
    Associate(group, p, f);
  }

  lemma {:induction false} DigitsNumber(s: Bytes)
    ensures Number(Digits(s)) == ByteNumber(s) * Fill(|s|)
  {
    hide Pow, Group, Number, ByteNumber, Fill;
    if |s| < 5 {
      ShortGroupNumber(s);
    } else {
      var h, r := s[..5], s[5..];
      assert s == h + r && Digits(s) == Group(h) + Digits(r);
      hide Digits;
      DigitsNumber(r);
      DigitsLength(r);
      FillPower(|r|);
      FillPeriod(|s|);
      GroupNumber(h);
      NumberConcat(Group(h), Digits(r));
      ByteNumberConcat(h, r);
      Combine(Number(Digits(s)), ByteNumber(h), Pow(32, |Digits(r)|), ByteNumber(r), Pow(256, |r|), Fill(|r|));
    }
  }

  // ----- the text

  lemma Alphabet(d: digit)
    ensures Upper(d) == "ABCDEFGHIJKLMNOPQRSTUVWXYZ234567"[d as int]
  {
  }

  /** The text spells the number of the bytes in base 32, with as many characters as the bits need. */
  lemma EncodingIsNumber(s: Bytes)
    ensures var t, d := EncodeToString(s), Digits(s);
      && |t| == |d| == (8 * |s| + 4) / 5
      && (forall i :: 0 <= i < |t| ==> t[i] == "ABCDEFGHIJKLMNOPQRSTUVWXYZ234567"[d[i] as int])
      && Number(d) == ByteNumber(s) * Fill(|s|)
  {
    DigitsLength(s);
    DigitsNumber(s);
    hide Digits, Number, ByteNumber, Pow;
    var t, d := EncodeToString(s), Digits(s);
    forall i | 0 <= i < |t| ensures t[i] == "ABCDEFGHIJKLMNOPQRSTUVWXYZ234567"[d[i] as int] {
      Alphabet(d[i]);
    }
  }

  /** A character of the alphabet or a line break. */
  ghost predicate Legal(c: char) {
    c in "ABCDEFGHIJKLMNOPQRSTUVWXYZ234567" || c == '\n' || c == '\r'
  }

  /** Text can be decoded if and only if it has no other characters. */
  lemma {:induction false} DecodableText(t: string)
    ensures DecodeString(t).Some? <==> forall i :: 0 <= i < |t| ==> Legal(t[i])
  {
    hide BytesOf, DigitOf, Legal;
    if t != [] {
      var c, rest := t[0], t[1..];
      DecodableText(rest);
      FirstCharacter(c, SkipLineBreaks(rest));
      SkipFirst(t);
      assert forall i :: 0 < i < |t| ==> t[i] == rest[i - 1];
      hide SkipLineBreaks, DigitsOf;
    }
  }

  lemma SkipFirst(t: string)
    requires t != []
    ensures SkipLineBreaks(t) == (if t[0] == '\n' || t[0] == '\r' then [] else [t[0]]) + SkipLineBreaks(t[1..])
  {
  }

  lemma FirstCharacter(c: char, rest: string)
    ensures var s := (if c == '\n' || c == '\r' then [] else [c]) + rest;
      DigitsOf(s).Some? <==> Legal(c) && DigitsOf(rest).Some?
  {
    DigitOfAlphabet(c);
    hide DigitOf;
    if c == '\n' || c == '\r' {
      assert [] + rest == rest;
    } else {
      assert ([c] + rest)[1..] == rest;
    }
  }

  lemma DigitOfAlphabet(c: char)
    ensures DigitOf(c).Some? <==> c in "ABCDEFGHIJKLMNOPQRSTUVWXYZ234567"
  {
    if DigitOf(c).Some? {
      Alphabet(DigitOf(c).value);
    }
  }
}
