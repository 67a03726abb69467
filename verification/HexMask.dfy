/** 256-bit masks as hexadecimal text: the parser of command-line masks and the printer of byte arrays. */
module HexMask {
  import opened Bits

  const MASK_SIZE := 32

  datatype Outcome = Parsed | BadDigit | TooLong

  predicate IsHex(c: char) { '0' <= c <= '9' || 'a' <= c <= 'f' || 'A' <= c <= 'F' }

  function HexVal(c: char): (v: nat)
    requires IsHex(c)
    ensures v < 16
  {
    if c <= '9' then c as int - '0' as int
    else if c <= 'F' then c as int - 'A' as int + 10
    else c as int - 'a' as int + 10
  }

  function HexChar(v: nat): (c: char)
    requires v < 16
    ensures IsHex(c) && HexVal(c) == v
  {
    if v < 10 then '0' + v as char else 'a' + (v - 10) as char
  }

  predicate AllHex(s: string) { forall i | 0 <= i < |s| :: IsHex(s[i]) }

  /** The number a hexadecimal numeral stands for. */
  function Numeral(s: string): nat
    requires AllHex(s)
  {
    if s == "" then 0 else 16 * Numeral(s[..|s| - 1]) + HexVal(s[|s| - 1])
  }

  /** The digits two by two from the right. */
  function Pack(s: string): (bs: seq<Byte>)
    requires AllHex(s)
    ensures |bs| == (|s| + 1) / 2
  {
    if s == "" then []
    else if |s| == 1 then [HexVal(s[0])]
    else Pack(s[..|s| - 2]) + [16 * HexVal(s[|s| - 2]) + HexVal(s[|s| - 1])]
  }

  lemma PackStep(s: string, hi: char, lo: char)
    requires AllHex(s) && IsHex(hi) && IsHex(lo)
    ensures Pack(s + [hi, lo]) == Pack(s) + [16 * HexVal(hi) + HexVal(lo)]
  {
    var t := s + [hi, lo];
    assert t[..|t| - 2] == s;
  }

  lemma NumeralStep(s: string, hi: char, lo: char)
    requires AllHex(s) && IsHex(hi) && IsHex(lo)
    ensures Numeral(s + [hi, lo]) == 256 * Numeral(s) + 16 * HexVal(hi) + HexVal(lo)
  {
    var t := s + [hi, lo];
    assert t[..|t| - 1] == s + [hi];
    assert (s + [hi])[..|s|] == s;
  }

  lemma FromBigEndianStep(bs: seq<Byte>, b: Byte)
    ensures FromBigEndian(bs + [b]) == 256 * FromBigEndian(bs) + b
  {
    assert (bs + [b])[..|bs|] == bs;
  }

  lemma {:induction false} PackedNumeral(s: string)
    requires AllHex(s)
    ensures FromBigEndian(Pack(s)) == Numeral(s)
  {
    if |s| == 1 {
      assert Pack(s)[..0] == [];
      assert s[..0] == "";
    } else if |s| >= 2 {
      var init, hi, lo := s[..|s| - 2], s[|s| - 2], s[|s| - 1];
      PackedNumeral(init);
      assert s == init + [hi, lo];
      PackStep(init, hi, lo);
      NumeralStep(init, hi, lo);
      FromBigEndianStep(Pack(init), 16 * HexVal(hi) + HexVal(lo));
    }
  }

  lemma {:induction false} ValueOfJoined(a: seq<Byte>, b: seq<Byte>)
    ensures FromBigEndian(a + b) == FromBigEndian(a) * Pow256(|b|) + FromBigEndian(b)
    decreases |b|
  {
    if b == [] {
      assert a + b == a;
    } else {
      var init := b[..|b| - 1];
      ValueOfJoined(a, init);
      assert (a + b)[..|a + b| - 1] == a + init;
      assert 256 * (FromBigEndian(a) * Pow256(|init|)) == FromBigEndian(a) * (256 * Pow256(|init|));
    }
  }

  lemma {:induction false} ZeroIff(a: seq<Byte>)
    ensures FromBigEndian(a) == 0 <==> forall i | 0 <= i < |a| :: a[i] == 0
  {
    if a == [] {
    } else {
      var init := a[..|a| - 1];
      ZeroIff(init);
      assert forall i | 0 <= i < |init| :: init[i] == a[i];
    }
  }

  /** The stored bytes spell the numeral exactly when the bytes left alone are zero. */
  lemma StoredValueIff(left: seq<Byte>, d: string)
    requires AllHex(d)
    ensures FromBigEndian(left + Pack(d)) == Numeral(d) <==> forall i | 0 <= i < |left| :: left[i] == 0
  {
    PackedNumeral(d);
    ValueOfJoined(left, Pack(d));
    ZeroIff(left);
    PositiveProduct(FromBigEndian(left), |Pack(d)|);
  }

  lemma {:induction false} PositiveProduct(x: nat, n: nat)
    ensures x * Pow256(n) == 0 <==> x == 0
  {
    if n == 0 {
    } else {
      PositiveProduct(x, n - 1);
      assert x * Pow256(n) == 256 * (x * Pow256(n - 1));
    }
  }

  function Strip(arg: string): string {
    if |arg| >= 2 && arg[0] == '0' && (arg[1] == 'x' || arg[1] == 'X') then arg[2..] else arg
  }

  /** A leading 0x or 0X makes no difference, and nothing else is taken away. */
  lemma PrefixOptional(d: string)
    ensures Strip("0x" + d) == d && Strip("0X" + d) == d
    ensures AllHex(d) ==> Strip(d) == d
    ensures Strip(d) != d ==> d == "0x" + Strip(d) || d == "0X" + Strip(d)
  {
    assert ("0x" + d)[2..] == d && ("0X" + d)[2..] == d;
    if |d| >= 2 { assert d == [d[0], d[1]] + d[2..]; }
  }

  /** The sixteen digits, in either case; the printer uses the lower one. */
  lemma Digit(v: nat)
    requires v < 16
    ensures HexChar(v) == "0123456789abcdef"[v]
    ensures var c := "0123456789ABCDEF"[v]; IsHex(c) && HexVal(c) == v
  {
  }

  /**
   * Writes the digits into the last bytes of the buffer and leaves the bytes before them alone. No digit at all
   * counts as a zero.
   */
  method Parse256(arg: string, buf: array<Byte>) returns (r: Outcome)
    requires buf.Length == MASK_SIZE
    modifies buf
    ensures var d := Strip(arg);
            && (r == BadDigit <==> !AllHex(d))
            && (r == TooLong <==> AllHex(d) && |d| > 64)
            && (r != Parsed ==> buf[..] == old(buf[..]))
            && (r == Parsed && d != "" ==> buf[..] == old(buf[..])[..MASK_SIZE - (|d| + 1) / 2] + Pack(d))
            && (r == Parsed && d == "" ==> buf[..] == old(buf[..])[..MASK_SIZE - 1] + [0])
  {
    var d := Strip(arg);
    var n := 0;
    while n < |d|
      invariant n <= |d| && AllHex(d[..n])
    {
      if !IsHex(d[n]) { return BadDigit; }
      n := n + 1;
    }
    assert d[..n] == d;
    if n > 64 { return TooLong; }
    if n == 0 {
      buf[MASK_SIZE - 1] := 0;
      return Parsed;
    }
    var start := 32 - (n - 1) / 2 - 1;
    StoreDigits(d, buf, start);
    return Parsed;
  }

  method StoreDigits(d: string, buf: array<Byte>, start: nat)
    requires AllHex(d) && 1 <= |d| <= 64 && start == 32 - (|d| + 1) / 2 && buf.Length == MASK_SIZE
    modifies buf
    ensures buf[..] == old(buf[..])[..start] + Pack(d)
  {
    var at := 0;
    for i := start to 32
      invariant at <= |d| && |d| - at == 2 * (32 - i) - (if i == start && |d| % 2 == 1 then 1 else 0)
      invariant buf[..start] == old(buf[..start])
      invariant buf[start..i] == Pack(d[..at])
    {
      ghost var before := buf[start..i];
      var n := if i == start && |d| % 2 == 1 then 1 else 2;
      var b := ReadByte(d, at, n);
      buf[i] := b;
      at := at + n;
      assert buf[start..i + 1] == before + [b];
    }
    assert d[..at] == d;
  }

  /** The byte that one digit at the front, or two further on, stand for. */
  method ReadByte(d: string, at: nat, n: nat) returns (b: Byte)
    requires AllHex(d) && at + n <= |d| && (n == 2 || (n == 1 && at == 0))
    ensures Pack(d[..at + n]) == Pack(d[..at]) + [b]
  {
    if n == 1 {
      b := HexVal(d[at]);
    } else {
      PackNext(d, at);
      b := 16 * HexVal(d[at]) + HexVal(d[at + 1]);
    }
  }

  lemma PackNext(d: string, at: nat)
    requires AllHex(d) && at + 2 <= |d|
    ensures Pack(d[..at + 2]) == Pack(d[..at]) + [16 * HexVal(d[at]) + HexVal(d[at + 1])]
  {
    PackStep(d[..at], d[at], d[at + 1]);
    assert d[..at + 2] == d[..at] + [d[at], d[at + 1]];
  }

  /** The printer: two lower-case digits for each byte, as many bytes as the text has room for. */
  function Dump(bs: seq<Byte>): (s: string)
    ensures |s| == 2 * |bs| && AllHex(s)
  {
    if bs == [] then "" else Dump(bs[..|bs| - 1]) + [HexChar(bs[|bs| - 1] / 16), HexChar(bs[|bs| - 1] % 16)]
  }

  /** How many of `size` bytes a text of `room` characters takes. */
  function Shown(room: nat, size: nat): nat { if room < size * 2 then room / 2 else size }

  /**
   * Prints byte after byte, each with a terminator behind it that the next one overwrites. `inside` tells whether
   * the last terminator still falls into the text.
   */
  method DumpArray(buf: array<char>, val: array<Byte>) returns (inside: bool)
    modifies buf
    ensures var n := Shown(buf.Length, val.Length);
      buf[..2 * n] == Dump(val[..n]) && (0 < 2 * n < buf.Length ==> buf[2 * n] == '\0')
    ensures inside <==> val.Length == 0 || buf.Length == 0 || buf.Length % 2 == 1 || buf.Length > 2 * val.Length
  {
    var n := Shown(buf.Length, val.Length);
    inside := true;
    for i := 0 to n
      invariant buf[..2 * i] == Dump(val[..i])
      invariant inside <==> i == 0 || 2 * i < buf.Length
      invariant inside && i > 0 ==> buf[2 * i] == '\0'
    {
      DumpNext(val[..i + 1]);
      assert val[..i + 1][..i] == val[..i];
      ghost var before := buf[..2 * i];
      buf[2 * i], buf[2 * i + 1] := HexChar(val[i] / 16), HexChar(val[i] % 16);
      if 2 * i + 2 < buf.Length { buf[2 * i + 2] := '\0'; } else { inside := false; }
      assert buf[..2 * i + 2] == before + [HexChar(val[i] / 16), HexChar(val[i] % 16)];
    }
  }

  lemma DumpNext(bs: seq<Byte>)
    requires bs != []
    ensures Dump(bs) == Dump(bs[..|bs| - 1]) + [HexChar(bs[|bs| - 1] / 16), HexChar(bs[|bs| - 1] % 16)]
  {
  }

  lemma PackByte(s: string, b: Byte)
    requires AllHex(s)
    ensures Pack(s + [HexChar(b / 16), HexChar(b % 16)]) == Pack(s) + [b]
  {
    PackStep(s, HexChar(b / 16), HexChar(b % 16));
  }

  lemma {:induction false} PackDump(bs: seq<Byte>)
    ensures Pack(Dump(bs)) == bs
  {
    if bs == [] {
    } else {
      var init, b := bs[..|bs| - 1], bs[|bs| - 1];
      PackDump(init);
      PackByte(Dump(init), b);
      assert bs == init + [b];
    }
  }

  /** The printed digits are a numeral for the value of the bytes. */
  lemma DumpedValue(bs: seq<Byte>)
    ensures Numeral(Dump(bs)) == FromBigEndian(bs)
  {
    PackDump(bs);
    PackedNumeral(Dump(bs));
  }

  lemma DumpHasNoPrefix(bs: seq<Byte>)
    ensures Strip(Dump(bs)) == Dump(bs)
  {
    assert |Dump(bs)| >= 2 ==> IsHex(Dump(bs)[1]);
  }

  /** Parsing the printed form of a mask restores it, whatever the buffer held. */
  method PrintThenParse(mask: array<Byte>, buf: array<Byte>)
    requires mask.Length == buf.Length == MASK_SIZE && mask != buf
    modifies buf
    ensures buf[..] == mask[..]
  {
    var text := new char[2 * MASK_SIZE + 1];
    var inside := DumpArray(text, mask);
    assert mask[..MASK_SIZE] == mask[..];
    DumpHasNoPrefix(mask[..]);
    PackDump(mask[..]);
    var r := Parse256(text[..2 * MASK_SIZE], buf);
  }
}
