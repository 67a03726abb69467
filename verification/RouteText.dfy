/** Directed routes as text: the comma list that is parsed and the line that is printed. */
module RouteText {
  import opened Bits
  import opened Options

  const PATH_SIZE := 64
  const NO_LID := 0xffff

  // ---- decimal numbers ----

  predicate IsDigit(c: char) { '0' <= c <= '9' }

  function Value(c: char): (v: nat)
    requires IsDigit(c)
    ensures v < 10
  {
    c as int - '0' as int
  }

  predicate AllDigits(s: string) { forall i | 0 <= i < |s| :: IsDigit(s[i]) }

  function Decimal(n: nat): (s: string)
    ensures s != "" && AllDigits(s)
  {
    (if n < 10 then "" else Decimal(n / 10)) + ['0' + (n % 10) as char]
  }

  function Digits(s: string): nat
    requires AllDigits(s)
  {
    if s == "" then 0 else 10 * Digits(s[..|s| - 1]) + Value(s[|s| - 1])
  }

  /** The longest run of digits at the start. */
  function Run(s: string): (d: string)
    ensures d <= s && AllDigits(d)
  {
    if s != "" && IsDigit(s[0]) then [s[0]] + Run(s[1..]) else ""
  }

  function SkipSpace(s: string): string {
    if s != "" && (s[0] == ' ' || '\t' <= s[0] <= '\r') then SkipSpace(s[1..]) else s
  }

  /** The C conversion: white space, an optional sign, then digits up to the first other character. */
  function Atoi(s: string): int {
    var t := SkipSpace(s);
    if t != "" && t[0] == '-' then 0 - Digits(Run(t[1..]))
    else if t != "" && t[0] == '+' then Digits(Run(t[1..]))
    else Digits(Run(t))
  }

  lemma {:induction false} DigitsOfDecimal(n: nat)
    ensures Digits(Decimal(n)) == n
  {
    var s := Decimal(n);
    if n >= 10 { DigitsOfDecimal(n / 10); }
    assert s[..|s| - 1] == if n < 10 then "" else Decimal(n / 10);
  }

  lemma {:induction false} RunOfDigits(s: string)
    requires AllDigits(s)
    ensures Run(s) == s
  {
    if s == "" {
    } else {
      RunOfDigits(s[1..]);
    }
  }

  lemma AtoiOfDecimal(n: nat)
    ensures Atoi(Decimal(n)) == n
  {
    assert IsDigit(Decimal(n)[0]);
    RunOfDigits(Decimal(n));
    DigitsOfDecimal(n);
  }

  /** The text starts with the number. */
  predicate Reads(s: string, n: nat) { Atoi(s) == n }

  /** A number ends where its digits do. */
  lemma NumberThen(n: nat, rest: string)
    requires rest != "" && !IsDigit(rest[0])
    ensures Reads(Decimal(n) + rest, n)
  {
    var s := Decimal(n) + rest;
    assert s[0] == Decimal(n)[0] && IsDigit(s[0]);
    RunThen(Decimal(n), rest);
    DigitsOfDecimal(n);
  }

  lemma {:induction false} RunThen(d: string, rest: string)
    requires AllDigits(d) && rest != "" && !IsDigit(rest[0])
    ensures Run(d + rest) == d
  {
    if d == "" {
      assert d + rest == rest;
    } else {
      assert (d + rest)[1..] == d[1..] + rest;
      RunThen(d[1..], rest);
    }
  }

  lemma SignThen(n: nat, rest: string)
    requires rest != "" && !IsDigit(rest[0])
    ensures Atoi(['+'] + (Decimal(n) + rest)) == n && Atoi(['-'] + (Decimal(n) + rest)) == 0 - n
  {
    RunThen(Decimal(n), rest);
    DigitsOfDecimal(n);
  }

  lemma SpaceThen(c: char, s: string)
    requires c == ' ' || 9 <= c as int <= 13
    ensures Atoi([c] + s) == Atoi(s)
  {
    assert ([c] + s)[1..] == s;
  }

  // ---- comma lists ----

  /** Where the first comma is, or the length. */
  function Comma(s: string): (i: nat)
    ensures i <= |s| && (i < |s| ==> s[i] == ',') && ',' !in s[..i]
  {
    if s == "" || s[0] == ',' then 0 else 1 + Comma(s[1..])
  }

  /** The fields between commas; nothing after a last comma is no field. */
  function Fields(s: string): seq<string> {
    if s == "" then []
    else if Comma(s) == |s| then [s]
    else [s[..Comma(s)]] + Fields(s[Comma(s) + 1..])
  }

  /** What is left after the first field. */
  function Beyond(s: string): string { if Comma(s) == |s| then "" else s[Comma(s) + 1..] }

  lemma FieldsStep(s: string)
    requires s != ""
    ensures Fields(s) == [s[..Comma(s)]] + Fields(Beyond(s))
  {
    if Comma(s) == |s| { assert s[..|s|] == s; }
  }

  /** The fields between commas put together again. */
  function Joined(fields: seq<string>): string {
    if fields == [] then "" else if |fields| == 1 then fields[0] else fields[0] + "," + Joined(fields[1..])
  }

  lemma {:induction false} FieldsPlain(s: string)
    ensures forall f | f in Fields(s) :: ',' !in f
  {
    if s == "" || Comma(s) == |s| {
    } else {
      FieldsPlain(s[Comma(s) + 1..]);
    }
  }

  /** A comma at the end of a text starts no field. */
  function Dangling(s: string): string { if s != "" && s[|s| - 1] == ',' then "," else "" }

  /** The fields make up the text, but for a comma at its end. */
  predicate MadeUp(s: string, fields: seq<string>) { s == Joined(fields) + Dangling(s) }

  lemma JoinedStep(f: string, rest: string, fields: seq<string>)
    requires MadeUp(rest, fields) && (fields == [] <==> rest == "")
    ensures MadeUp(f + "," + rest, [f] + fields)
  {
    assert ([f] + fields)[1..] == fields;
  }

  /** There is no field only in an empty text, and the fields make up the text. */
  lemma {:induction false} FieldsMakeUp(s: string)
    ensures (Fields(s) == [] <==> s == "") && MadeUp(s, Fields(s))
  {
    if s == "" {
    } else if Comma(s) == |s| {
      assert s[|s| - 1] in s[..Comma(s)];
    } else {
      var f, rest := s[..Comma(s)], s[Comma(s) + 1..];
      FieldsMakeUp(rest);
      JoinedStep(f, rest, Fields(rest));
      assert s == f + "," + rest;
    }
  }

  lemma FieldsSplit(a: seq<string>, b: seq<string>, c: seq<string>)
    ensures a + (b + c) == (a + b) + c
  {
  }

  lemma HopsStep(fields: seq<string>, f: string)
    ensures Hops(fields + [f]) == Hops(fields) + [Atoi(f) % 256]
  {
  }

  lemma HopsPrefix(a: seq<string>, b: seq<string>)
    ensures Hops(a + b)[..|a|] == Hops(a)
  {
  }

  function Hops(fields: seq<string>): (h: seq<Byte>)
    ensures |h| == |fields|
  {
    seq(|fields|, i requires 0 <= i < |fields| => Atoi(fields[i]) % 256)
  }

  function CommaList(h: seq<Byte>): string
    requires h != []
  {
    (if |h| == 1 then "" else CommaList(h[..|h| - 1]) + ",") + Decimal(h[|h| - 1])
  }

  lemma {:induction false} FieldsOfJoined(s: string, t: string)
    requires t != "" && ',' !in t
    ensures Fields(s + "," + t) == FieldsBefore(s) + [t]
    decreases |s|
  {
    var whole := s + "," + t;
    var c := Comma(whole);
    CommaOfJoined(s, t);
    if Comma(s) == |s| {
      assert whole[..c] == s && whole[c + 1..] == t;
      NoComma(t);
    } else {
      assert whole[..c] == s[..c] && whole[c + 1..] == s[c + 1..] + "," + t;
      FieldsOfJoined(s[c + 1..], t);
    }
  }

  /** The fields of a string that a comma follows. */
  function FieldsBefore(s: string): seq<string> {
    if Comma(s) == |s| then [s] else [s[..Comma(s)]] + FieldsBefore(s[Comma(s) + 1..])
  }

  lemma {:induction false} CommaOfJoined(s: string, t: string)
    ensures Comma(s + "," + t) == Comma(s)
  {
    var whole := s + "," + t;
    if s != "" && s[0] != ',' {
      CommaOfJoined(s[1..], t);
      assert whole[1..] == s[1..] + "," + t;
    }
  }

  lemma {:induction false} NoComma(s: string)
    requires ',' !in s
    ensures Comma(s) == |s|
  {
    if s == "" {
    } else {
      NoComma(s[1..]);
    }
  }

  lemma {:induction false} FieldsBeforeLast(s: string)
    requires s != "" && s[|s| - 1] != ','
    ensures FieldsBefore(s) == Fields(s)
  {
    var c := Comma(s);
    if c == |s| {
    } else {
      assert s[c + 1..] != "";
      FieldsBeforeLast(s[c + 1..]);
    }
  }

  lemma DecimalHasNoComma(n: nat)
    ensures ',' !in Decimal(n)
  {
    assert forall i | 0 <= i < |Decimal(n)| :: IsDigit(Decimal(n)[i]);
  }

  function Names(h: seq<Byte>): (ns: seq<string>)
    ensures |ns| == |h|
  {
    if h == [] then [] else Names(h[..|h| - 1]) + [Decimal(h[|h| - 1])]
  }

  lemma {:induction false} NamesAt(h: seq<Byte>, i: nat)
    requires i < |h|
    ensures Names(h)[i] == Decimal(h[i])
  {
    if i == |h| - 1 {
    } else {
      NamesAt(h[..|h| - 1], i);
    }
  }

  lemma ListEndsInDigit(h: seq<Byte>)
    requires h != []
    ensures CommaList(h) != "" && CommaList(h)[|CommaList(h)| - 1] != ','
  {
    var d := Decimal(h[|h| - 1]);
    assert CommaList(h)[|CommaList(h)| - 1] == d[|d| - 1];
    assert IsDigit(d[|d| - 1]);
  }

  lemma {:induction false} FieldsOfList(h: seq<Byte>)
    requires h != []
    ensures Fields(CommaList(h)) == Names(h)
  {
    var last, init := Decimal(h[|h| - 1]), h[..|h| - 1];
    DecimalHasNoComma(h[|h| - 1]);
    if |h| == 1 {
      assert CommaList(h) == last;
      NoComma(last);
      assert init == [];
    } else {
      FieldsOfList(init);
      ListEndsInDigit(init);
      FieldsBeforeLast(CommaList(init));
      FieldsOfJoined(CommaList(init), last);
    }
  }

  lemma HopOfName(h: seq<Byte>, i: nat)
    requires i < |h|
    ensures Hops(Names(h))[i] == h[i]
  {
    NamesAt(h, i);
    ByteOfName(Names(h)[i], h[i]);
  }

  lemma ByteOfName(s: string, b: Byte)
    requires s == Decimal(b)
    ensures Atoi(s) % 256 == b
  {
    AtoiOfDecimal(b);
    Small(b, 256);
  }

  lemma HopsOfNames(h: seq<Byte>)
    ensures Hops(Names(h)) == h
  {
    forall i | 0 <= i < |h| ensures Hops(Names(h))[i] == h[i] { HopOfName(h, i); }
  }

  /** Parsing the printed comma list gives the hops back. */
  lemma ListRoundTrip(h: seq<Byte>)
    requires h != []
    ensures Hops(Fields(CommaList(h))) == h
  {
    FieldsOfList(h);
    HopsOfNames(h);
  }

  // ---- the two functions ----

  /** A directed route: hops p[0] to p[cnt], none of them when `cnt` is -1. */
  class DrPath {
    var cnt: int
    const p: array<Byte>
    var slid: nat
    var dlid: nat

    ghost predicate Valid()
      reads this
    {
      p.Length == PATH_SIZE && -1 <= cnt < PATH_SIZE
    }

    ghost function Route(): seq<Byte>
      requires Valid()
      reads this, p
    {
      p[..cnt + 1]
    }

    /** The hops that are printed: the first array element even if there is none. */
    ghost function Printed(): seq<Byte>
      requires Valid()
      reads this, p
    {
      p[..if cnt < 0 then 1 else cnt + 1]
    }

    /** Fills the route from a comma list, one array element for each field. `inside` tells
        whether all of them exist; what happens beyond the array is not defined. */
    method FromText(text: Option<string>, slid: nat, dlid: nat) returns (inside: bool)
      requires p.Length == PATH_SIZE
      modifies this, p
      ensures Valid() && (inside <==> text.None? || |Fields(text.value)| <= PATH_SIZE)
      ensures Route() ==
        if text.None? then [] else if inside then Hops(Fields(text.value)) else Hops(Fields(text.value))[..PATH_SIZE]
      ensures inside ==>
        this.slid == (if slid != 0 then slid else NO_LID) && this.dlid == (if dlid != 0 then dlid else NO_LID)
    {
      cnt, inside := -1, true;
      if text.Some? { inside := Fill(text.value); }
      if inside {
        this.dlid := if dlid != 0 then dlid else NO_LID;
        this.slid := if slid != 0 then slid else NO_LID;
      }
    }

    method Fill(text: string) returns (inside: bool)
      requires p.Length == PATH_SIZE && cnt == -1
      modifies `cnt, p
      ensures Valid() && (inside <==> |Fields(text)| <= PATH_SIZE)
      ensures Route() == if inside then Hops(Fields(text)) else Hops(Fields(text))[..PATH_SIZE]
    {
      var rest := text;
      ghost var done: seq<string> := [];
      while rest != ""
        invariant cnt + 1 == |done| && done + Fields(rest) == Fields(text)
        invariant cnt < PATH_SIZE && p[..cnt + 1] == Hops(done)
        decreases |rest|
      {
        var c := Comma(rest);
        FieldsStep(rest);
        if cnt + 1 == p.Length {
          HopsPrefix(done, Fields(rest));
          return false;
        }
        FieldsSplit(done, [rest[..c]], Fields(Beyond(rest)));
        HopsStep(done, rest[..c]);
        done := done + [rest[..c]];
        ghost var before := p[..cnt + 1];
        cnt := cnt + 1;
        p[cnt] := Atoi(rest[..c]) % 256;
        assert p[..cnt] == before;
        rest := Beyond(rest);
      }
      return true;
    }

    /** Prints the route into `size` characters, terminator included. */
    method ToText(size: nat) returns (text: string)
      requires Valid()
      ensures text == Clip(Header(slid, dlid) + CommaList(Printed()), size)
    {
      text := PrintList(Header(slid, dlid), p, if cnt < 0 then 1 else cnt + 1, size);
    }
  }

  /** Prints hop after hop behind `head`, until the text does not fit any more. */
  method PrintList(head: string, p: array<Byte>, n: nat, size: nat) returns (text: string)
    requires 1 <= n <= p.Length
    ensures text == Clip(head + CommaList(p[..n]), size)
  {
    text := head + Decimal(p[0]);
    var i := 1;
    while i < n && |text| < size
      invariant 1 <= i <= n && text == head + CommaList(p[..i])
    {
      PrintHop(p[..i], p[i]);
      assert p[..i + 1] == p[..i] + [p[i]];
      text := text + "," + Decimal(p[i]);
      i := i + 1;
    }
    assert p[..n][..i] == p[..i];
    ClippedList(head, p[..n], i, size);
    text := Clip(text, size);
  }

  /** The part of a text that fits into `size` characters with its terminator. */
  function Clip(s: string, size: nat): string {
    if size == 0 then "" else if |s| < size then s else s[..size - 1]
  }

  /** As much of the text as leaves room for the terminator. */
  lemma ClipFits(s: string, size: nat)
    ensures Clip(s, size) <= s && |Clip(s, size)| == (if size == 0 then 0 else if |s| < size then |s| else size - 1)
  {
  }

  lemma SamePrefix(a: string, b: string, size: nat)
    requires a <= b && (a == b || |a| >= size)
    ensures Clip(a, size) == Clip(b, size)
  {
  }

  lemma ClippedList(head: string, h: seq<Byte>, i: nat, size: nat)
    requires 1 <= i <= |h| && (i == |h| || |head + CommaList(h[..i])| >= size)
    ensures Clip(head + CommaList(h[..i]), size) == Clip(head + CommaList(h), size)
  {
    PrefixOfList(h, i);
    if i == |h| { assert h[..i] == h; }
    SamePrefix(head + CommaList(h[..i]), head + CommaList(h), size);
  }

  lemma PrintHop(h: seq<Byte>, b: Byte)
    requires h != []
    ensures CommaList(h + [b]) == CommaList(h) + "," + Decimal(b)
  {
    assert (h + [b])[..|h|] == h;
  }

  function Header(slid: nat, dlid: nat): string {
    "slid " + Decimal(slid) + "; dlid " + Decimal(dlid) + "; "
  }

  /** The number read after `slid ` is the source LID, the one after `; dlid ` the destination LID. */
  lemma HeaderReads(slid: nat, dlid: nat, rest: string)
    ensures var line := Header(slid, dlid) + rest;
      var n := 5 + |Decimal(slid)|;
      && |line| > n + 7 && line[..5] == "slid " && line[n..n + 7] == "; dlid "
      && Reads(line[5..], slid) && Reads(line[n + 7..], dlid) && line[n + 7 + |Decimal(dlid)|..] == "; " + rest
  {
    Read(Decimal(slid), Decimal(dlid), rest);
    NumberThen(slid, "; dlid " + (Decimal(dlid) + ("; " + rest)));
    NumberThen(dlid, "; " + rest);
  }

  lemma Read(s: string, d: string, rest: string)
    ensures var line := "slid " + s + "; dlid " + d + "; " + rest;
      && |line| > |s| + 12 && line[..5] == "slid " && line[5..] == s + ("; dlid " + (d + ("; " + rest)))
      && line[|s| + 5..|s| + 12] == "; dlid " && line[|s| + 12..] == d + ("; " + rest)
      && line[|s| + 12 + |d|..] == "; " + rest
  {
  }

  lemma {:induction false} PrefixOfList(h: seq<Byte>, i: nat)
    requires 1 <= i <= |h|
    ensures CommaList(h[..i]) <= CommaList(h)
  {
    if i == |h| {
      assert h[..i] == h;
    } else {
      PrefixOfList(h[..|h| - 1], i);
      assert h[..|h| - 1][..i] == h[..i];
    }
  }

  /** Printing a route that fits and parsing the list after the header gives the route back,
      except that an empty route comes back as the first array element. */
  method PrintThenParse(from: DrPath, to: DrPath, size: nat)
    requires from.Valid() && to.p.Length == PATH_SIZE && from != to && from.p != to.p
    requires |Header(from.slid, from.dlid) + CommaList(from.Printed())| < size
    modifies to, to.p
    ensures to.Valid() && to.Route() == from.Printed()
    ensures from.Printed() == from.Route() <==> from.cnt >= 0
  {
    var text := from.ToText(size);
    var list := text[|Header(from.slid, from.dlid)|..];
    assert list == CommaList(from.Printed());
    ListRoundTrip(from.Printed());
    assert |Fields(list)| == |from.Printed()|;
    var inside := to.FromText(Some(list), from.slid, from.dlid);
  }
}
