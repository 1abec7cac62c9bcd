/**
  A replay cursor as text: `<ts>:<skip>` in decimal, then unpadded base64url
  as in section 5 of RFC 4648, decoded strictly.
*/
module Base64Url {

  import opened Wrappers

  /** The alphabet: `A`–`Z`, `a`–`z`, `0`–`9`, `-`, `_`. */
  function Symbol(v: nat): char
    requires v < 64
  {
    if v < 26 then 'A' + v as char
    else if v < 52 then 'a' + (v - 26) as char
    else if v < 62 then '0' + (v - 52) as char
    else if v == 62 then '-' else '_'
  }

  function Value(c: char): Option<nat>
  {
    if 'A' <= c <= 'Z' then Some((c - 'A') as nat)
    else if 'a' <= c <= 'z' then Some((c - 'a') as nat + 26)
    else if '0' <= c <= '9' then Some((c - '0') as nat + 52)
    else if c == '-' then Some(62)
    else if c == '_' then Some(63)
    else None
  }

  ghost predicate Bytes(bs: seq<nat>)
  {
    forall i :: 0 <= i < |bs| ==> bs[i] < 256
  }

  /** The four six-bit groups of three bytes, and back. */
  function First(a: nat): (v: nat)
    requires a < 256
    ensures v < 64
  {
    a / 4
  }

  function Second(a: nat, b: nat): (v: nat)
    requires a < 256 && b < 256
    ensures v < 64
  {
    a % 4 * 16 + b / 16
  }

  function Third(b: nat, c: nat): (v: nat)
    requires b < 256 && c < 256
    ensures v < 64
  {
    b % 16 * 4 + c / 64
  }

  function Fourth(c: nat): (v: nat)
    requires c < 256
    ensures v < 64
  {
    c % 64
  }

  function ByteA(v0: nat, v1: nat): nat
  {
    v0 * 4 + v1 / 16
  }

  function ByteB(v1: nat, v2: nat): nat
  {
    v1 % 16 * 16 + v2 / 4
  }

  function ByteC(v2: nat, v3: nat): nat
  {
    v2 % 4 * 64 + v3
  }

  function Encode(bs: seq<nat>): string
    requires Bytes(bs)
  {
    if bs == [] then ""
    else if |bs| == 1 then
      [Symbol(First(bs[0])), Symbol(Second(bs[0], 0))]
    else if |bs| == 2 then
      [Symbol(First(bs[0])), Symbol(Second(bs[0], bs[1])), Symbol(Third(bs[1], 0))]
    else
      [Symbol(First(bs[0])), Symbol(Second(bs[0], bs[1])),
       Symbol(Third(bs[1], bs[2])), Symbol(Fourth(bs[2]))] + Encode(bs[3..])
  }

  function Decode(s: string): Option<seq<nat>>
  {
    if s == "" then Some([])
    else if |s| == 1 then None
    else
      var v0, v1 := Value(s[0]), Value(s[1]);
      if v0.None? || v1.None? then None
      else if |s| == 2 then
        if v1.value % 16 != 0 then None else Some([ByteA(v0.value, v1.value)])
      else
        var v2 := Value(s[2]);
        if v2.None? then None
        else if |s| == 3 then
          if v2.value % 4 != 0 then None
          else Some([ByteA(v0.value, v1.value), ByteB(v1.value, v2.value)])
        else
          var v3, rest := Value(s[3]), Decode(s[4..]);
          if v3.None? || rest.None? then None
          else Some([ByteA(v0.value, v1.value), ByteB(v1.value, v2.value), ByteC(v2.value, v3.value)] + rest.value)
  }

  /** The alphabet of section 5 of RFC 4648 by code points: A to Z, a to z, 0 to 9, the hyphen, the underscore. */
  lemma AlphabetInOrder(v: nat)
    requires v < 64
    ensures Symbol(v) as int ==
            if v < 26 then 0x41 + v else if v < 52 then 0x61 + v - 26 else if v < 62 then 0x30 + v - 52
            else if v == 62 then 0x2d else 0x5f
  {
  }

  /** Three bytes are four symbols, most significant bits first. */
  lemma SymbolWeights(a: nat, b: nat, c: nat)
    requires a < 256 && b < 256 && c < 256
    ensures ((First(a) * 64 + Second(a, b)) * 64 + Third(b, c)) * 64 + Fourth(c) == (a * 256 + b) * 256 + c
  {
  }

  lemma SymbolValue(v: nat)
    requires v < 64
    ensures Value(Symbol(v)) == Some(v)
  {
  }

  lemma ValueSymbol(c: char)
    requires Value(c).Some?
    ensures Value(c).value < 64 && Symbol(Value(c).value) == c
  {
  }

  lemma SplitA(a: nat, b: nat)
    requires a < 256 && b < 256
    ensures ByteA(First(a), Second(a, b)) == a
    ensures Second(a, b) % 16 == b / 16
  {
  }

  lemma SplitB(a: nat, b: nat, c: nat)
    requires a < 256 && b < 256 && c < 256
    ensures ByteB(Second(a, b), Third(b, c)) == b
    ensures Third(b, c) % 4 == c / 64
  {
    hide Second;
    SplitA(a, b);
    assert Third(b, c) / 4 == b % 16;
  }

  lemma Split(a: nat, b: nat, c: nat)
    requires a < 256 && b < 256 && c < 256
    ensures ByteA(First(a), Second(a, b)) == a
    ensures ByteB(Second(a, b), Third(b, c)) == b
    ensures ByteC(Third(b, c), Fourth(c)) == c
    ensures Second(a, 0) % 16 == 0 && Third(b, 0) % 4 == 0
  {
    hide First, Second, Third, ByteA, ByteB;
    SplitA(a, b);
    SplitA(a, 0);
    SplitB(a, b, c);
    SplitB(a, b, 0);
  }

  lemma Join(v0: nat, v1: nat, v2: nat, v3: nat)
    requires v0 < 64 && v1 < 64 && v2 < 64 && v3 < 64
    ensures var a, b, c := ByteA(v0, v1), ByteB(v1, v2), ByteC(v2, v3);
            && a < 256 && b < 256 && c < 256
            && First(a) == v0 && Second(a, b) == v1 && Third(b, c) == v2 && Fourth(c) == v3
            && (v1 % 16 == 0 ==> Second(a, 0) == v1) && (v2 % 4 == 0 ==> Third(b, 0) == v2)
  {
  }

  lemma DecodeOne(a: nat)
    requires a < 256
    ensures Decode(Encode([a])) == Some([a])
  {
  }

  lemma DecodeTwo(a: nat, b: nat)
    requires a < 256 && b < 256
    ensures Decode(Encode([a, b])) == Some([a, b])
  {
    hide Symbol, Value;
    Split(a, b, 0);
    SymbolValue(First(a));
    SymbolValue(Second(a, b));
    SymbolValue(Third(b, 0));
    assert Encode([a, b]) == [Symbol(First(a)), Symbol(Second(a, b)), Symbol(Third(b, 0))];
  }

  lemma DecodeThree(a: nat, b: nat, c: nat, rest: seq<nat>)
    requires a < 256 && b < 256 && c < 256 && Bytes(rest)
    requires Decode(Encode(rest)) == Some(rest)
    ensures Bytes([a, b, c] + rest) && Decode(Encode([a, b, c] + rest)) == Some([a, b, c] + rest)
  {
    hide Symbol, Value, First, Second, Third, Fourth, ByteA, ByteB, ByteC;
    var bs := [a, b, c] + rest;
    Split(a, b, c);
    SymbolValue(First(a));
    SymbolValue(Second(a, b));
    SymbolValue(Third(b, c));
    SymbolValue(Fourth(c));
    assert bs[3..] == rest;
    assert Encode(bs)[4..] == Encode(rest);
  }

  lemma {:induction false} DecodeEncode(bs: seq<nat>)
    requires Bytes(bs)
    ensures Decode(Encode(bs)) == Some(bs)
    decreases |bs|
  {
    hide Encode, Decode;
    if bs == [] {
      assert Decode(Encode([])) == Some([]) by {
        DecodeNone();
      }
    } else if |bs| == 1 {
      DecodeOne(bs[0]);
      assert bs == [bs[0]];
    } else if |bs| == 2 {
      DecodeTwo(bs[0], bs[1]);
      assert bs == [bs[0], bs[1]];
    } else {
      DecodeEncode(bs[3..]);
      DecodeThree(bs[0], bs[1], bs[2], bs[3..]);
      assert bs == [bs[0], bs[1], bs[2]] + bs[3..];
    }
  }

  lemma DecodeNone()
    ensures Decode(Encode([])) == Some([])
  {
  }

  lemma EncodeShort(s: string)
    requires 2 <= |s| <= 3 && Decode(s).Some?
    ensures Bytes(Decode(s).value) && Encode(Decode(s).value) == s
  {
    hide Symbol, Value, First, Second, Third, ByteA, ByteB;
    ValueSymbol(s[0]);
    ValueSymbol(s[1]);
    var v0, v1 := Value(s[0]).value, Value(s[1]).value;
    if |s| == 2 {
      Join(v0, v1, 0, 0);
      assert s == [s[0], s[1]];
    } else {
      ValueSymbol(s[2]);
      Join(v0, v1, Value(s[2]).value, 0);
      assert s == [s[0], s[1], s[2]];
    }
  }

  lemma EncodeThree(a: nat, b: nat, c: nat, rest: seq<nat>)
    requires a < 256 && b < 256 && c < 256 && Bytes(rest)
    ensures Bytes([a, b, c] + rest)
    ensures Encode([a, b, c] + rest)
         == [Symbol(First(a)), Symbol(Second(a, b)), Symbol(Third(b, c)), Symbol(Fourth(c))] + Encode(rest)
  {
  }

  lemma DecodeFour(s: string)
    requires 4 <= |s| && Decode(s).Some?
    ensures Value(s[0]).Some? && Value(s[1]).Some? && Value(s[2]).Some? && Value(s[3]).Some?
    ensures Decode(s[4..]).Some?
    ensures Decode(s).value == [ByteA(Value(s[0]).value, Value(s[1]).value),
                                ByteB(Value(s[1]).value, Value(s[2]).value),
                                ByteC(Value(s[2]).value, Value(s[3]).value)] + Decode(s[4..]).value
  {
  }

  lemma EncodeLong(s: string)
    requires 4 <= |s| && Decode(s).Some? && Decode(s[4..]).Some?
    requires Bytes(Decode(s[4..]).value) && Encode(Decode(s[4..]).value) == s[4..]
    ensures Bytes(Decode(s).value) && Encode(Decode(s).value) == s
  {
    hide Symbol, Value, First, Second, Third, Fourth, ByteA, ByteB, ByteC, Decode, Encode;
    DecodeFour(s);
    ValueSymbol(s[0]);
    ValueSymbol(s[1]);
    ValueSymbol(s[2]);
    ValueSymbol(s[3]);
    var v0, v1, v2, v3 := Value(s[0]).value, Value(s[1]).value, Value(s[2]).value, Value(s[3]).value;
    Join(v0, v1, v2, v3);
    EncodeThree(ByteA(v0, v1), ByteB(v1, v2), ByteC(v2, v3), Decode(s[4..]).value);
    assert s == [s[0], s[1], s[2], s[3]] + s[4..];
  }

  /** Strictness: text is accepted only as the encoding of what it decodes to. */
  lemma {:induction false} EncodeDecode(s: string)
    requires Decode(s).Some?
    ensures Bytes(Decode(s).value) && Encode(Decode(s).value) == s
    decreases |s|
  {
    if 2 <= |s| <= 3 {
      EncodeShort(s);
    } else if 4 <= |s| {
      DecodeFour(s);
      EncodeDecode(s[4..]);
      EncodeLong(s);
    }
  }
}

module CursorCodec {
  import opened Wrappers
  import opened Base64Url

  function Digit(d: nat): char
    requires d < 10
  {
    '0' + d as char
  }

  /** Decimal, without leading zeros. */
  function Decimal(n: nat): string
  {
    if n < 10 then [Digit(n)] else Decimal(n / 10) + [Digit(n % 10)]
  }

  predicate IsDigit(c: char)
  {
    '0' <= c <= '9'
  }

  /** Digits only, and at least one. */
  function ParseDigits(s: string): Option<nat>
  {
    if s == "" || !IsDigit(s[|s| - 1]) then None
    else
      var last := (s[|s| - 1] - '0') as nat;
      if |s| == 1 then Some(last)
      else match ParseDigits(s[..|s| - 1])
        case None => None
        case Some(n) => Some(n * 10 + last)
  }

  const I64_MIN: int := -0x8000_0000_0000_0000
  const I64_MAX: int := 0x7fff_ffff_ffff_ffff
  const U32_MAX: int := 0xffff_ffff

  function PrintInt(n: int): string
  {
    if n < 0 then "-" + Decimal(-n) else Decimal(n)
  }

  /** `str::parse::<i64>`: an optional sign, digits, and a range. */
  function ParseI64(s: string): Option<int>
  {
    var negative := s != "" && s[0] == '-';
    var digits := if s != "" && (s[0] == '-' || s[0] == '+') then s[1..] else s;
    match ParseDigits(digits)
    case None => None
    case Some(n) =>
      var v: int := if negative then -(n as int) else n as int;
      if I64_MIN <= v <= I64_MAX then Some(v) else None
  }

  /** `str::parse::<u32>`: a minus is no digit. */
  function ParseU32(s: string): Option<nat>
  {
    match ParseDigits(if s != "" && s[0] == '+' then s[1..] else s)
    case None => None
    case Some(n) => if n <= U32_MAX then Some(n) else None
  }

  /** The first colon, if there is one. */
  function Colon(s: string): Option<nat>
    ensures Colon(s).Some? ==> Colon(s).value < |s|
  {
    if s == "" then None
    else if s[0] == ':' then Some(0)
    else match Colon(s[1..])
      case None => None
      case Some(i) => Some(i + 1)
  }

  function ToBytes(s: string): (bs: seq<nat>)
    ensures |bs| == |s| && forall i :: 0 <= i < |s| ==> bs[i] == s[i] as nat
  {
    seq(|s|, i requires 0 <= i < |s| => s[i] as nat)
  }

  /** A cursor is ASCII; any other byte fails later as it would here. */
  function FromBytes(bs: seq<nat>): Option<string>
  {
    if forall i :: 0 <= i < |bs| ==> bs[i] < 128 then
      Some(seq(|bs|, i requires 0 <= i < |bs| => bs[i] as char))
    else None
  }

  ghost predicate Ascii(s: string)
  {
    forall i :: 0 <= i < |s| ==> s[i] as nat < 128
  }

  function EncodeCursor(ts: int, skip: nat): string
  {
    var text := PrintInt(ts) + ":" + Decimal(skip);
    CursorText(ts, skip);
    Encode(ToBytes(text))
  }

  function DecodeCursor(cursor: string): Option<(int, nat)>
  {
    var raw := Decode(cursor);
    if raw.None? then None
    else
      var text := FromBytes(raw.value);
      if text.None? then None
      else
        var at := Colon(text.value);
        if at.None? then None
        else
          var ts, skip := ParseI64(text.value[..at.value]), ParseU32(text.value[at.value + 1..]);
          if ts.None? || skip.None? then None else Some((ts.value, skip.value))
  }

  // -------------------------------------------------------------------------

  lemma {:induction false} DecimalDigits(n: nat)
    ensures Decimal(n) != "" && forall i :: 0 <= i < |Decimal(n)| ==> IsDigit(Decimal(n)[i])
    ensures ParseDigits(Decimal(n)) == Some(n)
  {
    if n >= 10 {
      DecimalDigits(n / 10);
      var s := Decimal(n);
      assert s[..|s| - 1] == Decimal(n / 10);
    }
  }

  lemma CursorText(ts: int, skip: nat)
    ensures Ascii(PrintInt(ts) + ":" + Decimal(skip))
    ensures Bytes(ToBytes(PrintInt(ts) + ":" + Decimal(skip)))
  {
    DecimalDigits(skip);
    DecimalDigits(if ts < 0 then -ts else ts);
  }

  lemma {:induction false} ColonAfter(front: string, back: string)
    requires forall i :: 0 <= i < |front| ==> front[i] != ':'
    ensures Colon(front + ":" + back) == Some(|front|)
  {
    if front == "" {
      assert (front + ":" + back)[0] == ':';
    } else {
      ColonAfter(front[1..], back);
      assert (front + ":" + back)[1..] == front[1..] + ":" + back;
    }
  }

  /** The colon found is the first there is. */
  lemma {:induction false} ColonIsFirst(s: string)
    ensures Colon(s).Some? ==>
              s[Colon(s).value] == ':' && forall i :: 0 <= i < Colon(s).value ==> s[i] != ':'
    ensures Colon(s).None? ==> forall i :: 0 <= i < |s| ==> s[i] != ':'
  {
    if s != "" && s[0] != ':' {
      ColonIsFirst(s[1..]);
      assert forall i :: 1 <= i < |s| ==> s[i] == s[1..][i - 1];
    }
  }

  /** A leading plus is read past, for either number. */
  lemma PlusRead(n: nat)
    ensures n <= I64_MAX ==> ParseI64("+" + Decimal(n)) == Some(n)
    ensures n <= U32_MAX ==> ParseU32("+" + Decimal(n)) == Some(n)
  {
    DecimalDigits(n);
    var s := "+" + Decimal(n);
    assert s[1..] == Decimal(n);
  }

  lemma PrintParse(ts: int)
    requires I64_MIN <= ts <= I64_MAX
    ensures ParseI64(PrintInt(ts)) == Some(ts)
    ensures forall i :: 0 <= i < |PrintInt(ts)| ==> PrintInt(ts)[i] != ':'
  {
    hide Decimal, ParseDigits;
    DecimalDigits(if ts < 0 then -ts else ts);
    if ts < 0 {
      assert PrintInt(ts)[1..] == Decimal(-ts);
    }
  }

  lemma ParsePrinted(skip: nat)
    requires skip <= U32_MAX
    ensures ParseU32(Decimal(skip)) == Some(skip)
  {
    DecimalDigits(skip);
  }

  lemma TextRoundTrip(s: string)
    requires Ascii(s)
    ensures FromBytes(ToBytes(s)) == Some(s)
  {
    var bs := ToBytes(s);
    assert seq(|bs|, i requires 0 <= i < |bs| => bs[i] as char) == s;
  }

  /** Every cursor the gateway gives out is read back as it was. */
  lemma CursorRoundTrip(ts: int, skip: nat)
    requires I64_MIN <= ts <= I64_MAX && skip <= U32_MAX
    ensures DecodeCursor(EncodeCursor(ts, skip)) == Some((ts, skip))
  {
    hide Decimal, ParseDigits, Base64Url.Encode, Base64Url.Decode, PrintInt, ParseI64, Colon;
    var front, back := PrintInt(ts), Decimal(skip);
    var text := front + ":" + back;
    CursorText(ts, skip);
    DecodeEncode(ToBytes(text));
    TextRoundTrip(text);
    PrintParse(ts);
    ParsePrinted(skip);
    ColonAfter(front, back);
    assert text[..|front|] == front;
    assert text[|front| + 1..] == back;
  }

  /** A sign or none, then digits and nothing else. */
  predicate Signed(s: string, signs: set<char>)
  {
    var digits := if s != "" && s[0] in signs then s[1..] else s;
    digits != "" && forall i :: 0 <= i < |digits| ==> '0' <= digits[i] <= '9'
  }

  lemma {:induction false} DigitsOnly(s: string)
    ensures ParseDigits(s).Some? <==> s != "" && forall i :: 0 <= i < |s| ==> '0' <= s[i] <= '9'
  {
    if |s| > 1 {
      var n := |s| - 1;
      DigitsOnly(s[..n]);
      assert s == s[..n] + [s[n]];
    }
  }

  /**
    Any text that is read as a cursor is base64url of ASCII: a number with an
    optional sign, the first colon, and a number with at most a plus; each
    within its type. Everything else is refused.
  */
  lemma CursorTextRead(cursor: string)
    ensures DecodeCursor(cursor).Some? ==>
              var raw := Decode(cursor);
              && raw.Some? && FromBytes(raw.value).Some?
              && var text := FromBytes(raw.value).value;
                 && Colon(text).Some?
                 && var at := Colon(text).value;
                    && Signed(text[..at], {'-', '+'}) && Signed(text[at + 1..], {'+'})
                    && I64_MIN <= DecodeCursor(cursor).value.0 <= I64_MAX
                    && DecodeCursor(cursor).value.1 <= U32_MAX
  {
    hide Decode, FromBytes, Colon, ParseDigits;
    var raw := Decode(cursor);
    if raw.Some? && FromBytes(raw.value).Some? && Colon(FromBytes(raw.value).value).Some? {
      var text := FromBytes(raw.value).value;
      var at := Colon(text).value;
      SignedRead(text[..at]);
      SignedRead(text[at + 1..]);
    }
  }

  lemma SignedRead(s: string)
    ensures ParseI64(s).Some? ==> Signed(s, {'-', '+'}) && I64_MIN <= ParseI64(s).value <= I64_MAX
    ensures ParseU32(s).Some? ==> Signed(s, {'+'}) && ParseU32(s).value <= U32_MAX
  {
    hide ParseDigits;
    DigitsOnly(s);
    if s != "" {
      DigitsOnly(s[1..]);
    }
  }

  /** And no two positions share a cursor. */
  lemma CursorsDistinct(ts: int, skip: nat, ts': int, skip': nat)
    requires I64_MIN <= ts <= I64_MAX && skip <= U32_MAX
    requires I64_MIN <= ts' <= I64_MAX && skip' <= U32_MAX
    requires EncodeCursor(ts, skip) == EncodeCursor(ts', skip')
    ensures ts == ts' && skip == skip'
  {
    CursorRoundTrip(ts, skip);
    CursorRoundTrip(ts', skip');
  }
}
