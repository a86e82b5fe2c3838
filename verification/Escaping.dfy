/**
 JSON, URL and Rust literals (rust-core/src/aot/runtime.rs, packages/aot-transpiler/src/emit), each against a
 reader.
 */
module Escaping {
  import opened Bytes
  import opened Decimal

  const QUOTE: Byte := 34
  const BACKSLASH: Byte := 92
  const PERCENT: Byte := 37

  function HexNibble(n: nat): Byte
    requires n < 16
  {
    if n < 10 then 48 + n else 97 + (n - 10)
  }

  function Upper(b: Byte): Byte {
    if 97 <= b <= 122 then b - 32 else b
  }

  /** Value of a hexadecimal digit of either case. */
  function HexValue(b: Byte): Option<nat> {
    if 48 <= b <= 57 then Some(b - 48)
    else if 97 <= b <= 102 then Some(b - 87)
    else if 65 <= b <= 70 then Some(b - 55)
    else None
  }

  function HexPair(hi: Byte, lo: Byte): (r: Option<Byte>) {
    match (HexValue(hi), HexValue(lo))
    case (Some(h), Some(l)) => if h < 16 && l < 16 then Some(16 * h + l) else None
    case _ => None
  }

  lemma HexPairUndoes(b: Byte)
    ensures HexPair(HexNibble(b / 16), HexNibble(b % 16)) == Some(b)
    ensures HexPair(Upper(HexNibble(b / 16)), Upper(HexNibble(b % 16))) == Some(b)
  {
  }

  /** Escapes byte by byte. */
  function EscapeAll(escape: Byte -> Bytes, s: Bytes): Bytes {
    if s == [] then [] else escape(s[0]) + EscapeAll(escape, s[1..])
  }

  lemma {:induction false} EscapeAllSnoc(escape: Byte -> Bytes, s: Bytes, b: Byte)
    ensures EscapeAll(escape, s + [b]) == EscapeAll(escape, s) + escape(b)
  {
    if s == [] {
      assert EscapeAll(escape, [b]) == escape(b) + EscapeAll(escape, []);
    } else {
      assert (s + [b])[1..] == s[1..] + [b];
      EscapeAllSnoc(escape, s[1..], b);
    }
  }

  lemma {:induction false} EscapeAllAppend(escape: Byte -> Bytes, s: Bytes, t: Bytes)
    ensures EscapeAll(escape, s + t) == EscapeAll(escape, s) + EscapeAll(escape, t)
  {
    if s == [] {
      assert s + t == t;
    } else {
      assert (s + t)[1..] == s[1..] + t;
      EscapeAllAppend(escape, s[1..], t);
    }
  }

  // ---------------------------------------------------------------- JSON strings

  function JsonByte(b: Byte): (r: Bytes)
    ensures |r| > 0
  {
    if b == QUOTE then [BACKSLASH, QUOTE]
    else if b == BACKSLASH then [BACKSLASH, BACKSLASH]
    else if b == 10 then [BACKSLASH, 110]
    else if b == 13 then [BACKSLASH, 114]
    else if b == 9 then [BACKSLASH, 116]
    else if b == 8 then [BACKSLASH, 98]
    else if b == 12 then [BACKSLASH, 102]
    else if b < 32 then [BACKSLASH, 117, 48, 48, HexNibble(b / 16), HexNibble(b % 16)]
    else [b]
  }

  function JsonEscape(s: Bytes): Bytes {
    EscapeAll(JsonByte, s)
  }

  method WriteJsonString(out: ByteVec, value: Bytes)
    modifies out
    ensures out.data == old(out.data) + JsonEscape(value)
  {
    var i := 0;
    while i < |value|
      invariant 0 <= i <= |value|
      invariant out.data == old(out.data) + JsonEscape(value[..i])
    {
      var b := value[i];
      EscapeAllSnoc(JsonByte, value[..i], b);
      assert value[..i + 1] == value[..i] + [b];
      if b == QUOTE {
        out.Extend([BACKSLASH, QUOTE]);
      } else if b == BACKSLASH {
        out.Extend([BACKSLASH, BACKSLASH]);
      } else if b == 10 {
        out.Extend([BACKSLASH, 110]);
      } else if b == 13 {
        out.Extend([BACKSLASH, 114]);
      } else if b == 9 {
        out.Extend([BACKSLASH, 116]);
      } else if b == 8 {
        out.Extend([BACKSLASH, 98]);
      } else if b == 12 {
        out.Extend([BACKSLASH, 102]);
      } else if b < 32 {
        out.Extend([BACKSLASH, 117, 48, 48]);
        out.Push(HexNibble(b / 16));
        out.Push(HexNibble(b % 16));
      } else {
        out.Push(b);
      }
      i := i + 1;
    }
    assert value[..i] == value;
  }

  /** The byte a one-letter escape stands for (section 7 of RFC 8259). */
  function ShortEscape(letter: Byte): Option<Byte> {
    if letter in ['"' as int, '\\' as int, '/' as int] then Some(letter)
    else if letter == 98 then Some(8)
    else if letter == 102 then Some(12)
    else if letter == 110 then Some(10)
    else if letter == 114 then Some(13)
    else if letter == 116 then Some(9)
    else None
  }

  /** One character of a JSON string, and how much text it took; `\u` escapes below U+0080 only. */
  function JsonChar(text: Bytes): (r: Option<(Byte, nat)>)
    ensures r.Some? ==> 0 < r.value.1 <= |text|
  {
    if |text| == 0 || text[0] < 32 || text[0] == '"' as int then None
    else if text[0] != '\\' as int then Some((text[0], 1))
    else if |text| < 2 then None
    else if text[1] != 117 then
      match ShortEscape(text[1]) case None => None case Some(b) => Some((b, 2))
    else if |text| < 6 || text[2] != 48 || text[3] != 48 then None
    else match HexPair(text[4], text[5]) case None => None case Some(b) => if b < 128 then Some((b, 6)) else None
  }

  /** Reads a JSON string up to its closing quote: the bytes it stands for, and the text behind it. */
  function ReadJsonString(text: Bytes): (r: Option<(Bytes, Bytes)>)
    ensures r.Some? ==> |r.value.1| < |text|
    decreases |text|
  {
    if |text| > 0 && text[0] == '"' as int then Some(([], text[1..]))
    else match JsonChar(text)
      case None => None
      case Some((b, n)) =>
        match ReadJsonString(text[n..])
        case None => None
        case Some((bytes, rest)) => Some(([b] + bytes, rest))
  }

  lemma JsonCharUndoes(b: Byte, rest: Bytes)
    ensures JsonChar(JsonByte(b) + rest) == Some((b, |JsonByte(b)|))
    ensures JsonByte(b)[0] != QUOTE
  {
    var t := JsonByte(b) + rest;
    if 1 < |JsonByte(b)| {
      assert t[0] == JsonByte(b)[0] && t[1] == JsonByte(b)[1];
      if |JsonByte(b)| == 6 {
        HexPairUndoes(b);
        assert t[2] == 48 && t[3] == 48 && t[4] == HexNibble(b / 16) && t[5] == HexNibble(b % 16);
      }
    } else {
      assert t[0] == b;
    }
  }

  /** A JSON reader recovers every byte string, and stops at the closing quote. */
  lemma {:induction false} JsonStringRoundTrip(s: Bytes, rest: Bytes)
    ensures ReadJsonString(JsonEscape(s) + [QUOTE] + rest) == Some((s, rest))
  {
    if s == [] {
      assert JsonEscape(s) + [QUOTE] + rest == [QUOTE] + rest;
    } else {
      var first, tail := JsonByte(s[0]), JsonEscape(s[1..]) + [QUOTE] + rest;
      JsonStringRoundTrip(s[1..], rest);
      JsonCharUndoes(s[0], tail);
      assert [s[0]] + s[1..] == s;
      var text := JsonEscape(s) + [QUOTE] + rest;
      assert text == first + tail;
      assert text[0] == first[0] && text[|first|..] == tail;
    }
  }

  /** Nothing in the output ends the string early, and no control byte is left bare. */
  lemma {:induction false} JsonEscapeIsClean(s: Bytes, k: nat)
    requires k < |JsonEscape(s)|
    ensures JsonEscape(s)[k] >= 32
    ensures JsonEscape(s)[k] == QUOTE ==> k > 0 && JsonEscape(s)[k - 1] == BACKSLASH
  {
    var first, rest := JsonByte(s[0]), JsonEscape(s[1..]);
    assert JsonEscape(s) == first + rest;
    if k < |first| {
      assert JsonEscape(s)[k] == first[k];
      if k > 0 { assert JsonEscape(s)[k - 1] == first[k - 1]; }
    } else {
      JsonEscapeIsClean(s[1..], k - |first|);
      assert JsonEscape(s)[k] == rest[k - |first|];
      if k > |first| { assert JsonEscape(s)[k - 1] == rest[k - |first| - 1]; }
    }
  }

  predicate NoCapitals(text: Bytes) {
    forall i :: 0 <= i < |text| ==> !('A' as int <= text[i] <= 'Z' as int)
  }

  /** No escape is longer than it has to be, and no other way of writing a byte is as short, but for capital digits. */
  lemma EscapeIsShortest(b: Byte, text: Bytes)
    requires JsonChar(text) == Some((b, |text|))
    ensures |JsonByte(b)| <= |text|
    ensures |text| == |JsonByte(b)| && (NoCapitals(text) || b >= 32) ==> text == JsonByte(b)
  {
    if |text| == 6 && b < 32 {
      assert HexPair(text[4], text[5]) == Some(b);
      if NoCapitals(text) { DigitsOf(b, text[4], text[5]); }
    }
  }

  lemma DigitsOf(b: Byte, hi: Byte, lo: Byte)
    requires HexPair(hi, lo) == Some(b)
    requires !('A' as int <= hi <= 'Z' as int) && !('A' as int <= lo <= 'Z' as int)
    ensures hi == HexNibble(b / 16) && lo == HexNibble(b % 16)
  {
  }

  // ---------------------------------------------------------------- URLs

  predicate Unreserved(b: Byte) {
    65 <= b <= 90 || 97 <= b <= 122 || 48 <= b <= 57 || b == 45 || b == 95 || b == 46 || b == 126
  }

  function UrlByte(b: Byte): (r: Bytes)
    ensures |r| > 0
  {
    if Unreserved(b) then [b] else [PERCENT, Upper(HexNibble(b / 16)), Upper(HexNibble(b % 16))]
  }

  function UrlEscape(s: Bytes): Bytes {
    EscapeAll(UrlByte, s)
  }

  /** Exactly letters, digits and `-_.~` stay as they are; every other byte is a percent and its capital digits. */
  lemma UrlKeepsExactly(b: Byte)
    ensures UrlByte(b) == [b] <==>
              || 'A' as int <= b <= 'Z' as int || 'a' as int <= b <= 'z' as int || '0' as int <= b <= '9' as int
              || b in ['-' as int, '_' as int, '.' as int, '~' as int]
    ensures UrlByte(b) != [b] ==>
              |UrlByte(b)| == 3 && UrlByte(b)[0] == '%' as int && HexPair(UrlByte(b)[1], UrlByte(b)[2]) == Some(b)
              && forall i :: 0 <= i < 3 ==> !('a' as int <= UrlByte(b)[i] <= 'z' as int)
  {
    HexPairUndoes(b);
    hide HexPair;
  }

  method WriteUrlEncoded(out: ByteVec, value: Bytes)
    modifies out
    ensures out.data == old(out.data) + UrlEscape(value)
  {
    var i := 0;
    while i < |value|
      invariant 0 <= i <= |value|
      invariant out.data == old(out.data) + UrlEscape(value[..i])
    {
      var b := value[i];
      EscapeAllSnoc(UrlByte, value[..i], b);
      assert value[..i + 1] == value[..i] + [b];
      if Unreserved(b) {
        out.Push(b);
      } else {
        out.Push(PERCENT);
        out.Push(Upper(HexNibble(b / 16)));
        out.Push(Upper(HexNibble(b % 16)));
      }
      i := i + 1;
    }
    assert value[..i] == value;
  }

  /** Percent-decoding (section 2.1 of RFC 3986). */
  function PercentDecode(text: Bytes): Option<Bytes>
    decreases |text|
  {
    if text == [] then Some([])
    else if text[0] != PERCENT then
      match PercentDecode(text[1..]) case None => None case Some(rest) => Some([text[0]] + rest)
    else if |text| < 3 then None
    else match (HexPair(text[1], text[2]), PercentDecode(text[3..]))
      case (Some(b), Some(rest)) => Some([b] + rest)
      case _ => None
  }

  lemma {:induction false} UrlRoundTrip(s: Bytes)
    ensures PercentDecode(UrlEscape(s)) == Some(s)
  {
    if s != [] {
      var b, rest := s[0], UrlEscape(s[1..]);
      UrlRoundTrip(s[1..]);
      HexPairUndoes(b);
      var text := UrlEscape(s);
      assert text == UrlByte(b) + rest && text[|UrlByte(b)|..] == rest;
      assert [b] + s[1..] == s;
    }
  }

  lemma {:induction false} UrlEscapeIsPlain(s: Bytes, k: nat)
    requires k < |UrlEscape(s)|
    ensures Unreserved(UrlEscape(s)[k]) || UrlEscape(s)[k] == PERCENT
  {
    var first, rest := UrlByte(s[0]), UrlEscape(s[1..]);
    assert UrlEscape(s) == first + rest;
    if k >= |first| {
      UrlEscapeIsPlain(s[1..], k - |first|);
      assert UrlEscape(s)[k] == rest[k - |first|];
    }
  }

  // ---------------------------------------------------------------- Rust byte-string literals

  const LOWER_X: Byte := 120

  function RustByte(b: Byte): (r: Bytes)
    ensures |r| > 0
  {
    if b == QUOTE then [BACKSLASH, QUOTE]
    else if b == BACKSLASH then [BACKSLASH, BACKSLASH]
    else if b == 10 then [BACKSLASH, 110]
    else if b == 13 then [BACKSLASH, 114]
    else if b == 9 then [BACKSLASH, 116]
    else if 32 <= b <= 126 then [b]
    else [BACKSLASH, LOWER_X, HexNibble(b / 16), HexNibble(b % 16)]
  }

  function RustEscape(bytes: Bytes): Bytes {
    EscapeAll(RustByte, bytes)
  }

  method EscapeRustByteString(bytes: Bytes) returns (out: Bytes)
    ensures out == RustEscape(bytes)
  {
    out := [];
    var i := 0;
    while i < |bytes|
      invariant 0 <= i <= |bytes|
      invariant out == RustEscape(bytes[..i])
    {
      var b := bytes[i];
      EscapeAllSnoc(RustByte, bytes[..i], b);
      assert bytes[..i + 1] == bytes[..i] + [b];
      if b == 34 {
        out := out + [BACKSLASH, 34];
      } else if b == 92 {
        out := out + [BACKSLASH, 92];
      } else if b == 10 {
        out := out + [BACKSLASH, 110];
      } else if b == 13 {
        out := out + [BACKSLASH, 114];
      } else if b == 9 {
        out := out + [BACKSLASH, 116];
      } else if 32 <= b <= 126 {
        out := out + [b];
      } else {
        out := out + [BACKSLASH, LOWER_X, HexNibble(b / 16), HexNibble(b % 16)];
      }
      i := i + 1;
    }
    assert bytes[..i] == bytes;
  }

  /** One element of a Rust byte-string literal, as its lexer reads it, and how much text it took. */
  function RustChar(text: Bytes): (r: Option<(Byte, nat)>)
    ensures r.Some? ==> 0 < r.value.1 <= |text|
  {
    if |text| == 0 || text[0] == QUOTE || text[0] == 13 || text[0] > 127 then None
    else if text[0] != BACKSLASH then Some((text[0], 1))
    else if |text| < 2 then None
    else if text[1] == LOWER_X then
      if |text| < 4 then None
      else match HexPair(text[2], text[3]) case None => None case Some(b) => Some((b, 4))
    else if text[1] == 110 then Some((10, 2))
    else if text[1] == 114 then Some((13, 2))
    else if text[1] == 116 then Some((9, 2))
    else if text[1] == 48 then Some((0, 2))
    else if text[1] == BACKSLASH || text[1] == QUOTE || text[1] == 39 then Some((text[1], 2))
    else None
  }

  /** Reads a literal up to its closing quote: the bytes it denotes, and the text behind it. */
  function ReadRustBytes(text: Bytes): (r: Option<(Bytes, Bytes)>)
    ensures r.Some? ==> |r.value.1| < |text|
    decreases |text|
  {
    if |text| > 0 && text[0] == '"' as int then Some(([], text[1..]))
    else match RustChar(text)
      case None => None
      case Some((b, n)) =>
        match ReadRustBytes(text[n..])
        case None => None
        case Some((bytes, rest)) => Some(([b] + bytes, rest))
  }

  lemma RustCharUndoes(b: Byte, rest: Bytes)
    ensures RustChar(RustByte(b) + rest) == Some((b, |RustByte(b)|))
    ensures RustByte(b)[0] != QUOTE
    ensures forall k :: 0 <= k < |RustByte(b)| ==> 32 <= RustByte(b)[k] <= 126
  {
    var t := RustByte(b) + rest;
    assert t[0] == RustByte(b)[0];
    if 1 < |RustByte(b)| {
      assert t[1] == RustByte(b)[1];
      if |RustByte(b)| == 4 {
        HexPairUndoes(b);
        assert t[2] == HexNibble(b / 16) && t[3] == HexNibble(b % 16);
      }
    }
  }

  /** The Rust lexer reads the literal back to the bytes it was made from. */
  lemma {:induction false} RustLiteralRoundTrip(bytes: Bytes, rest: Bytes)
    ensures ReadRustBytes(RustEscape(bytes) + [QUOTE] + rest) == Some((bytes, rest))
  {
    if bytes == [] {
      assert RustEscape(bytes) + [QUOTE] + rest == [QUOTE] + rest;
    } else {
      var first, tail := RustByte(bytes[0]), RustEscape(bytes[1..]) + [QUOTE] + rest;
      RustLiteralRoundTrip(bytes[1..], rest);
      RustCharUndoes(bytes[0], tail);
      assert [bytes[0]] + bytes[1..] == bytes;
      var text := RustEscape(bytes) + [QUOTE] + rest;
      assert text == first + tail;
      assert text[0] == first[0] && text[|first|..] == tail;
    }
  }

  lemma {:induction false} RustLiteralIsPrintable(bytes: Bytes, k: nat)
    requires k < |RustEscape(bytes)|
    ensures 32 <= RustEscape(bytes)[k] <= 126
  {
    var first, rest := RustByte(bytes[0]), RustEscape(bytes[1..]);
    assert RustEscape(bytes) == first + rest;
    RustCharUndoes(bytes[0], []);
    if k >= |first| {
      RustLiteralIsPrintable(bytes[1..], k - |first|);
      assert RustEscape(bytes)[k] == rest[k - |first|];
    }
  }

  // ---------------------------------------------------------------- Rust string literals

  /** The `replace` chain used for string literals in guards and getters: only backslash and quote are escaped. */
  function QuoteByte(b: Byte): (r: Bytes)
    ensures |r| > 0
  {
    if b == QUOTE || b == BACKSLASH then [BACKSLASH, b] else [b]
  }

  function EscapeQuotes(s: Bytes): Bytes {
    EscapeAll(QuoteByte, s)
  }

  /**
   One element of a Rust string literal. Rust reads a source file's CRLF as LF; any other carriage return
   is no part of a literal.
   */
  function RustStringChar(text: Bytes): (r: Option<(Byte, nat)>)
    ensures r.Some? ==> 0 < r.value.1 <= |text|
  {
    if |text| == 0 || text[0] == QUOTE then None
    else if text[0] == CR then if |text| > 1 && text[1] == LF then Some((LF, 2)) else None
    else if text[0] != BACKSLASH then Some((text[0], 1))
    else if |text| < 2 then None
    else if text[1] == 110 then Some((10, 2))
    else if text[1] == 114 then Some((13, 2))
    else if text[1] == 116 then Some((9, 2))
    else if text[1] == 48 then Some((0, 2))
    else if text[1] == BACKSLASH || text[1] == QUOTE || text[1] == 39 then Some((text[1], 2))
    else None
  }

  function ReadRustString(text: Bytes): (r: Option<(Bytes, Bytes)>)
    ensures r.Some? ==> |r.value.1| < |text|
    decreases |text|
  {
    if |text| > 0 && text[0] == '"' as int then Some(([], text[1..]))
    else match RustStringChar(text)
      case None => None
      case Some((b, n)) =>
        match ReadRustString(text[n..])
        case None => None
        case Some((bytes, rest)) => Some(([b] + bytes, rest))
  }

  /** Every carriage return stands in front of a line feed. */
  predicate NoLoneCr(s: Bytes) {
    s == [] || (if s[0] == CR then |s| > 1 && s[1] == LF && NoLoneCr(s[2..]) else NoLoneCr(s[1..]))
  }

  function CrlfToLf(s: Bytes): Bytes {
    if s == [] then []
    else if |s| > 1 && s[0] == CR && s[1] == LF then [LF] + CrlfToLf(s[2..])
    else [s[0]] + CrlfToLf(s[1..])
  }

  lemma QuoteCons(s: Bytes)
    requires s != []
    ensures EscapeQuotes(s) == QuoteByte(s[0]) + EscapeQuotes(s[1..])
  {
  }

  /** What a literal's text begins with, escaped and closed. */
  lemma QuotedFirst(s: Bytes, rest: Bytes)
    requires s != []
    ensures var text, first := EscapeQuotes(s) + [QUOTE] + rest, QuoteByte(s[0]);
            && text == first + (EscapeQuotes(s[1..]) + [QUOTE] + rest)
            && |text| > 1 && text[0] == first[0] && (|first| > 1 ==> text[1] == first[1])
  {
    QuoteCons(s);
    hide EscapeQuotes;
    assert EscapeQuotes(s) + [QUOTE] + rest == QuoteByte(s[0]) + (EscapeQuotes(s[1..]) + [QUOTE] + rest);
  }

  /**
   A string literal is legal exactly when its text has no lone carriage return, and reads as that text with
   CRLF turned into LF.
   */
  lemma {:induction false} QuotedReads(s: Bytes, rest: Bytes)
    ensures ReadRustString(EscapeQuotes(s) + [QUOTE] + rest) == if NoLoneCr(s) then Some((CrlfToLf(s), rest)) else None
    decreases |s|
  {
    hide EscapeQuotes;
    var text := EscapeQuotes(s) + [QUOTE] + rest;
    if s == [] {
      QuotedEnd(rest);
    } else {
      var first, tail := QuoteByte(s[0]), EscapeQuotes(s[1..]) + [QUOTE] + rest;
      QuotedFirst(s, rest);
      assert text[|first|..] == tail;
      if s[0] == CR {
        assert text[1] == tail[0];
        if s[1..] == [] {
          QuotedEnd(rest);
        } else {
          QuotedFirst(s[1..], rest);
          if s[1] == LF {
            QuotedReads(s[2..], rest);
            assert s[1..][1..] == s[2..] && text[2..] == tail[1..] == EscapeQuotes(s[2..]) + [QUOTE] + rest;
          }
        }
      } else {
        QuotedReads(s[1..], rest);
      }
    }
  }

  lemma QuotedEnd(rest: Bytes)
    ensures EscapeQuotes([]) + [QUOTE] + rest == [QUOTE] + rest
    ensures ReadRustString([QUOTE] + rest) == Some(([], rest))
  {
    assert ([QUOTE] + rest)[1..] == rest;
  }

  /** Reading loses a byte for every CRLF, and leaves no carriage return. */
  lemma {:induction false} CrlfShortens(s: Bytes)
    requires NoLoneCr(s)
    ensures CR !in CrlfToLf(s) && |CrlfToLf(s)| <= |s|
    ensures CR !in s ==> CrlfToLf(s) == s
    decreases |s|
  {
    if s != [] {
      if s[0] == CR { CrlfShortens(s[2..]); } else { CrlfShortens(s[1..]); }
      assert s == [s[0]] + s[1..];
    }
  }

  lemma {:induction false} NoCrNoLone(s: Bytes)
    requires CR !in s
    ensures NoLoneCr(s)
  {
    if s != [] { NoCrNoLone(s[1..]); }
  }

  /** A string literal keeps its text exactly when that text holds no carriage return. */
  lemma QuotedStringRoundTrip(s: Bytes, rest: Bytes)
    ensures ReadRustString(EscapeQuotes(s) + [QUOTE] + rest) == Some((s, rest)) <==> CR !in s
  {
    QuotedReads(s, rest);
    if CR !in s { NoCrNoLone(s); }
    if NoLoneCr(s) { CrlfShortens(s); }
  }
}
