/**
 String literals inside generated code: how keys and operands are written (renderValueAsRust and the
 re-indentation in packages/aot-transpiler/src/index.ts, emitChunk in emit/rust.ts), and what Rust reads back.
 */
module Literals {
  import opened Bytes
  import opened Escaping
  import opened Handlers

  const SPACE: Byte := 32

  /** A getter of the generated code, its key as the text between the quotes. */
  datatype Getter = FieldOf(field: Field) | KeyOf(of: Collection, literal: Bytes)

  function GetterOf(r: Read): Getter {
    match r
    case Input(field) => FieldOf(field)
    case Param(name) => KeyOf(Params, EscapeQuotes(name))
    case Query(name) => KeyOf(QueryKeys, EscapeQuotes(name))
    case Header(name) => KeyOf(HeaderNames, EscapeQuotes(name))
  }

  /** The text of a literal; none when it is not legal Rust. */
  function TextOf(literal: Bytes): Option<Bytes> {
    match ReadRustString(literal + [QUOTE]) case Some((b, rest)) => if rest == [] then Some(b)
      else None case None => None
  }

  function KeyedRead(of: Collection, key: Bytes): Read {
    match of case Params => Param(key) case QueryKeys => Query(key) case HeaderNames => Header(key)
  }

  /** What a getter reads, once its key has been read back. */
  function ReadBack(g: Getter): Option<Read> {
    match g
    case FieldOf(field) => Some(Input(field))
    case KeyOf(of, literal) => match TextOf(literal) case None => None case Some(key) => Some(KeyedRead(of, key))
  }

  lemma TextReads(s: Bytes)
    ensures TextOf(EscapeQuotes(s)) == if NoLoneCr(s) then Some(CrlfToLf(s)) else None
  {
    QuotedReads(s, []);
    assert EscapeQuotes(s) + [QUOTE] + [] == EscapeQuotes(s) + [QUOTE];
  }

  // ---------------------------------------------------------------- re-indentation

  /** JavaScript's `^` in multiline mode: behind LF, CR, U+2028 or U+2029. */
  predicate EndsLine(before: Bytes) {
    var n := |before|;
    n > 0 && (before[n - 1] == LF || before[n - 1] == CR ||
      (n > 2 && before[n - 3] == 0xE2 && before[n - 2] == 0x80 && (before[n - 1] == 0xA8 || before[n - 1] == 0xA9)))
  }

  const FOUR: Bytes := [SPACE, SPACE, SPACE, SPACE]

  predicate FourSpaces(rest: Bytes) {
    |rest| >= 4 && rest[0] == SPACE && rest[1] == SPACE && rest[2] == SPACE && rest[3] == SPACE
  }

  /** Replaces four spaces at the start of a line by eight, also inside a literal; `before` is the text in front. */
  function Reindent(before: Bytes, rest: Bytes): Bytes
    decreases |rest|
  {
    if rest == [] then []
    else if EndsLine(before) && FourSpaces(rest) then FOUR + FOUR + Reindent(before + FOUR, rest[4..])
    else [rest[0]] + Reindent(before + [rest[0]], rest[1..])
  }

  /** A line of the text starts with four spaces. */
  predicate Indented(before: Bytes, rest: Bytes)
    decreases |rest|
  {
    rest != [] && ((EndsLine(before) && FourSpaces(rest)) || Indented(before + [rest[0]], rest[1..]))
  }

  lemma {:induction false} ReindentGrows(before: Bytes, rest: Bytes)
    ensures |Reindent(before, rest)| >= |rest|
    ensures Reindent(before, rest) == rest <==> !Indented(before, rest)
    decreases |rest|
  {
    if rest != [] {
      if EndsLine(before) && FourSpaces(rest) {
        ReindentGrows(before + FOUR, rest[4..]);
      } else {
        ReindentGrows(before + [rest[0]], rest[1..]);
        assert rest == [rest[0]] + rest[1..];
      }
    }
  }

  /** Escaping keeps line ends and spaces where they are. */
  lemma EscapedLineEnd(before: Bytes)
    ensures EndsLine(EscapeQuotes(before)) <==> EndsLine(before)
  {
    var n := |before|;
    if n > 0 {
      var b1, x := before[..n - 1], before[n - 1];
      EscapeAllSnoc(QuoteByte, b1, x);
      assert before == b1 + [x];
      if n > 1 {
        var b2, y := b1[..n - 2], b1[n - 2];
        EscapeAllSnoc(QuoteByte, b2, y);
        assert b1 == b2 + [y];
        if n > 2 {
          var b3, z := b2[..n - 3], b2[n - 3];
          EscapeAllSnoc(QuoteByte, b3, z);
          assert b2 == b3 + [z];
        }
      }
    }
  }

  lemma EscapedSpace(rest: Bytes)
    ensures EscapeQuotes(rest) != [] && EscapeQuotes(rest)[0] == SPACE <==> rest != [] && rest[0] == SPACE
    ensures rest != [] && rest[0] == SPACE ==> EscapeQuotes(rest) == [SPACE] + EscapeQuotes(rest[1..])
  {
    if rest != [] { QuoteCons(rest); }
  }

  lemma EscapedSpaces(rest: Bytes)
    ensures FourSpaces(EscapeQuotes(rest)) <==> FourSpaces(rest)
    ensures FourSpaces(rest) ==> EscapeQuotes(rest) == FOUR + EscapeQuotes(rest[4..])
  {
    hide EscapeQuotes;
    EscapedSpace(rest);
    if rest != [] && rest[0] == SPACE {
      EscapedSpace(rest[1..]);
      if |rest| > 1 && rest[1] == SPACE {
        EscapedSpace(rest[1..][1..]);
        if |rest| > 2 && rest[2] == SPACE {
          EscapedSpace(rest[1..][1..][1..]);
          assert |rest| > 3 ==> rest[1..][1..][1..][1..] == rest[4..];
        }
      }
    }
  }

  /** Re-indenting an escaped text is escaping the re-indented one. */
  lemma {:induction false} ReindentEscaped(before: Bytes, rest: Bytes)
    ensures Reindent(EscapeQuotes(before), EscapeQuotes(rest)) == EscapeQuotes(Reindent(before, rest))
    decreases |rest|
  {
    hide EscapeQuotes, EndsLine;
    EscapedLineEnd(before);
    EscapedSpaces(rest);
    NothingEscaped();
    if rest != [] {
      QuoteCons(rest);
      if EndsLine(before) && FourSpaces(rest) {
        ReindentEscaped(before + FOUR, rest[4..]);
        EscapedFour(before, rest);
        QuotesAppend(FOUR + FOUR, Reindent(before + FOUR, rest[4..]));
      } else {
        ReindentEscaped(before + [rest[0]], rest[1..]);
        QuotesAppend(before, [rest[0]]);
        QuotesAppend([rest[0]], Reindent(before + [rest[0]], rest[1..]));
        OneByte(EscapeQuotes(before), rest[0], EscapeQuotes(rest[1..]));
      }
    }
  }

  lemma NothingEscaped()
    ensures EscapeQuotes([]) == []
  {
  }

  lemma QuotesAppend(a: Bytes, b: Bytes)
    ensures EscapeQuotes(a + b) == EscapeQuotes(a) + EscapeQuotes(b)
    ensures |a| == 1 ==> EscapeQuotes(a) == QuoteByte(a[0])
  {
    EscapeAllAppend(QuoteByte, a, b);
    if |a| == 1 { QuoteCons(a); assert a[1..] == []; }
  }

  lemma EscapedFour(before: Bytes, rest: Bytes)
    requires FourSpaces(rest)
    ensures EscapeQuotes(FOUR + FOUR) == FOUR + FOUR && EscapeQuotes(before + FOUR) == EscapeQuotes(before) + FOUR
    ensures EscapeQuotes(rest) == FOUR + EscapeQuotes(rest[4..])
  {
    EscapedSpaces(rest);
    EscapedSpaces(FOUR);
    NothingEscaped();
    assert FOUR[4..] == [];
    hide EscapeQuotes;
    QuotesAppend(FOUR, FOUR);
    QuotesAppend(before, FOUR);
  }

  /** A byte that starts no indented line is copied, with the backslash in front of it. */
  lemma OneByte(before: Bytes, b: Byte, rest: Bytes)
    requires !(EndsLine(before) && FourSpaces(QuoteByte(b) + rest))
    ensures Reindent(before, QuoteByte(b) + rest) == QuoteByte(b) + Reindent(before + QuoteByte(b), rest)
  {
    var text := QuoteByte(b) + rest;
    if |QuoteByte(b)| == 1 {
      assert text[1..] == rest;
    } else {
      assert text[1..] == [b] + rest && text[1..][1..] == rest;
      assert before + [BACKSLASH] + [b] == before + QuoteByte(b);
      assert !EndsLine(before + [BACKSLASH]);
    }
  }

  // ---------------------------------------------------------------- keys as Rust reads them

  /** A key as the generated code spells it: re-indented with the body it stands in, if that is guarded. */
  function Spelled(key: Bytes, guarded: bool): Bytes {
    if guarded then Reindent([], EscapeQuotes(key)) else EscapeQuotes(key)
  }

  function AsRead(key: Bytes, guarded: bool): Bytes {
    CrlfToLf(if guarded then Reindent([], key) else key)
  }

  lemma {:induction false} ReindentKeepsCr(before: Bytes, rest: Bytes)
    ensures NoLoneCr(Reindent(before, rest)) <==> NoLoneCr(rest)
    ensures CR in Reindent(before, rest) <==> CR in rest
    decreases |rest|
  {
    if rest != [] {
      if EndsLine(before) && FourSpaces(rest) {
        ReindentKeepsCr(before + FOUR, rest[4..]);
        assert rest == FOUR + rest[4..];
        PrefixNoCr(FOUR, rest[4..]);
        PrefixNoCr(FOUR + FOUR, Reindent(before + FOUR, rest[4..]));
      } else {
        ReindentKeepsCr(before + [rest[0]], rest[1..]);
        assert rest == [rest[0]] + rest[1..];
        var out := Reindent(before + [rest[0]], rest[1..]);
        assert Reindent(before, rest) == [rest[0]] + out;
        assert ([rest[0]] + out)[1..] == out;
        if rest[0] == CR && |rest| > 1 && rest[1] == LF {
          ReindentKeepsCr(before + [CR, LF], rest[2..]);
          assert before + [CR] + [LF] == before + [CR, LF] && rest[1..][1..] == rest[2..];
          assert out == [LF] + Reindent(before + [CR, LF], rest[2..]);
          assert ([CR] + out)[2..] == Reindent(before + [CR, LF], rest[2..]);
        }
      }
    }
  }

  lemma {:induction false} PrefixNoCr(p: Bytes, tail: Bytes)
    requires CR !in p
    ensures NoLoneCr(p + tail) <==> NoLoneCr(tail)
    ensures CR in p + tail <==> CR in tail
  {
    if p == [] {
      assert p + tail == tail;
    } else {
      assert (p + tail)[1..] == p[1..] + tail;
      PrefixNoCr(p[1..], tail);
    }
  }

  /**
   A key is legal exactly without a lone carriage return, and then reads as itself but for line ends and
   indentation.
   */
  lemma KeyReads(key: Bytes, guarded: bool)
    ensures TextOf(Spelled(key, guarded)) == if NoLoneCr(key) then Some(AsRead(key, guarded)) else None
  {
    hide EscapeQuotes, Reindent, TextOf;
    if guarded {
      NothingEscaped();
      ReindentEscaped([], key);
      ReindentKeepsCr([], key);
      TextReads(Reindent([], key));
    } else {
      TextReads(key);
    }
  }

  /** Keys the generated code looks up under their own name. */
  predicate KeyKept(key: Bytes, guarded: bool) {
    CR !in key && (guarded ==> !Indented([], key))
  }

  lemma KeyKeptExactly(key: Bytes, guarded: bool)
    ensures TextOf(Spelled(key, guarded)) == Some(key) <==> KeyKept(key, guarded)
  {
    KeyReads(key, guarded);
    var spelled := if guarded then Reindent([], key) else key;
    ReindentKeepsCr([], key);
    ReindentGrows([], key);
    if CR !in key { NoCrNoLone(key); NoCrNoLone(spelled); }
    if NoLoneCr(spelled) { CrlfShortens(spelled); }
  }

  /** The text of a byte-string literal is printable, so no line in it is re-indented. */
  lemma {:induction false} PrintableStays(before: Bytes, rest: Bytes)
    requires !EndsLine(before)
    requires forall i :: 0 <= i < |rest| ==> 32 <= rest[i] <= 126
    ensures Reindent(before, rest) == rest
    decreases |rest|
  {
    if rest != [] {
      PrintableStays(before + [rest[0]], rest[1..]);
      assert rest == [rest[0]] + rest[1..];
    }
  }

  lemma ByteLiteralStays(bytes: Bytes)
    ensures Reindent([], RustEscape(bytes)) == RustEscape(bytes)
  {
    forall i | 0 <= i < |RustEscape(bytes)| ensures 32 <= RustEscape(bytes)[i] <= 126 {
      RustLiteralIsPrintable(bytes, i);
    }
    PrintableStays([], RustEscape(bytes));
  }
}
