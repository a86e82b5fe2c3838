/** The body an emitted JSON response writes, against JSON.stringify of the same expression. */
module Stringify {
  import opened Bytes
  import opened Escaping
  import opened JsonText
  import opened JsValues
  import opened Handlers
  import opened JsonLowering

  // ---------------------------------------------------------------- texts that part

  /** The texts differ at some place, whatever may follow either. */
  ghost predicate Clash(a: Bytes, b: Bytes) {
    exists i :: 0 <= i < |a| && i < |b| && a[i] != b[i]
  }

  /** What is written is what was wanted, or parts from it. */
  ghost predicate Matches(written: Bytes, wanted: Bytes, right: bool) {
    if right then written == wanted else Clash(written, wanted)
  }

  lemma ClashInside(p: Bytes, a: Bytes, x: Bytes, b: Bytes, y: Bytes)
    requires Clash(a, b)
    ensures Clash(p + a + x, p + b + y)
  {
    var i :| 0 <= i < |a| && i < |b| && a[i] != b[i];
    assert (p + a + x)[|p| + i] == a[i] && (p + b + y)[|p| + i] == b[i];
  }

  lemma ClashAt(a: Bytes, b: Bytes, i: nat)
    requires i < |a| && i < |b| && a[i] != b[i]
    ensures Clash(a, b)
  {
  }

  /** Two pieces in a row. */
  lemma MatchesJoin(a: Bytes, a': Bytes, p: bool, b: Bytes, b': Bytes, q: bool)
    requires Matches(a, a', p) && (p ==> Matches(b, b', q))
    ensures Matches(a + b, a' + b', p && q)
  {
    hide Clash;
    if !p {
      ClashInside([], a, b, a', b');
      assert [] + a + b == a + b && [] + a' + b' == a' + b';
    } else if !q {
      ClashInside(a, b, [], b', []);
      assert a + b + [] == a + b && a + b' + [] == a + b';
    }
  }

  /** Keys as text never continue one another. */
  lemma QuotedClash(a: Bytes, b: Bytes)
    requires a != b
    ensures Clash(Quoted(a), Quoted(b))
  {
    hide JsonEscape, ReadJsonString;
    var s, t := Quoted(a), Quoted(b);
    if !Clash(s, t) {
      if |s| <= |t| { OneQuoted(a, b); } else { OneQuoted(b, a); }
    }
  }

  lemma OneQuoted(a: Bytes, b: Bytes)
    requires |Quoted(a)| <= |Quoted(b)| && !Clash(Quoted(a), Quoted(b)) && !Clash(Quoted(b), Quoted(a))
    ensures a == b
  {
    hide JsonEscape, ReadJsonString, Quoted;
    var s, t := Quoted(a), Quoted(b);
    var rest := t[|s|..];
    assert t == s + rest by {
      forall i | 0 <= i < |s| ensures s[i] == t[i] {}
      assert t[..|s|] == s;
    }
    StringReads(a, rest);
    StringReads(b, []);
    assert t + [] == t;
  }

  // ---------------------------------------------------------------- template text

  /** A text of which only some bytes are escaped. */
  function Half(text: Bytes, escaped: seq<bool>): Bytes
    requires |text| == |escaped|
  {
    if text == [] then []
    else (if escaped[0] then JsonByte(text[0]) else [text[0]]) + Half(text[1..], escaped[1..])
  }

  /** Bytes left as they are need no escape. */
  predicate HalfPlain(text: Bytes, escaped: seq<bool>)
    requires |text| == |escaped|
  {
    forall i :: 0 <= i < |text| && !escaped[i] ==> Plain([text[i]])
  }

  lemma {:induction false} HalfAppend(a: Bytes, e: seq<bool>, b: Bytes, f: seq<bool>)
    requires |a| == |e| && |b| == |f|
    ensures Half(a + b, e + f) == Half(a, e) + Half(b, f)
  {
    hide JsonByte;
    if a == [] {
      assert a + b == b && e + f == f;
    } else {
      assert (a + b)[1..] == a[1..] + b && (e + f)[1..] == e[1..] + f;
      HalfAppend(a[1..], e[1..], b, f);
    }
  }

  lemma PlainAppend(a: Bytes, e: seq<bool>, b: Bytes, f: seq<bool>)
    requires |a| == |e| && |b| == |f|
    ensures HalfPlain(a + b, e + f) <==> HalfPlain(a, e) && HalfPlain(b, f)
  {
    hide Plain;
    if HalfPlain(a + b, e + f) {
      forall i | 0 <= i < |a| && !e[i] ensures Plain([a[i]]) { assert (a + b)[i] == a[i] && (e + f)[i] == e[i]; }
      forall i | 0 <= i < |b| && !f[i] ensures Plain([b[i]]) {
        assert (a + b)[|a| + i] == b[i] && (e + f)[|a| + i] == f[i];
      }
    }
  }

  function All(n: nat, flag: bool): seq<bool> {
    seq(n, _ => flag)
  }

  lemma {:induction false} HalfOfAll(text: Bytes)
    ensures Half(text, All(|text|, true)) == JsonEscape(text) && HalfPlain(text, All(|text|, true))
    ensures Half(text, All(|text|, false)) == text
    ensures HalfPlain(text, All(|text|, false)) <==> Plain(text)
  {
    if text != [] {
      HalfOfAll(text[1..]);
      assert All(|text|, true)[1..] == All(|text| - 1, true) && All(|text|, false)[1..] == All(|text| - 1, false);
      assert text == [text[0]] + text[1..];
    }
    forall i | 0 <= i < |text| ensures Plain([text[i]]) <==> text[i] >= 32 && text[i] != QUOTE && text[i] != BACKSLASH {
      assert [text[i]][0] == text[i];
    }
  }

  function Slashes(k: nat): Bytes {
    seq(k, _ => BACKSLASH)
  }

  lemma ByteEscapes(b: Byte)
    ensures Plain([b]) <==> JsonByte(b) == [b]
    ensures !Plain([b]) ==> |JsonByte(b)| > 1 && JsonByte(b)[0] == BACKSLASH
                            && (JsonByte(b)[1] == BACKSLASH <==> b == BACKSLASH)
    ensures JsonByte(BACKSLASH) == [BACKSLASH, BACKSLASH] && !Plain([BACKSLASH])
  {
    assert [b][0] == b && [BACKSLASH][0] == BACKSLASH;
  }

  lemma EscapeCons(text: Bytes)
    requires text != []
    ensures JsonEscape(text) == JsonByte(text[0]) + JsonEscape(text[1..])
  {
  }

  /** A text that is a backslash or more ahead never meets what was wanted again. */
  lemma {:induction false} AheadClashes(text: Bytes, escaped: seq<bool>, k: nat)
    requires |text| == |escaped| && k > 0
    ensures Clash(Half(text, escaped) + [QUOTE], Slashes(k) + (JsonEscape(text) + [QUOTE]))
  {
    hide JsonByte, JsonEscape, Plain, Clash;
    var w, e := Half(text, escaped) + [QUOTE], Slashes(k) + (JsonEscape(text) + [QUOTE]);
    if text == [] {
      ClashAt(w, e, 0);
    } else {
      var b, half, more := text[0], Half(text[1..], escaped[1..]) + [QUOTE], JsonEscape(text[1..]) + [QUOTE];
      ByteEscapes(b);
      EscapeCons(text);
      if b == BACKSLASH {
        var step := if escaped[0] then 2 else 1;
        var ahead := if escaped[0] then k else k + 1;
        AheadClashes(text[1..], escaped[1..], ahead);
        assert w == Slashes(step) + half;
        assert e == Slashes(step) + (Slashes(ahead) + more);
        ClashInside(Slashes(step), half, [], Slashes(ahead) + more, []);
        assert Slashes(step) + half + [] == w && Slashes(step) + (Slashes(ahead) + more) + [] == e;
      } else if escaped[0] && !Plain([b]) {
        assert w[1] == JsonByte(b)[1];
        ClashAt(w, e, 1);
      } else {
        assert w[0] == b;
        ClashAt(w, e, 0);
      }
    }
  }

  /** The first byte that should have been escaped. */
  lemma RawClashes(text: Bytes, escaped: seq<bool>)
    requires text != [] && |text| == |escaped| && !escaped[0] && !Plain([text[0]])
    ensures Clash(Half(text, escaped) + [QUOTE], JsonEscape(text) + [QUOTE])
  {
    hide JsonByte, JsonEscape, Plain, Clash, Half, Slashes;
    var b, half, more := text[0], Half(text[1..], escaped[1..]) + [QUOTE], JsonEscape(text[1..]) + [QUOTE];
    var w, e := Half(text, escaped) + [QUOTE], JsonEscape(text) + [QUOTE];
    ByteEscapes(b);
    RawParts(text, escaped);
    if b == BACKSLASH {
      AheadClashes(text[1..], escaped[1..], 1);
      OneSlash();
      ClashInside([BACKSLASH], half, [], Slashes(1) + more, []);
      assert [BACKSLASH] + half + [] == w && [BACKSLASH] + (Slashes(1) + more) + [] == e;
    } else {
      ClashAt(w, e, 0);
    }
  }

  lemma OneSlash()
    ensures Slashes(1) == [BACKSLASH]
  {
  }

  /** First bytes and what is behind them. */
  lemma RawParts(text: Bytes, escaped: seq<bool>)
    requires text != [] && |text| == |escaped| && !escaped[0]
    ensures Half(text, escaped) + [QUOTE] == [text[0]] + (Half(text[1..], escaped[1..]) + [QUOTE])
    ensures JsonEscape(text) + [QUOTE] == JsonByte(text[0]) + (JsonEscape(text[1..]) + [QUOTE])
  {
    hide JsonByte, JsonEscape;
    EscapeCons(text);
  }

  /** A half-escaped text in quotes is the string exactly when nothing was missing. */
  lemma {:induction false} HalfMatches(text: Bytes, escaped: seq<bool>)
    requires |text| == |escaped|
    ensures Matches(Half(text, escaped) + [QUOTE], JsonEscape(text) + [QUOTE], HalfPlain(text, escaped))
  {
    hide JsonByte, JsonEscape, Plain, Clash, HalfPlain, Matches;
    if text == [] {
      EmptyMatches(text, escaped);
    } else {
      HalfCons(text, escaped);
      if escaped[0] || Plain([text[0]]) {
        var byte, half, more := JsonByte(text[0]), Half(text[1..], escaped[1..]) + [QUOTE],
          JsonEscape(text[1..]) + [QUOTE];
        ByteEscapes(text[0]);
        EscapeCons(text);
        HalfMatches(text[1..], escaped[1..]);
        Same(byte);
        MatchesJoin(byte, byte, true, half, more, HalfPlain(text[1..], escaped[1..]));
        assert Half(text, escaped) + [QUOTE] == byte + half && JsonEscape(text) + [QUOTE] == byte + more;
      } else {
        RawClashes(text, escaped);
        Parted(Half(text, escaped) + [QUOTE], JsonEscape(text) + [QUOTE]);
      }
    }
  }

  lemma EmptyMatches(text: Bytes, escaped: seq<bool>)
    requires text == [] && escaped == []
    ensures Matches(Half(text, escaped) + [QUOTE], JsonEscape(text) + [QUOTE], HalfPlain(text, escaped))
  {
    EscapeNothing();
  }

  lemma HalfCons(text: Bytes, escaped: seq<bool>)
    requires text != [] && |text| == |escaped|
    ensures HalfPlain(text, escaped) <==> (escaped[0] || Plain([text[0]])) && HalfPlain(text[1..], escaped[1..])
  {
    hide Plain;
    assert text == [text[0]] + text[1..] && escaped == [escaped[0]] + escaped[1..];
    PlainAppend([text[0]], [escaped[0]], text[1..], escaped[1..]);
  }

  // ---------------------------------------------------------------- templates

  /** Which bytes of a template's value the emitted chunks escape: those of its slots. */
  function SlotMarks(req: Request, spans: seq<Span>): seq<bool>
    requires SpansValue(req, spans).Some?
  {
    if spans == [] then []
    else All(|Fetched(req, spans[0].slot).value|, true) + All(|spans[0].text|, false) + SlotMarks(req, spans[1..])
  }

  lemma {:induction false} SpansHalf(req: Request, spans: seq<Span>)
    requires SpansValue(req, spans).Some?
    ensures SpanChunks(spans, JsonString).Some? && |SlotMarks(req, spans)| == |SpansValue(req, spans).value|
    ensures Exec(req, SpanChunks(spans, JsonString).value) == Half(SpansValue(req, spans).value, SlotMarks(req, spans))
    ensures HalfPlain(SpansValue(req, spans).value, SlotMarks(req, spans)) <==> PlainSpans(spans)
  {
    hide JsonEscape, MatchCtxRead, Fetched, Plain, Half, HalfPlain, TemplateText;
    if spans == [] {
      HalfOfAll([]);
      assert All(0, true) == [] && All(0, false) == [];
    } else {
      var span, rest := spans[0], spans[1..];
      SpansHalf(req, rest);
      ReadIsAccess(req, span.slot);
      var s, more, chunks := Fetched(req, span.slot).value, SpansValue(req, rest).value,
        SpanChunks(rest, JsonString).value;
      var slot := Slot(MatchCtxRead(span.slot).value, JsonString);
      TextWritten(req, span.text);
      ExecOne(req, slot);
      ExecAppend(req, [slot] + TemplateText(span.text), chunks);
      ExecAppend(req, [slot], TemplateText(span.text));
      var a, b := All(|s|, true), All(|span.text|, false);
      HalfOfAll(s);
      HalfOfAll(span.text);
      HalfAppend(s, a, span.text, b);
      HalfAppend(s + span.text, a + b, more, SlotMarks(req, rest));
      PlainAppend(s, a, span.text, b);
      PlainAppend(s + span.text, a + b, more, SlotMarks(req, rest));
      assert PlainSpans(spans) <==> Plain(span.text) && PlainSpans(rest) by { assert spans == [span] + rest; }
    }
  }

  /** The chunks of a template write its value in quotes, with only the slots escaped. */
  lemma TemplateHalf(req: Request, head: Bytes, spans: seq<Span>, fold: bool) returns (marks: seq<bool>)
    requires SpansValue(req, spans).Some?
    ensures JsonChunks(Template(head, spans), fold).Some? && |marks| == |head + SpansValue(req, spans).value|
    ensures Exec(req, JsonChunks(Template(head, spans), fold).value)
         == [QUOTE] + (Half(head + SpansValue(req, spans).value, marks) + [QUOTE])
    ensures HalfPlain(head + SpansValue(req, spans).value, marks) <==> Plain(head) && PlainSpans(spans)
  {
    hide JsonEscape, SpanChunks, SpansValue, PlainSpans, Plain, TemplateText, HalfPlain, Half;
    SpansHalf(req, spans);
    var rest, s, escaped := SpanChunks(spans, JsonString).value, SpansValue(req, spans).value, SlotMarks(req, spans);
    var q := [Literal([QUOTE])];
    ExecOne(req, Literal([QUOTE]));
    ExecAppend(req, q + (TemplateText(head) + rest), q);
    ExecAppend(req, q, TemplateText(head) + rest);
    ExecAppend(req, TemplateText(head), rest);
    TextWritten(req, head);
    HalfOfAll(head);
    marks := All(|head|, false) + escaped;
    HalfAppend(head, All(|head|, false), s, escaped);
    PlainAppend(head, All(|head|, false), s, escaped);
    assert JsonChunks(Template(head, spans), fold) == Some(q + (TemplateText(head) + rest) + q);
  }

  lemma TemplateMatches(req: Request, head: Bytes, spans: seq<Span>, fold: bool)
    requires Eval(req, Template(head, spans)).Some?
    ensures var e := Template(head, spans);
            && JsonChunks(e, fold).Some?
            && Matches(Exec(req, JsonChunks(e, fold).value), Quoted(head + SpansValue(req, spans).value),
               NoEscapesNeeded(e))
  {
    hide JsonEscape, SpansValue, PlainSpans, Plain, Clash, Half, HalfPlain, JsonChunks, Exec, Matches;
    var text := head + SpansValue(req, spans).value;
    var marks := TemplateHalf(req, head, spans, fold);
    HalfMatches(text, marks);
    Same([QUOTE]);
    MatchesJoin([QUOTE], [QUOTE], true, Half(text, marks) + [QUOTE], JsonEscape(text) + [QUOTE],
      HalfPlain(text, marks));
    assert Quoted(text) == [QUOTE] + (JsonEscape(text) + [QUOTE]);
  }

  // ---------------------------------------------------------------- the condition

  /** Keys of the assignments of an object literal. */
  function PropKeys(props: seq<Prop>): seq<Bytes> {
    if props == [] then []
    else (match props[0] case Assign(Some(key), _) => [key] case _ => []) + PropKeys(props[1..])
  }

  /**
   Where the emitted body is what JSON.stringify writes: template text needs no escape, no number is minus
   zero or infinite, and every object literal lists its keys as an object enumerates them.
   */
  predicate Faultless(e: Expr)
    decreases e
  {
    match e
    case Num(digits) => NumberKept(digits)
    case Minus(Num(digits)) => NumberKept([MINUS] + digits)
    case Template(_, _) => NoEscapesNeeded(e)
    case Array(elems) => AllFaultless(elems)
    case Object(props) => PropsFaultless(props) && InOrder(PropKeys(props))
    case _ => true
  }

  predicate AllFaultless(elems: seq<Expr>)
    decreases elems
  {
    elems == [] || (Faultless(elems[0]) && AllFaultless(elems[1..]))
  }

  predicate PropsFaultless(props: seq<Prop>)
    decreases props
  {
    props == [] ||
      ((props[0].Assign? ==> assert props[0].value < props[0]; Faultless(props[0].value)) && PropsFaultless(props[1..]))
  }

  /** No object literal has two equal keys. */
  predicate DistinctKeys(e: Expr)
    decreases e
  {
    match e
    case Array(elems) => AllDistinctKeys(elems)
    case Object(props) => PropsDistinctKeys(props) && Distinct(PropKeys(props))
    case _ => true
  }

  predicate AllDistinctKeys(elems: seq<Expr>)
    decreases elems
  {
    elems == [] || (DistinctKeys(elems[0]) && AllDistinctKeys(elems[1..]))
  }

  predicate PropsDistinctKeys(props: seq<Prop>)
    decreases props
  {
    props == [] ||
      ((props[0].Assign? ==> assert props[0].value < props[0]; DistinctKeys(props[0].value))
        && PropsDistinctKeys(props[1..]))
  }

  // ---------------------------------------------------------------- the body

  /** A literal writes the same text folded or not. */
  lemma FoldedAlike(req: Request, e: Expr)
    requires RenderJsonLiteral(e).Some?
    ensures JsonChunks(e, true).Some? && JsonChunks(e, false).Some?
    ensures Exec(req, JsonChunks(e, true).value) == Exec(req, JsonChunks(e, false).value)
  {
    hide RenderJsonLiteral, JsonChunks, Exec;
    LiteralIsStructural(req, e);
    ExecLiteral(req, RenderJsonLiteral(e).value);
  }

  lemma ExecLiteral(req: Request, text: Bytes)
    ensures Exec(req, [Literal(text)]) == text
  {
    ExecOne(req, Literal(text));
  }

  lemma NumberMatches(text: Bytes)
    ensures Matches(text, ToJson(NumberValue(text)), NumberKept(text))
  {
    if text == [MINUS] + ZERO {
      ClashAt(text, ZERO, 0);
    } else if !NumberKept(text) {
      assert INFINITY[0] == 73 && NULL[0] == 110;
      ClashAt(text, NULL, 0);
    }
  }

  /** What is written of an expression parts from JSON.stringify exactly where it has a fault. */
  lemma {:induction false} BodyMatches(req: Request, e: Expr, fold: bool)
    requires Eval(req, e).Some? && DistinctKeys(e)
    ensures JsonChunks(e, fold).Some?
    ensures Matches(Exec(req, JsonChunks(e, fold).value), Stringified(Eval(req, e).value), Faultless(e))
    decreases e, fold
  {
    var literal := RenderJsonLiteral(e);
    ReadIsAccess(req, e);
    ValueWritten(req, e, fold);
    if literal.Some? && fold && Compound(e) {
      BodyMatches(req, e, false);
      FoldedAlike(req, e);
    } else if literal.Some? && !Compound(e) {
      ExecLiteral(req, literal.value);
      NumberMatches(literal.value);
    } else if MatchCtxRead(e).Some? {
      AccessIsNoLiteral(e);
      ReadWritten(req, MatchCtxRead(e).value);
    } else {
      hide *;
      CompoundMatches(req, e, fold);
    }
  }

  lemma CompoundMatches(req: Request, e: Expr, fold: bool)
    requires Eval(req, e).Some? && DistinctKeys(e) && JsonChunks(e, fold).Some? && MatchCtxRead(e).None?
    requires if Compound(e) then RenderJsonLiteral(e).None? || !fold else RenderJsonLiteral(e).None?
    ensures Matches(Exec(req, JsonChunks(e, fold).value), Stringified(Eval(req, e).value), Faultless(e))
    decreases e, fold, 0
  {
    hide MatchCtxRead, Fetched, RenderJsonLiteral, Quoted, Clash, Matches, Exec, InOrder, Distinct, Built;
    ReadIsAccess(req, e);
    match e
    case Template(head, spans) =>
      TemplateMatches(req, head, spans, fold);
    case Array(elems) =>
      var chunks, items := ElemChunks(elems, true, fold).value, EvalAll(req, elems).value;
      ElemsMatch(req, elems, true, fold);
      Enclosed(req, 91, chunks, 93, ItemsText(SettledItems(items), true), AllFaultless(elems));
    case Object(props) =>
      var chunks, members := PropChunks(props, true, fold).value, EvalProps(req, props).value;
      BuiltAgrees(req, props);
      PropsMatch(req, props, true, fold, Built(SettledMembers(members)));
      PropKeysAre(req, props);
      SettledKeys(members);
      BuiltExactly(SettledMembers(members));
      Enclosed(req, 123, chunks, 125, MembersText(Built(SettledMembers(members)), true), Faultless(e));
    case _ =>
  }

  /** Brackets around a list. */
  lemma Enclosed(req: Request, open: Byte, inner: seq<Chunk>, close: Byte, wanted: Bytes, right: bool)
    requires Matches(Exec(req, inner) + [close], wanted + [close], right)
    ensures Matches(Exec(req, [Literal([open])] + inner + [Literal([close])]), [open] + wanted + [close], right)
  {
    hide Matches;
    ExecOne(req, Literal([open]));
    ExecOne(req, Literal([close]));
    ExecAppend(req, [Literal([open])] + inner, [Literal([close])]);
    ExecAppend(req, [Literal([open])], inner);
    Same([open]);
    MatchesJoin([open], [open], true, Exec(req, inner) + [close], wanted + [close], right);
    assert [open] + (Exec(req, inner) + [close]) == [open] + Exec(req, inner) + [close];
    assert [open] + (wanted + [close]) == [open] + wanted + [close];
  }

  lemma Parted(a: Bytes, b: Bytes)
    requires Clash(a, b)
    ensures Matches(a, b, false)
  {
  }

  lemma Same(a: Bytes)
    ensures Matches(a, a, true)
  {
  }

  lemma {:induction false} ElemsMatch(req: Request, elems: seq<Expr>, first: bool, fold: bool)
    requires EvalAll(req, elems).Some? && AllDistinctKeys(elems)
    ensures ElemChunks(elems, first, fold).Some?
    ensures Matches(Exec(req, ElemChunks(elems, first, fold).value) + [93],
                    ItemsText(SettledItems(EvalAll(req, elems).value), first) + [93], AllFaultless(elems))
    decreases elems, fold
  {
    hide Faultless, DistinctKeys, Eval, JsonChunks, ToJson, Settled, Matches, Clash, Separator, Exec, ItemsText;
    if elems == [] {
      NoMoreItems(req, first);
    } else {
      BodyMatches(req, elems[0], fold);
      ElemsMatch(req, elems[1..], false, fold);
      var v, items := Eval(req, elems[0]).value, SettledItems(EvalAll(req, elems[1..]).value);
      var value, rest := JsonChunks(elems[0], fold).value, ElemChunks(elems[1..], false, fold).value;
      CommaWritten(req, first, [], value, rest);
      SettledCons(v, EvalAll(req, elems[1..]).value);
      ItemsCons(Settled(v), items, first);
      ThreeMatch(Separator(first), Exec(req, value), ToJson(Settled(v)), Faultless(elems[0]),
                 Exec(req, rest) + [93], ItemsText(items, false) + [93], AllFaultless(elems[1..]));
      assert Separator(first) + Exec(req, value) + (Exec(req, rest) + [93])
        == Separator(first) + Exec(req, value) + Exec(req, rest) + [93];
      assert Separator(first) + ToJson(Settled(v)) + (ItemsText(items, false) + [93])
          == Separator(first) + ToJson(Settled(v)) + ItemsText(items, false) + [93];
    }
  }

  lemma NoMoreItems(req: Request, first: bool)
    ensures Matches(Exec(req, []) + [93], ItemsText(SettledItems([]), first) + [93], true)
  {
    assert Exec(req, []) == [] && ItemsText([], first) == [];
  }

  lemma SettledCons(v: JValue, items: seq<JValue>)
    ensures SettledItems([v] + items) == [Settled(v)] + SettledItems(items)
  {
    hide Settled;
    assert ([v] + items)[1..] == items;
  }

  lemma ItemsCons(v: JValue, items: seq<JValue>, first: bool)
    ensures ItemsText([v] + items, first) == Separator(first) + ToJson(v) + ItemsText(items, false)
  {
    hide ToJson;
    assert ([v] + items)[1..] == items;
  }

  /** The same head, a value and a rest. */
  lemma ThreeMatch(head: Bytes, a: Bytes, a': Bytes, p: bool, b: Bytes, b': Bytes, q: bool)
    requires Matches(a, a', p) && Matches(b, b', q)
    ensures Matches(head + a + b, head + a' + b', p && q)
  {
    hide Matches;
    Same(head);
    MatchesJoin(head, head, true, a, a', p);
    MatchesJoin(head + a, head + a', p, b, b', q);
  }

  // ---------------------------------------------------------------- members

  lemma {:induction false} PropKeysAre(req: Request, props: seq<Prop>)
    requires EvalProps(req, props).Some?
    ensures PropKeys(props) == KeysOf(EvalProps(req, props).value)
    decreases props
  {
    hide Eval;
    if props != [] {
      PropKeysAre(req, props[1..]);
      var m := Member(props[0].key.value, Eval(req, props[0].value).value);
      var rest := EvalProps(req, props[1..]).value;
      assert KeysOf([m] + rest) == [m.key] + KeysOf(rest);
    }
  }

  /** Members of the one list that have a key of the other are the other's. */
  ghost predicate Agree(built: seq<Member>, members: seq<Member>) {
    forall c, m :: c in built && m in members && c.key == m.key ==> c == m
  }

  lemma BuiltAgrees(req: Request, props: seq<Prop>)
    requires EvalProps(req, props).Some? && Distinct(PropKeys(props))
    ensures var members := SettledMembers(EvalProps(req, props).value); Agree(Built(members), members)
  {
    hide Eval, Built, PropKeys;
    var members := SettledMembers(EvalProps(req, props).value);
    PropKeysAre(req, props);
    SettledKeys(EvalProps(req, props).value);
    BuiltInOrder(members);
    forall c, m | c in Built(members) && m in members && c.key == m.key ensures c == m {
      var i :| 0 <= i < |members| && members[i] == c;
      var j :| 0 <= j < |members| && members[j] == m;
      assert KeysOf(members)[i] == KeysOf(members)[j];
    }
  }

  /** The members written, against those of an object: they part at the first key that is out of order. */
  lemma {:induction false} PropsMatch(req: Request, props: seq<Prop>, first: bool, fold: bool, built: seq<Member>)
    requires EvalProps(req, props).Some? && PropsDistinctKeys(props)
    requires Agree(built, SettledMembers(EvalProps(req, props).value))
    ensures PropChunks(props, first, fold).Some?
    ensures Matches(Exec(req, PropChunks(props, first, fold).value) + [125], MembersText(built, first) + [125],
                    PropsFaultless(props) && KeysOf(built) == PropKeys(props))
    decreases props, fold
  {
    hide Faultless, DistinctKeys, Eval, JsonChunks, ToJson, Settled, Matches, Clash, Quoted, Exec, MembersText,
      Separator, KeysOf;
    PropsWritten(req, props, first, fold);
    if props == [] {
      NoMoreMembers(req, built, first);
    } else {
      var key, v := props[0].key.value, Eval(req, props[0].value).value;
      var value, rest := JsonChunks(props[0].value, fold).value, PropChunks(props[1..], false, fold).value;
      CommaWritten(req, first, [Literal(Quoted(key) + [COLON])], value, rest);
      ExecLiteral(req, Quoted(key) + [COLON]);
      var members := EvalProps(req, props[1..]).value;
      SettledMembersCons(key, v, members);
      var written := Separator(first) + (Quoted(key) + [COLON]) + Exec(req, value) + Exec(req, rest) + [125];
      assert props[0].value < props[0];
      if built == [] {
        ObjectEnds(first, key, Exec(req, value) + Exec(req, rest) + [125]);
        Parted(written, MembersText(built, first) + [125]);
        NoKeysLeft(built);
        assert written == Separator(first) + (Quoted(key) + [COLON]) + (Exec(req, value) + Exec(req, rest) + [125]);
      } else if built[0].key != key {
        KeysPart(first, key, Exec(req, value) + Exec(req, rest) + [125], built);
        assert written == Separator(first) + (Quoted(key) + [COLON]) + (Exec(req, value) + Exec(req, rest) + [125]);
        Parted(written, MembersText(built, first) + [125]);
        assert KeysOf(built) == [built[0].key] + KeysOf(built[1..]) by { KeysCons(built); }
        assert PropKeys(props)[0] == key;
      } else {
        var m := Member(key, Settled(v));
        assert built[0] in built && built[0] == m;
        BodyMatches(req, props[0].value, fold);
        PropsMatch(req, props[1..], false, fold, built[1..]);
        MembersCons(built, first);
        var head := Separator(first) + (Quoted(key) + [COLON]);
        var p, q := Faultless(props[0].value), PropsFaultless(props[1..]) && KeysOf(built[1..]) == PropKeys(props[1..]);
        ThreeMatch(head, Exec(req, value), ToJson(Settled(v)), p, Exec(req, rest) + [125],
          MembersText(built[1..], false) + [125], q);
        assert written == head + Exec(req, value) + (Exec(req, rest) + [125]);
        assert MembersText(built, first) + [125]
          == head + ToJson(Settled(v)) + (MembersText(built[1..], false) + [125]);
        KeysCons(built);
        assert KeysOf(built) == [key] + KeysOf(built[1..]) && PropKeys(props) == [key] + PropKeys(props[1..]);
        ConsEqual(key, KeysOf(built[1..]), key, PropKeys(props[1..]));
      }
    }
  }

  lemma NoKeysLeft(members: seq<Member>)
    requires members == []
    ensures KeysOf(members) == []
  {
  }

  lemma KeysCons(members: seq<Member>)
    requires members != []
    ensures KeysOf(members) == [members[0].key] + KeysOf(members[1..])
  {
  }

  lemma SettledMembersCons(key: Bytes, v: JValue, members: seq<Member>)
    ensures SettledMembers([Member(key, v)] + members) == [Member(key, Settled(v))] + SettledMembers(members)
  {
    hide Settled;
    assert ([Member(key, v)] + members)[1..] == members;
  }

  lemma NoMoreMembers(req: Request, built: seq<Member>, first: bool)
    ensures Matches(Exec(req, []) + [125], MembersText(built, first) + [125], KeysOf(built) == [])
  {
    hide ToJson;
    if built != [] {
      var text := MembersText(built, first) + [125];
      MembersCons(built, first);
      assert text[0] == if first then QUOTE else COMMA;
      ClashAt([125], text, 0);
      assert KeysOf(built)[0] == built[0].key;
    }
  }

  lemma ObjectEnds(first: bool, key: Bytes, tail: Bytes)
    ensures Clash(Separator(first) + (Quoted(key) + [COLON]) + tail, MembersText([], first) + [125])
  {
    var text := Separator(first) + (Quoted(key) + [COLON]) + tail;
    assert text[0] == if first then QUOTE else COMMA;
    ClashAt(text, MembersText([], first) + [125], 0);
  }

  lemma KeysPart(first: bool, key: Bytes, tail: Bytes, built: seq<Member>)
    requires built != [] && built[0].key != key
    ensures Clash(Separator(first) + (Quoted(key) + [COLON]) + tail, MembersText(built, first) + [125])
  {
    hide Clash, Quoted, ToJson, MembersText;
    var other := built[0].key;
    MembersCons(built, first);
    QuotedClash(key, other);
    var more := [COLON] + ToJson(built[0].value) + MembersText(built[1..], false) + [125];
    ClashInside(Separator(first), Quoted(key), [COLON] + tail, Quoted(other), more);
    assert Separator(first) + (Quoted(key) + [COLON]) + tail == Separator(first) + Quoted(key) + ([COLON] + tail);
    assert MembersText(built, first) + [125] == Separator(first) + Quoted(other) + more;
  }

  // ---------------------------------------------------------------- the theorem

  /** Without templates to escape, JSON.stringify changes the literal as written exactly where it has a fault. */
  lemma {:induction false} SettledExactly(req: Request, e: Expr)
    requires Eval(req, e).Some? && NoEscapesNeeded(e)
    ensures Settled(Eval(req, e).value) == Eval(req, e).value <==> Faultless(e)
    decreases e
  {
    hide InOrder, Fetched, Built, NumberKept;
    match e
    case Array(elems) => ItemsExactly(req, elems);
    case Object(props) =>
      var members := EvalProps(req, props).value;
      MembersExactly(req, props);
      PropKeysAre(req, props);
      ObjectSettles(members);
    case _ =>
  }

  lemma {:induction false} ItemsExactly(req: Request, elems: seq<Expr>)
    requires EvalAll(req, elems).Some? && ElemsPlain(elems)
    ensures SettledItems(EvalAll(req, elems).value) == EvalAll(req, elems).value <==> AllFaultless(elems)
    decreases elems
  {
    hide Settled, Faultless, Eval, NoEscapesNeeded;
    if elems != [] {
      SettledExactly(req, elems[0]);
      ItemsExactly(req, elems[1..]);
      var v, items := Eval(req, elems[0]).value, EvalAll(req, elems[1..]).value;
      SettledCons(v, items);
      ConsEqual(Settled(v), SettledItems(items), v, items);
    }
  }

  lemma ConsEqual<T>(x: T, a: seq<T>, y: T, b: seq<T>)
    ensures [x] + a == [y] + b <==> x == y && a == b
  {
    assert ([x] + a)[0] == x && ([y] + b)[0] == y && ([x] + a)[1..] == a && ([y] + b)[1..] == b;
  }

  lemma {:induction false} MembersExactly(req: Request, props: seq<Prop>)
    requires EvalProps(req, props).Some? && PropsPlain(props)
    ensures SettledMembers(EvalProps(req, props).value) == EvalProps(req, props).value <==> PropsFaultless(props)
    decreases props
  {
    hide Settled, Faultless, Eval, NoEscapesNeeded;
    if props != [] {
      assert props[0].value < props[0];
      SettledExactly(req, props[0].value);
      MembersExactly(req, props[1..]);
      var key, v, members := props[0].key.value, Eval(req, props[0].value).value, EvalProps(req, props[1..]).value;
      SettledMembersCons(key, v, members);
      ConsEqual(Member(key, Settled(v)), SettledMembers(members), Member(key, v), members);
    }
  }

  /** Two equal keys in one literal are judged only where nothing else can go wrong with its text. */
  predicate Judgeable(req: Request, e: Expr) {
    DistinctKeys(e) || (Eval(req, e).Some? ==> NoEscapesNeeded(e) && Numbers(Eval(req, e).value))
  }

  /**
   For every accepted expression and request: the emitted body is what JSON.stringify writes exactly without
   a fault.
   */
  lemma StringifyExact(req: Request, e: Expr)
    requires Eval(req, e).Some? && Judgeable(req, e)
    ensures JsonChunks(e, true).Some?
    ensures Exec(req, JsonChunks(e, true).value) == Stringified(Eval(req, e).value) <==> Faultless(e)
  {
    hide Faultless, DistinctKeys, NoEscapesNeeded, Eval, JsonChunks, ToJson, Settled, Exec, Numbers;
    if DistinctKeys(e) {
      BodyMatches(req, e, true);
    } else {
      var v := Eval(req, e).value;
      LoweringExact(req, e);
      SettledExactly(req, e);
      SettledNumbers(v);
      JsonRoundTrip(v);
      JsonRoundTrip(Settled(v));
    }
  }

  /** The emitted body of an expression is not what JSON.stringify writes. */
  predicate BodyDiffers(req: Request, e: Expr) {
    && Eval(req, e).Some? && JsonChunks(e, true).Some?
    && Exec(req, JsonChunks(e, true).value) != Stringified(Eval(req, e).value)
  }

  /** Minus zero, an infinite number, and an object with an index behind another key. */
  lemma StringifyDiffers(req: Request)
    ensures BodyDiffers(req, Minus(Num(ZERO)))
    ensures BodyDiffers(req, Num(INFINITY))
    ensures BodyDiffers(req, Object([Assign(Some([98]), Null), Assign(Some([49]), Null)]))
  {
    StringifyExact(req, Minus(Num(ZERO)));
    StringifyExact(req, Num(INFINITY));
    IndexBehind(req);
  }

  lemma IndexBehind(req: Request)
    ensures BodyDiffers(req, Object([Assign(Some([98]), Null), Assign(Some([49]), Null)]))
  {
    hide IsIndex, PROTO;
    var b: Bytes, one: Bytes := [98], [49];
    var props, keys := [Assign(Some(b), Null), Assign(Some(one), Null)], [b, one];
    var none: seq<Prop> := [];
    assert props[1..] == [props[1]] && props[1..][1..] == none && b != one;
    assert PropKeys(none) == [] && PropKeys(props[1..]) == [one] + PropKeys(none);
    assert PropKeys(props) == [b] + PropKeys(props[1..]) == keys;
    assert Eval(req, Null) == Some(JNull) && EvalProps(req, none) == Some([]);
    var last: seq<Member> := [Member(one, JNull)];
    assert EvalProps(req, props[1..]) == Some(last + []);
    assert EvalProps(req, props) == Some([Member(b, JNull)] + (last + []));
    assert PropsDistinctKeys(none) && PropsDistinctKeys(props[1..]);
    assert keys[0] == b && keys[1] == one;
    IndexOne();
    assert Distinct(keys) && !InOrder(keys);
    assert DistinctKeys(Null) && PropsDistinctKeys(props);
    assert DistinctKeys(Object(props)) && Eval(req, Object(props)).Some?;
    StringifyExact(req, Object(props));
  }

  lemma IndexOne()
    ensures IsIndex([49]) && !IsIndex([98])
  {
    var one: Bytes, zero: Bytes := [49], [48];
    assert one[..0] == [];
  }
}
