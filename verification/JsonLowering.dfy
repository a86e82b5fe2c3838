/**
 Lowering a JSON expression to body chunks (packages/aot-transpiler/src/emit/extract.ts), and what the
 chunks write when the generated code runs.
 */
module JsonLowering {
  import opened Bytes
  import opened Escaping
  import opened JsonText
  import opened Handlers

  datatype Format = Raw | JsonString | UrlEncoded

  datatype Chunk = Literal(bytes: Bytes) | Slot(read: Read, format: Format)

  // ---------------------------------------------------------------- the reference

  /** The value of an expression for one request; none for what the compiler does not accept. */
  function Eval(req: Request, e: Expr): Option<JValue>
    decreases e
  {
    match e
    case Text(s) => Some(JStr(s))
    case Backtick(s) => Some(JStr(s))
    case Num(s) => Some(JNum(s))
    case True => Some(JTrue)
    case False => Some(JFalse)
    case Null => Some(JNull)
    case Minus(Num(s)) => Some(JNum([MINUS] + s))
    case Template(head, spans) =>
      (match SpansValue(req, spans) case None => None case Some(s) => Some(JStr(head + s)))
    case Array(elems) =>
      (match EvalAll(req, elems) case None => None case Some(items) => Some(JArr(items)))
    case Object(props) =>
      (match EvalProps(req, props) case None => None case Some(members) => Some(JObj(members)))
    case _ => match Fetched(req, e) case Some(s) => Some(JStr(s)) case None => None
  }

  function EvalAll(req: Request, elems: seq<Expr>): Option<seq<JValue>>
    decreases elems
  {
    if elems == [] then Some([])
    else match (Eval(req, elems[0]), EvalAll(req, elems[1..]))
      case (Some(v), Some(items)) => Some([v] + items)
      case _ => None
  }

  function EvalProps(req: Request, props: seq<Prop>): Option<seq<Member>>
    decreases props
  {
    if props == [] then Some([])
    else match props[0]
      case Assign(Some(key), value) =>
        assert value < props[0];
        (match (Eval(req, value), EvalProps(req, props[1..]))
         case (Some(v), Some(members)) => Some([Member(key, v)] + members)
         case _ => None)
      case _ => None
  }

  /** The text of a template behind its head. */
  function SpansValue(req: Request, spans: seq<Span>): Option<Bytes> {
    if spans == [] then Some([])
    else match (Fetched(req, spans[0].slot), SpansValue(req, spans[1..]))
      case (Some(s), Some(rest)) => Some(s + spans[0].text + rest)
      case _ => None
  }

  // ---------------------------------------------------------------- running the chunks

  function Formatted(format: Format, s: Bytes): Bytes {
    match format
    case Raw => s
    case JsonString => JsonEscape(s)
    case UrlEncoded => UrlEscape(s)
  }

  function Written(req: Request, c: Chunk): Bytes {
    match c
    case Literal(bytes) => bytes
    case Slot(r, format) => Formatted(format, ReadFrom(req, r))
  }

  /** The body the generated code builds. */
  function Exec(req: Request, chunks: seq<Chunk>): Bytes {
    if chunks == [] then [] else Written(req, chunks[0]) + Exec(req, chunks[1..])
  }

  lemma {:induction false} ExecAppend(req: Request, a: seq<Chunk>, b: seq<Chunk>)
    ensures Exec(req, a + b) == Exec(req, a) + Exec(req, b)
  {
    if a == [] {
      assert a + b == b;
    } else {
      assert (a + b)[1..] == a[1..] + b;
      ExecAppend(req, a[1..], b);
    }
  }

  lemma ExecOne(req: Request, c: Chunk)
    ensures Exec(req, [c]) == Written(req, c)
  {
    assert Exec(req, [c]) == Written(req, c) + Exec(req, []);
  }

  // ---------------------------------------------------------------- lowering

  function Join(entries: seq<Bytes>): Bytes {
    if entries == [] then []
    else if |entries| == 1 then entries[0]
    else entries[0] + [COMMA] + Join(entries[1..])
  }

  /** The text of an expression that reads nothing. */
  function RenderJsonLiteral(e: Expr): Option<Bytes>
    decreases e
  {
    match e
    case Text(s) => Some(Quoted(s))
    case Backtick(s) => Some(Quoted(s))
    case Num(s) => Some(s)
    case True => Some(TRUE)
    case False => Some(FALSE)
    case Null => Some(NULL)
    case Minus(Num(s)) => Some([MINUS] + s)
    case Object(props) =>
      (match LiteralProps(props) case None => None case Some(entries) => Some([123] + Join(entries) + [125]))
    case Array(elems) =>
      (match LiteralElems(elems) case None => None case Some(entries) => Some([91] + Join(entries) + [93]))
    case _ => None
  }

  function LiteralProps(props: seq<Prop>): Option<seq<Bytes>>
    decreases props
  {
    if props == [] then Some([])
    else match props[0]
      case Assign(Some(key), value) =>
        assert value < props[0];
        (match (RenderJsonLiteral(value), LiteralProps(props[1..]))
         case (Some(text), Some(entries)) => Some([Quoted(key) + [COLON] + text] + entries)
         case _ => None)
      case _ => None
  }

  function LiteralElems(elems: seq<Expr>): Option<seq<Bytes>>
    decreases elems
  {
    if elems == [] then Some([])
    else match (RenderJsonLiteral(elems[0]), LiteralElems(elems[1..]))
      case (Some(text), Some(entries)) => Some([text] + entries)
      case _ => None
  }

  /** Template text is copied as it stands, whatever the format. */
  function TemplateText(text: Bytes): seq<Chunk> {
    if |text| > 0 then [Literal(text)] else []
  }

  function SpanChunks(spans: seq<Span>, format: Format): Option<seq<Chunk>> {
    if spans == [] then Some([])
    else match (MatchCtxRead(spans[0].slot), SpanChunks(spans[1..], format))
      case (Some(r), Some(rest)) => Some([Slot(r, format)] + TemplateText(spans[0].text) + rest)
      case _ => None
  }

  function TemplateChunks(head: Bytes, spans: seq<Span>, format: Format): Option<seq<Chunk>> {
    match SpanChunks(spans, format) case None => None case Some(rest) => Some(TemplateText(head) + rest)
  }

  predicate Compound(e: Expr) {
    e.Object? || e.Array?
  }

  /** The chunks of an expression. With `fold`, an object or array that reads nothing becomes one literal. */
  function JsonChunks(e: Expr, fold: bool): Option<seq<Chunk>>
    decreases e
  {
    var literal := RenderJsonLiteral(e);
    var read := MatchCtxRead(e);
    if literal.Some? && (fold || !Compound(e)) then Some([Literal(literal.value)])
    else if read.Some? then Some([Literal([QUOTE]), Slot(read.value, JsonString), Literal([QUOTE])])
    else match e
      case Template(head, spans) =>
        (match TemplateChunks(head, spans, JsonString)
         case None => None
         case Some(inner) => Some([Literal([QUOTE])] + inner + [Literal([QUOTE])]))
      case Object(props) =>
        (match PropChunks(props, true, fold)
         case None => None
         case Some(inner) => Some([Literal([123])] + inner + [Literal([125])]))
      case Array(elems) =>
        (match ElemChunks(elems, true, fold)
         case None => None
         case Some(inner) => Some([Literal([91])] + inner + [Literal([93])]))
      case _ => None
  }

  function CommaChunk(first: bool): seq<Chunk> {
    if first then [] else [Literal([COMMA])]
  }

  function PropChunks(props: seq<Prop>, first: bool, fold: bool): Option<seq<Chunk>>
    decreases props
  {
    if props == [] then Some([])
    else match props[0]
      case Assign(Some(key), value) =>
        assert value < props[0];
        (match (JsonChunks(value, fold), PropChunks(props[1..], false, fold))
         case (Some(chunks), Some(rest)) => Some(CommaChunk(first) + [Literal(Quoted(key) + [COLON])] + chunks + rest)
         case _ => None)
      case _ => None
  }

  function ElemChunks(elems: seq<Expr>, first: bool, fold: bool): Option<seq<Chunk>>
    decreases elems
  {
    if elems == [] then Some([])
    else match (JsonChunks(elems[0], fold), ElemChunks(elems[1..], false, fold))
      case (Some(value), Some(rest)) => Some(CommaChunk(first) + value + rest)
      case _ => None
  }

  // ---------------------------------------------------------------- template text

  /** Text that a JSON string shows as it is. */
  predicate Plain(text: Bytes) {
    forall i :: 0 <= i < |text| ==> text[i] >= 32 && text[i] != QUOTE && text[i] != BACKSLASH
  }

  predicate PlainSpans(spans: seq<Span>) {
    forall i :: 0 <= i < |spans| ==> Plain(spans[i].text)
  }

  /** No template of the expression holds text that a JSON string would have to escape. */
  predicate NoEscapesNeeded(e: Expr)
    decreases e
  {
    match e
    case Template(head, spans) => Plain(head) && PlainSpans(spans)
    case Array(elems) => ElemsPlain(elems)
    case Object(props) => PropsPlain(props)
    case _ => true
  }

  predicate ElemsPlain(elems: seq<Expr>)
    decreases elems
  {
    elems == [] || (NoEscapesNeeded(elems[0]) && ElemsPlain(elems[1..]))
  }

  predicate PropsPlain(props: seq<Prop>)
    decreases props
  {
    props == [] ||
      match props[0]
      case Assign(_, value) => assert value < props[0]; NoEscapesNeeded(value) && PropsPlain(props[1..])
      case Unassigned => PropsPlain(props[1..])
  }

  /** Escaping never shortens text, and keeps its length only when it changes nothing. */
  lemma {:induction false} EscapeGrows(s: Bytes)
    ensures |s| <= |JsonEscape(s)|
    ensures Plain(s) <==> JsonEscape(s) == s
    ensures Plain(s) <==> |JsonEscape(s)| == |s|
  {
    if s != [] {
      EscapeGrows(s[1..]);
      assert JsonEscape(s) == JsonByte(s[0]) + JsonEscape(s[1..]);
      assert Plain(s) <==> Plain([s[0]]) && Plain(s[1..]) by {
        assert s == [s[0]] + s[1..];
        assert Plain(s) ==> Plain(s[1..]);
      }
      var b := s[0];
      assert Plain([b]) <==> b >= 32 && b != QUOTE && b != BACKSLASH by { assert [b][0] == b; }
      if Plain([b]) {
        assert JsonByte(b) == [b];
        assert [b] + s[1..] == s;
      } else {
        assert |JsonByte(b)| > 1;
      }
    }
  }

  /** `written` is what was wanted exactly when no escape was missing, and is shorter otherwise. */
  predicate Missing(written: Bytes, wanted: Bytes, plain: bool) {
    if plain then written == wanted else |written| < |wanted|
  }

  lemma NoneMissing(a: Bytes)
    ensures Missing(a, a, true)
  {
  }

  lemma MissingJoin(a: Bytes, a': Bytes, p: bool, b: Bytes, b': Bytes, q: bool)
    requires Missing(a, a', p) && Missing(b, b', q)
    ensures Missing(a + b, a' + b', p && q)
  {
  }

  lemma TextWritten(req: Request, text: Bytes)
    ensures Exec(req, TemplateText(text)) == text
    ensures Missing(text, JsonEscape(text), Plain(text))
  {
    EscapeGrows(text);
    if |text| > 0 { ExecOne(req, Literal(text)); }
  }

  /** The pieces of a template after its head: accepted by both sides, and equal but for missing escapes. */
  lemma {:induction false} SpansWritten(req: Request, spans: seq<Span>)
    ensures SpanChunks(spans, JsonString).Some? <==> SpansValue(req, spans).Some?
    ensures SpanChunks(spans, JsonString).Some? ==>
              Missing(Exec(req, SpanChunks(spans, JsonString).value), JsonEscape(SpansValue(req, spans).value),
                PlainSpans(spans))
  {
    hide JsonEscape, MatchCtxRead, Fetched, Plain;
    if spans == [] {
      EscapeNothing();
    } else {
      var first, rest := spans[0], spans[1..];
      SpansWritten(req, rest);
      ReadIsAccess(req, first.slot);
      if SpanChunks(spans, JsonString).Some? {
        var r := MatchCtxRead(first.slot).value;
        var s, more := ReadFrom(req, r), SpansValue(req, rest).value;
        var chunks := SpanChunks(rest, JsonString).value;
        TextWritten(req, first.text);
        ExecOne(req, Slot(r, JsonString));
        ExecAppend(req, [Slot(r, JsonString)] + TemplateText(first.text), chunks);
        ExecAppend(req, [Slot(r, JsonString)], TemplateText(first.text));
        EscapeJoin(s, first.text, more);
        assert PlainSpans(spans) <==> Plain(first.text) && PlainSpans(rest) by { assert spans == [first] + rest; }
        MissingJoin(JsonEscape(s), JsonEscape(s), true, first.text, JsonEscape(first.text), Plain(first.text));
        MissingJoin(JsonEscape(s) + first.text, JsonEscape(s) + JsonEscape(first.text), Plain(first.text),
                    Exec(req, chunks), JsonEscape(more), PlainSpans(rest));
      }
    }
  }

  lemma EscapeJoin(a: Bytes, b: Bytes, c: Bytes)
    ensures JsonEscape(a + b + c) == JsonEscape(a) + JsonEscape(b) + JsonEscape(c)
  {
    EscapeAllAppend(JsonByte, a + b, c);
    EscapeAllAppend(JsonByte, a, b);
  }

  lemma TemplateWritten(req: Request, head: Bytes, spans: seq<Span>)
    ensures var e := Template(head, spans);
            && (JsonChunks(e, true).Some? <==> Eval(req, e).Some?)
            && JsonChunks(e, false) == JsonChunks(e, true)
            && (Eval(req, e).Some? ==>
                  Missing(Exec(req, JsonChunks(e, true).value), ToJson(Eval(req, e).value), NoEscapesNeeded(e)))
  {
    hide JsonEscape, SpanChunks, SpansValue, PlainSpans, Plain;
    SpansWritten(req, spans);
    if SpanChunks(spans, JsonString).Some? {
      var rest, s := SpanChunks(spans, JsonString).value, SpansValue(req, spans).value;
      var q := [Literal([QUOTE])];
      ExecOne(req, Literal([QUOTE]));
      ExecAppend(req, q + (TemplateText(head) + rest), q);
      ExecAppend(req, q, TemplateText(head) + rest);
      ExecAppend(req, TemplateText(head), rest);
      TextWritten(req, head);
      EscapeJoin(head, s, []);
      EscapeNothing();
      assert head + s + [] == head + s;
      MissingJoin(head, JsonEscape(head), Plain(head), Exec(req, rest), JsonEscape(s), PlainSpans(spans));
      var inner, wanted := head + Exec(req, rest), JsonEscape(head + s);
      assert Missing(inner, wanted, Plain(head) && PlainSpans(spans));
      assert Exec(req, JsonChunks(Template(head, spans), true).value) == [QUOTE] + inner + [QUOTE];
    }
  }

  lemma EscapeNothing()
    ensures JsonEscape([]) == []
  {
  }

  // ---------------------------------------------------------------- the literal path

  lemma ItemsOfFirst(items: seq<JValue>)
    ensures ItemsText(items, false) == if items == [] then [] else [COMMA] + ItemsText(items, true)
  {
    hide ToJson;
    if items != [] {
      var text, more := ToJson(items[0]), ItemsText(items[1..], false);
      assert [] + text + more == text + more && [COMMA] + text + more == [COMMA] + (text + more);
    }
  }

  lemma MembersCons(members: seq<Member>, first: bool)
    requires members != []
    ensures var m := members[0];
            MembersText(members, first) == Separator(first)
              + (Quoted(m.key) + [COLON] + ToJson(m.value) + MembersText(members[1..], false))
  {
    hide ToJson, Quoted, Separator;
  }

  lemma MembersOfFirst(members: seq<Member>)
    ensures MembersText(members, false) == if members == [] then [] else [COMMA] + MembersText(members, true)
  {
    if members != [] {
      hide MembersText, ToJson, Quoted;
      MembersCons(members, true);
      MembersCons(members, false);
    }
  }

  lemma JoinFirst(entry: Bytes, entries: seq<Bytes>)
    ensures Join([entry] + entries) == entry + (if entries == [] then [] else [COMMA] + Join(entries))
  {
    assert ([entry] + entries)[1..] == entries;
  }

  /** Where the literal path succeeds it prints the value, for every request. */
  lemma {:induction false} LiteralMeans(req: Request, e: Expr)
    requires RenderJsonLiteral(e).Some?
    ensures Eval(req, e).Some? && RenderJsonLiteral(e).value == ToJson(Eval(req, e).value)
    ensures NoEscapesNeeded(e)
    decreases e
  {
    hide Quoted;
    match e
    case Object(props) => LiteralPropsMean(req, props);
    case Array(elems) => LiteralElemsMean(req, elems);
    case _ =>
  }

  lemma {:induction false} LiteralElemsMean(req: Request, elems: seq<Expr>)
    requires LiteralElems(elems).Some?
    ensures EvalAll(req, elems).Some? && Join(LiteralElems(elems).value) == ItemsText(EvalAll(req, elems).value, true)
    ensures |LiteralElems(elems).value| == |EvalAll(req, elems).value|
    ensures ElemsPlain(elems)
    decreases elems
  {
    hide NoEscapesNeeded, Eval, RenderJsonLiteral, ToJson;
    if elems != [] {
      LiteralMeans(req, elems[0]);
      LiteralElemsMean(req, elems[1..]);
      var v, items := Eval(req, elems[0]).value, EvalAll(req, elems[1..]).value;
      JoinFirst(RenderJsonLiteral(elems[0]).value, LiteralElems(elems[1..]).value);
      ItemsOfFirst(items);
      assert ([v] + items)[1..] == items;
    }
  }

  lemma {:induction false} LiteralPropsMean(req: Request, props: seq<Prop>)
    requires LiteralProps(props).Some?
    ensures EvalProps(req, props).Some? && Join(LiteralProps(props).value)
              == MembersText(EvalProps(req, props).value, true)
    ensures |LiteralProps(props).value| == |EvalProps(req, props).value|
    ensures PropsPlain(props)
    decreases props
  {
    hide NoEscapesNeeded, Eval, RenderJsonLiteral, ToJson, Quoted;
    if props != [] {
      assert props[0].value < props[0];
      LiteralMeans(req, props[0].value);
      LiteralPropsMean(req, props[1..]);
      var key, v, members := props[0].key.value, Eval(req, props[0].value).value, EvalProps(req, props[1..]).value;
      var m := Member(key, v);
      JoinFirst(Quoted(key) + [COLON] + RenderJsonLiteral(props[0].value).value, LiteralProps(props[1..]).value);
      MembersOfFirst(members);
      assert ([m] + members)[1..] == members;
    }
  }

  // ---------------------------------------------------------------- the theorem

  lemma AccessIsNoLiteral(e: Expr)
    requires MatchCtxRead(e).Some?
    ensures RenderJsonLiteral(e).None? && (e.Property? || e.Element?)
  {
  }

  lemma ReadWritten(req: Request, r: Read)
    ensures Exec(req, [Literal([QUOTE]), Slot(r, JsonString), Literal([QUOTE])]) == Quoted(ReadFrom(req, r))
  {
    var q := [Literal([QUOTE])];
    var slot := [Slot(r, JsonString)];
    ExecOne(req, Literal([QUOTE]));
    ExecOne(req, Slot(r, JsonString));
    ExecAppend(req, q + slot, q);
    ExecAppend(req, q, slot);
    assert q + slot + q == [Literal([QUOTE]), Slot(r, JsonString), Literal([QUOTE])];
  }

  lemma Wrapped(req: Request, open: Bytes, inner: seq<Chunk>, close: Bytes, wanted: Bytes, plain: bool)
    requires Missing(Exec(req, inner), wanted, plain)
    ensures Missing(Exec(req, [Literal(open)] + inner + [Literal(close)]), open + wanted + close, plain)
  {
    ExecOne(req, Literal(open));
    ExecOne(req, Literal(close));
    ExecAppend(req, [Literal(open)] + inner, [Literal(close)]);
    ExecAppend(req, [Literal(open)], inner);
  }

  /**
   Lowering accepts exactly the expressions that have a value, and what it writes is the JSON text of that
   value when no template needs an escape; otherwise it writes less, so something else.
   */
  lemma {:induction false} ValueWritten(req: Request, e: Expr, fold: bool)
    ensures JsonChunks(e, fold).Some? <==> Eval(req, e).Some?
    ensures Eval(req, e).Some? ==>
              Missing(Exec(req, JsonChunks(e, fold).value), ToJson(Eval(req, e).value), NoEscapesNeeded(e))
    decreases e
  {
    var literal := RenderJsonLiteral(e);
    ReadIsAccess(req, e);
    if literal.Some? && (fold || !Compound(e)) {
      LiteralMeans(req, e);
      ExecOne(req, Literal(literal.value));
    } else if MatchCtxRead(e).Some? {
      AccessIsNoLiteral(e);
      ReadWritten(req, MatchCtxRead(e).value);
    } else {
      hide MatchCtxRead, Fetched, Quoted, RenderJsonLiteral;
      match e
      case Template(head, spans) => TemplateWritten(req, head, spans);
      case Object(props) =>
        PropsWritten(req, props, true, fold);
        if EvalProps(req, props).Some? {
          Wrapped(req, [123], PropChunks(props, true, fold).value, [125],
            MembersText(EvalProps(req, props).value, true), NoEscapesNeeded(e));
        }
      case Array(elems) =>
        ElemsWritten(req, elems, true, fold);
        if EvalAll(req, elems).Some? {
          Wrapped(req, [91], ElemChunks(elems, true, fold).value, [93], ItemsText(EvalAll(req, elems).value, true),
            NoEscapesNeeded(e));
        }
      case _ =>
    }
  }

  lemma CommaWritten(req: Request, first: bool, before: seq<Chunk>, value: seq<Chunk>, rest: seq<Chunk>)
    ensures Exec(req, CommaChunk(first) + before + value + rest)
         == Separator(first) + Exec(req, before) + Exec(req, value) + Exec(req, rest)
    ensures Exec(req, CommaChunk(first) + value + rest) == Separator(first) + Exec(req, value) + Exec(req, rest)
  {
    if !first { ExecOne(req, Literal([COMMA])); }
    ExecAppend(req, CommaChunk(first) + before + value, rest);
    ExecAppend(req, CommaChunk(first) + before, value);
    ExecAppend(req, CommaChunk(first), before);
    ExecAppend(req, CommaChunk(first) + value, rest);
    ExecAppend(req, CommaChunk(first), value);
  }

  lemma {:induction false} ElemsWritten(req: Request, elems: seq<Expr>, first: bool, fold: bool)
    ensures ElemChunks(elems, first, fold).Some? <==> EvalAll(req, elems).Some?
    ensures EvalAll(req, elems).Some? ==>
              Missing(Exec(req, ElemChunks(elems, first, fold).value), ItemsText(EvalAll(req, elems).value, first),
                ElemsPlain(elems))
    decreases elems
  {
    hide NoEscapesNeeded, Eval, JsonChunks, ToJson;
    if elems != [] {
      ValueWritten(req, elems[0], fold);
      ElemsWritten(req, elems[1..], false, fold);
      if EvalAll(req, elems).Some? {
        var v, items := Eval(req, elems[0]).value, EvalAll(req, elems[1..]).value;
        var value, rest := JsonChunks(elems[0], fold).value, ElemChunks(elems[1..], false, fold).value;
        CommaWritten(req, first, [], value, rest);
        assert ([v] + items)[1..] == items;
      }
    }
  }

  lemma {:induction false} PropsWritten(req: Request, props: seq<Prop>, first: bool, fold: bool)
    ensures PropChunks(props, first, fold).Some? <==> EvalProps(req, props).Some?
    ensures EvalProps(req, props).Some? ==>
              Missing(Exec(req, PropChunks(props, first, fold).value), MembersText(EvalProps(req, props).value, first),
                PropsPlain(props))
    decreases props
  {
    hide NoEscapesNeeded, Eval, JsonChunks, Exec, Missing, MembersText, Separator;
    if props == [] {
      NoMembers(req, first);
    } else if props[0].Assign? && props[0].key.Some? {
      assert props[0].value < props[0];
      ValueWritten(req, props[0].value, fold);
      PropsWritten(req, props[1..], false, fold);
      if EvalProps(req, props).Some? {
        var key, v, members := props[0].key.value, Eval(req, props[0].value).value, EvalProps(req, props[1..]).value;
        var value, rest := JsonChunks(props[0].value, fold).value, PropChunks(props[1..], false, fold).value;
        MemberWritten(req, first, key, value, v, NoEscapesNeeded(props[0].value), rest, members,
          PropsPlain(props[1..]));
      }
    }
  }

  lemma NoMembers(req: Request, first: bool)
    ensures Missing(Exec(req, []), MembersText([], first), true)
  {
  }

  /** One member in front of the rest. */
  lemma MemberWritten(req: Request, first: bool, key: Bytes, value: seq<Chunk>, v: JValue, p: bool,
                      rest: seq<Chunk>, members: seq<Member>, q: bool)
    requires Missing(Exec(req, value), ToJson(v), p) && Missing(Exec(req, rest), MembersText(members, false), q)
    ensures Missing(Exec(req, CommaChunk(first) + [Literal(Quoted(key) + [COLON])] + value + rest),
                    MembersText([Member(key, v)] + members, first), p && q)
  {
    hide Quoted, ToJson, Exec, Missing;
    var head := Quoted(key) + [COLON];
    CommaWritten(req, first, [Literal(head)], value, rest);
    ExecOne(req, Literal(head));
    assert ([Member(key, v)] + members)[1..] == members;
    var wanted := Separator(first) + head;
    assert MembersText([Member(key, v)] + members, first) == wanted + ToJson(v) + MembersText(members, false);
    NoneMissing(wanted);
    MissingJoin(wanted, wanted, true, Exec(req, value), ToJson(v), p);
    MissingJoin(wanted + Exec(req, value), wanted + ToJson(v), p, Exec(req, rest), MembersText(members, false), q);
  }

  /** For every accepted expression and every request: the text is right exactly when no template needs an escape. */
  lemma LoweringExact(req: Request, e: Expr)
    requires Eval(req, e).Some?
    ensures JsonChunks(e, true).Some?
    ensures Exec(req, JsonChunks(e, true).value) == ToJson(Eval(req, e).value) <==> NoEscapesNeeded(e)
  {
    ValueWritten(req, e, true);
  }

  /** A client parses the body back to the value of the expression. */
  lemma ClientReadsValue(req: Request, e: Expr)
    requires Eval(req, e).Some? && NoEscapesNeeded(e) && Numbers(Eval(req, e).value)
    ensures JsonChunks(e, true).Some?
    ensures ReadValue(Exec(req, JsonChunks(e, true).value)) == Some((Eval(req, e).value, []))
  {
    LoweringExact(req, e);
    JsonRoundTrip(Eval(req, e).value);
  }

  /** Folding an expression into one literal writes what its structure would write. */
  lemma LiteralIsStructural(req: Request, e: Expr)
    requires RenderJsonLiteral(e).Some?
    ensures JsonChunks(e, false).Some? && Exec(req, JsonChunks(e, false).value) == RenderJsonLiteral(e).value
    ensures JsonChunks(e, true) == Some([Literal(RenderJsonLiteral(e).value)])
  {
    LiteralMeans(req, e);
    ValueWritten(req, e, false);
  }

  /** Template text that needs an escape breaks the body: a quote in front of the request's path. */
  lemma QuoteBreaksBody(req: Request)
    ensures var e := Template([QUOTE], [Span(Property(Ident(CTX), PATH), [])]);
            && Eval(req, e) == Some(JStr([QUOTE] + req.path))
            && JsonChunks(e, true).Some?
            && ReadValue(Exec(req, JsonChunks(e, true).value)) != Some((JStr([QUOTE] + req.path), []))
  {
    var slot := Property(Ident(CTX), PATH);
    var spans := [Span(slot, [])];
    var e := Template([QUOTE], spans);
    PathIsRead(req);
    assert SpansValue(req, spans[1..]) == Some([]) && SpansValue(req, spans) == Some(req.path + [] + []);
    assert [QUOTE] + (req.path + [] + []) == [QUOTE] + req.path;
    ValueWritten(req, e, true);
    var chunks := JsonChunks(e, true).value;
    assert chunks[0] == Literal([QUOTE]) && chunks[1] == Literal([QUOTE]);
    assert Exec(req, chunks) == [QUOTE] + ([QUOTE] + Exec(req, chunks[1..][1..]));
    var text := Exec(req, chunks);
    assert text[0] == QUOTE && text[1] == QUOTE;
    assert ReadJsonString(text[1..]) == Some(([], text[1..][1..]));
    assert ReadValue(text) == Some((JStr([]), text[1..][1..]));
  }

  lemma PathIsRead(req: Request)
    ensures Fetched(req, Property(Ident(CTX), PATH)) == Some(req.path)
    ensures MatchCtxRead(Property(Ident(CTX), PATH)).Some?
  {
    assert METHOD != PATH by { assert METHOD[0] == 109 && PATH[0] == 112; }
    assert Access(req, Ident(CTX)) == Ctx;
    ReadIsAccess(req, Property(Ident(CTX), PATH));
  }

  // ---------------------------------------------------------------- text bodies

  /** A text or HTML template writes its value, whatever its text holds. */
  lemma TextTemplateWritten(req: Request, head: Bytes, spans: seq<Span>)
    ensures TemplateChunks(head, spans, Raw).Some? <==> SpansValue(req, spans).Some?
    ensures SpansValue(req, spans).Some? ==>
            Exec(req, TemplateChunks(head, spans, Raw).value) == head + SpansValue(req, spans).value
  {
    hide SpanChunks, SpansValue, TemplateText;
    RawSpansWritten(req, spans);
    TextWritten(req, head);
    if SpanChunks(spans, Raw).Some? { ExecAppend(req, TemplateText(head), SpanChunks(spans, Raw).value); }
  }

  lemma {:induction false} RawSpansWritten(req: Request, spans: seq<Span>)
    ensures SpanChunks(spans, Raw).Some? <==> SpansValue(req, spans).Some?
    ensures SpansValue(req, spans).Some? ==> Exec(req, SpanChunks(spans, Raw).value) == SpansValue(req, spans).value
  {
    hide MatchCtxRead, Fetched, TemplateText, ReadFrom;
    if spans != [] {
      var first, rest := spans[0], spans[1..];
      RawSpansWritten(req, rest);
      ReadIsAccess(req, first.slot);
      if SpanChunks(spans, Raw).Some? {
        var slot := Slot(MatchCtxRead(first.slot).value, Raw);
        TextWritten(req, first.text);
        ExecOne(req, slot);
        ExecAppend(req, [slot] + TemplateText(first.text), SpanChunks(rest, Raw).value);
        ExecAppend(req, [slot], TemplateText(first.text));
      }
    }
  }

  // ---------------------------------------------------------------- the code's own form

  /** The list that chunks are pushed to. */
  class ChunkList {
    var chunks: seq<Chunk>

    constructor ()
      ensures chunks == []
    {
      chunks := [];
    }

    method Push(c: Chunk)
      modifies this
      ensures chunks == old(chunks) + [c]
    {
      chunks := chunks + [c];
    }

    method PushAll(cs: seq<Chunk>)
      modifies this
      ensures chunks == old(chunks) + cs
    {
      chunks := chunks + cs;
    }
  }

  /** `done` in front of what is still to come, if that is accepted. */
  function After(done: seq<Chunk>, rest: Option<seq<Chunk>>): Option<seq<Chunk>> {
    match rest case None => None case Some(more) => Some(done + more)
  }

  lemma NothingDone(rest: Option<seq<Chunk>>)
    ensures After([], rest) == rest
  {
    if rest.Some? { assert [] + rest.value == rest.value; }
  }

  lemma MoreDone(done: seq<Chunk>, now: seq<Chunk>, rest: Option<seq<Chunk>>)
    ensures After(done, After(now, rest)) == After(done + now, rest)
  {
    if rest.Some? { assert done + (now + rest.value) == done + now + rest.value; }
  }

  method RenderTemplateChunks(head: Bytes, spans: seq<Span>, format: Format) returns (r: Option<seq<Chunk>>)
    ensures r == TemplateChunks(head, spans, format)
  {
    var out := TemplateText(head);
    var i := 0;
    assert spans[0..] == spans;
    while i < |spans|
      invariant 0 <= i <= |spans|
      invariant TemplateChunks(head, spans, format) == After(out, SpanChunks(spans[i..], format))
    {
      assert spans[i..][1..] == spans[i + 1..];
      var read := MatchCtxRead(spans[i].slot);
      if read.None? {
        return None;
      }
      ghost var now := [Slot(read.value, format)] + TemplateText(spans[i].text);
      MoreDone(out, now, SpanChunks(spans[i + 1..], format));
      ghost var next := out + now;
      out := out + [Slot(read.value, format)];
      if |spans[i].text| > 0 {
        out := out + [Literal(spans[i].text)];
      }
      assert out == next;
      i := i + 1;
    }
    assert out + [] == out;
    return Some(out);
  }

  /** Pushes the chunks of an expression; on failure the caller throws the list away. */
  method RenderJsonValue(e: Expr, out: ChunkList) returns (ok: bool)
    modifies out
    ensures ok == JsonChunks(e, true).Some?
    ensures ok ==> out.chunks == old(out.chunks) + JsonChunks(e, true).value
    decreases e, 1
  {
    hide MatchCtxRead, RenderJsonLiteral, TemplateChunks, PropChunks, ElemChunks;
    var literal := RenderJsonLiteral(e);
    if literal.Some? {
      out.Push(Literal(literal.value));
      return true;
    }
    var read := MatchCtxRead(e);
    if read.Some? {
      out.Push(Literal([QUOTE]));
      out.Push(Slot(read.value, JsonString));
      out.Push(Literal([QUOTE]));
      return true;
    }
    match e {
      case Template(head, spans) =>
        out.Push(Literal([QUOTE]));
        var inner := RenderTemplateChunks(head, spans, JsonString);
        if inner.None? {
          return false;
        }
        out.PushAll(inner.value);
        out.Push(Literal([QUOTE]));
        ok := true;
      case Object(props) =>
        out.Push(Literal([123]));
        ok := RenderProps(props, out);
        out.Push(Literal([125]));
      case Array(elems) =>
        out.Push(Literal([91]));
        ok := RenderElems(elems, out);
        out.Push(Literal([93]));
      case _ =>
        ok := false;
    }
  }

  method RenderProps(props: seq<Prop>, out: ChunkList) returns (ok: bool)
    modifies out
    ensures ok == PropChunks(props, true, true).Some?
    ensures ok ==> out.chunks == old(out.chunks) + PropChunks(props, true, true).value
    decreases props, 0
  {
    hide JsonChunks, Quoted;
    ghost var done: seq<Chunk> := [];
    var first, i := true, 0;
    NothingDone(PropChunks(props, true, true));
    assert props[0..] == props;
    while i < |props|
      invariant 0 <= i <= |props| && out.chunks == old(out.chunks) + done
      invariant PropChunks(props, true, true) == After(done, PropChunks(props[i..], first, true))
    {
      assert props[i..][1..] == props[i + 1..] && props[i..][0] == props[i];
      if !props[i].Assign? || props[i].key.None? {
        return false;
      }
      ghost var before := out.chunks;
      if !first {
        out.Push(Literal([COMMA]));
      }
      out.Push(Literal(Quoted(props[i].key.value) + [COLON]));
      assert props[i].value < props[i];
      var rendered := RenderJsonValue(props[i].value, out);
      if !rendered {
        return false;
      }
      ghost var now := CommaChunk(first) + [Literal(Quoted(props[i].key.value) + [COLON])]
        + JsonChunks(props[i].value, true).value;
      MoreDone(done, now, PropChunks(props[i + 1..], false, true));
      done := done + now;
      first := false;
      i := i + 1;
    }
    assert done + [] == done;
    ok := true;
  }

  method RenderElems(elems: seq<Expr>, out: ChunkList) returns (ok: bool)
    modifies out
    ensures ok == ElemChunks(elems, true, true).Some?
    ensures ok ==> out.chunks == old(out.chunks) + ElemChunks(elems, true, true).value
    decreases elems, 0
  {
    hide JsonChunks;
    ghost var done: seq<Chunk> := [];
    var first, i := true, 0;
    NothingDone(ElemChunks(elems, true, true));
    assert elems[0..] == elems;
    while i < |elems|
      invariant 0 <= i <= |elems| && out.chunks == old(out.chunks) + done
      invariant ElemChunks(elems, true, true) == After(done, ElemChunks(elems[i..], first, true))
    {
      assert elems[i..][1..] == elems[i + 1..] && elems[i..][0] == elems[i];
      if !first {
        out.Push(Literal([COMMA]));
      }
      var rendered := RenderJsonValue(elems[i], out);
      if !rendered {
        return false;
      }
      ghost var now := CommaChunk(first) + JsonChunks(elems[i], true).value;
      MoreDone(done, now, ElemChunks(elems[i + 1..], false, true));
      done := done + now;
      first := false;
      i := i + 1;
    }
    assert done + [] == done;
    ok := true;
  }
}
