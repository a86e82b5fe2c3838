/** Templates told from the text as written, and a rendered response as a client reads it. */
module Rendering {
  import opened Bytes
  import opened Decimal
  import opened Wire
  import opened JsonText
  import opened Replies
  import opened Handlers
  import opened Reading
  import opened Blueprints
  import Emission

  // ---------------------------------------------------------------- texts cut at their tokens

  /** Text up to an opening, and the token up to its closing. */
  datatype Cut = Cut(before: Bytes, token: Bytes)

  /** No two bytes `b` stand side by side, not even with one `b` behind. */
  predicate NoneBefore(b: Byte, text: Bytes) {
    forall i :: 0 <= i < |text| && text[i] == b ==> i + 1 < |text| && text[i + 1] != b
  }

  predicate OpensAt(text: Bytes, i: nat) {
    i + 2 <= |text| && text[i] == '{' as int && text[i + 1] == '{' as int
  }

  predicate ClosesAt(text: Bytes, i: nat) {
    i + 2 <= |text| && text[i] == '}' as int && text[i + 1] == '}' as int
  }

  /** No opening has a closing behind it. */
  ghost predicate NoToken(text: Bytes) {
    forall i: nat, j: nat :: OpensAt(text, i) && ClosesAt(text, j) ==> j < i + 2
  }

  ghost predicate GoodCuts(cuts: seq<Cut>, tail: Bytes) {
    && (forall k :: 0 <= k < |cuts| ==> NoneBefore('{' as int, cuts[k].before) && NoneBefore('}' as int, cuts[k].token))
    && NoToken(tail)
  }

  /** The template text of some cuts. */
  function TextFrom(cuts: seq<Cut>, tail: Bytes): Bytes {
    if cuts == [] then tail
    else cuts[0].before + Ascii("{{") + cuts[0].token + Ascii("}}") + TextFrom(cuts[1..], tail)
  }

  /** The same text with every token replaced. */
  function Filled(cuts: seq<Cut>, tail: Bytes, resolve: Bytes -> Bytes): Bytes {
    if cuts == [] then tail else cuts[0].before + resolve(cuts[0].token) + Filled(cuts[1..], tail, resolve)
  }

  lemma FoundBehind(b: Byte, text: Bytes, rest: Bytes)
    requires NoneBefore(b, text)
    ensures FindPair(b, text + [b, b] + rest, 0) == Some(|text|)
  {
    var all := text + [b, b] + rest;
    assert all[|text|] == b && all[|text| + 1] == b;
    forall i | 0 <= i < |text| ensures !(all[i] == b && all[i + 1] == b) {
      assert all[i] == text[i] && (i + 1 < |text| ==> all[i + 1] == text[i + 1]);
    }
  }

  lemma Braces()
    ensures Ascii("{{") == [OPEN, OPEN] && Ascii("}}") == [CLOSE, CLOSE]
  {
  }

  lemma NoTokenMeans(text: Bytes)
    ensures NoToken(text) <==> !HasToken(text)
  {
    var start := FindPair(OPEN, text, 0);
    if HasToken(text) {
      var i := start.value;
      var j := i + 2 + FindPair(CLOSE, text[i + 2..], 0).value;
      assert OpensAt(text, i) && ClosesAt(text, j);
    }
    if i: nat, j: nat :| OpensAt(text, i) && ClosesAt(text, j) && i + 2 <= j {
      assert text[i] == OPEN && text[i + 1] == OPEN;
      assert start.Some? && start.value <= i;
      var rest := text[start.value + 2..];
      assert rest[j - start.value - 2] == CLOSE && rest[j - start.value - 1] == CLOSE;
    }
  }

  lemma RendersOne(before: Bytes, token: Bytes, more: Bytes, resolve: Bytes -> Bytes)
    requires NoneBefore(OPEN, before) && NoneBefore(CLOSE, token)
    ensures RenderString(before + [OPEN, OPEN] + (token + [CLOSE, CLOSE] + more), resolve)
         == before + resolve(token) + RenderString(more, resolve)
  {
    hide FindPair, NoneBefore;
    var remaining := token + [CLOSE, CLOSE] + more;
    var text := before + [OPEN, OPEN] + remaining;
    FoundBehind(OPEN, before, remaining);
    FoundBehind(CLOSE, token, more);
    assert text[..|before|] == before && text[|before| + 2..] == remaining;
    assert remaining[..|token|] == token && remaining[|token| + 2..] == more;
  }

  /** Rendering replaces the tokens and keeps everything else. */
  lemma {:induction false} RendersCuts(cuts: seq<Cut>, tail: Bytes, resolve: Bytes -> Bytes)
    requires GoodCuts(cuts, tail)
    ensures RenderString(TextFrom(cuts, tail), resolve) == Filled(cuts, tail, resolve)
  {
    if cuts == [] {
      NoTokenMeans(tail);
    } else {
      RendersCuts(cuts[1..], tail, resolve);
      Braces();
      hide Ascii, FindPair, RenderString, NoToken, NoneBefore;
      var c, more := cuts[0], TextFrom(cuts[1..], tail);
      RendersOne(c.before, c.token, more, resolve);
      assert TextFrom(cuts, tail) == c.before + [OPEN, OPEN] + (c.token + [CLOSE, CLOSE] + more);
    }
  }

  /** Every template text is some cuts and a tail. */
  lemma {:induction false} CutsOf(text: Bytes) returns (cuts: seq<Cut>, tail: Bytes)
    ensures GoodCuts(cuts, tail) && text == TextFrom(cuts, tail)
    decreases |text|
  {
    hide NoneBefore, NoToken, FindPair;
    NoTokenMeans(text);
    if HasToken(text) {
      var start := FindPair(OPEN, text, 0).value;
      var remaining := text[start + 2..];
      var end := FindPair(CLOSE, remaining, 0).value;
      FoundIsFirst(OPEN, text);
      FoundIsFirst(CLOSE, remaining);
      var more;
      more, tail := CutsOf(remaining[end + 2..]);
      cuts := [Cut(text[..start], remaining[..end])] + more;
      CutsGrow(text[..start], remaining[..end], more, tail);
    } else {
      cuts, tail := [], text;
    }
  }

  lemma CutsGrow(before: Bytes, token: Bytes, more: seq<Cut>, tail: Bytes)
    requires GoodCuts(more, tail) && NoneBefore('{' as int, before) && NoneBefore('}' as int, token)
    ensures GoodCuts([Cut(before, token)] + more, tail)
    ensures TextFrom([Cut(before, token)] + more, tail)
         == before + [OPEN, OPEN] + (token + [CLOSE, CLOSE] + TextFrom(more, tail))
  {
    Braces();
    hide Ascii, NoneBefore, NoToken;
    assert ([Cut(before, token)] + more)[1..] == more;
  }

  lemma FoundIsFirst(b: Byte, text: Bytes)
    requires FindPair(b, text, 0).Some?
    ensures var p := FindPair(b, text, 0).value;
            NoneBefore(b, text[..p]) && text == text[..p] + [b, b] + text[p + 2..]
  {
  }

  // ---------------------------------------------------------------- values, place by place

  /** What stands at a place of a value: array and object positions, outermost first. */
  function At(v: JValue, place: seq<nat>): Option<JValue>
    decreases |place|
  {
    if place == [] then Some(v)
    else match v
      case JArr(items) => if place[0] < |items| then At(items[place[0]], place[1..]) else None
      case JObj(members) => if place[0] < |members| then At(members[place[0]].value, place[1..]) else None
      case _ => None
  }

  /** Strings are rendered; kinds, lengths, keys and all else are kept. */
  predicate RenderedFrom(was: Option<JValue>, now: Option<JValue>, resolve: Bytes -> Bytes) {
    match was
    case None => now == None
    case Some(JStr(s)) => now == Some(JStr(RenderString(s, resolve)))
    case Some(JArr(items)) => now.Some? && now.value.JArr? && |now.value.items| == |items|
    case Some(JObj(members)) =>
      && now.Some? && now.value.JObj? && |now.value.members| == |members|
      && forall i :: 0 <= i < |members| ==> now.value.members[i].key == members[i].key
    case _ => now == was
  }

  lemma {:induction false} ItemsRendered(items: seq<JValue>, resolve: Bytes -> Bytes)
    ensures |RenderItems(items, resolve)| == |items|
    ensures forall i :: 0 <= i < |items| ==> RenderItems(items, resolve)[i] == RenderValue(items[i], resolve)
  {
    hide RenderValue;
    if items != [] { ItemsRendered(items[1..], resolve); }
  }

  lemma {:induction false} MembersRendered(members: seq<Member>, resolve: Bytes -> Bytes)
    ensures |RenderMembers(members, resolve)| == |members|
    ensures forall i :: 0 <= i < |members| ==>
              RenderMembers(members, resolve)[i] == Member(members[i].key, RenderValue(members[i].value, resolve))
  {
    hide RenderValue;
    if members != [] { MembersRendered(members[1..], resolve); }
  }

  /** At every place of a rendered value stands what was there, rendered. */
  lemma {:induction false} RenderedAt(v: JValue, resolve: Bytes -> Bytes, place: seq<nat>)
    ensures RenderedFrom(At(v, place), At(RenderValue(v, resolve), place), resolve)
    decreases |place|
  {
    hide RenderString;
    match v
    case JArr(items) =>
      ItemsRendered(items, resolve);
      if place != [] && place[0] < |items| { RenderedAt(items[place[0]], resolve, place[1..]); }
    case JObj(members) =>
      MembersRendered(members, resolve);
      if place != [] && place[0] < |members| { RenderedAt(members[place[0]].value, resolve, place[1..]); }
    case _ =>
  }

  /** No request can change the value. */
  ghost predicate FixedValue(v: JValue) {
    forall resolve: Bytes -> Bytes :: RenderValue(v, resolve) == v
  }

  ghost predicate NoTokens(v: JValue) {
    forall place: seq<nat> :: At(v, place).Some? && At(v, place).value.JStr? ==> NoToken(At(v, place).value.text)
  }

  lemma NoTokensInside(v: JValue, i: nat, inner: JValue)
    requires NoTokens(v) && At(v, [i]) == Some(inner)
    ensures NoTokens(inner)
  {
    hide NoToken;
    forall place: seq<nat> | At(inner, place).Some? && At(inner, place).value.JStr?
      ensures NoToken(At(inner, place).value.text)
    {
      var longer := [i] + place;
      assert longer[1..] == place && [i][1..] == [];
      assert At(v, longer) == At(inner, place);
    }
  }

  lemma {:induction false} WithoutTokensFixed(v: JValue, resolve: Bytes -> Bytes)
    requires NoTokens(v)
    ensures RenderValue(v, resolve) == v
    decreases v
  {
    match v
    case JStr(s) =>
      assert At(v, []) == Some(v);
      NoTokenMeans(s);
    case JArr(items) =>
      forall i | 0 <= i < |items| ensures RenderValue(items[i], resolve) == items[i] {
        assert [i][1..] == [];
        NoTokensInside(v, i, items[i]);
        WithoutTokensFixed(items[i], resolve);
      }
      ItemsRendered(items, resolve);
      assert RenderItems(items, resolve) == items;
    case JObj(members) =>
      forall i | 0 <= i < |members| ensures RenderValue(members[i].value, resolve) == members[i].value {
        assert [i][1..] == [];
        NoTokensInside(v, i, members[i].value);
        WithoutTokensFixed(members[i].value, resolve);
      }
      MembersRendered(members, resolve);
      assert RenderMembers(members, resolve) == members;
    case _ =>
  }

  /** A value is the same for every request exactly when no string in it holds a complete token. */
  lemma ValueFixedExactly(v: JValue)
    ensures FixedValue(v) <==> NoTokens(v)
  {
    hide RenderValue, NoToken, RenderString, At;
    if NoTokens(v) {
      forall resolve: Bytes -> Bytes ensures RenderValue(v, resolve) == v { WithoutTokensFixed(v, resolve); }
    }
    if FixedValue(v) {
      forall place: seq<nat> | At(v, place).Some? && At(v, place).value.JStr? ensures NoToken(At(v, place).value.text) {
        RenderedAt(v, Blank, place);
        assert RenderValue(v, Blank) == v;
        NoTokenMeans(At(v, place).value.text);
        BlankShortens(At(v, place).value.text);
      }
    }
  }

  // ---------------------------------------------------------------- what is computed ahead of time

  ghost predicate NoOpening(text: Bytes) {
    forall i: nat :: !OpensAt(text, i)
  }

  lemma OpeningSeen(text: Bytes)
    ensures ContainsOpen(text) <==> !NoOpening(text)
  {
    if ContainsOpen(text) { assert OpensAt(text, FindPair(OPEN, text, 0).value); }
  }

  ghost predicate NoOpenings(v: JValue) {
    forall place: seq<nat> :: At(v, place).Some? && At(v, place).value.JStr? ==> NoOpening(At(v, place).value.text)
  }

  /** A template is found wherever in the value a string holds an opening. */
  lemma {:induction false} TemplatesSeen(v: JValue)
    ensures !ContainsTemplate(v) <==> NoOpenings(v)
    decreases v
  {
    hide NoOpening;
    match v
    case JStr(s) =>
      OpeningSeen(s);
      assert At(v, []) == Some(v);
      assert forall place: seq<nat> :: At(v, place).Some? ==> place == [];
    case JArr(items) =>
      forall i | 0 <= i < |items| ensures !ContainsTemplate(items[i]) <==> NoOpenings(items[i]) {
        TemplatesSeen(items[i]);
      }
      InnerOpenings(v, items);
    case JObj(members) =>
      var items := seq(|members|, i requires 0 <= i < |members| => members[i].value);
      forall i | 0 <= i < |members| ensures !ContainsTemplate(members[i].value) <==> NoOpenings(items[i]) {
        TemplatesSeen(members[i].value);
      }
      InnerOpenings(v, items);
    case _ =>
      assert forall place: seq<nat> :: At(v, place).Some? ==> place == [];
  }

  /** The strings in a value are those in its items. */
  lemma InnerOpenings(v: JValue, items: seq<JValue>)
    requires !v.JStr?
    requires forall place: seq<nat> :: place != [] ==>
               At(v, place) == if place[0] < |items| then At(items[place[0]], place[1..]) else None
    ensures NoOpenings(v) <==> forall i :: 0 <= i < |items| ==> NoOpenings(items[i])
  {
    hide NoOpening;
    if NoOpenings(v) {
      forall i, place: seq<nat> | 0 <= i < |items| && At(items[i], place).Some? && At(items[i], place).value.JStr?
        ensures NoOpening(At(items[i], place).value.text)
      {
        var longer: seq<nat> := [i] + place;
        assert longer != [] && longer[1..] == place && longer[0] == i;
        assert At(v, longer) == At(items[i], place);
      }
    }
    if forall i :: 0 <= i < |items| ==> NoOpenings(items[i]) {
      forall place: seq<nat> | At(v, place).Some? && At(v, place).value.JStr?
        ensures NoOpening(At(v, place).value.text) {
        assert place != [];
        assert At(v, place) == At(items[place[0]], place[1..]);
      }
    }
  }

  /** A response is computed ahead exactly when no string of the body and no header value holds an opening. */
  lemma PrecomputedWhen(b: Blueprint, close: bool, date: Bytes)
    ensures StaticResponse(b, close, date).Some? <==>
              NoOpenings(b.body) && forall i :: 0 <= i < |b.headers| ==> NoOpening(b.headers[i].1)
  {
    hide ContainsTemplate, ContainsOpen, NoOpenings, NoOpening, ResponseBytes, ContentType, ToJson;
    TemplatesSeen(b.body);
    forall i | 0 <= i < |b.headers| ensures ContainsOpen(b.headers[i].1) <==> !NoOpening(b.headers[i].1) {
      OpeningSeen(b.headers[i].1);
    }
  }

  // ---------------------------------------------------------------- the response as a client reads it

  /** Header names hold no colon. */
  predicate NamesFit(headers: Fields) {
    forall i :: 0 <= i < |headers| ==> NAME_END !in headers[i].0
  }

  /** The configured headers a client reads: the server writes the content type and what frames the message itself. */
  function Configured(headers: Fields): Fields {
    if headers == [] then []
    else
      (if Lower(headers[0].0) in [Ascii("content-type"), Ascii("content-length"), Ascii("connection")] then []
       else [headers[0]]) + Configured(headers[1..])
  }

  /** Server, date, what is configured, and the content type of the blueprint's kind. */
  function AllHeaders(b: Blueprint, date: Bytes): Fields {
    [(Ascii("Server"), Ascii("Fearless")), (Ascii("Date"), date)] + Configured(b.headers)
      + [(Ascii("Content-Type"), Ascii(match b.kind case TextKind => "text/plain" case HtmlKind => "text/html"
                                       case JsonKind => "application/json"))]
  }

  lemma {:induction false} ExtraRead(headers: Fields)
    requires NamesFit(headers)
    ensures ReadFields(ExtraLines(headers)) == Configured(headers)
  {
    if headers != [] {
      ExtraRead(headers[1..]);
      ExtraOne(headers[0].0, headers[0].1);
      var first: seq<Bytes> := if Lower(headers[0].0) == CONTENT_TYPE_NAME then []
        else [headers[0].0 + Ascii(": ") + headers[0].1];
      hide Ascii, Lower, FieldIn;
      FieldsAppend(first, ExtraLines(headers[1..]));
      assert ReadFields([]) == [];
    }
  }

  /** A header under a framing name is passed over. */
  lemma ExtraOne(name: Bytes, value: Bytes)
    requires NAME_END !in name
    ensures ReadFields([name + Ascii(": ") + value]) ==
              if Lower(name) in [Ascii("content-length"), Ascii("connection")] then [] else [(name, value)]
  {
    var line := name + Ascii(": ") + value;
    assert Ascii(": ") == [NAME_END, BLANK];
    hide Ascii, Lower, ReadField;
    FieldReads(name, value);
    var none: seq<Bytes> := [];
    assert [line][1..] == none && ReadFields(none) == [];
  }

  lemma FixedNames()
    ensures Ascii("Server: Fearless") == Ascii("Server") + [NAME_END, BLANK] + Ascii("Fearless")
    ensures Ascii("Date: ") == Ascii("Date") + [NAME_END, BLANK]
    ensures Ascii("Content-Type: ") == Ascii("Content-Type") + [NAME_END, BLANK]
    ensures NAME_END !in Ascii("Server") && NAME_END !in Ascii("Date") && NAME_END !in Ascii("Content-Type")
  {
  }

  lemma FixedNamesShown()
    ensures forall name :: name in [Ascii("Server"), Ascii("Date"), Ascii("Content-Type")] ==>
              Lower(name) != LENGTH_NAME && Lower(name) != CONNECTION_NAME
  {
    assert |LENGTH_NAME| == 14 && |CONNECTION_NAME| == 10;
    assert |Ascii("Server")| == 6 && |Ascii("Date")| == 4 && |Ascii("Content-Type")| == 12;
  }

  lemma LinesRead(status: nat, headers: Fields, ct: Bytes, date: Bytes, length: nat, close: bool)
    requires NamesFit(headers)
    ensures var l := LinesBefore(status, headers, ct, date) + [CONTENT_LENGTH + Digits(length)] + LinesAfter(close);
            ReadFields(l[1..]) ==
              [(Ascii("Server"), Ascii("Fearless")), (Ascii("Date"), date)] + Configured(headers)
                + [(Ascii("Content-Type"), ct)]
  {
    var server, dated, typed := Ascii("Server: Fearless"), Ascii("Date: ") + date, Ascii("Content-Type: ") + ct;
    LinesBehindFirst(status, headers, ct, date, length, close);
    LastPassed(close);
    hide *;
    FixedRead(date, ct);
    FramingPassed(length);
    ExtraRead(headers);
    FieldsJoined(server, dated, ExtraLines(headers), typed, CONTENT_LENGTH + Digits(length), LinesAfter(close)[0]);
  }

  lemma LastPassed(close: bool)
    ensures |LinesAfter(close)| == 1 && ReadFields([LinesAfter(close)[0]]) == []
  {
    FramingPassed(0);
    hide ReadFields, KEEP_ALIVE, CONNECTION_CLOSE;
  }

  lemma LinesBehindFirst(status: nat, headers: Fields, ct: Bytes, date: Bytes, length: nat, close: bool)
    ensures |LinesAfter(close)| == 1
    ensures var l := LinesBefore(status, headers, ct, date) + [CONTENT_LENGTH + Digits(length)] + LinesAfter(close);
            l[1..] == [Ascii("Server: Fearless"), Ascii("Date: ") + date] + ExtraLines(headers)
              + [Ascii("Content-Type: ") + ct, CONTENT_LENGTH + Digits(length), LinesAfter(close)[0]]
  {
    hide Ascii, Digits, KEEP_ALIVE, CONTENT_LENGTH, CONNECTION_CLOSE, ReasonPhrase, ExtraLines;
  }

  lemma FixedRead(date: Bytes, ct: Bytes)
    ensures ReadFields([Ascii("Server: Fearless")]) == [(Ascii("Server"), Ascii("Fearless"))]
    ensures ReadFields([Ascii("Date: ") + date]) == [(Ascii("Date"), date)]
    ensures ReadFields([Ascii("Content-Type: ") + ct]) == [(Ascii("Content-Type"), ct)]
  {
    FixedNames();
    FixedNamesShown();
    hide Ascii, Lower, LENGTH_NAME, CONNECTION_NAME, ReadFields;
    FieldKept(Ascii("Server: Fearless"), Ascii("Server"), Ascii("Fearless"));
    FieldKept(Ascii("Date: ") + date, Ascii("Date"), date);
    FieldKept(Ascii("Content-Type: ") + ct, Ascii("Content-Type"), ct);
  }

  lemma FieldsJoined(a: Bytes, b: Bytes, more: seq<Bytes>, c: Bytes, d: Bytes, e: Bytes)
    ensures ReadFields([a, b] + more + [c, d, e]) ==
              ReadFields([a]) + ReadFields([b]) + ReadFields(more) + ReadFields([c]) + ReadFields([d]) + ReadFields([e])
  {
    hide ReadFields;
    FieldsAppend([a], [b]);
    FieldsAppend([a] + [b], more);
    FieldsAppend([a] + [b] + more, [c]);
    FieldsAppend([a] + [b] + more + [c], [d]);
    FieldsAppend([a] + [b] + more + [c] + [d], [e]);
    assert [a, b] + more + [c, d, e] == [a] + [b] + more + [c] + [d] + [e];
  }

  lemma ReasonedStatus(status: nat)
    ensures ReadStatus(Ascii("HTTP/1.1 ") + Digits(status) + Ascii(" ") + ReasonPhrase(status)) == Some(status)
  {
    var version := Ascii("HTTP/1.1");
    assert Ascii("HTTP/1.1 ") == version + [BLANK] && Ascii(" ") == [BLANK] && BLANK !in version;
    hide Ascii, Digits, ReasonPhrase, ReadStatus;
    StatusReads(version, status, ReasonPhrase(status));
  }

  lemma ResponseRead(status: nat, ct: Bytes, length: nat, body: Bytes, headers: Fields, close: bool, date: Bytes)
    requires HeadersFit(headers) && NamesFit(headers)
    requires CR !in date && LF !in date && CR !in ct && LF !in ct
    ensures ReadReply(ResponseBytes(status, ct, length, body, headers, close, date)) ==
              Some(Reading.Reply(status, Combined([(Ascii("Server"), Ascii("Fearless")), (Ascii("Date"), date)]
                + Configured(headers) + [(Ascii("Content-Type"), ct)]), body))
    ensures (forall i :: 0 <= i < |headers| ==> headers[i].0 + Ascii(": ") + headers[i].1 != CONNECTION_CLOSE) ==>
              (SaysClose(ResponseBytes(status, ct, length, body, headers, close, date)) <==> close)
  {
    ResponseLines(status, ct, length, headers, close, date);
    LinesRead(status, headers, ct, date, length, close);
    ReasonedStatus(status);
    hide Ascii, Digits, ReadFields, HeadLines, ReadStatus, Head, AllLines, Combined, Configured, LinesAfter, SaysClose,
      HeadersFit, ExtraLines, ReasonPhrase, CONTENT_LENGTH, CONNECTION_CLOSE;
    var l := LinesBefore(status, headers, ct, date) + [CONTENT_LENGTH + Digits(length)] + LinesAfter(close);
    HeadReads(l, body);
    MessageSaysClose(l, body);
  }

  lemma ResponseLines(status: nat, ct: Bytes, length: nat, headers: Fields, close: bool, date: Bytes)
    requires HeadersFit(headers) && CR !in date && LF !in date && CR !in ct && LF !in ct
    ensures var l := LinesBefore(status, headers, ct, date) + [CONTENT_LENGTH + Digits(length)] + LinesAfter(close);
            && AllLines(l)
            && ((forall i :: 0 <= i < |headers| ==> headers[i].0 + Ascii(": ") + headers[i].1 != CONNECTION_CLOSE) ==>
                  (CONNECTION_CLOSE in l <==> close))
  {
    FixedLinesFit(status, ct, date);
    ExtraLinesFit(headers);
    LengthLineText(length, close);
    CloseLast(status, ct, length, date, close);
    ExtraAre(headers);
    hide Ascii, Digits, ReasonPhrase, ExtraLines, CONTENT_LENGTH, CONNECTION_CLOSE, KEEP_ALIVE, HeadersFit, LineText;
    var before := LinesBefore(status, headers, ct, date);
    assert forall i :: 0 <= i < |before| ==> FitsBefore(before[i]);
  }

  /** Of the lines the server writes itself, only the last can announce a close. */
  lemma CloseLast(status: nat, ct: Bytes, length: nat, date: Bytes, close: bool)
    ensures CONNECTION_CLOSE !in
              [Ascii("HTTP/1.1 ") + Digits(status) + Ascii(" ") + ReasonPhrase(status), Ascii("Server: Fearless"),
               Ascii("Date: ") + date, Ascii("Content-Type: ") + ct, CONTENT_LENGTH + Digits(length)]
    ensures LinesAfter(close)[0] == CONNECTION_CLOSE <==> close
  {
    hide Digits, ReasonPhrase;
    assert CONNECTION_CLOSE[0] == 'C' as int && CONNECTION_CLOSE[3] == 'n' as int && CONNECTION_CLOSE[12] == 'c' as int;
    Differs(Ascii("HTTP/1.1 ") + Digits(status) + Ascii(" ") + ReasonPhrase(status), CONNECTION_CLOSE, 0);
    Differs(Ascii("Server: Fearless"), CONNECTION_CLOSE, 0);
    Differs(Ascii("Date: ") + date, CONNECTION_CLOSE, 0);
    Differs(Ascii("Content-Type: ") + ct, CONNECTION_CLOSE, 3);
    Differs(CONTENT_LENGTH + Digits(length), CONNECTION_CLOSE, 3);
    Differs(KEEP_ALIVE, CONNECTION_CLOSE, 12);
  }

  lemma {:induction false} ExtraAre(headers: Fields)
    ensures forall line :: line in ExtraLines(headers) ==>
              exists i :: 0 <= i < |headers| && line == headers[i].0 + Ascii(": ") + headers[i].1
  {
    hide Ascii, Lower;
    if headers != [] {
      ExtraAre(headers[1..]);
      forall line | line in ExtraLines(headers)
        ensures exists i :: 0 <= i < |headers| && line == headers[i].0 + Ascii(": ") + headers[i].1
      {
        if line != headers[0].0 + Ascii(": ") + headers[0].1 {
          assert line in ExtraLines(headers[1..]);
          var i :| 0 <= i < |headers[1..]| && line == headers[1..][i].0 + Ascii(": ") + headers[1..][i].1;
          assert headers[i + 1] == headers[1..][i];
        }
      }
    }
  }

  /** A text is sent as it stands; anything else is JSON, from which a client gets the value back. */
  predicate Carries(kind: Kind, v: JValue, body: Bytes) {
    if kind != JsonKind && v.JStr? then body == v.text else Numbers(v) ==> ReadValue(body) == Some((v, []))
  }

  /**
   For every blueprint whose headers fit, every request and date: a client reads the blueprint's status, its
   configured headers, the content type of its kind, and the rendered body unless the status has none or it is
   suppressed; the close is announced exactly when asked for.
   */
  lemma BlueprintSeen(b: Blueprint, resolve: Bytes -> Bytes, close: bool, suppress: bool, date: Bytes)
    requires HeadersFit(b.headers) && NamesFit(b.headers) && CR !in date && LF !in date
    ensures exists body ::
              && Carries(b.kind, RenderValue(b.body, resolve), body)
              && ReadReply(DynamicResponse(b, resolve, close, suppress, date)) ==
                   Some(Reading.Reply(b.status, Combined(AllHeaders(b, date)),
                     if suppress || b.status == 204 || b.status == 304 then [] else body))
    ensures (forall i :: 0 <= i < |b.headers| ==> b.headers[i].0 + Ascii(": ") + b.headers[i].1 != CONNECTION_CLOSE) ==>
              (SaysClose(DynamicResponse(b, resolve, close, suppress, date)) <==> close)
  {
    hide Ascii, HeadersFit, NamesFit, Combined, Configured, ReadReply, ResponseBytes, RenderValue, SaysClose, ToJson,
      ReadValue, Numbers, CONNECTION_CLOSE;
    var v := RenderValue(b.body, resolve);
    var body := BodyText(b.kind, v);
    if Numbers(v) { JsonRoundTrip(v); }
    assert Carries(b.kind, v, body);
    ResponseRead(b.status, ContentType(b.kind), if Bodyless(b.status) then 0 else |body|,
      if suppress || Bodyless(b.status) then [] else body, b.headers, close, date);
  }

  /**
   The compiled handlers and the blueprints put the same reason phrase behind a status exactly where both know it,
   or neither does and it is no redirection and no error.
   */
  lemma PhrasesAgree(status: nat)
    ensures ReasonPhrase(status) == Emission.StatusText(status) <==>
              && status !in {100, 101, 203}
              && (300 <= status < 600 ==> status in {301, 302, 400, 401, 403, 404, 500})
  {
    assert |ReasonPhrase(status)| == 2 && |Emission.StatusText(status)| == 2 ==>
        ReasonPhrase(status) == Emission.StatusText(status) == Ascii("OK");
    hide Ascii;
  }
}
