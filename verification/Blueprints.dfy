/**
 Response blueprints of the Rust server (rust-core/src/lib.rs): templates rendered per request, and the
 responses computed ahead of time for blueprints without any.
 */
module Blueprints {
  import opened Bytes
  import opened Decimal
  import opened Wire
  import opened JsonText
  import opened Replies
  import opened Handlers

  const OPEN: Byte := 123
  const CLOSE: Byte := 125

  // ---------------------------------------------------------------- templates

  /** Where two bytes `b` first stand side by side. */
  function FindPair(b: Byte, text: Bytes, from: nat): (r: Option<nat>)
    requires from <= |text|
    ensures r.Some? ==> from <= r.value && r.value + 2 <= |text| && text[r.value] == b && text[r.value + 1] == b
    ensures r.Some? ==> forall i :: from <= i < r.value ==> !(text[i] == b && text[i + 1] == b)
    ensures r.None? ==> forall i :: from <= i < |text| - 1 ==> !(text[i] == b && text[i + 1] == b)
    decreases |text| - from
  {
    if |text| - from < 2 then None
    else if text[from] == b && text[from + 1] == b then Some(from)
    else FindPair(b, text, from + 1)
  }

  /** Replaces every `{{token}}` from left to right; an opening that is never closed stays. */
  function RenderString(text: Bytes, resolve: Bytes -> Bytes): Bytes
    decreases |text|
  {
    match FindPair(OPEN, text, 0)
    case None => text
    case Some(start) =>
      var remaining := text[start + 2..];
      match FindPair(CLOSE, remaining, 0)
      case None => text
      case Some(end) => text[..start] + resolve(remaining[..end]) + RenderString(remaining[end + 2..], resolve)
  }

  lemma RenderStep(text: Bytes, resolve: Bytes -> Bytes)
    ensures var start := FindPair(OPEN, text, 0);
            if start.None? then RenderString(text, resolve) == text
            else
              var remaining := text[start.value + 2..];
              var end := FindPair(CLOSE, remaining, 0);
              if end.None? then RenderString(text, resolve) == text[..start.value] + text[start.value..]
              else RenderString(text, resolve) ==
                     text[..start.value] + resolve(remaining[..end.value])
                       + RenderString(remaining[end.value + 2..], resolve)
  {
    var start := FindPair(OPEN, text, 0);
    if start.Some? { assert text[..start.value] + text[start.value..] == text; }
  }

  /** The loop: `rest` shrinks past each token, `output` collects what is in front. */
  method RenderTemplateString(input: Bytes, resolve: Bytes -> Bytes) returns (output: Bytes)
    ensures output == RenderString(input, resolve)
  {
    hide RenderString, FindPair;
    output := [];
    var rest := input;
    while true
      invariant output + RenderString(rest, resolve) == RenderString(input, resolve)
      decreases |rest|
    {
      RenderStep(rest, resolve);
      var start := FindPair(OPEN, rest, 0);
      if start.None? {
        break;
      }
      var remaining := rest[start.value + 2..];
      var end := FindPair(CLOSE, remaining, 0);
      if end.None? {
        output := output + rest[..start.value];
        output := output + rest[start.value..];
        return;
      }
      output := output + rest[..start.value];
      output := output + resolve(remaining[..end.value]);
      rest := remaining[end.value + 2..];
    }
    output := output + rest;
  }

  /** An opening with a closing behind it. */
  predicate HasToken(text: Bytes) {
    FindPair(OPEN, text, 0).Some? && FindPair(CLOSE, text[FindPair(OPEN, text, 0).value + 2..], 0).Some?
  }

  function Blank(token: Bytes): Bytes { [] }

  lemma {:induction false} BlankShortens(text: Bytes)
    ensures |RenderString(text, Blank)| <= |text|
    ensures HasToken(text) ==> |RenderString(text, Blank)| < |text|
    decreases |text|
  {
    if HasToken(text) {
      var start := FindPair(OPEN, text, 0).value;
      var remaining := text[start + 2..];
      BlankShortens(remaining[FindPair(CLOSE, remaining, 0).value + 2..]);
    }
  }

  // ---------------------------------------------------------------- values

  /** No request can change the text: whatever the tokens stand for. */
  ghost predicate FixedText(text: Bytes) {
    forall resolve: Bytes -> Bytes :: RenderString(text, resolve) == text
  }

  /** Text is fixed exactly when it holds no complete token. */
  lemma TextFixedExactly(text: Bytes)
    ensures FixedText(text) <==> !HasToken(text)
  {
    if HasToken(text) {
      BlankShortens(text);
      assert RenderString(text, Blank) != text;
    }
  }

  function RenderValue(v: JValue, resolve: Bytes -> Bytes): JValue
    decreases v
  {
    match v
    case JStr(s) => JStr(RenderString(s, resolve))
    case JArr(items) => JArr(RenderItems(items, resolve))
    case JObj(members) => JObj(RenderMembers(members, resolve))
    case _ => v
  }

  function RenderItems(items: seq<JValue>, resolve: Bytes -> Bytes): seq<JValue>
    decreases items
  {
    if items == [] then [] else [RenderValue(items[0], resolve)] + RenderItems(items[1..], resolve)
  }

  /** Keys are not templates. */
  function RenderMembers(members: seq<Member>, resolve: Bytes -> Bytes): seq<Member>
    decreases members
  {
    if members == [] then []
    else [Member(members[0].key, RenderValue(members[0].value, resolve))] + RenderMembers(members[1..], resolve)
  }

  predicate ContainsOpen(text: Bytes) {
    FindPair(OPEN, text, 0).Some?
  }

  /** value_contains_template: any `{{` at all. */
  predicate ContainsTemplate(v: JValue)
    decreases v
  {
    match v
    case JStr(s) => ContainsOpen(s)
    case JArr(items) => exists i :: 0 <= i < |items| && ContainsTemplate(items[i])
    case JObj(members) => exists i :: 0 <= i < |members| && ContainsTemplate(members[i].value)
    case _ => false
  }

  /** Rendering is the identity on a value without templates, for every request. */
  lemma {:induction false} NoTemplateIsFixed(v: JValue, resolve: Bytes -> Bytes)
    requires !ContainsTemplate(v)
    ensures RenderValue(v, resolve) == v
    decreases v
  {
    match v
    case JArr(items) => ItemsFixed(items, resolve);
    case JObj(members) => MembersFixed(members, resolve);
    case _ =>
  }

  lemma {:induction false} ItemsFixed(items: seq<JValue>, resolve: Bytes -> Bytes)
    requires forall i :: 0 <= i < |items| ==> !ContainsTemplate(items[i])
    ensures RenderItems(items, resolve) == items
    decreases items
  {
    if items != [] {
      NoTemplateIsFixed(items[0], resolve);
      ItemsFixed(items[1..], resolve);
      assert items == [items[0]] + items[1..];
    }
  }

  lemma {:induction false} MembersFixed(members: seq<Member>, resolve: Bytes -> Bytes)
    requires forall i :: 0 <= i < |members| ==> !ContainsTemplate(members[i].value)
    ensures RenderMembers(members, resolve) == members
    decreases members
  {
    if members != [] {
      NoTemplateIsFixed(members[0].value, resolve);
      MembersFixed(members[1..], resolve);
      assert members == [members[0]] + members[1..];
    }
  }

  // ---------------------------------------------------------------- responses

  datatype Kind = TextKind | HtmlKind | JsonKind

  datatype Blueprint = Blueprint(kind: Kind, body: JValue, status: nat, headers: seq<(Bytes, Bytes)>)

  function ContentType(kind: Kind): Bytes {
    match kind
    case TextKind => Ascii("text/plain")
    case HtmlKind => Ascii("text/html")
    case JsonKind => Ascii("application/json")
  }

  function ReasonPhrase(status: nat): Bytes {
    Ascii(match status
      case 200 => "OK"
      case 201 => "Created"
      case 202 => "Accepted"
      case 203 => "Non-Authoritative Information"
      case 204 => "No Content"
      case 301 => "Moved Permanently"
      case 302 => "Found"
      case 400 => "Bad Request"
      case 401 => "Unauthorized"
      case 403 => "Forbidden"
      case 404 => "Not Found"
      case 500 => "Internal Server Error"
      case _ => "OK")
  }

  const CONTENT_TYPE_NAME: Bytes := Ascii("content-type")

  /** Configured headers, but for any content type. */
  function ExtraLines(headers: seq<(Bytes, Bytes)>): seq<Bytes> {
    if headers == [] then []
    else
      (if Lower(headers[0].0) == CONTENT_TYPE_NAME then [] else [headers[0].0 + Ascii(": ") + headers[0].1])
        + ExtraLines(headers[1..])
  }

  function LinesBefore(status: nat, headers: seq<(Bytes, Bytes)>, contentType: Bytes, date: Bytes): seq<Bytes> {
    [Ascii("HTTP/1.1 ") + Digits(status) + Ascii(" ") + ReasonPhrase(status), Ascii("Server: Fearless"),
      Ascii("Date: ") + date]
      + ExtraLines(headers) + [Ascii("Content-Type: ") + contentType]
  }

  function LinesAfter(close: bool): seq<Bytes> {
    [if close then CONNECTION_CLOSE else KEEP_ALIVE]
  }

  function ResponseBytes(status: nat, contentType: Bytes, length: nat, body: Bytes, headers: seq<(Bytes, Bytes)>,
                         close: bool, date: Bytes): Bytes {
    Head(LinesBefore(status, headers, contentType, date) + [CONTENT_LENGTH + Digits(length)] + LinesAfter(close)) + body
  }

  function BodyText(kind: Kind, v: JValue): Bytes {
    if kind != JsonKind && v.JStr? then v.text else ToJson(v)
  }

  /** build_dynamic_response. */
  function DynamicResponse(b: Blueprint, resolve: Bytes -> Bytes, close: bool, suppress: bool, date: Bytes): Bytes {
    var body := BodyText(b.kind, RenderValue(b.body, resolve));
    ResponseBytes(b.status, ContentType(b.kind), if Bodyless(b.status) then 0 else |body|,
                  if suppress || Bodyless(b.status) then [] else body, b.headers, close, date)
  }

  predicate CanPrecompute(b: Blueprint) {
    !ContainsTemplate(b.body) && forall i :: 0 <= i < |b.headers| ==> !ContainsOpen(b.headers[i].1)
  }

  /** The bytes from_parts keeps for one date and one connection setting. */
  function StaticResponse(b: Blueprint, close: bool, date: Bytes): Option<Bytes> {
    if CanPrecompute(b) then
      var body := BodyText(b.kind, b.body);
      Some(ResponseBytes(b.status, ContentType(b.kind), |body|, body, b.headers, close, date))
    else None
  }

  /** Exchanging one header line changes the head's length by the difference. */
  lemma {:induction false} HeadLengths(before: seq<Bytes>, x: Bytes, y: Bytes, after: seq<Bytes>)
    ensures |Head(before + [x] + after)| + |y| == |Head(before + [y] + after)| + |x|
  {
    if before == [] {
      assert ([] + [x] + after)[1..] == after && ([] + [y] + after)[1..] == after;
    } else {
      HeadLengths(before[1..], x, y, after);
      assert (before + [x] + after)[1..] == before[1..] + [x] + after;
      assert (before + [y] + after)[1..] == before[1..] + [y] + after;
    }
  }

  /** A response with a body is longer than the same one without. */
  lemma BodyShows(status: nat, contentType: Bytes, body: Bytes, headers: seq<(Bytes, Bytes)>, close: bool, date: Bytes)
    requires body != []
    ensures |ResponseBytes(status, contentType, 0, [], headers, close, date)| < |ResponseBytes(status, contentType,
              |body|, body, headers, close, date)|
  {
    hide LinesBefore, LinesAfter, Head;
    HeadLengths(LinesBefore(status, headers, contentType, date), CONTENT_LENGTH + Digits(|body|),
      CONTENT_LENGTH + Digits(0), LinesAfter(close));
    assert |Digits(0)| == 1;
  }

  /**
   A precomputed response is what rendering would give, for every request, date and connection setting,
   exactly when the status allows a body or there is none: for 204 and 304 the cached form still carries it.
   */
  lemma PrecomputedExact(b: Blueprint, resolve: Bytes -> Bytes, close: bool, date: Bytes)
    requires CanPrecompute(b)
    ensures StaticResponse(b, close, date) == Some(DynamicResponse(b, resolve, close, false, date))
       <==> (!Bodyless(b.status) || BodyText(b.kind, b.body) == [])
  {
    hide ContainsTemplate, ContainsOpen, RenderValue, ToJson, ResponseBytes, ContentType;
    NoTemplateIsFixed(b.body, resolve);
    var body := BodyText(b.kind, b.body);
    if Bodyless(b.status) && body != [] { BodyShows(b.status, ContentType(b.kind), body, b.headers, close, date); }
  }

  /** A 204 with a body: the cached bytes are not the rendered ones. */
  lemma NoContentDiffers(resolve: Bytes -> Bytes, close: bool, date: Bytes)
    ensures var b := Blueprint(TextKind, JStr([65]), 204, []);
            CanPrecompute(b) && StaticResponse(b, close, date) != Some(DynamicResponse(b, resolve, close, false, date))
  {
    var b := Blueprint(TextKind, JStr([65]), 204, []);
    assert FindPair(OPEN, [65], 0) == None;
    PrecomputedExact(b, resolve, close, date);
    hide StaticResponse, DynamicResponse;
  }

  /** A suppressed body leaves its length behind: the HEAD response announces the GET response's body. */
  lemma SuppressedHead(b: Blueprint, resolve: Bytes -> Bytes, close: bool, date: Bytes)
    ensures var body := BodyText(b.kind, RenderValue(b.body, resolve));
            DynamicResponse(b, resolve, close, false, date)
              == DynamicResponse(b, resolve, close, true, date) + (if Bodyless(b.status) then [] else body)
  {
    hide RenderValue, ToJson, LinesBefore, LinesAfter, Head, ContentType;
  }

  // ---------------------------------------------------------------- framing

  /** Configured headers that fit on a line each, and are not the one the server writes itself. */
  predicate HeadersFit(headers: seq<(Bytes, Bytes)>) {
    forall i :: 0 <= i < |headers| ==>
      && LineText(headers[i].0) && CR !in headers[i].1 && LF !in headers[i].1
      && !StartsWith(headers[i].0 + Ascii(": ") + headers[i].1, CONTENT_LENGTH)
  }

  predicate FitsBefore(line: Bytes) {
    LineText(line) && !StartsWith(line, CONTENT_LENGTH)
  }

  lemma {:induction false} ExtraLinesFit(headers: seq<(Bytes, Bytes)>)
    requires HeadersFit(headers)
    ensures forall i :: 0 <= i < |ExtraLines(headers)| ==> FitsBefore(ExtraLines(headers)[i])
  {
    hide Lower, Ascii;
    if headers != [] {
      LiteralText(": ");
      JoinText(headers[0].0, Ascii(": "));
      JoinText(headers[0].0 + Ascii(": "), headers[0].1);
      ExtraLinesFit(headers[1..]);
    }
  }

  lemma FixedLinesFit(status: nat, contentType: Bytes, date: Bytes)
    requires CR !in date && LF !in date && CR !in contentType && LF !in contentType
    ensures FitsBefore(Ascii("HTTP/1.1 ") + Digits(status) + Ascii(" ") + ReasonPhrase(status))
    ensures FitsBefore(Ascii("Server: Fearless")) && FitsBefore(Ascii("Date: ") + date)
    ensures FitsBefore(Ascii("Content-Type: ") + contentType)
  {
    hide Digits, ReasonPhrase;
    var first, last := Ascii("HTTP/1.1 ") + Digits(status) + Ascii(" ") + ReasonPhrase(status),
      Ascii("Content-Type: ") + contentType;
    assert CONTENT_LENGTH[0] == 'C' as int && CONTENT_LENGTH[8] == 'L' as int;
    assert first[0] == 'H' as int && last[8] == 'T' as int;
    NotPrefix(first, CONTENT_LENGTH, 0);
    NotPrefix(Ascii("Server: Fearless"), CONTENT_LENGTH, 0);
    NotPrefix(Ascii("Date: ") + date, CONTENT_LENGTH, 0);
    NotPrefix(last, CONTENT_LENGTH, 8);
    StatusLineText(status);
  }

  lemma StatusLineText(status: nat)
    ensures LineText(Ascii("HTTP/1.1 ") + Digits(status) + Ascii(" ") + ReasonPhrase(status))
  {
    hide Digits;
    DigitsAreText(status);
    assert CR !in ReasonPhrase(status) && LF !in ReasonPhrase(status);
    hide Ascii, ReasonPhrase;
    JoinText(Ascii("HTTP/1.1 "), Digits(status));
    JoinText(Ascii("HTTP/1.1 ") + Digits(status), Ascii(" "));
    JoinText(Ascii("HTTP/1.1 ") + Digits(status) + Ascii(" "), ReasonPhrase(status));
  }

  /** Rendered for any request, a blueprint's response is one response, whole and nothing else. */
  lemma BlueprintIsFramed(b: Blueprint, resolve: Bytes -> Bytes, close: bool, date: Bytes)
    requires HeadersFit(b.headers) && CR !in date && LF !in date
    ensures WellFramed(DynamicResponse(b, resolve, close, false, date))
  {
    hide WellFramed, ToJson, RenderValue, Digits, ReasonPhrase, Head, CONTENT_LENGTH;
    var text := BodyText(b.kind, RenderValue(b.body, resolve));
    var body := if Bodyless(b.status) then [] else text;
    var before, contentType := LinesBefore(b.status, b.headers, ContentType(b.kind), date), ContentType(b.kind);
    var lines := before + [CONTENT_LENGTH + Digits(|body|)] + LinesAfter(close);
    FixedLinesFit(b.status, contentType, date);
    ExtraLinesFit(b.headers);
    assert forall i :: 0 <= i < |before| ==> FitsBefore(before[i]);
    LengthLineText(|body|, close);
    assert forall i :: 0 <= i < |before| ==> lines[i] == before[i];
    MessageIsFramed(lines, |before|, body);
  }

  lemma LengthLineText(length: nat, close: bool)
    ensures LineText(CONTENT_LENGTH + Digits(length)) && LineText(LinesAfter(close)[0])
  {
    hide Digits;
    DigitsAreText(length);
    LiteralText("Content-Length: ");
    JoinText(CONTENT_LENGTH, Digits(length));
    LiteralText("Connection: close");
    LiteralText("Connection: keep-alive");
  }
}
