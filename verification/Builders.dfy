/** Every builder by its name: what a client reads of `ctx.<name>(…)`, compiled and from TypeScript. */
module Builders {
  import opened Bytes
  import opened Decimal
  import opened Wire
  import opened JsonText
  import opened JsValues
  import opened Handlers
  import opened JsonLowering
  import opened Stringify
  import opened Emission
  import opened Chains
  import opened Reading
  import opened Runtime
  import opened Compiler

  function OnCtx(name: string, args: seq<Expr>): Expr {
    Call(Property(Ident(Ascii("ctx")), Ascii(name)), args)
  }

  /** A client reads this of the compiled return, which has one header besides those that frame it. */
  ghost predicate Seen(req: Request, e: Expr, status: nat, name: string, value: Bytes, body: Bytes) {
    && ExtractShape(e).Some?
    && ReadReply(Response(req, ExtractShape(e).value)) == Some(Reply(status, map[Ascii(name) := value], body))
  }

  /** The text of a plain string, or of a template for this request. */
  function TextOf(req: Request, e: Expr): Option<Bytes> {
    match e
    case Text(s) => Some(s)
    case Backtick(s) => Some(s)
    case Template(head, spans) => (match SpansValue(req, spans) case None => None case Some(s) => Some(head + s))
    case _ => None
  }

  /** The text a builder is given, or its own without one. */
  function FirstText(req: Request, args: seq<Expr>, missing: string): Option<Bytes> {
    if args == [] then Some(Ascii(missing)) else TextOf(req, args[0])
  }

  // ---------------------------------------------------------------- names

  lemma BuilderNames()
    ensures BuilderNamed(Ascii("json")) == Some(Json) && BuilderNamed(Ascii("text")) == Some(TextBuilder)
    ensures BuilderNamed(Ascii("html")) == Some(Html) && BuilderNamed(Ascii("noContent")) == Some(NoContent)
    ensures BuilderNamed(Ascii("notFound")) == Some(NotFoundBuilder)
    ensures BuilderNamed(Ascii("redirect")) == Some(Redirect)
  {
    assert Ascii("json")[0] == 'j' as int && Ascii("text")[0] == 't' as int && Ascii("html")[0] == 'h' as int;
    assert Ascii("noContent")[2] == 'C' as int && Ascii("notFound")[2] == 't' as int;
    assert Ascii("redirect")[0] == 'r' as int;
    assert Ascii("noContent")[0] == 'n' as int && Ascii("notFound")[0] == 'n' as int;
  }

  lemma OnCtxIs(env: Env, req: Request, name: string, b: Builder, args: seq<Expr>)
    requires BuilderNamed(Ascii(name)) == Some(b)
    ensures ExtractShape(OnCtx(name, args)) == ShapeOf(b, args, CompiledStatus(b, [], args), None)
    ensures ReplyOf(env, req, OnCtx(name, args)) == RuntimeReply(env, req, b, [], args)
  {
    hide BuilderNamed, ShapeOf, RuntimeReply, CompiledStatus;
    assert LinksOf(Ident(CTX)) == Some([]);
  }

  // ---------------------------------------------------------------- compiled

  /** Nothing beside the builder call is looked at. */
  const NO_ENV: Env := Env((_, _) => NotGiven, (_, _) => [])


  lemma TextShaped(req: Request, args: seq<Expr>, status: nat, ct: Bytes)
    requires !IsRedirect(ct)
    ensures TextShape(args, status, ct).Some? <==> FirstText(req, args, "").Some?
    ensures TextShape(args, status, ct).Some? ==>
              var s := TextShape(args, status, ct).value;
              s.status == status && s.contentType == ct && Some(BodyOf(req, s)) == FirstText(req, args, "")
  {
    hide TemplateChunks, IsRedirect, SpansValue, Exec;
    if args != [] && args[0].Template? { TextTemplateWritten(req, args[0].head, args[0].spans); }
  }

  lemma ReadShape(req: Request, s: Shape)
    requires !IsRedirect(s.contentType) && HeaderText(s)
    ensures ReadReply(Response(req, s)) == Some(Reply(s.status, map[Ascii("content-type") := s.contentType],
              BodyOf(req, s)))
  {
    hide IsRedirect, BodyOf, Response, ReadReply;
    ResponseSeen(req, s);
  }

  /** `ctx.text(t)`: compiled exactly with a text or nothing, and read as plain text with status 200. */
  lemma TextSeen(req: Request, args: seq<Expr>)
    ensures var e, text := OnCtx("text", args), FirstText(req, args, "");
            && (ExtractShape(e).Some? <==> text.Some?)
            && (text.Some? ==> Seen(req, e, 200, "content-type", Ascii("text/plain; charset=utf-8"), text.value))
  {
    BuilderNames();
    OnCtxIs(NO_ENV, req, "text", TextBuilder, args);
    hide BuilderNamed, OnCtx, ExtractShape, FirstText, Response, ReadReply, IsRedirect, BodyOf, TextShape, Ascii;
    UsualTypes();
    TextShaped(req, args, 200, TEXT_PLAIN);
    if ExtractShape(OnCtx("text", args)).Some? { ReadShape(req, ExtractShape(OnCtx("text", args)).value); }
  }

  lemma HtmlSeen(req: Request, args: seq<Expr>)
    ensures var e, text := OnCtx("html", args), FirstText(req, args, "");
            && (ExtractShape(e).Some? <==> text.Some?)
            && (text.Some? ==> Seen(req, e, 200, "content-type", Ascii("text/html; charset=utf-8"), text.value))
  {
    BuilderNames();
    OnCtxIs(NO_ENV, req, "html", Html, args);
    hide BuilderNamed, OnCtx, ExtractShape, FirstText, Response, ReadReply, IsRedirect, BodyOf, TextShape, Ascii;
    UsualTypes();
    TextShaped(req, args, 200, TEXT_HTML);
    if ExtractShape(OnCtx("html", args)).Some? { ReadShape(req, ExtractShape(OnCtx("html", args)).value); }
  }

  lemma NotFoundSeen(req: Request, args: seq<Expr>)
    ensures var e, text := OnCtx("notFound", args), FirstText(req, args, "Not Found");
            && (ExtractShape(e).Some? <==> text.Some?)
            && (text.Some? ==> Seen(req, e, 404, "content-type", Ascii("text/plain; charset=utf-8"), text.value))
  {
    BuilderNames();
    OnCtxIs(NO_ENV, req, "notFound", NotFoundBuilder, args);
    hide BuilderNamed, OnCtx, ExtractShape, Response, ReadReply, IsRedirect, TextShape, Ascii, TextOf;
    UsualTypes();
    TextShaped(req, args, 404, TEXT_PLAIN);
    if ExtractShape(OnCtx("notFound", args)).Some? { ReadShape(req, ExtractShape(OnCtx("notFound", args)).value); }
  }

  lemma NoContentSeen(req: Request, args: seq<Expr>)
    ensures Seen(req, OnCtx("noContent", args), 204, "content-type", Ascii("text/plain"), [])
  {
    BuilderNames();
    OnCtxIs(NO_ENV, req, "noContent", NoContent, args);
    hide BuilderNamed, OnCtx, ExtractShape, Response, ReadReply, IsRedirect, Ascii;
    UsualTypes();
    ReadShape(req, ExtractShape(OnCtx("noContent", args)).value);
  }

  /** The status of a redirect: a plain number behind the target, or 302. */
  function RedirectCode(args: seq<Expr>): nat {
    if |args| > 1 && args[1].Num? then ParseInt(args[1].digits) else 302
  }

  /** `ctx.redirect(url)`: compiled exactly with a plain url, which is the location; no body. */
  lemma RedirectSeen(req: Request, args: seq<Expr>)
    ensures var e := OnCtx("redirect", args);
            && (ExtractShape(e).Some? <==> args != [] && (args[0].Text? || args[0].Backtick?))
            && (ExtractShape(e).Some? && CR !in args[0].text && LF !in args[0].text ==>
                  Seen(req, e, RedirectCode(args), "location", args[0].text, []))
  {
    BuilderNames();
    OnCtxIs(NO_ENV, req, "redirect", Redirect, args);
    hide BuilderNamed, OnCtx, ExtractShape, Response, ReadReply, IsRedirect, Ascii, ParseInt, REDIRECT;
    var e := OnCtx("redirect", args);
    if ExtractShape(e).Some? && CR !in args[0].text && LF !in args[0].text {
      RedirectParts(args[0].text);
      ResponseSeen(req, ExtractShape(e).value);
    }
  }

  /** `ctx.json()` answers an empty object. */
  lemma JsonOfNothingSeen(req: Request)
    ensures Seen(req, OnCtx("json", []), 200, "content-type", Ascii("application/json"), Ascii("{}"))
  {
    BuilderNames();
    OnCtxIs(NO_ENV, req, "json", Json, []);
    EmptyObject();
    hide BuilderNamed, OnCtx, ExtractShape, Response, ReadReply, IsRedirect, Ascii;
    UsualTypes();
    ReadShape(req, ExtractShape(OnCtx("json", [])).value);
  }

  /**
   `ctx.json(data)`: compiled exactly where the data have a value, and read as its text where no template
   needs an escape.
   */
  lemma JsonSeen(req: Request, data: Expr, more: seq<Expr>)
    ensures var e := OnCtx("json", [data] + more);
            && (ExtractShape(e).Some? <==> Eval(req, data).Some?)
            && (ExtractShape(e).Some? ==>
                  (Seen(req, e, 200, "content-type", Ascii("application/json"), ToJson(Eval(req, data).value)) <==>
                    NoEscapesNeeded(data)))
  {
    BuilderNames();
    OnCtxIs(NO_ENV, req, "json", Json, [data] + more);
    hide BuilderNamed, OnCtx, ExtractShape, Response, ReadReply, IsRedirect, Ascii, ToJson, Eval, NoEscapesNeeded,
      JsonShape, BodyOf;
    UsualTypes();
    JsonShaped(req, [data] + more, 200, APPLICATION_JSON);
    var e := OnCtx("json", [data] + more);
    if ExtractShape(e).Some? { ReadShape(req, ExtractShape(e).value); }
  }

  lemma EmptyObject()
    ensures EMPTY_OBJECT == Ascii("{}")
  {
  }

  lemma JsonShaped(req: Request, args: seq<Expr>, status: nat, ct: Bytes)
    requires !IsRedirect(ct) && args != []
    ensures var s := JsonShape(args, status, ct);
            && (s.Some? <==> Eval(req, args[0]).Some?)
            && (s.Some? ==>
                  && s.value.status == status && s.value.contentType == ct
                  && (BodyOf(req, s.value) == ToJson(Eval(req, args[0]).value) <==> NoEscapesNeeded(args[0])))
  {
    hide IsRedirect, ToJson, Eval, NoEscapesNeeded, JsonChunks, RenderJsonLiteral, Exec;
    var e := args[0];
    ValueWritten(req, e, true);
    if RenderJsonLiteral(e).Some? {
      LiteralMeans(req, e);
      LiteralIsStructural(req, e);
      ExecLiteral(req, RenderJsonLiteral(e).value);
    }
  }

  /** Nothing else is a builder. */
  lemma OnlyThese(name: string, args: seq<Expr>)
    requires ExtractShape(OnCtx(name, args)).Some?
    ensures Ascii(name) in
              [Ascii("json"), Ascii("text"), Ascii("html"), Ascii("noContent"), Ascii("notFound"), Ascii("redirect")]
  {
    hide Ascii, ShapeOf, CTX;
  }

  // ---------------------------------------------------------------- from TypeScript

  /** TypeScript answers so, with one header. */
  predicate Replies(env: Env, req: Request, e: Expr, status: nat, name: string, value: Bytes, body: Bytes) {
    ReplyOf(env, req, e) == Some(Reply(status, map[Ascii(name) := value], body))
  }

  lemma OwnHeader(env: Env, req: Request, b: Builder, args: seq<Expr>)
    ensures Combined(RuntimeFields(env, req, b, [], args)) ==
              match b
              case NoContent => map[]
              case Redirect => map[Ascii("location") := RedirectTarget(args)]
              case _ => map[Ascii("content-type") := UsualType(b)]
  {
    LowerNames();
    hide Lower, Ascii, UsualType, TYPE_NAME, LOCATION_NAME;
    OneSeen(TYPE_NAME, UsualType(b));
    OneSeen(LOCATION_NAME, RedirectTarget(args));
    NothingCombined();
  }

  lemma NothingCombined()
    ensures Combined([]) == map[]
  {
  }

  lemma TextReplied(env: Env, req: Request, args: seq<Expr>)
    requires FirstText(req, args, "").Some?
    ensures Replies(env, req, OnCtx("text", args), 200, "content-type", Ascii("text/plain; charset=utf-8"),
              FirstText(req, args, "").value)
  {
    BuilderNames();
    OnCtxIs(env, req, "text", TextBuilder, args);
    OwnHeader(env, req, TextBuilder, args);
    hide BuilderNamed, OnCtx, ReplyOf, RuntimeFields, Combined, Ascii;
  }

  /** Without a status behind the text. */
  lemma HtmlReplied(env: Env, req: Request, args: seq<Expr>)
    requires FirstText(req, args, "").Some? && |args| <= 1
    ensures Replies(env, req, OnCtx("html", args), 200, "content-type", Ascii("text/html; charset=utf-8"),
              FirstText(req, args, "").value)
  {
    BuilderNames();
    OnCtxIs(env, req, "html", Html, args);
    OwnHeader(env, req, Html, args);
    hide BuilderNamed, OnCtx, ReplyOf, RuntimeFields, Combined, Ascii;
  }

  lemma NotFoundReplied(env: Env, req: Request, args: seq<Expr>)
    requires FirstText(req, args, "Not Found").Some?
    ensures Replies(env, req, OnCtx("notFound", args), 404, "content-type", Ascii("text/plain; charset=utf-8"),
              FirstText(req, args, "Not Found").value)
  {
    BuilderNames();
    OnCtxIs(env, req, "notFound", NotFoundBuilder, args);
    OwnHeader(env, req, NotFoundBuilder, args);
    hide BuilderNamed, OnCtx, ReplyOf, RuntimeFields, Combined, Ascii;
  }

  /** TypeScript sends no content type along. */
  lemma NoContentReplied(env: Env, req: Request, args: seq<Expr>)
    ensures ReplyOf(env, req, OnCtx("noContent", args)) == Some(Reply(204, map[], []))
  {
    BuilderNames();
    OnCtxIs(env, req, "noContent", NoContent, args);
    OwnHeader(env, req, NoContent, args);
    hide BuilderNamed, OnCtx, ReplyOf, RuntimeFields, Combined, Ascii;
  }

  lemma RedirectReplied(env: Env, req: Request, args: seq<Expr>)
    requires 0 < |args| <= 2 && (args[0].Text? || args[0].Backtick?)
    requires |args| > 1 ==> args[1].Num? && Answerable(RedirectCode(args)) && RedirectCode(args) != 205
    ensures Replies(env, req, OnCtx("redirect", args), RedirectCode(args), "location", args[0].text, [])
  {
    BuilderNames();
    OnCtxIs(env, req, "redirect", Redirect, args);
    OwnHeader(env, req, Redirect, args);
    hide BuilderNamed, OnCtx, ReplyOf, RuntimeFields, Combined, Ascii, ParseInt;
  }

  lemma JsonReplied(env: Env, req: Request, data: Expr)
    requires Eval(req, data).Some?
    ensures Replies(env, req, OnCtx("json", [data]), 200, "content-type", Ascii("application/json"),
              Stringified(Eval(req, data).value))
    ensures Replies(env, req, OnCtx("json", []), 200, "content-type", Ascii("application/json"), [])
  {
    BuilderNames();
    OnCtxIs(env, req, "json", Json, []);
    OnCtxIs(env, req, "json", Json, [data]);
    OwnHeader(env, req, Json, []);
    OwnHeader(env, req, Json, [data]);
    hide BuilderNamed, OnCtx, ReplyOf, RuntimeFields, Combined, Ascii, Eval, Stringified;
  }

  // ---------------------------------------------------------------- the calls of a chain

  /** `ctx.status(code)`, `ctx.header(key, value)` and `ctx.setHeaders({ key: value })` in front of a text. */
  function Behind(name: string, args: seq<Expr>, text: Bytes): Expr {
    Call(Property(OnCtx(name, args), Ascii("text")), [Text(text)])
  }

  lemma LinkNames()
    ensures Ascii("status") == STATUS && Ascii("header") == HEADER && Ascii("setHeaders") == SET_HEADERS
    ensures STATUS != HEADER && STATUS != SET_HEADERS && HEADER != SET_HEADERS
  {
    assert STATUS[0] == 's' as int && HEADER[0] == 'h' as int && |STATUS| == 6 && |SET_HEADERS| == 10;
  }

  lemma BehindIs(env: Env, req: Request, name: string, args: seq<Expr>, link: Link, text: Bytes)
    requires LinkOf(Ascii(name), args) == Some(link)
    ensures var e := Behind(name, args, text);
            && ExtractShape(e) == ShapeOf(TextBuilder, [Text(text)], CompiledStatus(TextBuilder, [link], [Text(text)]),
                                          InnermostContentType([link]))
            && ReplyOf(env, req, e) == RuntimeReply(env, req, TextBuilder, [link], [Text(text)])
  {
    BuilderNames();
    hide BuilderNamed, ShapeOf, RuntimeReply, CompiledStatus, LinkOf, InnermostContentType;
    assert LinksOf(Ident(CTX)) == Some([]);
    assert [link] + [] == [link];
    assert LinksOf(OnCtx(name, args)) == Some([link]);
  }

  /** A text under a status, as TypeScript answers it: none where no response can be made, no body where it has none. */
  function TextUnder(n: nat, text: Bytes): Option<Reply> {
    if n < 200 || n > 599 || n == 205 then None
    else Some(Reply(n, map[Ascii("content-type") := Ascii("text/plain; charset=utf-8")],
                    if n == 204 || n == 304 then [] else text))
  }

  lemma StatusCall(digits: Bytes, rest: Bytes)
    requires IsDigits(digits) && (rest == [] || !('0' as int <= rest[0] <= '9' as int))
    ensures LinkOf(Ascii("status"), [Num(digits + rest)]) == Some(SetStatus(Value(digits)))
  {
    LinkNames();
    AllLeading(digits, rest);
    hide Ascii, LeadingDigits, Value, STATUS;
  }

  lemma StatusLink(env: Env, req: Request, n: nat, text: Bytes)
    ensures var links, args := [SetStatus(n)], [Text(text)];
            && ShapeOf(TextBuilder, args, CompiledStatus(TextBuilder, links, args), InnermostContentType(links))
                 == Some(Static(n, TEXT_PLAIN, text))
            && RuntimeReply(env, req, TextBuilder, links, args) == TextUnder(n, text)
  {
    var links, none: seq<Link> := [SetStatus(n)], [];
    assert links[1..] == none && InnermostStatus(none) == None && InnermostContentType(none) == None;
    assert Runtime.Pending(env, req, links) == Runtime.Pending(env, req, none) == [];
    OwnHeader(env, req, TextBuilder, [Text(text)]);
    hide Combined, Ascii, Runtime.Pending;
  }

  /** A status call sets the status of both to the digits its number starts with. */
  lemma StatusSet(env: Env, req: Request, digits: Bytes, rest: Bytes, text: Bytes)
    requires IsDigits(digits) && (rest == [] || !('0' as int <= rest[0] <= '9' as int))
    ensures var e, n := Behind("status", [Num(digits + rest)], text), Value(digits);
            && Seen(req, e, n, "content-type", Ascii("text/plain; charset=utf-8"), text)
            && ReplyOf(env, req, e) == TextUnder(n, text)
  {
    hide Behind, ExtractShape, ReplyOf, Response, ReadReply, IsRedirect, Ascii, Value, ShapeOf, RuntimeReply,
      CompiledStatus, InnermostContentType, TextUnder, LinkOf;
    StatusCall(digits, rest);
    BehindIs(env, req, "status", [Num(digits + rest)], SetStatus(Value(digits)), text);
    StatusLink(env, req, Value(digits), text);
    UsualTypes();
    ReadShape(req, ExtractShape(Behind("status", [Num(digits + rest)], text)).value);
  }

  /** The headers of a text behind one pending header: its own replaces another of the same spelling. */
  function WithPlain(key: Bytes, value: Bytes): Fields {
    var own := (Ascii("Content-Type"), Ascii("text/plain; charset=utf-8"));
    if key == Ascii("Content-Type") then [own] else [(key, value), own]
  }

  lemma HeaderLink(env: Env, req: Request, key: Bytes, value: Bytes, text: Bytes)
    ensures var links, args := OneHeader(key, value), [Text(text)];
            && ShapeOf(TextBuilder, args, CompiledStatus(TextBuilder, links, args), InnermostContentType(links))
                 == Some(Static(200, if Lower(key) == Ascii("content-type") then value else TEXT_PLAIN, text))
            && RuntimeReply(env, req, TextBuilder, links, args)
               == Some(Reply(200, Combined(WithPlain(key, value)), text))
  {
    PendingOne(env, req, key, value);
    hide Combined, Ascii, Runtime.Pending, InnermostContentType, Lower;
    var links, none: seq<Link> := OneHeader(key, value), [];
    assert links[1..] == none && InnermostStatus(none) == None && PendingStatus(none) == None;
    assert InnermostStatus(links) == None && PendingStatus(links) == None;
    var pairs: Fields := [(key, value)];
    assert pairs[1..] == [];
    assert Put(pairs, TYPE_NAME, TEXT_PLAIN) == WithPlain(key, value);
  }

  /**
   A header call: the compiled response takes its content type from it and drops any other header, TypeScript
   sends both.
   */
  lemma HeaderSet(env: Env, req: Request, key: Bytes, value: Bytes, text: Bytes)
    requires CR !in value && LF !in value && !StartsWith(value, Ascii("redirect:"))
    ensures forall e :: e in [Behind("header", [Text(key), Text(value)], text),
                              Behind("setHeaders", [Object([Assign(Some(key), Text(value))])], text)] ==>
              && Seen(req, e, 200, "content-type", if Lower(key) == Ascii("content-type") then value
                   else Ascii("text/plain; charset=utf-8"), text)
              && ReplyOf(env, req, e) == Some(Reply(200, Combined(WithPlain(key, value)), text))
  {
    HeaderCall(env, req, "header", [Text(key), Text(value)], key, value, text);
    HeaderCall(env, req, "setHeaders", [Object([Assign(Some(key), Text(value))])], key, value, text);
    hide *;
  }

  lemma HeaderCall(env: Env, req: Request, name: string, args: seq<Expr>, key: Bytes, value: Bytes, text: Bytes)
    requires CR !in value && LF !in value && !StartsWith(value, Ascii("redirect:"))
    requires if name == "header" then args == [Text(key), Text(value)]
             else name == "setHeaders" && args == [Object([Assign(Some(key), Text(value))])]
    ensures var e := Behind(name, args, text);
            && Seen(req, e, 200, "content-type", if Lower(key) == Ascii("content-type") then value
                 else Ascii("text/plain; charset=utf-8"), text)
            && ReplyOf(env, req, e) == Some(Reply(200, Combined(WithPlain(key, value)), text))
  {
    LinkNames();
    hide Behind, ExtractShape, ReplyOf, Response, ReadReply, StartsWith, Ascii, Lower, STATUS, HEADER, SET_HEADERS,
      ShapeOf, RuntimeReply, CompiledStatus, InnermostContentType, WithPlain;
    assert OneHeader(key, value) == [SetHeaders([Assign(Some(key), Text(value))])];
    BehindIs(env, req, name, args, SetHeaders([Assign(Some(key), Text(value))]), text);
    HeaderLink(env, req, key, value, text);
    UsualTypes();
    ReadShape(req, ExtractShape(Behind(name, args, text)).value);
  }

  /** The digits in front are all that counts of a number's text. */
  lemma {:induction false} AllLeading(digits: Bytes, rest: Bytes)
    requires forall i :: 0 <= i < |digits| ==> 48 <= digits[i] <= 57
    requires rest == [] || !('0' as int <= rest[0] <= '9' as int)
    ensures LeadingDigits(digits + rest) == digits
  {
    if digits == [] {
      assert digits + rest == rest;
    } else {
      AllLeading(digits[1..], rest);
      assert (digits + rest)[1..] == digits[1..] + rest;
    }
  }

  // ---------------------------------------------------------------- two calls

  /** `ctx.<first>(…).<second>(…).text("…")`. */
  function BehindTwo(first: string, a: seq<Expr>, second: string, b: seq<Expr>, text: Bytes): Expr {
    Call(Property(Call(Property(OnCtx(first, a), Ascii(second)), b), Ascii("text")), [Text(text)])
  }

  lemma BehindTwoIs(env: Env, req: Request, first: string, a: seq<Expr>, second: string, b: seq<Expr>, x: Link, y: Link,
                    text: Bytes)
    requires LinkOf(Ascii(first), a) == Some(x) && LinkOf(Ascii(second), b) == Some(y)
    ensures var e := BehindTwo(first, a, second, b, text);
            && ExtractShape(e) == ShapeOf(TextBuilder, [Text(text)], CompiledStatus(TextBuilder, [y, x], [Text(text)]),
                                          InnermostContentType([y, x]))
            && ReplyOf(env, req, e) == RuntimeReply(env, req, TextBuilder, [y, x], [Text(text)])
  {
    BuilderNames();
    hide BuilderNamed, ShapeOf, RuntimeReply, CompiledStatus, LinkOf, InnermostContentType;
    assert [x] + [] == [x] && [y] + [x] == [y, x];
    assert LinksOf(Ident(CTX)) == Some([]);
    assert LinksOf(OnCtx(first, a)) == Some([x]);
    assert LinksOf(Call(Property(OnCtx(first, a), Ascii(second)), b)) == Some([y, x]);
  }

  /** Of two status calls the compiled response takes the first, TypeScript the second. */
  lemma FirstStatusWins(env: Env, req: Request, m: Bytes, n: Bytes, text: Bytes)
    requires IsDigits(m) && IsDigits(n)
    ensures var e := BehindTwo("status", [Num(m)], "status", [Num(n)], text);
            && Seen(req, e, Value(m), "content-type", Ascii("text/plain; charset=utf-8"), text)
            && ReplyOf(env, req, e) == TextUnder(Value(n), text)
  {
    hide BehindTwo, ExtractShape, ReplyOf, Response, ReadReply, IsRedirect, Ascii, Value, ShapeOf, RuntimeReply,
      CompiledStatus, InnermostContentType, TextUnder, LinkOf;
    StatusCall(m, []);
    StatusCall(n, []);
    assert m + [] == m && n + [] == n;
    BehindTwoIs(env, req, "status", [Num(m)], "status", [Num(n)], SetStatus(Value(m)), SetStatus(Value(n)), text);
    TwoStatusLinks(env, req, Value(m), Value(n), text);
    UsualTypes();
    ReadShape(req, ExtractShape(BehindTwo("status", [Num(m)], "status", [Num(n)], text)).value);
  }

  lemma TwoStatusLinks(env: Env, req: Request, m: nat, n: nat, text: Bytes)
    ensures var links, args := [SetStatus(n), SetStatus(m)], [Text(text)];
            && ShapeOf(TextBuilder, args, CompiledStatus(TextBuilder, links, args), InnermostContentType(links))
                 == Some(Static(m, TEXT_PLAIN, text))
            && RuntimeReply(env, req, TextBuilder, links, args) == TextUnder(n, text)
  {
    var links, one, none: seq<Link> := [SetStatus(n), SetStatus(m)], [SetStatus(m)], [];
    assert links[1..] == one && one[1..] == none;
    assert InnermostStatus(none) == None && InnermostContentType(none) == None && Runtime.Pending(env, req, none) == [];
    assert InnermostStatus(one) == Some(m) && InnermostContentType(one) == None && Runtime.Pending(env, req, one) == [];
    assert Runtime.Pending(env, req, links) == [];
    OwnHeader(env, req, TextBuilder, [Text(text)]);
    hide Combined, Ascii, Runtime.Pending;
  }

  /** Of two content types the compiled response takes the first. */
  lemma FirstTypeWins(env: Env, req: Request, key: Bytes, other: Bytes, a: Bytes, b: Bytes, text: Bytes)
    requires Lower(key) == Ascii("content-type") == Lower(other)
    requires CR !in a && LF !in a && !StartsWith(a, Ascii("redirect:"))
    ensures Seen(req, BehindTwo("header", [Text(key), Text(a)], "header", [Text(other), Text(b)], text),
              200, "content-type", a, text)
  {
    LinkNames();
    hide BehindTwo, ExtractShape, ReplyOf, Response, ReadReply, StartsWith, Ascii, Lower, STATUS, HEADER, SET_HEADERS,
      ShapeOf, RuntimeReply, CompiledStatus, InnermostContentType;
    var x, y := SetHeaders([Assign(Some(key), Text(a))]), SetHeaders([Assign(Some(other), Text(b))]);
    BehindTwoIs(env, req, "header", [Text(key), Text(a)], "header", [Text(other), Text(b)], x, y, text);
    TwoTypeLinks(env, req, key, other, a, b, text);
    ReadShape(req, ExtractShape(BehindTwo("header", [Text(key), Text(a)], "header", [Text(other), Text(b)],
      text)).value);
  }

  lemma TwoTypeLinks(env: Env, req: Request, key: Bytes, other: Bytes, a: Bytes, b: Bytes, text: Bytes)
    requires Lower(key) == Ascii("content-type")
    ensures var links, args := [SetHeaders([Assign(Some(other), Text(b))]), SetHeaders([Assign(Some(key), Text(a))])],
            [Text(text)];
            ShapeOf(TextBuilder, args, CompiledStatus(TextBuilder, links, args), InnermostContentType(links))
              == Some(Static(200, a, text))
  {
    PendingOne(env, req, key, a);
    hide Ascii, Lower;
    var links := [SetHeaders([Assign(Some(other), Text(b))]), SetHeaders([Assign(Some(key), Text(a))])];
    var none: seq<Link> := [];
    assert links[1..] == OneHeader(key, a) && OneHeader(key, a)[1..] == none;
    assert InnermostContentType(links) == Some(a);
    assert InnermostStatus(none) == None && InnermostStatus(OneHeader(key, a)) == None
      && InnermostStatus(links) == None;
  }

  /** Only chains that start at `ctx` are compiled. */
  lemma {:induction false} OnlyOnCtx(e: Expr)
    requires LinksOf(e).Some?
    ensures Root(e) == Ident(Ascii("ctx"))
  {
    hide Ascii, LinkOf;
    if e.Call? { OnlyOnCtx(e.callee.target); }
  }

  /** What a chain of calls starts at. */
  function Root(e: Expr): Expr {
    match e case Call(Property(target, _), _) => Root(target) case _ => e
  }
}
