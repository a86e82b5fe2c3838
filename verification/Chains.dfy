/** Return expressions (packages/aot-transpiler/src/emit/extract.ts), and what they do in TypeScript (src/ctx.ts). */
module Chains {
  import opened Bytes
  import opened Decimal
  import opened Wire
  import opened JsonText
  import opened Handlers
  import opened JsValues
  import opened JsonLowering
  import opened Stringify
  import opened Emission
  import opened Reading

  /** What one call of a chain does; headers are kept as the properties written. */
  datatype Link = SetStatus(code: nat) | SetHeaders(props: seq<Prop>)

  datatype Unwrapped = Unwrapped(terminal: Bytes, args: seq<Expr>, status: Option<nat>, contentType: Option<Bytes>)

  const STATUS: Bytes := Ascii("status")
  const HEADER: Bytes := Ascii("header")
  const SET_HEADERS: Bytes := Ascii("setHeaders")
  const CONTENT_TYPE: Bytes := Ascii("content-type")

  // ---------------------------------------------------------------- one link

  /** The constant pairs of an object literal; everything else in it is passed over. */
  function ConstantPairs(props: seq<Prop>): Fields {
    if props == [] then []
    else match props[0]
      case Assign(Some(key), Text(value)) => [(key, value)] + ConstantPairs(props[1..])
      case _ => ConstantPairs(props[1..])
  }

  function LeadingDigits(s: Bytes): (r: Bytes)
    ensures forall i :: 0 <= i < |r| ==> 48 <= r[i] <= 57
  {
    if s == [] || !(48 <= s[0] <= 57) then [] else [s[0]] + LeadingDigits(s[1..])
  }

  /** JavaScript's parseInt on the text of a numeric literal, which always starts with a digit. */
  function ParseInt(s: Bytes): nat {
    Value(LeadingDigits(s))
  }

  /** A chain call with constant arguments, or none when the compiler refuses it. */
  function LinkOf(name: Bytes, args: seq<Expr>): Option<Link> {
    if name == STATUS then
      if |args| > 0 && args[0].Num? then Some(SetStatus(ParseInt(args[0].digits))) else None
    else if name == HEADER then
      if |args| > 1 && args[0].Text? && args[1].Text? then Some(SetHeaders([Assign(Some(args[0].text), args[1])]))
        else None
    else if name == SET_HEADERS then
      if |args| > 0 && args[0].Object? then Some(SetHeaders(args[0].props)) else None
    else None
  }

  /** The chain under a builder call, outermost link first, as long as every call is one the compiler takes. */
  function LinksOf(cursor: Expr): Option<seq<Link>> {
    match cursor
    case Ident(name) => if name == CTX then Some([]) else None
    case Call(Property(target, name), args) =>
      (match (LinkOf(name, args), LinksOf(target))
       case (Some(link), Some(links)) => Some([link] + links)
       case _ => None)
    case _ => None
  }

  // ---------------------------------------------------------------- what the compiler keeps

  function LastContentType(pairs: Fields): Option<Bytes> {
    if pairs == [] then None
    else
      var rest := LastContentType(pairs[1..]);
      if rest.Some? then rest else if Lower(pairs[0].0) == CONTENT_TYPE then Some(pairs[0].1) else None
  }

  /** Later links of the list overwrite earlier ones: the innermost call wins. */
  function InnermostStatus(links: seq<Link>): Option<nat> {
    if links == [] then None
    else
      var inner := InnermostStatus(links[1..]);
      if inner.Some? then inner else if links[0].SetStatus? then Some(links[0].code) else None
  }

  function InnermostContentType(links: seq<Link>): Option<Bytes> {
    if links == [] then None
    else
      var inner := InnermostContentType(links[1..]);
      if inner.Some? then inner else if links[0].SetHeaders? then LastContentType(ConstantPairs(links[0].props))
        else None
  }

  function Unwrap(e: Expr): Option<Unwrapped> {
    match e
    case Call(Property(target, terminal), args) =>
      (match LinksOf(target)
       case None => None
       case Some(links) => Some(Unwrapped(terminal, args, InnermostStatus(links), InnermostContentType(links))))
    case _ => None
  }

  /** The cursor loop: from the outermost call down to `ctx`, each call overwriting what was found before. */
  method UnwrapCtxChain(e: Expr) returns (r: Option<Unwrapped>)
    ensures r == Unwrap(e)
  {
    if !e.Call? || !e.callee.Property? {
      return None;
    }
    var terminal, args := e.callee.prop, e.args;
    var status: Option<nat>, contentType: Option<Bytes> := None, None;
    var cursor := e.callee.target;
    while cursor.Call?
      invariant Unwrap(e) ==
                match LinksOf(cursor)
                case None => None
                case Some(links) => Some(Unwrapped(terminal, args, OrElse(InnermostStatus(links), status),
                                                   OrElse(InnermostContentType(links), contentType)))
      decreases cursor
    {
      hide LinkOf, LastContentType, ConstantPairs;
      var inner := cursor.callee;
      if !inner.Property? {
        return None;
      }
      var link := LinkOf(inner.prop, cursor.args);
      if link.None? {
        return None;
      }
      ghost var below := LinksOf(inner.target);
      if below.Some? { assert ([link.value] + below.value)[1..] == below.value; }
      match link.value {
        case SetStatus(code) => status := Some(code);
        case SetHeaders(props) => contentType := OrElse(LastContentType(ConstantPairs(props)), contentType);
      }
      cursor := inner.target;
    }
    if !cursor.Ident? || cursor.name != CTX {
      return None;
    }
    r := Some(Unwrapped(terminal, args, status, contentType));
  }

  // ---------------------------------------------------------------- what TypeScript does

  /** The pending status once the links have run, innermost first. */
  function PendingStatus(links: seq<Link>): Option<nat> {
    if links == [] then None
    else if links[0].SetStatus? then Some(links[0].code)
    else PendingStatus(links[1..])
  }

  function CountStatus(links: seq<Link>): nat {
    if links == [] then 0 else (if links[0].SetStatus? then 1 else 0) + CountStatus(links[1..])
  }

  lemma {:induction false} FirstAndLast(links: seq<Link>)
    ensures PendingStatus(links).Some? <==> CountStatus(links) > 0
    ensures InnermostStatus(links).Some? <==> CountStatus(links) > 0
    ensures CountStatus(links) <= 1 ==> PendingStatus(links) == InnermostStatus(links)
  {
    if links != [] { FirstAndLast(links[1..]); }
  }

  datatype Builder = Json | Html | TextBuilder | NotFoundBuilder | NoContent | Redirect

  /** A status argument once evaluated; `Unusable` is one no response can be made with. */
  datatype Given = NotGiven | NullGiven | Code(code: nat) | Unusable

  /**
   What TypeScript makes of the expressions the compiler does not look at: a status argument that is neither a
   plain number nor null nor undefined, and the parts of `setHeaders` without a constant key and text.
   */
  datatype Env = Env(status: (Request, Expr) -> Given, fields: (Request, Prop) -> Fields)

  const UNDEFINED: Bytes := Ascii("undefined")

  function StatusOf(env: Env, req: Request, e: Expr): Given {
    match e
    case Num(digits) => Code(ParseInt(digits))
    case Null => NullGiven
    case Ident(name) => if name == UNDEFINED then NotGiven else env.status(req, e)
    case _ => env.status(req, e)
  }

  /** The value of the argument behind the data. */
  function GivenStatus(env: Env, req: Request, args: seq<Expr>): Given {
    if |args| > 1 then StatusOf(env, req, args[1]) else NotGiven
  }

  /** Status argument of a builder call, where it is a plain number: all the compiler sees of it. */
  function StatusArgument(args: seq<Expr>): Option<nat> {
    if |args| > 1 && args[1].Num? then Some(ParseInt(args[1].digits)) else None
  }

  function OrDefault(s: Option<nat>, n: nat): nat {
    match s case Some(code) => code case None => n
  }

  function DefaultStatus(b: Builder): nat {
    match b
    case NotFoundBuilder => 404
    case NoContent => 204
    case Redirect => 302
    case _ => 200
  }

  predicate TakesStatus(b: Builder) {
    b == Json || b == Html || b == Redirect
  }

  /** The status TypeScript asks for: json and html put their argument first, redirect ignores the chain. */
  function AskedStatus(env: Env, req: Request, b: Builder, links: seq<Link>, args: seq<Expr>): Option<nat> {
    var given := if TakesStatus(b) then GivenStatus(env, req, args) else NotGiven;
    match given
    case Code(code) => Some(code)
    case Unusable => None
    case NullGiven => if b == Redirect then None else Some(OrDefault(PendingStatus(links), 200))
    case NotGiven => Some(if b == Redirect then 302 else OrDefault(PendingStatus(links), DefaultStatus(b)))
  }

  /** Codes a response can be made with (section 5.5 of the Fetch standard). */
  predicate Answerable(code: nat) {
    200 <= code <= 599
  }

  /** The status TypeScript answers with, or none when it throws. */
  function RuntimeStatus(env: Env, req: Request, b: Builder, links: seq<Link>, args: seq<Expr>): Option<nat> {
    match AskedStatus(env, req, b, links, args)
    case Some(code) => if Answerable(code) then Some(code) else None
    case None => None
  }

  /** The status the compiler emits: json and html ignore their status argument, redirect falls back to the chain. */
  function CompiledStatus(b: Builder, links: seq<Link>, args: seq<Expr>): nat {
    match b
    case Redirect => OrDefault(OrElse(StatusArgument(args), InnermostStatus(links)), 302)
    case _ => OrDefault(InnermostStatus(links), DefaultStatus(b))
  }

  /**
   Where both answer with the same status. An argument given to json or html has to be what the chain kept, one
   given to redirect a plain number or what the compiler falls back to; without one, two status calls have to
   agree at the two ends of the chain, and a redirect must not take another status from it.
   */
  predicate StatusKept(env: Env, req: Request, b: Builder, links: seq<Link>, args: seq<Expr>) {
    var given := if TakesStatus(b) then GivenStatus(env, req, args) else NotGiven;
    && Answerable(CompiledStatus(b, links, args))
    && match given
       case Code(code) =>
         (b == Redirect && StatusArgument(args).Some?) || code == OrDefault(InnermostStatus(links), DefaultStatus(b))
       case NotGiven =>
         if b == Redirect then InnermostStatus(links).None? || InnermostStatus(links) == Some(302)
         else PendingStatus(links) == InnermostStatus(links)
       case NullGiven => b != Redirect && PendingStatus(links) == InnermostStatus(links)
       case Unusable => false
  }

  /** For every builder, chain, argument list and request: the compiled status is TypeScript's exactly then. */
  lemma StatusExact(env: Env, req: Request, b: Builder, links: seq<Link>, args: seq<Expr>)
    ensures RuntimeStatus(env, req, b, links, args) == Some(CompiledStatus(b, links, args)) <==>
              StatusKept(env, req, b, links, args)
  {
    hide ParseInt, UNDEFINED;
    FirstAndLast(links);
  }

  /** The code `digits` as a status argument behind the data. */
  function WithStatus(digits: Bytes): seq<Expr> {
    [Object([]), Num(digits)]
  }

  /** Three ways to lose a status: an argument to json, a redirect after a status call, and two status calls. */
  lemma StatusesLost(env: Env, req: Request)
    ensures CompiledStatus(Json, [], WithStatus([50, 48, 49])) == 200
         && RuntimeStatus(env, req, Json, [], WithStatus([50, 48, 49])) == Some(201)
    ensures CompiledStatus(Redirect, [SetStatus(301)], []) == 301
         && RuntimeStatus(env, req, Redirect, [SetStatus(301)], []) == Some(302)
    ensures CompiledStatus(Json, [SetStatus(500), SetStatus(201)], []) == 201
         && RuntimeStatus(env, req, Json, [SetStatus(500), SetStatus(201)], []) == Some(500)
  {
    CodeOf201();
    hide ParseInt;
    assert [SetStatus(500), SetStatus(201)][1..] == [SetStatus(201)] && [SetStatus(201)][1..] == [];
    assert [SetStatus(301)][1..] == [];
  }

  lemma CodeOf201()
    ensures ParseInt([50, 48, 49]) == 201
  {
    var code: Bytes := [50, 48, 49];
    assert code[1..] == [48, 49] && code[1..][1..] == [49] && code[1..][1..][1..] == [];
    assert LeadingDigits([]) == [] && LeadingDigits([49]) == [49] && LeadingDigits([48, 49]) == [48, 49]
      && LeadingDigits(code) == code;
    var two: Bytes := [50];
    var twenty: Bytes := [50, 48];
    assert two[..0] == [] && Value(two) == 2;
    assert twenty[..1] == two && Value(twenty) == 20;
    assert code[..2] == twenty && Value(code) == 201;
  }

  /**
   A status that depends on the request is lost: with `ctx.json({}, e)` the compiled handler answers 200
   whatever `e` is, with `ctx.redirect("/", e)` it answers 302.
   */
  lemma DynamicStatusIsLost(env: Env, req: Request, e: Expr, code: nat)
    requires !e.Num? && StatusOf(env, req, e) == Code(code) && Answerable(code) && code != 200 && code != 302
    ensures CompiledStatus(Json, [], [Object([]), e]) == 200
         && RuntimeStatus(env, req, Json, [], [Object([]), e]) == Some(code)
    ensures CompiledStatus(Redirect, [], [Text([47]), e]) == 302
         && RuntimeStatus(env, req, Redirect, [], [Text([47]), e]) == Some(code)
  {
    hide ParseInt, StatusOf;
  }

  // ---------------------------------------------------------------- the response shape

  const TEXT_PLAIN: Bytes := Ascii("text/plain; charset=utf-8")
  const TEXT_HTML: Bytes := Ascii("text/html; charset=utf-8")
  const APPLICATION_JSON: Bytes := Ascii("application/json")
  const EMPTY_OBJECT: Bytes := [123, 125]
  const NOT_FOUND_TEXT: Bytes := Ascii("Not Found")

  function BuilderNamed(terminal: Bytes): Option<Builder> {
    if terminal == Ascii("json") then Some(Json)
    else if terminal == Ascii("text") then Some(TextBuilder)
    else if terminal == Ascii("html") then Some(Html)
    else if terminal == Ascii("noContent") then Some(NoContent)
    else if terminal == Ascii("notFound") then Some(NotFoundBuilder)
    else if terminal == Ascii("redirect") then Some(Redirect)
    else None
  }

  function Chosen(override: Option<Bytes>, usual: Bytes): Bytes {
    match override case Some(ct) => ct case None => usual
  }

  function JsonShape(args: seq<Expr>, status: nat, ct: Bytes): Option<Shape> {
    if args == [] then Some(Static(status, ct, EMPTY_OBJECT))
    else match RenderJsonLiteral(args[0])
      case Some(text) => Some(Static(status, ct, text))
      case None =>
        match JsonChunks(args[0], true) case None => None case Some(chunks) => Some(Dynamic(status, ct, chunks))
  }

  function TextShape(args: seq<Expr>, status: nat, ct: Bytes): Option<Shape> {
    if args == [] then Some(Static(status, ct, []))
    else match args[0]
      case Text(s) => Some(Static(status, ct, s))
      case Backtick(s) => Some(Static(status, ct, s))
      case Template(head, spans) =>
        (match TemplateChunks(head, spans, Raw)
         case None => None
         case Some(chunks) => Some(Dynamic(status, ct, chunks)))
      case _ => None
  }

  function RedirectShape(args: seq<Expr>, status: nat): Option<Shape> {
    if args == [] then None
    else match args[0]
      case Text(s) => Some(Static(status, REDIRECT + s, []))
      case Backtick(s) => Some(Static(status, REDIRECT + s, []))
      case _ => None
  }

  /** The shape of a return expression with builder `b`. */
  function ShapeOf(b: Builder, args: seq<Expr>, status: nat, override: Option<Bytes>): Option<Shape> {
    match b
    case Json => JsonShape(args, status, Chosen(override, APPLICATION_JSON))
    case TextBuilder => TextShape(args, status, Chosen(override, TEXT_PLAIN))
    case Html => TextShape(args, status, Chosen(override, TEXT_HTML))
    case NoContent => Some(Static(status, Ascii("text/plain"), []))
    case NotFoundBuilder =>
      if args == [] then Some(Static(status, TEXT_PLAIN, NOT_FOUND_TEXT)) else TextShape(args, status, TEXT_PLAIN)
    case Redirect => RedirectShape(args, status)
  }

  /** The shape of a return expression, or none when the compiler leaves it to the fallback server. */
  function ExtractShape(e: Expr): Option<Shape> {
    match e
    case Call(Property(target, terminal), args) =>
      (match (LinksOf(target), BuilderNamed(terminal))
       case (Some(links), Some(b)) => ShapeOf(b, args, CompiledStatus(b, links, args), InnermostContentType(links))
       case _ => None)
    case _ => None
  }

  method ExtractResponseShape(e: Expr) returns (r: Option<Shape>)
    ensures r == ExtractShape(e)
  {
    hide BuilderNamed, RenderJsonLiteral, JsonChunks, TemplateChunks, StatusArgument, LinksOf;
    var chain := UnwrapCtxChain(e);
    if chain.None? {
      return None;
    }
    var u := chain.value;
    var builder := BuilderNamed(u.terminal);
    if builder.None? {
      return None;
    }
    var b := builder.value;
    var status := if b == Redirect then OrDefault(OrElse(StatusArgument(u.args), u.status), 302)
                  else OrDefault(u.status, DefaultStatus(b));
    r := ShapeOf(b, u.args, status, u.contentType);
  }

  // ---------------------------------------------------------------- bodies

  /** The body TypeScript gives a builder's arguments; `JSON.stringify()` of nothing is nothing. */
  function IntendedBody(req: Request, b: Builder, args: seq<Expr>): Option<Bytes> {
    match b
    case NoContent => Some([])
    case Redirect => Some([])
    case Json =>
      if args == [] then Some([])
      else (match Eval(req, args[0]) case None => None case Some(v) => Some(Stringified(v)))
    case _ =>
      if args == [] then Some(if b == NotFoundBuilder then NOT_FOUND_TEXT else [])
      else match args[0]
        case Text(s) => Some(s)
        case Backtick(s) => Some(s)
        case Template(head, spans) => (match SpansValue(req, spans) case None => None case Some(s) => Some(head + s))
        case _ => None
  }

  /** A static body: the whole response is one literal. */
  predicate StaticBody(b: Builder, args: seq<Expr>) {
    args == [] || (if b == Json then RenderJsonLiteral(args[0]).Some? else args[0].Text? || args[0].Backtick?)
  }

  /** A content type of the chain that the emitter takes for the target of a redirect. */
  predicate FakeRedirect(b: Builder, override: Option<Bytes>, args: seq<Expr>) {
    && (b == Json || b == Html || b == TextBuilder) && StaticBody(b, args)
    && override.Some? && IsRedirect(override.value)
  }

  /** json has data, and what it writes of them is what JSON.stringify writes. */
  predicate JsonKept(b: Builder, args: seq<Expr>) {
    b == Json ==> args != [] && Faultless(args[0])
  }

  predicate JsonJudged(req: Request, b: Builder, args: seq<Expr>) {
    b == Json && args != [] ==> Judgeable(req, args[0])
  }

  /**
   Every return expression the compiler takes has an intended body, and the emitted one is that body exactly
   when a json builder has data without a fault. A content type that pretends to be a redirect is set apart.
   */
  lemma BodyExact(req: Request, b: Builder, args: seq<Expr>, status: nat, override: Option<Bytes>)
    requires ShapeOf(b, args, status, override).Some? && JsonJudged(req, b, args)
    requires !FakeRedirect(b, override, args)
    ensures IntendedBody(req, b, args).Some?
    ensures BodyOf(req, ShapeOf(b, args, status, override).value) == IntendedBody(req, b, args).value <==>
            JsonKept(b, args)
  {
    UsualTypes();
    hide RenderJsonLiteral, JsonChunks, TemplateChunks, Ascii, Stringified, Eval, SpansValue, Faultless, Judgeable,
      Exec, IsRedirect, TEXT_PLAIN, TEXT_HTML, APPLICATION_JSON;
    if args != [] {
      match b
      case Json => JsonBodyExact(req, args[0]);
      case Redirect =>
      case NoContent =>
      case _ =>
        match args[0]
        case Template(head, spans) => TextTemplateWritten(req, head, spans);
        case _ =>
    }
  }

  /** `ctx.json()`: the compiled handler answers an empty object, TypeScript nothing. */
  lemma NothingAsJson(req: Request)
    ensures JsonShape([], 200, APPLICATION_JSON) == Some(Static(200, APPLICATION_JSON, EMPTY_OBJECT))
    ensures BodyOf(req, JsonShape([], 200, APPLICATION_JSON).value) == EMPTY_OBJECT
            && IntendedBody(req, Json, []) == Some([])
  {
    UsualTypes();
    hide APPLICATION_JSON, IsRedirect;
  }

  lemma JsonBodyExact(req: Request, e: Expr)
    requires Judgeable(req, e) && (RenderJsonLiteral(e).Some? || JsonChunks(e, true).Some?)
    ensures Eval(req, e).Some? && JsonChunks(e, true).Some?
    ensures RenderJsonLiteral(e).Some? ==> RenderJsonLiteral(e).value == Exec(req, JsonChunks(e, true).value)
    ensures Exec(req, JsonChunks(e, true).value) == Stringified(Eval(req, e).value) <==> Faultless(e)
  {
    hide Stringified, Faultless, Judgeable, Exec, JsonChunks, Eval, RenderJsonLiteral;
    if RenderJsonLiteral(e).Some? {
      LiteralMeans(req, e);
      LiteralIsStructural(req, e);
      ExecLiteral(req, RenderJsonLiteral(e).value);
    }
    ValueWritten(req, e, true);
    StringifyExact(req, e);
  }

  lemma UsualTypes()
    ensures !IsRedirect(TEXT_PLAIN) && !IsRedirect(TEXT_HTML) && !IsRedirect(APPLICATION_JSON)
            && !IsRedirect(Ascii("text/plain"))
  {
    assert REDIRECT[0] == 'r' as int && TEXT_PLAIN[0] == 't' as int && TEXT_HTML[0] == 't' as int;
    assert APPLICATION_JSON[0] == 'a' as int && Ascii("text/plain")[0] == 't' as int;
    StartsDiffer(TEXT_PLAIN);
    StartsDiffer(TEXT_HTML);
    StartsDiffer(APPLICATION_JSON);
    StartsDiffer(Ascii("text/plain"));
  }

  lemma StartsDiffer(ct: Bytes)
    requires ct != [] && ct[0] != REDIRECT[0]
    ensures !IsRedirect(ct)
  {
    if |ct| >= |REDIRECT| { assert ct[..|REDIRECT|][0] == ct[0]; }
  }

  /** What a compiled return expression answers with, against what the same expression means. */
  lemma ReturnExact(env: Env, req: Request, target: Expr, terminal: Bytes, args: seq<Expr>)
    requires ExtractShape(Call(Property(target, terminal), args)).Some?
    ensures LinksOf(target).Some? && BuilderNamed(terminal).Some?
    ensures var b, links := BuilderNamed(terminal).value, LinksOf(target).value;
            var s, override := ExtractShape(Call(Property(target, terminal), args)).value, InnermostContentType(links);
            && (RuntimeStatus(env, req, b, links, args) == Some(s.status) <==> StatusKept(env, req, b, links, args))
            && (!FakeRedirect(b, override, args) && JsonJudged(req, b, args) ==>
                  && IntendedBody(req, b, args).Some?
                  && (BodyOf(req, s) == IntendedBody(req, b, args).value <==> JsonKept(b, args)))
  {
    hide BuilderNamed, LinksOf, Eval, SpansValue, IsRedirect, BodyOf, IntendedBody, RuntimeStatus, StatusKept, JsonKept,
      JsonJudged;
    var b, links := BuilderNamed(terminal).value, LinksOf(target).value;
    var status, override := CompiledStatus(b, links, args), InnermostContentType(links);
    StatusStands(b, args, status, override);
    StatusExact(env, req, b, links, args);
    if !FakeRedirect(b, override, args) && JsonJudged(req, b, args) { BodyExact(req, b, args, status, override); }
  }

  lemma StatusStands(b: Builder, args: seq<Expr>, status: nat, override: Option<Bytes>)
    ensures ShapeOf(b, args, status, override).Some? ==> ShapeOf(b, args, status, override).value.status == status
  {
    hide RenderJsonLiteral, JsonChunks, TemplateChunks, Ascii;
  }
}
