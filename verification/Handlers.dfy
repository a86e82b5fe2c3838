/**
 Handler expressions and the requests they read (packages/aot-transpiler/src/emit/extract.ts,
 rust-core/src/aot/runtime.rs). Text is UTF-8; a missing key reads as the empty string.
 */
module Handlers {
  import opened Bytes

  datatype Request = Request(verb: Bytes, path: Bytes, url: Bytes, ip: Bytes,
                             params: map<Bytes, Bytes>, query: map<Bytes, Bytes>, headers: map<Bytes, Bytes>)

  /** `Backtick` is a template without substitutions, `Other` everything not listed. */
  datatype Expr =
    | Text(text: Bytes)
    | Backtick(text: Bytes)
    | Num(digits: Bytes)
    | True | False | Null
    | Minus(operand: Expr)
    | Object(props: seq<Prop>)
    | Array(elems: seq<Expr>)
    | Template(head: Bytes, spans: seq<Span>)
    | Ident(name: Bytes)
    | Property(target: Expr, prop: Bytes)
    | Element(target: Expr, key: Expr)
    | Call(callee: Expr, args: seq<Expr>)
    | Other

  /** A property assignment under a constant or a computed key; `Unassigned` is a spread, a method or a shorthand. */
  datatype Prop = Assign(key: Option<Bytes>, value: Expr) | Unassigned

  datatype Span = Span(slot: Expr, text: Bytes)

  datatype Field = Method | Path | Url | Ip
  datatype Read = Input(field: Field) | Param(name: Bytes) | Query(name: Bytes) | Header(name: Bytes)

  const CTX: Bytes := Ascii("ctx")
  const METHOD: Bytes := Ascii("method")
  const PATH: Bytes := Ascii("path")
  const URL: Bytes := Ascii("url")
  const IP: Bytes := Ascii("ip")
  const PARAMS: Bytes := Ascii("params")
  const QUERY: Bytes := Ascii("query")
  const HEADERS: Bytes := Ascii("headers")

  function LowerByte(b: Byte): Byte {
    if 65 <= b <= 90 then b + 32 else b
  }

  function Lower(s: Bytes): Bytes {
    seq(|s|, i requires 0 <= i < |s| => LowerByte(s[i]))
  }

  // ---------------------------------------------------------------- what the generated code reads

  function Lookup(m: map<Bytes, Bytes>, key: Bytes): Bytes {
    if key in m then m[key] else []
  }

  function ReadFrom(req: Request, r: Read): Bytes {
    match r
    case Input(Method) => req.verb
    case Input(Path) => req.path
    case Input(Url) => req.url
    case Input(Ip) => req.ip
    case Param(name) => Lookup(req.params, name)
    case Query(name) => Lookup(req.query, name)
    case Header(name) => Lookup(req.headers, name)
  }

  function FieldNamed(name: Bytes): Option<Field> {
    if name == METHOD then Some(Method) else if name == PATH then Some(Path)
    else if name == URL then Some(Url) else if name == IP then Some(Ip) else None
  }

  function Collected(collection: Bytes, name: Bytes): Option<Read> {
    if collection == PARAMS then Some(Param(name))
    else if collection == QUERY then Some(Query(name))
    else if collection == HEADERS then Some(Header(Lower(name)))
    else None
  }

  /** Recognises the accesses that the generated code can perform. */
  function MatchCtxRead(e: Expr): Option<Read> {
    match e
    case Property(Ident(root), name) =>
      if root == CTX && FieldNamed(name).Some? then Some(Input(FieldNamed(name).value)) else None
    case Property(Property(Ident(root), collection), name) =>
      if root == CTX then Collected(collection, name) else None
    case Element(Property(Ident(root), collection), key) =>
      if root == CTX && (key.Text? || key.Backtick?) then Collected(collection, key.text) else None
    case _ => None
  }

  // ---------------------------------------------------------------- what the expression means

  datatype Collection = Params | QueryKeys | HeaderNames

  /** The value of an access path, one step at a time. */
  datatype Reached = Ctx | Keyed(of: Collection) | String(text: Bytes) | Nothing

  /** One step into a value; header names are case-insensitive. */
  function Step(req: Request, from: Reached, name: Bytes): Reached {
    match from
    case Ctx =>
      if name == METHOD then String(req.verb) else if name == PATH then String(req.path)
      else if name == URL then String(req.url) else if name == IP then String(req.ip)
      else if name == PARAMS then Keyed(Params) else if name == QUERY then Keyed(QueryKeys)
      else if name == HEADERS then Keyed(HeaderNames) else Nothing
    case Keyed(Params) => String(Lookup(req.params, name))
    case Keyed(QueryKeys) => String(Lookup(req.query, name))
    case Keyed(HeaderNames) => String(Lookup(req.headers, Lower(name)))
    case _ => Nothing
  }

  /** What an expression reaches; an element key is a literal, or a string that is itself reached. */
  function Access(req: Request, e: Expr): Reached {
    match e
    case Ident(name) => if name == CTX then Ctx else Nothing
    case Property(target, name) => Step(req, Access(req, target), name)
    case Element(target, key) =>
      if key.Text? || key.Backtick? then Step(req, Access(req, target), key.text)
      else (match Access(req, key) case String(name) => Step(req, Access(req, target), name) case _ => Nothing)
    case _ => Nothing
  }

  /** How the compiler wants an access written: fields of `ctx` by dot, the keys of a collection as literals. */
  predicate Spelled(e: Expr) {
    match e
    case Property(target, _) => Spelled(target)
    case Element(target, key) => !target.Ident? && Spelled(target) && (key.Text? || key.Backtick?)
    case _ => true
  }

  /** The string of an access the compiler takes. */
  function Fetched(req: Request, e: Expr): Option<Bytes> {
    match Access(req, e) case String(s) => if Spelled(e) then Some(s) else None case _ => None
  }

  lemma NamesDiffer()
    ensures METHOD != PARAMS && METHOD != QUERY && METHOD != HEADERS
    ensures PATH != PARAMS && PATH != QUERY && PATH != HEADERS
    ensures URL != PARAMS && URL != QUERY && URL != HEADERS
    ensures IP != PARAMS && IP != QUERY && IP != HEADERS
  {
    assert METHOD[0] == 109 && PARAMS[1] == 97 && PARAMS[2] == 114 && PATH[2] == 116;
    assert |URL| == 3 && |IP| == 2 && |QUERY| == 5 && |PARAMS| == 6 && |HEADERS| == 7 && |PATH| == 4 && |METHOD| == 6;
    assert PARAMS[0] == 112;
  }

  /** Only the parameter itself is the context, and only its three fields are collections. */
  lemma TargetMeans(req: Request, target: Expr)
    requires Spelled(target)
    ensures Access(req, target) == Ctx <==> target == Ident(CTX)
    ensures Access(req, target).Keyed? <==>
              target.Property? && target.target == Ident(CTX) && Collected(target.prop, []).Some?
    ensures Access(req, target).Keyed? ==>
              forall name ::
                && Collected(target.prop, name).Some?
                && Step(req, Access(req, target), name) == String(ReadFrom(req, Collected(target.prop, name).value))
  {
    hide Ascii, Lower, Lookup, METHOD, PATH, URL, IP, PARAMS, QUERY, HEADERS, CTX;
    NamesDiffer();
  }

  lemma RecognisedIsSpelled(e: Expr)
    ensures MatchCtxRead(e).Some? ==> Spelled(e)
  {
    if MatchCtxRead(e).Some? && !e.target.Ident? {
      assert e.target.Property? && Spelled(e.target.target) && Spelled(e.target);
    }
  }

  /** An access is recognised exactly when it reaches a string and is spelled so, and what is read is that string. */
  lemma ReadIsAccess(req: Request, e: Expr)
    ensures MatchCtxRead(e).Some? <==> Access(req, e).String? && Spelled(e)
    ensures Fetched(req, e) ==
              match MatchCtxRead(e) case Some(r) => Some(ReadFrom(req, r)) case None => None
  {
    hide Ascii, Lower, Lookup, METHOD, PATH, URL, IP, PARAMS, QUERY, HEADERS, CTX;
    NamesDiffer();
    RecognisedIsSpelled(e);
    if (e.Property? || e.Element?) && Spelled(e) {
      TargetMeans(req, e.target);
    }
  }

  /** The accesses by name: the four texts of `ctx`. */
  lemma FieldsByName(req: Request)
    ensures var ctx := Ident(Ascii("ctx"));
            && Fetched(req, Property(ctx, Ascii("method"))) == Some(req.verb)
            && Fetched(req, Property(ctx, Ascii("path"))) == Some(req.path)
            && Fetched(req, Property(ctx, Ascii("url"))) == Some(req.url)
            && Fetched(req, Property(ctx, Ascii("ip"))) == Some(req.ip)
  {
    FieldsDiffer();
    hide Ascii, Lookup, Lower, METHOD, PATH, URL, IP, PARAMS, QUERY, HEADERS, CTX;
    var ctx := Ident(Ascii("ctx"));
    assert Access(req, ctx) == Ctx && Spelled(ctx);
  }

  /** The keys of its collections, header names in any case of their letters. */
  lemma KeysByName(req: Request, name: Bytes)
    ensures var ctx := Ident(Ascii("ctx"));
            && Fetched(req, Property(Property(ctx, Ascii("params")), name)) == Some(Lookup(req.params, name))
            && Fetched(req, Element(Property(ctx, Ascii("query")), Text(name))) == Some(Lookup(req.query, name))
            && Fetched(req, Element(Property(ctx, Ascii("headers")), Text(name)))
               == Some(Lookup(req.headers, Lower(name)))
  {
    FieldsDiffer();
    NamesDiffer();
    hide Ascii, Lookup, Lower, METHOD, PATH, URL, IP, PARAMS, QUERY, HEADERS, CTX;
    var ctx := Ident(Ascii("ctx"));
    assert Access(req, ctx) == Ctx && Spelled(ctx);
    var params, query, headers := Property(ctx, PARAMS), Property(ctx, QUERY), Property(ctx, HEADERS);
    assert Access(req, params) == Keyed(Params) && Access(req, query) == Keyed(QueryKeys);
    assert Access(req, headers) == Keyed(HeaderNames);
    assert Spelled(params) && Spelled(query) && Spelled(headers);
    assert Spelled(Property(params, name)) && Access(req, Property(params, name)) == String(Lookup(req.params, name));
    assert Spelled(Element(query, Text(name)));
    assert Spelled(Element(headers, Text(name)));
  }

  lemma FieldsDiffer()
    ensures Ascii("ctx") == CTX && Ascii("method") == METHOD && Ascii("path") == PATH && Ascii("url") == URL
    ensures Ascii("ip") == IP && Ascii("params") == PARAMS && Ascii("query") == QUERY && Ascii("headers") == HEADERS
    ensures METHOD != PATH && METHOD != URL && METHOD != IP && PATH != URL && PATH != IP && URL != IP
    ensures PARAMS != QUERY && PARAMS != HEADERS && QUERY != HEADERS
  {
    assert |METHOD| == 6 && |PATH| == 4 && |URL| == 3 && |IP| == 2 && |PARAMS| == 6 && |QUERY| == 5 && |HEADERS| == 7;
  }

  /** `ctx["path"]` reaches a string, and is not recognised. */
  lemma ElementOfCtx(req: Request)
    ensures var e := Element(Ident(CTX), Text(PATH)); Access(req, e) == String(req.path) && MatchCtxRead(e) == None
  {
    assert METHOD[0] == 109 && PATH[0] == 112;
    assert Access(req, Ident(CTX)) == Ctx;
  }
}
