/**
 The Rust statements emitted for one response (packages/aot-transpiler/src/emit/rust.ts), and the bytes they
 write when the generated function runs.
 */
module Emission {
  import opened Bytes
  import opened Decimal
  import opened Wire
  import opened Replies
  import opened Escaping
  import opened Handlers
  import opened Literals
  import opened JsonLowering

  datatype Shape =
    | Static(status: nat, contentType: Bytes, body: Bytes)
    | Dynamic(status: nat, contentType: Bytes, chunks: seq<Chunk>)

  /** Literals are kept as the text between the quotes, so that reading them back is part of running the code. */
  datatype Code =
    | BodyBytes(literal: Bytes)                     // body.extend_from_slice(b"...")
    | BodySlot(getter: Getter, format: Format)      // raw, write_json_string or write_url_encoded into body
    | OutBytes(literal: Bytes)                      // out.extend_from_slice(b"...")
    | OutBodyLength                                 // write_decimal(out, body.len())
    | OutBody                                       // out.extend_from_slice(&body)

  function StatusText(code: nat): Bytes {
    Ascii(match code
      case 100 => "Continue"
      case 101 => "Switching Protocols"
      case 200 => "OK"
      case 201 => "Created"
      case 202 => "Accepted"
      case 204 => "No Content"
      case 301 => "Moved Permanently"
      case 302 => "Found"
      case 303 => "See Other"
      case 304 => "Not Modified"
      case 307 => "Temporary Redirect"
      case 308 => "Permanent Redirect"
      case 400 => "Bad Request"
      case 401 => "Unauthorized"
      case 403 => "Forbidden"
      case 404 => "Not Found"
      case 405 => "Method Not Allowed"
      case 409 => "Conflict"
      case 422 => "Unprocessable Entity"
      case 500 => "Internal Server Error"
      case 502 => "Bad Gateway"
      case 503 => "Service Unavailable"
      case _ =>
        if 300 <= code < 400 then "Redirection" else if 400 <= code < 500 then "Client Error"
        else if 500 <= code < 600 then "Server Error" else "OK")
  }

  const REDIRECT: Bytes := Ascii("redirect:")

  function StatusLine(status: nat): Bytes {
    Ascii("HTTP/1.1 ") + Digits(status) + Ascii(" ") + StatusText(status)
  }

  // ---------------------------------------------------------------- what is meant

  predicate IsRedirect(contentType: Bytes) {
    StartsWith(contentType, REDIRECT)
  }

  /** The header lines of a response whose body has `length` bytes. */
  function Lines(s: Shape, length: nat): seq<Bytes> {
    match s
    case Static(status, contentType, _) =>
      if IsRedirect(contentType)
      then [StatusLine(status), Ascii("Location: ") + contentType[|REDIRECT|..], CONTENT_LENGTH + Digits(0), KEEP_ALIVE]
      else [StatusLine(status), Ascii("Content-Type: ") + contentType, CONTENT_LENGTH + Digits(length), KEEP_ALIVE]
    case Dynamic(status, contentType, _) =>
      [StatusLine(status), Ascii("Content-Type: ") + contentType, KEEP_ALIVE, CONTENT_LENGTH + Digits(length)]
  }

  function BodyOf(req: Request, s: Shape): Bytes {
    match s
    case Static(_, contentType, body) => if IsRedirect(contentType) then [] else body
    case Dynamic(_, _, chunks) => Exec(req, chunks)
  }

  /** The response one shape stands for. */
  function Response(req: Request, s: Shape): Bytes {
    Head(Lines(s, |BodyOf(req, s)|)) + BodyOf(req, s)
  }

  // ---------------------------------------------------------------- emission

  function EmitChunk(c: Chunk): Code {
    match c
    case Literal(bytes) => BodyBytes(RustEscape(bytes))
    case Slot(r, format) => BodySlot(GetterOf(r), format)
  }

  function EmitChunks(chunks: seq<Chunk>): seq<Code> {
    seq(|chunks|, i requires 0 <= i < |chunks| => EmitChunk(chunks[i]))
  }

  /** The statements for one response; a static one is a single literal. */
  function EmitCode(s: Shape): seq<Code> {
    match s
    case Static(status, contentType, body) =>
      var kept := if IsRedirect(contentType) then [] else body;
      [OutBytes(RustEscape(Head(Lines(s, |kept|)) + kept))]
    case Dynamic(status, contentType, chunks) =>
      EmitChunks(chunks) + Tail(status, contentType)
  }

  /** The code behind the chunks of a dynamic response. */
  function Tail(status: nat, contentType: Bytes): seq<Code> {
    [OutBytes(RustEscape(DynamicPrefix(status, contentType))), OutBodyLength, OutBytes(RustEscape(CRLF + CRLF)),
      OutBody]
  }

  /** Status line and headers up to where the length of a dynamic body goes. */
  function DynamicPrefix(status: nat, contentType: Bytes): Bytes {
    StatusLine(status) + CRLF + Ascii("Content-Type: ") + contentType + CRLF + KEEP_ALIVE + CRLF + CONTENT_LENGTH
  }

  method EmitStatic(status: nat, contentType: Bytes, body: Bytes) returns (code: seq<Code>)
    ensures code == EmitCode(Static(status, contentType, body))
  {
    var head;
    if IsRedirect(contentType) {
      head := StatusLine(status) + CRLF + Ascii("Location: ") + contentType[|REDIRECT|..] + CRLF
        + CONTENT_LENGTH + Ascii("0") + CRLF + KEEP_ALIVE + CRLF + CRLF;
      RedirectHead(status, contentType);
      var literal := EscapeRustByteString(head);
      assert head + [] == head;
      return [OutBytes(literal)];
    }
    head := RenderResponseHead(status, contentType, |body|);
    HeadOfFour(StatusLine(status), Ascii("Content-Type: ") + contentType, CONTENT_LENGTH + Digits(|body|), KEEP_ALIVE);
    var literal := EscapeRustByteString(head + body);
    code := [OutBytes(literal)];
  }

  function RenderResponseHead(status: nat, contentType: Bytes, length: nat): Bytes {
    StatusLine(status) + CRLF + (Ascii("Content-Type: ") + contentType) + CRLF
      + (CONTENT_LENGTH + Digits(length)) + CRLF + KEEP_ALIVE + CRLF + CRLF
  }

  lemma HeadOfFour(a: Bytes, b: Bytes, c: Bytes, d: Bytes)
    ensures Head([a, b, c, d]) == a + CRLF + b + CRLF + c + CRLF + d + CRLF + CRLF
  {
    assert Head([d]) == d + CRLF + Head([]);
    assert Head([c, d]) == c + CRLF + Head([d]);
    assert Head([b, c, d]) == b + CRLF + Head([c, d]);
    assert Head([a, b, c, d]) == a + CRLF + Head([b, c, d]);
  }

  lemma RedirectHead(status: nat, contentType: Bytes)
    requires IsRedirect(contentType)
    ensures Head(Lines(Static(status, contentType, []), 0)) ==
              StatusLine(status) + CRLF + Ascii("Location: ") + contentType[|REDIRECT|..] + CRLF
                + CONTENT_LENGTH + Ascii("0") + CRLF + KEEP_ALIVE + CRLF + CRLF
  {
    assert Ascii("0") == Digits(0);
    hide Ascii, Digits, StatusLine, StatusText, Head;
    HeadOfFour(StatusLine(status), Ascii("Location: ") + contentType[|REDIRECT|..], CONTENT_LENGTH + Digits(0),
      KEEP_ALIVE);
  }

  method EmitDynamic(status: nat, contentType: Bytes, chunks: seq<Chunk>) returns (code: seq<Code>)
    ensures code == EmitCode(Dynamic(status, contentType, chunks))
  {
    code := [];
    var i := 0;
    while i < |chunks|
      invariant 0 <= i <= |chunks|
      invariant code == EmitChunks(chunks[..i])
    {
      assert EmitChunks(chunks[..i + 1]) == EmitChunks(chunks[..i]) + [EmitChunk(chunks[i])];
      code := code + [EmitChunk(chunks[i])];
      i := i + 1;
    }
    assert chunks[..i] == chunks;
    var prefix := EscapeRustByteString(DynamicPrefix(status, contentType));
    var blank := EscapeRustByteString(CRLF + CRLF);
    code := code + [OutBytes(prefix), OutBodyLength, OutBytes(blank), OutBody];
  }

  // ---------------------------------------------------------------- running the emitted code

  datatype Buffers = Buffers(out: Bytes, body: Bytes)

  function BytesOf(literal: Bytes): Option<Bytes> {
    match ReadRustBytes(literal + [QUOTE]) case Some((b, rest)) => if rest == [] then Some(b)
      else None case None => None
  }

  function Fetch(req: Request, g: Getter): Option<Bytes> {
    match ReadBack(g) case None => None case Some(r) => Some(ReadFrom(req, r))
  }

  /** One statement; none when a literal in it is not legal Rust. */
  function RunOne(req: Request, c: Code, s: Buffers): Option<Buffers> {
    match c
    case BodyBytes(literal) =>
      (match BytesOf(literal) case None => None case Some(b) => Some(s.(body := s.body + b)))
    case BodySlot(getter, format) =>
      (match Fetch(req, getter) case None => None case Some(v) => Some(s.(body := s.body + Formatted(format, v))))
    case OutBytes(literal) =>
      (match BytesOf(literal) case None => None case Some(b) => Some(s.(out := s.out + b)))
    case OutBodyLength => Some(s.(out := s.out + Digits(|s.body|)))
    case OutBody => Some(s.(out := s.out + s.body))
  }

  function RunCode(req: Request, code: seq<Code>, s: Buffers): Option<Buffers> {
    if code == [] then Some(s)
    else match RunOne(req, code[0], s) case None => None case Some(next) => RunCode(req, code[1..], next)
  }

  lemma LiteralRuns(bytes: Bytes)
    ensures BytesOf(RustEscape(bytes)) == Some(bytes)
  {
    RustLiteralRoundTrip(bytes, []);
    assert RustEscape(bytes) + [QUOTE] + [] == RustEscape(bytes) + [QUOTE];
  }

  /** Every literal of the code is legal Rust. */
  predicate LegalCode(c: Code) {
    match c
    case BodyBytes(literal) => BytesOf(literal).Some?
    case BodySlot(getter, _) => ReadBack(getter).Some?
    case OutBytes(literal) => BytesOf(literal).Some?
    case _ => true
  }

  predicate Legal(code: seq<Code>) {
    forall i :: 0 <= i < |code| ==> LegalCode(code[i])
  }

  /** Legal code runs for every request. */
  lemma {:induction false} LegalRuns(req: Request, code: seq<Code>, s: Buffers)
    requires Legal(code)
    ensures RunCode(req, code, s).Some?
  {
    if code != [] {
      assert LegalCode(code[0]);
      LegalRuns(req, code[1..], RunOne(req, code[0], s).value);
    }
  }

  /** The code under a guard: every line moves in by four spaces, inside literals too. */
  function Indent(c: Code): Code {
    match c
    case BodyBytes(literal) => BodyBytes(Reindent([], literal))
    case BodySlot(KeyOf(of, literal), format) => BodySlot(KeyOf(of, Reindent([], literal)), format)
    case OutBytes(literal) => OutBytes(Reindent([], literal))
    case _ => c
  }

  function IndentAll(code: seq<Code>): seq<Code> {
    seq(|code|, i requires 0 <= i < |code| => Indent(code[i]))
  }

  function Placed(code: seq<Code>, guarded: bool): seq<Code> {
    if guarded then IndentAll(code) else code
  }

  /** A read with its key as Rust reads it. */
  function RereadKey(r: Read, guarded: bool): Read {
    match r
    case Input(_) => r
    case Param(name) => Param(AsRead(name, guarded))
    case Query(name) => Query(AsRead(name, guarded))
    case Header(name) => Header(AsRead(name, guarded))
  }

  function RereadChunk(c: Chunk, guarded: bool): Chunk {
    match c case Literal(_) => c case Slot(r, format) => Slot(RereadKey(r, guarded), format)
  }

  function RereadChunks(chunks: seq<Chunk>, guarded: bool): seq<Chunk> {
    seq(|chunks|, i requires 0 <= i < |chunks| => RereadChunk(chunks[i], guarded))
  }

  /** The shape with its keys as Rust reads them. */
  function RereadShape(s: Shape, guarded: bool): Shape {
    match s
    case Static(_, _, _) => s
    case Dynamic(status, contentType, chunks) => Dynamic(status, contentType, RereadChunks(chunks, guarded))
  }

  /** The chunk's key has no lone carriage return. */
  predicate KeyLegible(c: Chunk) {
    c.Slot? && !c.read.Input? ==> NoLoneCr(c.read.name)
  }

  predicate ChunksLegible(chunks: seq<Chunk>) {
    forall i :: 0 <= i < |chunks| ==> KeyLegible(chunks[i])
  }

  predicate KeysLegible(s: Shape) {
    s.Dynamic? ==> ChunksLegible(s.chunks)
  }

  /** The chunk's key is looked up as it stands. */
  predicate ChunkKept(c: Chunk, guarded: bool) {
    c.Slot? && !c.read.Input? ==> KeyKept(c.read.name, guarded)
  }

  predicate KeysKept(s: Shape, guarded: bool) {
    s.Dynamic? ==> forall i :: 0 <= i < |s.chunks| ==> ChunkKept(s.chunks[i], guarded)
  }

  lemma ByteLiteralRuns(bytes: Bytes, guarded: bool)
    ensures BytesOf(if guarded then Reindent([], RustEscape(bytes)) else RustEscape(bytes)) == Some(bytes)
  {
    LiteralRuns(bytes);
    ByteLiteralStays(bytes);
  }

  /** What one emitted chunk, placed under a guard or not, reads back as. */
  lemma ChunkReads(c: Chunk, guarded: bool)
    ensures var code := if guarded then Indent(EmitChunk(c)) else EmitChunk(c);
            && (LegalCode(code) <==> KeyLegible(c))
            && (KeyLegible(c) ==>
                  forall req, s :: RunOne(req, code, s)
                    == Some(s.(body := s.body + Written(req, RereadChunk(c, guarded)))))
  {
    hide EscapeQuotes, Reindent, RustEscape, AsRead, NoLoneCr, TextOf;
    match c
    case Literal(bytes) => ByteLiteralRuns(bytes, guarded);
    case Slot(r, _) =>
      if !r.Input? { KeyReads(r.name, guarded); }
  }

  lemma KeptIsReread(s: Shape, guarded: bool)
    requires KeysKept(s, guarded)
    ensures KeysLegible(s) && RereadShape(s, guarded) == s
  {
    if s.Dynamic? {
      forall i | 0 <= i < |s.chunks| ensures KeyLegible(s.chunks[i])
        && RereadChunk(s.chunks[i], guarded) == s.chunks[i] {
        var c := s.chunks[i];
        assert ChunkKept(c, guarded);
        if c.Slot? && !c.read.Input? {
          KeyReads(c.read.name, guarded);
          KeyKeptExactly(c.read.name, guarded);
        }
      }
      assert RereadChunks(s.chunks, guarded) == s.chunks;
    }
  }

  lemma {:induction false} ChunksRun(req: Request, chunks: seq<Chunk>, guarded: bool, more: seq<Code>, s: Buffers)
    requires ChunksLegible(chunks)
    ensures RunCode(req, Placed(EmitChunks(chunks), guarded) + more, s)
         == RunCode(req, more, s.(body := s.body + Exec(req, RereadChunks(chunks, guarded))))
  {
    hide Written, KeyLegible, RunOne, EmitChunk, Indent, RereadChunk;
    var code := Placed(EmitChunks(chunks), guarded) + more;
    var read := RereadChunks(chunks, guarded);
    if chunks == [] {
      assert code == more && s.body + [] == s.body && read == [];
    } else {
      var next := s.(body := s.body + Written(req, RereadChunk(chunks[0], guarded)));
      ChunkReads(chunks[0], guarded);
      ChunksRun(req, chunks[1..], guarded, more, next);
      assert code[1..] == Placed(EmitChunks(chunks[1..]), guarded) + more;
      assert read[1..] == RereadChunks(chunks[1..], guarded);
      assert next.body + Exec(req, read[1..]) == s.body + Exec(req, read);
    }
  }

  lemma RunFour(req: Request, a: Bytes, b: Bytes, s: Buffers)
    ensures RunCode(req, [OutBytes(RustEscape(a)), OutBodyLength, OutBytes(RustEscape(b)), OutBody], s)
         == Some(s.(out := s.out + a + Digits(|s.body|) + b + s.body))
  {
    LiteralRuns(a);
    LiteralRuns(b);
    hide RustEscape, Digits, BytesOf;
    var code := [OutBytes(RustEscape(a)), OutBodyLength, OutBytes(RustEscape(b)), OutBody];
    var s1 := s.(out := s.out + a);
    var s2 := s1.(out := s1.out + Digits(|s.body|));
    var s3 := s2.(out := s2.out + b);
    var s4 := s3.(out := s3.out + s.body);
    assert RunCode(req, [], s4) == Some(s4);
    assert RunCode(req, code[3..], s3) == Some(s4) by { assert code[3..][1..] == []; }
    assert RunCode(req, code[2..], s2) == Some(s4) by { assert code[2..][1..] == code[3..]; }
    assert RunCode(req, code[1..], s1) == Some(s4) by { assert code[1..][1..] == code[2..]; }
  }

  method EmitResponseBody(s: Shape) returns (code: seq<Code>)
    ensures code == EmitCode(s)
  {
    match s {
      case Static(status, contentType, body) => code := EmitStatic(status, contentType, body);
      case Dynamic(status, contentType, chunks) => code := EmitDynamic(status, contentType, chunks);
    }
  }

  /** The code writes the response of the shape for this request behind anything written before. */
  predicate Writes(code: seq<Code>, req: Request, s: Shape, before: Bytes) {
    var after := RunCode(req, code, Buffers(before, []));
    after.Some? && after.value.out == before + Response(req, s)
  }

  lemma TailStays(status: nat, contentType: Bytes)
    ensures IndentAll(Tail(status, contentType)) == Tail(status, contentType) && Legal(Tail(status, contentType))
  {
    hide RustEscape, Reindent, DynamicPrefix, BytesOf;
    ByteLiteralStays(DynamicPrefix(status, contentType));
    ByteLiteralStays(CRLF + CRLF);
    LiteralRuns(DynamicPrefix(status, contentType));
    LiteralRuns(CRLF + CRLF);
  }

  /** The code of a shape compiles exactly when no key holds a lone carriage return. */
  lemma CodeLegalExactly(s: Shape, guarded: bool)
    ensures Legal(Placed(EmitCode(s), guarded)) <==> KeysLegible(s)
  {
    hide RustEscape, Reindent, KeyLegible, LegalCode, EmitChunk, Tail, Indent, Head, Lines;
    match s
    case Static(status, contentType, body) =>
      var kept := if IsRedirect(contentType) then [] else body;
      StaticStays(Head(Lines(s, |kept|)) + kept);
    case Dynamic(status, contentType, chunks) =>
      var code, all := Placed(EmitChunks(chunks), guarded), Placed(EmitCode(s), guarded);
      TailStays(status, contentType);
      TailIs(s);
      assert all == code + Tail(status, contentType);
      forall i | 0 <= i < |chunks| ensures LegalCode(code[i]) <==> KeyLegible(chunks[i]) {
        ChunkReads(chunks[i], guarded);
      }
      if Legal(all) {
        forall i | 0 <= i < |chunks| ensures KeyLegible(chunks[i]) { assert all[i] == code[i] && LegalCode(all[i]); }
      }
  }

  lemma TailIs(s: Shape)
    requires s.Dynamic?
    ensures EmitCode(s) == EmitChunks(s.chunks) + Tail(s.status, s.contentType)
  {
  }

  lemma StaticStays(bytes: Bytes)
    ensures IndentAll([OutBytes(RustEscape(bytes))]) == [OutBytes(RustEscape(bytes))]
            && Legal([OutBytes(RustEscape(bytes))])
  {
    hide RustEscape, Reindent, BytesOf;
    ByteLiteralStays(bytes);
    LiteralRuns(bytes);
  }

  /**
   Whatever is emitted for a shape writes the response of that shape, its keys as Rust reads them, for every
   request.
   */
  lemma CodeWrites(req: Request, s: Shape, guarded: bool, before: Bytes)
    requires KeysLegible(s)
    ensures Writes(Placed(EmitCode(s), guarded), req, RereadShape(s, guarded), before)
  {
    hide Response, RustEscape, Head, Lines, Placed, RunCode, Tail, EmitChunks, RereadChunks;
    match s
    case Static(status, contentType, body) =>
      StaticWrites(req, s, guarded, before);
    case Dynamic(status, contentType, chunks) =>
      DynamicRuns(req, status, contentType, chunks, guarded, before);
  }

  lemma StaticWrites(req: Request, s: Shape, guarded: bool, before: Bytes)
    requires s.Static?
    ensures Writes(Placed(EmitCode(s), guarded), req, s, before)
  {
    hide RustEscape, BytesOf, Head, Lines, Reindent;
    StaticStays(Response(req, s));
    LiteralRuns(Response(req, s));
    var code := [OutBytes(RustEscape(Response(req, s)))];
    assert EmitCode(s) == code;
    var done := Buffers(before + Response(req, s), []);
    assert code[1..] == [];
    assert RunCode(req, code[1..], done) == Some(done);
  }

  lemma DynamicRuns(req: Request, status: nat, contentType: Bytes, chunks: seq<Chunk>, guarded: bool, before: Bytes)
    requires ChunksLegible(chunks)
    ensures Writes(Placed(EmitCode(Dynamic(status, contentType, chunks)), guarded), req,
                   Dynamic(status, contentType, RereadChunks(chunks, guarded)), before)
  {
    hide RustEscape, RunCode, EmitChunks, Exec, Ascii, Digits, StatusLine, StatusText, Head, Response, DynamicPrefix,
      RereadChunks, ChunksLegible, Indent;
    var read := RereadChunks(chunks, guarded);
    var body := Exec(req, read);
    var prefix, length := DynamicPrefix(status, contentType), Digits(|body|);
    TailStays(status, contentType);
    TailIs(Dynamic(status, contentType, chunks));
    assert Placed(EmitCode(Dynamic(status, contentType, chunks)), guarded)
      == Placed(EmitChunks(chunks), guarded) + Tail(status, contentType);
    ChunksRun(req, chunks, guarded, Tail(status, contentType), Buffers(before, []));
    assert [] + body == body;
    RunFour(req, prefix, CRLF + CRLF, Buffers(before, body));
    DynamicResponse(req, status, contentType, read);
    assert before + prefix + length + (CRLF + CRLF) + body == before + (prefix + length + (CRLF + CRLF) + body);
  }

  /** A key with an indented line in it, and what it is looked up as under a guard. */
  lemma IndentedKey(req: Request)
    ensures var key, read: Bytes := [LF] + FOUR, [LF] + (FOUR + FOUR);
            var s := Dynamic(200, [], [Slot(Query(key), Raw)]);
            && KeysLegible(s) && !KeysKept(s, true) && |read| != |key|
            && BodyOf(req, s) == Lookup(req.query, key) && BodyOf(req, RereadShape(s, true)) == Lookup(req.query, read)
  {
    var key, read: Bytes := [LF] + FOUR, [LF] + (FOUR + FOUR);
    var s := Dynamic(200, [], [Slot(Query(key), Raw)]);
    NoCrNoLone(key);
    assert key[1..] == FOUR && FOUR[4..] == [] && [] + [LF] == [LF];
    assert Reindent([LF], FOUR) == FOUR + FOUR + Reindent([LF] + FOUR, FOUR[4..]) && Reindent([LF] + FOUR, []) == [];
    assert Reindent([], key) == read;
    ReindentGrows([], key);
    assert Indented([], key) && !ChunkKept(s.chunks[0], true);
    assert CR !in read;
    NoCrNoLone(read);
    CrlfShortens(read);
    ExecOne(req, Slot(Query(key), Raw));
    ExecOne(req, Slot(Query(read), Raw));
    assert RereadChunks(s.chunks, true) == [Slot(Query(read), Raw)];
  }

  /** A changed key is lost where a request has it, and makes no difference where it does not. */
  lemma IndentedKeyIsLost(req: Request)
    ensures var key: Bytes := [LF] + FOUR;
            var s := Dynamic(200, [], [Slot(Query(key), Raw)]);
            && KeysLegible(s) && !KeysKept(s, true)
            && (req.query == map[key := [65]] ==> BodyOf(req, s) == [65] && BodyOf(req, RereadShape(s, true)) == [])
            && (req.query == map[] ==> BodyOf(req, s) == BodyOf(req, RereadShape(s, true)))
  {
    IndentedKey(req);
    hide BodyOf, RereadShape, KeysLegible, KeysKept, FOUR;
  }

  /** A key with a carriage return in it: the generated code does not compile. */
  lemma CarriageReturnKeyBreaks()
    ensures !Legal(EmitCode(Dynamic(200, [], [Slot(Query([CR]), Raw)])))
  {
    var s := Dynamic(200, [], [Slot(Query([CR]), Raw)]);
    assert !KeyLegible(s.chunks[0]);
    CodeLegalExactly(s, false);
    hide Legal, EmitCode;
  }

  lemma DynamicResponse(req: Request, status: nat, contentType: Bytes, chunks: seq<Chunk>)
    ensures var body := Exec(req, chunks);
            Response(req, Dynamic(status, contentType, chunks))
              == DynamicPrefix(status, contentType) + Digits(|body|) + (CRLF + CRLF) + body
  {
    hide Exec, Ascii, Digits, StatusLine, StatusText, Head;
    HeadOfFour(StatusLine(status), Ascii("Content-Type: ") + contentType, KEEP_ALIVE,
      CONTENT_LENGTH + Digits(|Exec(req, chunks)|));
  }

  // ---------------------------------------------------------------- framing

  /** Content types and locations that may stand in a header line. */
  predicate HeaderText(s: Shape) {
    CR !in s.contentType && LF !in s.contentType
  }

  lemma LinesAreText(s: Shape, length: nat)
    requires HeaderText(s)
    ensures AllLines(Lines(s, length))
  {
    hide StatusLine, Ascii, Digits, StatusText;
    StatusLineIsText(s.status);
    RestIsText(s, length);
  }

  lemma StatusLineIsText(status: nat)
    ensures LineText(StatusLine(status))
  {
    hide Digits, StatusText;
    DigitsAreText(status);
    StatusIsText(status);
    LiteralText("HTTP/1.1 ");
    LiteralText(" ");
    JoinText(Ascii("HTTP/1.1 "), Digits(status));
    JoinText(Ascii("HTTP/1.1 ") + Digits(status), Ascii(" "));
    JoinText(Ascii("HTTP/1.1 ") + Digits(status) + Ascii(" "), StatusText(status));
  }

  lemma RestIsText(s: Shape, length: nat)
    requires HeaderText(s)
    ensures forall i :: 1 <= i < 4 ==> LineText(Lines(s, length)[i])
  {
    hide Digits, StatusText, StatusLine;
    DigitsAreText(length);
    DigitsAreText(0);
    LiteralText("Location: ");
    LiteralText("Content-Type: ");
    LiteralText("Content-Length: ");
    LiteralText("Connection: keep-alive");
    hide Ascii;
    JoinText(Ascii("Content-Type: "), s.contentType);
    JoinText(CONTENT_LENGTH, Digits(length));
    JoinText(CONTENT_LENGTH, Digits(0));
    if s.Static? && IsRedirect(s.contentType) {
      var location := s.contentType[|REDIRECT|..];
      JoinText(Ascii("Location: "), location);
    }
  }

  lemma StatusIsText(code: nat)
    ensures CR !in StatusText(code) && LF !in StatusText(code)
  {
  }

  /** The first Content-Length line of every emitted head counts the body. */
  lemma ResponseIsFramed(req: Request, s: Shape)
    requires HeaderText(s)
    ensures WellFramed(Response(req, s))
  {
    var body := BodyOf(req, s);
    var l := Lines(s, |body|);
    var k := if s.Static? then 2 else 3;
    LinesAreText(s, |body|);
    LengthLine(s, |body|);
    assert s.Static? && IsRedirect(s.contentType) ==> |body| == 0;
    hide *;
    MessageIsFramed(l, k, body);
  }

  /** No compiled response announces a close. */
  lemma ResponseStaysOpen(req: Request, s: Shape)
    requires HeaderText(s)
    ensures !SaysClose(Response(req, s))
  {
    var body := BodyOf(req, s);
    var l := Lines(s, |body|);
    LinesAreText(s, |body|);
    NoCloseLine(s, |body|);
    hide *;
    MessageSaysClose(l, body);
  }

  lemma NoCloseLine(s: Shape, length: nat)
    ensures |Lines(s, length)| == 4 && CONNECTION_CLOSE !in Lines(s, length)
  {
    hide Digits, StatusText;
    var l := Lines(s, length);
    assert CONNECTION_CLOSE[0] == 'C' as int && CONNECTION_CLOSE[3] == 'n' as int && CONNECTION_CLOSE[12] == 'c' as int;
    Differs(l[0], CONNECTION_CLOSE, 0);
    Differs(CONTENT_LENGTH + Digits(length), CONNECTION_CLOSE, 3);
    Differs(CONTENT_LENGTH + Digits(0), CONNECTION_CLOSE, 3);
    Differs(KEEP_ALIVE, CONNECTION_CLOSE, 12);
    if s.Static? && IsRedirect(s.contentType) {
      Differs(l[1], CONNECTION_CLOSE, 0);
    } else {
      Differs(l[1], CONNECTION_CLOSE, 3);
    }
  }

  /** A client takes the concatenated responses of compiled handlers apart again, whatever was asked. */
  lemma ClientTakesApart(reqs: seq<Request>, shapes: seq<Shape>)
    requires |reqs| == |shapes| && forall i :: 0 <= i < |shapes| ==> HeaderText(shapes[i])
    ensures var replies := seq(|shapes|, i requires 0 <= i < |shapes| => Response(reqs[i], shapes[i]));
            Responses(Concat(replies)) == replies
  {
    hide Response, WellFramed;
    var replies := seq(|shapes|, i requires 0 <= i < |shapes| => Response(reqs[i], shapes[i]));
    forall i | 0 <= i < |shapes| ensures WellFramed(replies[i]) { ResponseIsFramed(reqs[i], shapes[i]); }
    ClientRecovers(replies);
  }

  lemma LengthLine(s: Shape, length: nat)
    requires s.Static? && IsRedirect(s.contentType) ==> length == 0
    ensures var l, k := Lines(s, length), if s.Static? then 2 else 3;
            && |l| == 4 && l[k] == CONTENT_LENGTH + Digits(length)
            && forall j :: 0 <= j < k ==> !StartsWith(l[j], CONTENT_LENGTH)
  {
    hide Digits, StatusText;
    var l := Lines(s, length);
    assert l[0][0] == 'H' as int && CONTENT_LENGTH[0] == 'C' as int && CONTENT_LENGTH[8] == 'L' as int
      && CONTENT_LENGTH[3] == 't' as int;
    NotPrefix(l[0], CONTENT_LENGTH, 0);
    if s.Static? && IsRedirect(s.contentType) {
      assert l[1][0] == 'L' as int;
      NotPrefix(l[1], CONTENT_LENGTH, 0);
    } else {
      assert l[1][8] == 'T' as int;
      NotPrefix(l[1], CONTENT_LENGTH, 8);
    }
    if s.Dynamic? {
      assert KEEP_ALIVE[3] == 'n' as int;
      NotPrefix(l[2], CONTENT_LENGTH, 3);
    }
  }

  /** The default response of a function that falls through. */
  const DEFAULT_LINES: seq<Bytes> :=
    [StatusLine(500), CONTENT_LENGTH + Ascii("0"), CONNECTION_CLOSE]

  lemma DefaultIsText()
    ensures AllLines(DEFAULT_LINES)
  {
    hide Ascii, StatusLine;
    StatusLineIsText(500);
    LiteralText("Content-Length: ");
    LiteralText("0");
    LiteralText("Connection: close");
    JoinText(CONTENT_LENGTH, Ascii("0"));
  }

  /** It announces a close, which the worker does not perform for a handler's reply. */
  lemma DefaultSaysClose()
    ensures SaysClose(Head(DEFAULT_LINES))
  {
    var l := DEFAULT_LINES;
    DefaultIsText();
    assert l[2] == CONNECTION_CLOSE && Head(l) + [] == Head(l);
    hide *;
    MessageSaysClose(l, []);
  }

  lemma DefaultIsFramed()
    ensures WellFramed(Head(DEFAULT_LINES))
  {
    var l := DEFAULT_LINES;
    assert Ascii("0") == Digits(0);
    DefaultIsText();
    assert l[0][0] == 'H' as int && CONTENT_LENGTH[0] == 'C' as int;
    NotPrefix(l[0], CONTENT_LENGTH, 0);
    assert Head(l) + [] == Head(l);
    hide *;
    MessageIsFramed(l, 1, []);
  }
}
