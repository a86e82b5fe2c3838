/**
 A whole handler (packages/aot-transpiler/src/index.ts): its generated function, literals and all, against
 what TypeScript answers.
 */
module Compiler {
  import opened Bytes
  import opened Wire
  import opened Escaping
  import opened Handlers
  import opened Guards
  import opened Flatten
  import opened Literals
  import opened JsonLowering
  import opened Emission
  import opened Chains
  import opened Reading
  import opened Runtime

  /** Return expressions by the name of their return statement. */
  type Returns = map<nat, Expr>

  /** A line of the generated function with the code of its response. */
  datatype FnLine = IfCode(guard: seq<Token>, code: seq<Code>) | Always(code: seq<Code>)

  function ShapeFor(exprs: Returns, id: nat): Option<Shape> {
    if id in exprs then ExtractShape(exprs[id]) else None
  }

  const DEFAULT_CODE: seq<Code> := [OutBytes(RustEscape(Head(DEFAULT_LINES)))]

  /** The code of a line; under a guard it is indented further. */
  function Expand(exprs: Returns, line: Line): FnLine {
    match line
    case InternalError => Always(DEFAULT_CODE)
    case Body(id) => Always(match ShapeFor(exprs, id) case Some(s) => EmitCode(s) case None => [])
    case IfReturn(guard, id) =>
      IfCode(guard, match ShapeFor(exprs, id) case Some(s) => IndentAll(EmitCode(s)) case None => [])
  }

  function ExpandAll(exprs: Returns, lines: seq<Line>): seq<FnLine> {
    seq(|lines|, i requires 0 <= i < |lines| => Expand(exprs, lines[i]))
  }

  /** Every line's return expression has a shape. */
  predicate AllShaped(exprs: Returns, lines: seq<Line>) {
    forall i :: 0 <= i < |lines| && !lines[i].InternalError? ==> ShapeFor(exprs, lines[i].id).Some?
  }

  /** The generated function; none when the compiler leaves the handler to the fallback server. */
  function Compile(body: seq<Stmt>, exprs: Returns): Option<seq<FnLine>> {
    if Emits(body) && AllShaped(exprs, Generated(body)) then Some(ExpandAll(exprs, Generated(body))) else None
  }

  /**
   Flattens the body, extracts the shape of each emitted return, and emits its code, indented further under a
   guard; a return without a shape leaves the whole handler to the fallback server.
   */
  method TranspileHandler(body: seq<Stmt>, exprs: Returns) returns (fn: Option<seq<FnLine>>)
    ensures fn == Compile(body, exprs)
  {
    hide Generated, ExtractShape, EmitCode, IndentAll, RustEscape, DEFAULT_LINES;
    var flat := TranspileBody(body);
    if flat.None? {
      return None;
    }
    var lines, out := flat.value, [];
    var i := 0;
    while i < |lines|
      invariant 0 <= i <= |lines|
      invariant AllShaped(exprs, lines[..i]) && out == ExpandAll(exprs, lines[..i])
    {
      assert lines[..i + 1] == lines[..i] + [lines[i]];
      if lines[i].InternalError? {
        var literal := EscapeRustByteString(Head(DEFAULT_LINES));
        out := out + [Always([OutBytes(literal)])];
      } else {
        var id := lines[i].id;
        if id !in exprs {
          assert !AllShaped(exprs, lines);
          return None;
        }
        var shape := ExtractResponseShape(exprs[id]);
        if shape.None? {
          assert !AllShaped(exprs, lines);
          return None;
        }
        var code := EmitResponseBody(shape.value);
        out := out + [if lines[i].IfReturn? then IfCode(lines[i].guard, IndentAll(code)) else Always(code)];
      }
      assert out == ExpandAll(exprs, lines[..i]) + [Expand(exprs, lines[i])];
      i := i + 1;
    }
    assert lines[..i] == lines;
    fn := Some(out);
  }

  // ---------------------------------------------------------------- running the generated function

  predicate LineCompiles(line: FnLine) {
    match line
    case IfCode(guard, code) => Parse(guard).Some? && IsBool(Parse(guard).value) && Legal(code)
    case Always(code) => Legal(code)
  }

  predicate FnCompiles(fn: seq<FnLine>) {
    forall i :: 0 <= i < |fn| ==> LineCompiles(fn[i])
  }

  /** The bytes some code writes into an empty buffer. */
  function Output(req: Request, code: seq<Code>): Bytes
    requires Legal(code)
  {
    LegalRuns(req, code, Buffers([], []));
    RunCode(req, code, Buffers([], [])).value.out
  }

  /** The bytes the generated function writes for a request. */
  function RunFn(req: Request, fn: seq<FnLine>): Bytes
    requires FnCompiles(fn)
  {
    if fn == [] then []
    else
      assert LineCompiles(fn[0]);
      match fn[0]
      case Always(code) => Output(req, code)
      case IfCode(guard, code) => if IsTrue(req, Parse(guard).value) then Output(req, code) else RunFn(req, fn[1..])
  }

  /** No key in the code of a line holds a lone carriage return. */
  predicate LineLegible(exprs: Returns, line: Line) {
    !line.InternalError? && ShapeFor(exprs, line.id).Some? ==> KeysLegible(ShapeFor(exprs, line.id).value)
  }

  predicate AllLegible(exprs: Returns, lines: seq<Line>) {
    forall i :: 0 <= i < |lines| ==> LineLegible(exprs, lines[i])
  }

  /** Every key in the code of a line is looked up as it stands. */
  predicate LineKept(exprs: Returns, line: Line) {
    !line.InternalError? && ShapeFor(exprs, line.id).Some? ==> KeysKept(ShapeFor(exprs, line.id).value, line.IfReturn?)
  }

  predicate AllKept(exprs: Returns, lines: seq<Line>) {
    forall i :: 0 <= i < |lines| ==> LineKept(exprs, lines[i])
  }

  lemma LineCompilesExactly(exprs: Returns, line: Line)
    requires !line.InternalError? ==> ShapeFor(exprs, line.id).Some?
    ensures LineCompiles(Expand(exprs, line)) <==>
              LineLegible(exprs, line) && (line.IfReturn? ==>
                Parse(line.guard).Some? && IsBool(Parse(line.guard).value))
  {
    hide Legal, EmitCode, KeysLegible, Parse, IsBool, IndentAll, ShapeFor, RustEscape, DEFAULT_LINES;
    match line
    case InternalError => StaticStays(Head(DEFAULT_LINES));
    case Body(id) => CodeLegalExactly(ShapeFor(exprs, id).value, false);
    case IfReturn(_, id) => CodeLegalExactly(ShapeFor(exprs, id).value, true);
  }

  /** Lines compile exactly when their control flow does and no key holds a lone carriage return. */
  lemma LinesCompile(exprs: Returns, lines: seq<Line>)
    requires AllShaped(exprs, lines)
    ensures FnCompiles(ExpandAll(exprs, lines)) <==> Compiles(lines) && AllLegible(exprs, lines)
  {
    hide LineCompiles, Expand, LineLegible, Parse, IsBool, ShapeFor;
    var fn := ExpandAll(exprs, lines);
    forall i | 0 <= i < |lines|
      ensures LineCompiles(fn[i]) <==>
                LineLegible(exprs, lines[i]) && (lines[i].IfReturn? ==>
                  Parse(lines[i].guard).Some? && IsBool(Parse(lines[i].guard).value))
    {
      LineCompilesExactly(exprs, lines[i]);
    }
    if FnCompiles(fn) {
      forall i | 0 <= i < |lines| ensures LineLegible(exprs, lines[i]) { assert LineCompiles(fn[i]); }
      forall i | 0 <= i < |lines| && lines[i].IfReturn? ensures Parse(lines[i].guard).Some?
        && IsBool(Parse(lines[i].guard).value) {
        assert LineCompiles(fn[i]);
      }
    }
  }

  /** The response of a line: that of its return's shape, its keys as Rust reads them. */
  function LineResponse(req: Request, exprs: Returns, line: Line): Bytes {
    match line
    case InternalError => Head(DEFAULT_LINES)
    case _ =>
      match ShapeFor(exprs, line.id) case Some(s) => Response(req, RereadShape(s, line.IfReturn?)) case None => []
  }

  lemma LineWrites(req: Request, exprs: Returns, line: Line)
    requires !line.InternalError? ==> ShapeFor(exprs, line.id).Some?
    requires LineLegible(exprs, line)
    ensures Legal(Expand(exprs, line).code) && Output(req, Expand(exprs, line).code) == LineResponse(req, exprs, line)
  {
    hide EmitCode, KeysLegible, IndentAll, ShapeFor, RustEscape, DEFAULT_LINES, Response, RereadShape, Legal, Head,
      RunCode;
    match line
    case InternalError =>
      StaticStays(Head(DEFAULT_LINES));
      DefaultWrites(req);
    case Body(id) =>
      CodeLegalExactly(ShapeFor(exprs, id).value, false);
      CodeWrites(req, ShapeFor(exprs, id).value, false, []);
    case IfReturn(_, id) =>
      CodeLegalExactly(ShapeFor(exprs, id).value, true);
      CodeWrites(req, ShapeFor(exprs, id).value, true, []);
  }

  lemma DefaultWrites(req: Request)
    ensures RunCode(req, DEFAULT_CODE, Buffers([], [])) == Some(Buffers(Head(DEFAULT_LINES), []))
  {
    hide RustEscape, BytesOf, DEFAULT_LINES;
    LiteralRuns(Head(DEFAULT_LINES));
    assert DEFAULT_CODE[1..] == [] && [] + Head(DEFAULT_LINES) == Head(DEFAULT_LINES);
    assert RunCode(req, DEFAULT_CODE[1..], Buffers(Head(DEFAULT_LINES), [])) == Some(Buffers(Head(DEFAULT_LINES), []));
  }

  /** The line a run of the generated control flow stops at. */
  function Stop(req: Request, lines: seq<Line>): Line
    requires Compiles(lines)
  {
    if lines == [] then InternalError
    else if lines[0].IfReturn? && !IsTrue(req, Parse(lines[0].guard).value) then Stop(req, lines[1..])
    else lines[0]
  }

  /** The generated function writes the response of the line its control flow stops at. */
  lemma {:induction false} FnWrites(req: Request, exprs: Returns, lines: seq<Line>)
    requires lines != [] && !lines[|lines| - 1].IfReturn?
    requires AllShaped(exprs, lines) && Compiles(lines) && AllLegible(exprs, lines)
    ensures FnCompiles(ExpandAll(exprs, lines))
    ensures Stop(req, lines) in lines
    ensures RunFn(req, ExpandAll(exprs, lines)) == LineResponse(req, exprs, Stop(req, lines))
    ensures RunLines(req, lines) ==
              match Stop(req, lines) case InternalError => Default500 case other => Responds(other.id)
  {
    hide Legal, Output, LineResponse, ShapeFor, LineLegible, Parse, IsTrue, IsBool, EmitCode, IndentAll, DEFAULT_CODE;
    LinesCompile(exprs, lines);
    var fn := ExpandAll(exprs, lines);
    assert LineLegible(exprs, lines[0]) && LineCompiles(fn[0]);
    LineWrites(req, exprs, lines[0]);
    if lines[0].IfReturn? && !IsTrue(req, Parse(lines[0].guard).value) {
      var rest := lines[1..];
      CompilesCons(lines);
      assert AllShaped(exprs, rest) && AllLegible(exprs, rest);
      FnWrites(req, exprs, rest);
      assert fn[1..] == ExpandAll(exprs, rest);
      assert rest[|rest| - 1] == lines[|lines| - 1];
    }
  }

  // ---------------------------------------------------------------- the generated lines

  /** Only its last line is unconditional. */
  lemma {:induction false} EmitBodyEnds(branches: seq<Branch>)
    ensures EmitBody(branches) != [] && !EmitBody(branches)[|EmitBody(branches)| - 1].IfReturn?
  {
    if branches != [] && branches[0].guard.Some? {
      EmitBodyEnds(branches[1..]);
    }
  }

  /**
   The generated function of a handler compiles exactly when every condition above an emitted return compares
   comparable operands, and neither they nor the keys of emitted returns hold a lone carriage return.
   */
  lemma HandlerCompilesExactly(body: seq<Stmt>, exprs: Returns)
    requires Compile(body, exprs).Some?
    ensures FnCompiles(Compile(body, exprs).value) <==> GuardsFit(false, body) && AllLegible(exprs, Generated(body))
  {
    hide Generated, Compiles, GuardsFit, AllLegible, FnCompiles;
    CompilesExactly(body);
    LinesCompile(exprs, Generated(body));
  }

  /** Headers of every emitted return fit on a line. */
  predicate HeadersFitLines(exprs: Returns, lines: seq<Line>) {
    forall i :: 0 <= i < |lines| && !lines[i].InternalError? && ShapeFor(exprs, lines[i].id).Some?
      ==> HeaderText(ShapeFor(exprs, lines[i].id).value)
  }

  /**
   If it compiles, the generated function writes exactly one response for every request: what the worker
   assumes of its handlers holds of compiled ones.
   */
  lemma CompiledReplyIsFramed(req: Request, body: seq<Stmt>, exprs: Returns)
    requires Compile(body, exprs).Some? && FnCompiles(Compile(body, exprs).value)
    requires HeadersFitLines(exprs, Generated(body))
    ensures WellFramed(RunFn(req, Compile(body, exprs).value)) && RunFn(req, Compile(body, exprs).value) != []
  {
    hide Generated, Compiles, GuardsFit, AllLegible, FnCompiles, WellFramed, Response, DEFAULT_LINES, RunFn, Stop,
      ShapeFor, RereadShape, HeaderText;
    var lines := Generated(body);
    GeneratedEnds(body);
    LinesCompile(exprs, lines);
    FnWrites(req, exprs, lines);
    match Stop(req, lines)
    case InternalError =>
      DefaultIsFramed();
      FramedIsNotEmpty(Head(DEFAULT_LINES));
    case line =>
      var s := ShapeFor(exprs, line.id).value;
      RereadHeaders(s, line.IfReturn?);
      ResponseIsFramed(req, RereadShape(s, line.IfReturn?));
      FramedIsNotEmpty(Response(req, RereadShape(s, line.IfReturn?)));
  }

  lemma GeneratedEnds(body: seq<Stmt>)
    ensures Generated(body) != [] && !Generated(body)[|Generated(body)| - 1].IfReturn?
  {
    hide EmitBody, WalkStatements, PrintBlocks;
    WalkPrints(body, None);
    EmitBodyEnds(PrintBlocks(WalkStatements(body, None)));
  }

  lemma RereadHeaders(s: Shape, guarded: bool)
    ensures HeaderText(RereadShape(s, guarded)) <==> HeaderText(s)
  {
  }

  lemma FramedIsNotEmpty(b: Bytes)
    requires WellFramed(b)
    ensures b != []
  {
  }

  // ---------------------------------------------------------------- against TypeScript

  /** Builder, chain and arguments of a return expression. */
  predicate IsReturn(e: Expr) {
    e.Call? && e.callee.Property? && LinksOf(e.callee.target).Some? && BuilderNamed(e.callee.prop).Some?
  }

  function ReplyOf(env: Env, req: Request, e: Expr): Option<Reply> {
    if !IsReturn(e) then None
    else RuntimeReply(env, req, BuilderNamed(e.callee.prop).value, LinksOf(e.callee.target).value, e.args)
  }

  predicate ReturnKept(env: Env, req: Request, e: Expr) {
    IsReturn(e) && Kept(env, req, BuilderNamed(e.callee.prop).value, LinksOf(e.callee.target).value, e.args)
  }

  /** What TypeScript answers: the return the source runs to, or the default response at its end. */
  function TypeScriptReply(env: Env, req: Request, body: seq<Stmt>, exprs: Returns): Option<Reply> {
    match SourceOutcome(req, body)
    case Default500 => Some(DEFAULT_REPLY)
    case Responds(id) => if id in exprs then ReplyOf(env, req, exprs[id]) else None
  }

  predicate AllJudged(req: Request, exprs: Returns) {
    forall id :: id in exprs && IsReturn(exprs[id]) ==>
      JsonJudged(req, BuilderNamed(exprs[id].callee.prop).value, exprs[id].args)
  }

  /** What TypeScript answers from a skipped statement is no reply of the compiled handler. */
  ghost predicate RepliesApart(env: Env, req: Request, body: seq<Stmt>, exprs: Returns) {
    forall h :: Hidden(body, h) && h in exprs ==>
      && ReplyOf(env, req, exprs[h]) != Some(DEFAULT_REPLY)
      && forall id :: Emitted(body, id) && ShapeFor(exprs, id).Some? ==>
           ReplyOf(env, req, exprs[h]) != ReadReply(Response(req, ShapeFor(exprs, id).value))
  }

  lemma ShapedReply(env: Env, req: Request, e: Expr)
    requires ExtractShape(e).Some? && HeaderText(ExtractShape(e).value)
    requires IsReturn(e) ==> JsonJudged(req, BuilderNamed(e.callee.prop).value, e.args)
    ensures IsReturn(e)
    ensures ReadReply(Response(req, ExtractShape(e).value)) == ReplyOf(env, req, e) <==> ReturnKept(env, req, e)
  {
    hide BuilderNamed, LinksOf, RuntimeReply, Kept, ReadReply, Response, HeaderText, ShapeOf, JsonJudged;
    ReplyExact(env, req, e.callee.target, e.callee.prop, e.args);
  }

  lemma ShapeIsSeen(req: Request, s: Shape)
    requires HeaderText(s)
    ensures ReadReply(Response(req, s)).Some?
  {
    hide ReadReply, Response, HeaderText;
    ResponseSeen(req, s);
  }

  /**
   For every handler, every request and whatever the expressions the compiler does not look at are: a client of
   the generated function sees what TypeScript answers exactly when the source does not return from inside a
   skipped statement and the return it runs to is kept: its status, its headers and its body.
   */
  lemma CompiledReplyExact(env: Env, req: Request, body: seq<Stmt>, exprs: Returns)
    requires Compile(body, exprs).Some? && GuardsFit(true, body) && AllKept(exprs, Generated(body))
    requires HeadersFitLines(exprs, Generated(body)) && AllJudged(req, exprs)
    requires NamesApart(body) && RepliesApart(env, req, body, exprs)
    ensures FnCompiles(Compile(body, exprs).value)
    ensures ReadReply(RunFn(req, Compile(body, exprs).value)) == TypeScriptReply(env, req, body, exprs) <==>
              && !Escapes(req, body)
              && (SourceOutcome(req, body).Responds? ==>
                    && SourceOutcome(req, body).id in exprs
                    && ReturnKept(env, req, exprs[SourceOutcome(req, body).id]))
  {
    hide Generated, Compiles, GuardsFit, FnCompiles, RunFn, RunLines, Stop, ShapeFor, Response, ReadReply, HeaderText,
      ReplyOf, ReturnKept, Emitted, Hidden, Escapes, DEFAULT_LINES, IsReturn, JsonJudged;
    SeenReply(req, body, exprs);
    FlattenExact(req, body);
    OutcomesAreNamed(req, body);
    var source, target := SourceOutcome(req, body), TargetOutcome(req, body);
    if target.Responds? { ShapeIsSeen(req, ShapeFor(exprs, target.id).value); }
    if !Escapes(req, body) && source.Responds? {
      ShapeIsExtracted(exprs, source.id);
      ShapedReply(env, req, exprs[source.id]);
    }
  }

  lemma ShapeIsExtracted(exprs: Returns, id: nat)
    requires ShapeFor(exprs, id).Some?
    ensures id in exprs && ExtractShape(exprs[id]) == ShapeFor(exprs, id)
  {
  }

  /**
   What a client sees of any handler that compiles: the reply of the return its control flow stops at,
   conditions and keys as Rust reads them.
   */
  lemma HandlerSeen(req: Request, body: seq<Stmt>, exprs: Returns)
    requires Compile(body, exprs).Some? && FnCompiles(Compile(body, exprs).value)
    requires HeadersFitLines(exprs, Generated(body))
    ensures Compiles(Generated(body)) && Stop(req, Generated(body)) in Generated(body)
    ensures ReadReply(RunFn(req, Compile(body, exprs).value)) ==
              match Stop(req, Generated(body))
              case InternalError => Some(DEFAULT_REPLY)
              case line =>
                var s := RereadShape(ShapeFor(exprs, line.id).value, line.IfReturn?);
                Some(Reply(s.status, ShapeHeaders(s), BodyOf(req, s)))
  {
    hide Generated, Compiles, FnCompiles, AllLegible, RunFn, Stop, ShapeFor, Response, ReadReply, HeaderText,
      DEFAULT_LINES, RereadShape, RunLines, ShapeHeaders, BodyOf;
    var lines := Generated(body);
    GeneratedEnds(body);
    LinesCompile(exprs, lines);
    FnWrites(req, exprs, lines);
    match Stop(req, lines)
    case InternalError => DefaultSeen();
    case line =>
      var s := ShapeFor(exprs, line.id).value;
      RereadHeaders(s, line.IfReturn?);
      ResponseSeen(req, RereadShape(s, line.IfReturn?));
  }

  /** The same where keys are looked up as they stand, by the return the generated function answers with. */
  lemma SeenReply(req: Request, body: seq<Stmt>, exprs: Returns)
    requires Compile(body, exprs).Some? && GuardsFit(true, body) && AllKept(exprs, Generated(body))
    requires HeadersFitLines(exprs, Generated(body))
    ensures FnCompiles(Compile(body, exprs).value) && Compiles(Generated(body))
    ensures ReadReply(RunFn(req, Compile(body, exprs).value)) ==
              match TargetOutcome(req, body)
              case Default500 => Some(DEFAULT_REPLY)
              case Responds(id) =>
                if ShapeFor(exprs, id).Some? then ReadReply(Response(req, ShapeFor(exprs, id).value)) else None
    ensures TargetOutcome(req, body).Responds? ==>
              var id := TargetOutcome(req, body).id;
              ShapeFor(exprs, id).Some? && HeaderText(ShapeFor(exprs, id).value)
  {
    hide Generated, Compiles, GuardsFit, FnCompiles, RunFn, Stop, ShapeFor, Response, ReadReply, HeaderText,
      DEFAULT_LINES, RereadShape, KeysKept, KeysLegible, RunLines, ShapeHeaders, BodyOf;
    var lines := Generated(body);
    GeneratedEnds(body);
    TargetWalks(req, body);
    forall i | 0 <= i < |lines| ensures LineLegible(exprs, lines[i]) {
      assert LineKept(exprs, lines[i]);
      if !lines[i].InternalError? && ShapeFor(exprs, lines[i].id).Some? {
        KeptIsReread(ShapeFor(exprs, lines[i].id).value, lines[i].IfReturn?);
      }
    }
    FnWrites(req, exprs, lines);
    HandlerSeen(req, body, exprs);
    match Stop(req, lines)
    case InternalError =>
    case line =>
      assert LineKept(exprs, line);
      KeptIsReread(ShapeFor(exprs, line.id).value, line.IfReturn?);
      ResponseSeen(req, ShapeFor(exprs, line.id).value);
  }

  /** Both outcomes name returns of the body. */
  lemma OutcomesAreNamed(req: Request, body: seq<Stmt>)
    requires GuardsFit(true, body)
    ensures Compiles(Generated(body))
    ensures TargetOutcome(req, body).Responds? ==> Emitted(body, TargetOutcome(req, body).id)
    ensures Escapes(req, body) ==> SourceOutcome(req, body).Responds? && Hidden(body, SourceOutcome(req, body).id)
  {
    hide Compiles, Generated, TargetOutcome, GuardsFit;
    TargetWalks(req, body);
    WalkedIsEmitted(req, body);
    if Escapes(req, body) { EscapeIsHidden(req, body); }
  }
}
