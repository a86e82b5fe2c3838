/**
 Flattening a handler's nested if/else/return body to first-match guarded blocks, and emitting them
 (packages/aot-transpiler/src/index.ts).
 */
module Flatten {
  import opened Bytes
  import opened Escaping
  import opened Handlers
  import opened Guards

  /** `id` names a return statement; `Unknown` is every statement the compiler does not look into. */
  datatype Stmt =
    | Return(id: nat)
    | If(cond: Cond, thn: Stmt, els: Option<Stmt>)
    | Block(body: seq<Stmt>)
    | Unknown(run: Request -> Option<nat>)

  datatype Guarded = Guarded(guard: Option<Rust>, id: nat)

  // ---------------------------------------------------------------- the source

  /** The return statement a run ends at, if it ends at one. */
  function Run(req: Request, s: Stmt): Option<nat>
    decreases s
  {
    match s
    case Return(id) => Some(id)
    case If(c, t, e) =>
      if Holds(req, c) then Run(req, t) else (match e case None => None case Some(other) => Run(req, other))
    case Block(body) => RunAll(req, body)
    case Unknown(run) => run(req)
  }

  function RunAll(req: Request, stmts: seq<Stmt>): Option<nat>
    decreases stmts
  {
    if stmts == [] then None
    else match Run(req, stmts[0]) case Some(id) => Some(id) case None => RunAll(req, stmts[1..])
  }

  // ---------------------------------------------------------------- flattening

  function Conjoin(guard: Option<Rust>, cond: Rust): Rust {
    match guard case None => cond case Some(g) => And(g, cond)
  }

  function WalkStatements(stmts: seq<Stmt>, guard: Option<Rust>): seq<Guarded>
    decreases stmts
  {
    if stmts == [] then []
    else match stmts[0]
      case Return(id) => [Guarded(guard, id)]
      case If(c, t, e) =>
        assert t < stmts[0];
        (if RenderCondition(c).None? then []
         else
           WalkBranch(t, Conjoin(guard, Translate(c))) +
           (match e
            case None => []
            case Some(other) => assert other < stmts[0]; WalkBranch(other, Conjoin(guard, Not(Translate(c))))))
        + WalkStatements(stmts[1..], guard)
      case _ => WalkStatements(stmts[1..], guard)
  }

  function WalkBranch(s: Stmt, guard: Rust): seq<Guarded>
    decreases s
  {
    match s
    case Block(body) => WalkStatements(body, Some(guard))
    case Return(id) => [Guarded(Some(guard), id)]
    case If(c, t, e) =>
      if RenderCondition(c).None? then []
      else
        WalkBranch(t, And(guard, Translate(c))) +
        (match e case None => [] case Some(other) => WalkBranch(other, And(guard, Not(Translate(c)))))
    case Unknown(_) => []
  }

  // ---------------------------------------------------------------- emission

  datatype Line = IfReturn(guard: seq<Token>, id: nat) | Body(id: nat) | InternalError

  datatype Answered = Responds(id: nat) | Default500

  /** A block with its guard as text, the form the compiler keeps it in. */
  datatype Branch = Branch(guard: Option<seq<Token>>, id: nat)

  predicate Printable(g: Option<Rust>) {
    g.Some? ==> Printed(g.value)
  }

  function PrintGuard(g: Option<Rust>): Option<seq<Token>>
    requires Printable(g)
  {
    match g case None => None case Some(r) => Some(Print(r))
  }

  predicate AllPrinted(blocks: seq<Guarded>) {
    forall i :: 0 <= i < |blocks| ==> Printable(blocks[i].guard)
  }

  function PrintBlocks(blocks: seq<Guarded>): seq<Branch>
    requires AllPrinted(blocks)
  {
    seq(|blocks|, i requires 0 <= i < |blocks| => Branch(PrintGuard(blocks[i].guard), blocks[i].id))
  }

  /** The body of the generated function; behind an unguarded block nothing is emitted. */
  function EmitBody(branches: seq<Branch>): seq<Line> {
    if branches == [] then [InternalError]
    else match branches[0].guard
      case None => [Body(branches[0].id)]
      case Some(g) => [IfReturn(g, branches[0].id)] + EmitBody(branches[1..])
  }

  /** The control flow of the generated function compiles: every guard is an expression of type bool. */
  predicate Compiles(lines: seq<Line>) {
    forall i :: 0 <= i < |lines| && lines[i].IfReturn? ==>
      Parse(lines[i].guard).Some? && IsBool(Parse(lines[i].guard).value)
  }

  /** Running the generated function. */
  function RunLines(req: Request, lines: seq<Line>): Answered
    requires Compiles(lines)
  {
    if lines == [] then Default500
    else match lines[0]
      case Body(id) => Responds(id)
      case InternalError => Default500
      case IfReturn(guard, id) =>
        assert lines[0].IfReturn?;
        if IsTrue(req, Parse(guard).value) then Responds(id) else RunLines(req, lines[1..])
  }

  // ---------------------------------------------------------------- what flattening leaves out

  /** In a statement list the compiler looks into returns, and into ifs whose condition it can render. */
  predicate Seen(s: Stmt) {
    match s
    case Return(_) => true
    case If(c, _, _) => RenderCondition(c).Some?
    case _ => false
  }

  /** The run returns from inside a statement that flattening skips. */
  predicate Escapes(req: Request, stmts: seq<Stmt>)
    decreases stmts
  {
    if stmts == [] then false
    else if !Seen(stmts[0]) then Run(req, stmts[0]).Some? || Escapes(req, stmts[1..])
    else match stmts[0]
      case If(c, t, e) =>
        assert t < stmts[0];
        (if Holds(req, c) then EscapesBranch(req, t)
         else match e case None => false case Some(other) => assert other < stmts[0]; EscapesBranch(req, other))
        || (Run(req, stmts[0]).None? && Escapes(req, stmts[1..]))
      case _ => false
  }

  /** Only as a branch is a block looked into. */
  predicate EscapesBranch(req: Request, s: Stmt)
    decreases s
  {
    match s
    case Block(body) => Escapes(req, body)
    case Return(_) => false
    case If(c, t, e) =>
      if RenderCondition(c).None? then Run(req, s).Some?
      else if Holds(req, c) then EscapesBranch(req, t)
      else (match e case None => false case Some(other) => EscapesBranch(req, other))
    case Unknown(run) => run(req).Some?
  }

  // ---------------------------------------------------------------- meaning of guarded blocks

  predicate Passes(req: Request, g: Option<Rust>) {
    g.Some? ==> IsTrue(req, g.value)
  }

  /** The first block whose guard holds. */
  function FirstMatch(req: Request, blocks: seq<Guarded>): Option<nat> {
    if blocks == [] then None
    else if Passes(req, blocks[0].guard) then Some(blocks[0].id)
    else FirstMatch(req, blocks[1..])
  }

  lemma {:induction false} FirstMatchAppend(req: Request, a: seq<Guarded>, b: seq<Guarded>)
    ensures FirstMatch(req, a + b) == OrElse(FirstMatch(req, a), FirstMatch(req, b))
  {
    if a == [] {
      assert a + b == b;
    } else {
      assert (a + b)[1..] == a[1..] + b;
      FirstMatchAppend(req, a[1..], b);
    }
  }

  /** Guards of the blocks that are emitted: those up to the first unguarded one. */
  predicate BlocksFit(exactly: bool, blocks: seq<Guarded>) {
    blocks == [] || blocks[0].guard.None? || (RustFits(exactly, blocks[0].guard.value)
      && BlocksFit(exactly, blocks[1..]))
  }

  /** The blocks with the texts in their guards as Rust reads them. */
  function RereadBlocks(blocks: seq<Guarded>): seq<Guarded> {
    seq(|blocks|, i requires 0 <= i < |blocks| =>
      Guarded(match blocks[i].guard case None => None case Some(g) => Some(RereadRust(g)), blocks[i].id))
  }

  /**
   The generated control flow compiles exactly when every emitted guard is typed and holds no lone carriage
   return; it then answers with the first block whose guard, as Rust reads it, holds, else with the default.
   */
  lemma {:induction false} EmitKeeps(req: Request, blocks: seq<Guarded>)
    requires AllPrinted(blocks)
    ensures Compiles(EmitBody(PrintBlocks(blocks))) <==> BlocksFit(false, blocks)
    ensures BlocksFit(false, blocks) ==>
              RunLines(req, EmitBody(PrintBlocks(blocks))) ==
                match FirstMatch(req, RereadBlocks(blocks)) case Some(id) => Responds(id) case None => Default500
  {
    hide IsTrue, IsBool, Parse, Print, Printed, RereadRust, Legible;
    if blocks != [] && blocks[0].guard.Some? {
      var g := blocks[0].guard.value;
      var lines, rest := EmitBody(PrintBlocks(blocks)), EmitBody(PrintBlocks(blocks[1..]));
      assert PrintBlocks(blocks)[1..] == PrintBlocks(blocks[1..]);
      assert RereadBlocks(blocks)[1..] == RereadBlocks(blocks[1..]);
      EmitKeeps(req, blocks[1..]);
      assert Printable(blocks[0].guard);
      ParsePrint(g);
      RereadIsBool(g);
      assert lines == [IfReturn(Print(g), blocks[0].id)] + rest;
      CompilesCons(lines);
    }
  }

  lemma CompilesCons(lines: seq<Line>)
    requires lines != [] && lines[0].IfReturn?
    ensures Compiles(lines) <==> Parse(lines[0].guard).Some? && IsBool(Parse(lines[0].guard).value)
                                 && Compiles(lines[1..])
  {
    hide Parse, IsBool;
    var rest := lines[1..];
    if Compiles(rest) && Parse(lines[0].guard).Some? && IsBool(Parse(lines[0].guard).value) {
      forall i | 0 <= i < |lines| && lines[i].IfReturn?
        ensures Parse(lines[i].guard).Some? && IsBool(Parse(lines[i].guard).value)
      {
        if i > 0 { assert lines[i] == rest[i - 1]; }
      }
    }
    if Compiles(lines) {
      forall i | 0 <= i < |rest| && rest[i].IfReturn?
        ensures Parse(rest[i].guard).Some? && IsBool(Parse(rest[i].guard).value)
      {
        assert rest[i] == lines[i + 1];
      }
    }
  }

  /** Without a carriage return in them, guards are read as they are. */
  lemma {:induction false} FitBlocksAreKept(req: Request, blocks: seq<Guarded>)
    requires BlocksFit(true, blocks)
    ensures BlocksFit(false, blocks) && FirstMatch(req, RereadBlocks(blocks)) == FirstMatch(req, blocks)
  {
    if blocks != [] && blocks[0].guard.Some? {
      assert RereadBlocks(blocks)[1..] == RereadBlocks(blocks[1..]);
      CrFreeReads(blocks[0].guard.value);
      FitBlocksAreKept(req, blocks[1..]);
    }
  }

  // ---------------------------------------------------------------- the flattened program

  /** The run, when skipped statements are taken out of it. */
  function Walked(req: Request, stmts: seq<Stmt>): Option<nat>
    decreases stmts
  {
    if stmts == [] then None
    else match stmts[0]
      case Return(id) => Some(id)
      case If(c, t, e) =>
        assert t < stmts[0];
        OrElse(
          if RenderCondition(c).None? then None
          else if Holds(req, c) then WalkedBranch(req, t)
          else (match e case None => None case Some(other) => assert other < stmts[0]; WalkedBranch(req, other)),
          Walked(req, stmts[1..]))
      case _ => Walked(req, stmts[1..])
  }

  function WalkedBranch(req: Request, s: Stmt): Option<nat>
    decreases s
  {
    match s
    case Block(body) => Walked(req, body)
    case Return(id) => Some(id)
    case If(c, t, e) =>
      if RenderCondition(c).None? then None
      else if Holds(req, c) then WalkedBranch(req, t)
      else (match e case None => None case Some(other) => WalkedBranch(req, other))
    case Unknown(_) => None
  }

  lemma ConjoinMeans(guard: Option<Rust>, c: Cond)
    requires RenderCondition(c).Some?
    ensures var t := Translate(c);
            forall req :: (IsTrue(req, Conjoin(guard, t)) <==> Passes(req, guard) && Holds(req, c))
                       && (IsTrue(req, Conjoin(guard, Not(t))) <==> Passes(req, guard) && !Holds(req, c))
  {
    RenderKeeps(c);
  }

  lemma {:induction false} WalkKeeps(req: Request, stmts: seq<Stmt>, guard: Option<Rust>)
    ensures FirstMatch(req, WalkStatements(stmts, guard)) == if Passes(req, guard) then Walked(req, stmts) else None
    decreases stmts
  {
    hide IsTrue, Holds, WalkBranch, WalkedBranch;
    if stmts != [] {
      match stmts[0]
      case Return(id) =>
        assert [Guarded(guard, id)][1..] == [];
      case If(c, t, e) =>
        WalkKeeps(req, stmts[1..], guard);
        assert t < stmts[0];
        if RenderCondition(c).Some? {
          IfKeeps(req, guard, c, t, e);
          FirstMatchAppend(req, IfBlocks(guard, c, t, e), WalkStatements(stmts[1..], guard));
        } else {
          assert [] + WalkStatements(stmts[1..], guard) == WalkStatements(stmts[1..], guard);
        }
      case _ => WalkKeeps(req, stmts[1..], guard);
    }
  }

  /** What one rendered if contributes. */
  function IfBlocks(guard: Option<Rust>, c: Cond, t: Stmt, e: Option<Stmt>): seq<Guarded>
    requires RenderCondition(c).Some?
  {
    WalkBranch(t, Conjoin(guard, Translate(c))) +
    (match e case None => [] case Some(other) => WalkBranch(other, Conjoin(guard, Not(Translate(c)))))
  }

  lemma {:induction false} IfKeeps(req: Request, guard: Option<Rust>, c: Cond, t: Stmt, e: Option<Stmt>)
    requires RenderCondition(c).Some?
    ensures FirstMatch(req, IfBlocks(guard, c, t, e)) ==
              if !Passes(req, guard) then None
              else if Holds(req, c) then WalkedBranch(req, t)
              else match e case None => None case Some(other) => WalkedBranch(req, other)
    decreases If(c, t, e), 0
  {
    hide IsTrue, Holds, WalkBranch, WalkedBranch;
    ConjoinMeans(guard, c);
    BranchKeeps(req, t, Conjoin(guard, Translate(c)));
    var thenBlocks := WalkBranch(t, Conjoin(guard, Translate(c)));
    match e
    case None => assert thenBlocks + [] == thenBlocks;
    case Some(other) =>
      BranchKeeps(req, other, Conjoin(guard, Not(Translate(c))));
      FirstMatchAppend(req, thenBlocks, WalkBranch(other, Conjoin(guard, Not(Translate(c)))));
  }

  lemma {:induction false} BranchKeeps(req: Request, s: Stmt, guard: Rust)
    ensures FirstMatch(req, WalkBranch(s, guard)) == if IsTrue(req, guard) then WalkedBranch(req, s) else None
    decreases s, 1
  {
    hide IsTrue, Holds;
    match s
    case Block(body) => WalkKeeps(req, body, Some(guard));
    case Return(id) => assert [Guarded(Some(guard), id)][1..] == [];
    case If(c, t, e) =>
      if RenderCondition(c).Some? { IfKeeps(req, Some(guard), c, t, e); }
    case Unknown(_) =>
  }

  // ---------------------------------------------------------------- which conditions have to fit

  /** Something in the list is emitted. */
  predicate Emits(stmts: seq<Stmt>)
    decreases stmts
  {
    if stmts == [] then false
    else match stmts[0]
      case Return(_) => true
      case If(c, t, e) => (assert t < stmts[0]; IfEmits(c, t, e)) || Emits(stmts[1..])
      case _ => Emits(stmts[1..])
  }

  predicate IfEmits(c: Cond, t: Stmt, e: Option<Stmt>)
    decreases If(c, t, e), 0
  {
    RenderCondition(c).Some? && (EmitsBranch(t) || match e case None => false case Some(other) => EmitsBranch(other))
  }

  predicate EmitsBranch(s: Stmt)
    decreases s, 1
  {
    match s
    case Block(body) => Emits(body)
    case Return(_) => true
    case If(c, t, e) => IfEmits(c, t, e)
    case Unknown(_) => false
  }

  /** Every rendered condition above a return that is emitted fits. */
  predicate GuardsFit(exactly: bool, stmts: seq<Stmt>)
    decreases stmts
  {
    if stmts == [] then true
    else match stmts[0]
      case Return(_) => true
      case If(c, t, e) => (assert t < stmts[0]; IfFits(exactly, c, t, e)) && GuardsFit(exactly, stmts[1..])
      case _ => GuardsFit(exactly, stmts[1..])
  }

  predicate IfFits(exactly: bool, c: Cond, t: Stmt, e: Option<Stmt>)
    decreases If(c, t, e), 0
  {
    RenderCondition(c).Some? ==>
      && (IfEmits(c, t, e) ==> CondFits(exactly, c))
      && GuardsFitBranch(exactly, t) && (match e case None => true case Some(other) => GuardsFitBranch(exactly, other))
  }

  predicate GuardsFitBranch(exactly: bool, s: Stmt)
    decreases s, 1
  {
    match s
    case Block(body) => GuardsFit(exactly, body)
    case If(c, t, e) => IfFits(exactly, c, t, e)
    case _ => true
  }

  predicate AllGuarded(blocks: seq<Guarded>) {
    forall i :: 0 <= i < |blocks| ==> blocks[i].guard.Some?
  }

  predicate GuardFits(exactly: bool, g: Option<Rust>) {
    g.Some? ==> RustFits(exactly, g.value)
  }

  lemma {:induction false} FitAppend(exactly: bool, a: seq<Guarded>, b: seq<Guarded>)
    requires AllGuarded(a)
    ensures BlocksFit(exactly, a + b) <==> BlocksFit(exactly, a) && BlocksFit(exactly, b)
  {
    if a == [] {
      assert a + b == b;
    } else {
      assert (a + b)[1..] == a[1..] + b;
      FitAppend(exactly, a[1..], b);
    }
  }

  lemma ConjoinFits(exactly: bool, guard: Option<Rust>, c: Cond)
    requires RenderCondition(c).Some?
    ensures RustFits(exactly, Conjoin(guard, Translate(c))) <==> GuardFits(exactly, guard) && CondFits(exactly, c)
    ensures RustFits(exactly, Conjoin(guard, Not(Translate(c)))) <==> GuardFits(exactly, guard) && CondFits(exactly, c)
  {
    hide CondFits;
    CondFitsTranslated(exactly, c);
    assert RustFits(exactly, Not(Translate(c))) <==> RustFits(exactly, Translate(c));
  }

  lemma {:induction false} WalkFits(exactly: bool, stmts: seq<Stmt>, guard: Option<Rust>)
    ensures WalkStatements(stmts, guard) != [] <==> Emits(stmts)
    ensures guard.Some? ==> AllGuarded(WalkStatements(stmts, guard))
    ensures BlocksFit(exactly, WalkStatements(stmts, guard)) <==>
              GuardsFit(exactly, stmts) && (Emits(stmts) ==> GuardFits(exactly, guard))
    decreases stmts
  {
    hide RustFits, CondFits, IfEmits, IfFits, WalkBranch, RenderCondition;
    if stmts != [] {
      match stmts[0]
      case Return(id) =>
        assert [Guarded(guard, id)][1..] == [];
      case If(c, t, e) =>
        WalkFits(exactly, stmts[1..], guard);
        assert t < stmts[0];
        IfWalkFits(exactly, guard, c, t, e);
        if RenderCondition(c).Some? {
          FitAppend(exactly, IfBlocks(guard, c, t, e), WalkStatements(stmts[1..], guard));
        } else {
          assert [] + WalkStatements(stmts[1..], guard) == WalkStatements(stmts[1..], guard);
        }
      case _ => WalkFits(exactly, stmts[1..], guard);
    }
  }

  lemma {:induction false} IfWalkFits(exactly: bool, guard: Option<Rust>, c: Cond, t: Stmt, e: Option<Stmt>)
    ensures RenderCondition(c).None? ==> !IfEmits(c, t, e) && IfFits(exactly, c, t, e)
    ensures RenderCondition(c).Some? ==>
              && (IfBlocks(guard, c, t, e) != [] <==> IfEmits(c, t, e))
              && AllGuarded(IfBlocks(guard, c, t, e))
              && (BlocksFit(exactly, IfBlocks(guard, c, t, e)) <==>
                    IfFits(exactly, c, t, e) && (IfEmits(c, t, e) ==> GuardFits(exactly, guard)))
    decreases If(c, t, e), 0
  {
    hide RustFits, CondFits, WalkBranch, RenderCondition;
    if RenderCondition(c).Some? {
      var yes, no := Conjoin(guard, Translate(c)), Conjoin(guard, Not(Translate(c)));
      ConjoinFits(exactly, guard, c);
      BranchFits(exactly, t, yes);
      match e
      case None => assert IfBlocks(guard, c, t, e) == WalkBranch(t, yes);
      case Some(other) =>
        BranchFits(exactly, other, no);
        FitAppend(exactly, WalkBranch(t, yes), WalkBranch(other, no));
    }
  }

  lemma {:induction false} BranchFits(exactly: bool, s: Stmt, guard: Rust)
    ensures WalkBranch(s, guard) != [] <==> EmitsBranch(s)
    ensures AllGuarded(WalkBranch(s, guard))
    ensures BlocksFit(exactly, WalkBranch(s, guard)) <==>
              GuardsFitBranch(exactly, s) && (EmitsBranch(s) ==> RustFits(exactly, guard))
    decreases s, 1
  {
    hide RustFits, CondFits;
    match s
    case Block(body) => WalkFits(exactly, body, Some(guard));
    case Return(id) => assert [Guarded(Some(guard), id)][1..] == [];
    case If(c, t, e) =>
      IfWalkFits(exactly, Some(guard), c, t, e);
      if RenderCondition(c).Some? { assert WalkBranch(s, guard) == IfBlocks(Some(guard), c, t, e); }
    case Unknown(_) =>
  }

  // ---------------------------------------------------------------- exactly when meaning is kept

  lemma {:induction false} NoEscape(req: Request, stmts: seq<Stmt>)
    ensures !Escapes(req, stmts) ==> Walked(req, stmts) == RunAll(req, stmts)
    decreases stmts
  {
    hide Holds;
    if stmts != [] {
      NoEscape(req, stmts[1..]);
      match stmts[0]
      case If(c, t, e) =>
        assert t < stmts[0];
        NoEscapeBranch(req, t);
        if e.Some? { assert e.value < stmts[0]; NoEscapeBranch(req, e.value); }
      case _ =>
    }
  }

  lemma {:induction false} NoEscapeBranch(req: Request, s: Stmt)
    ensures !EscapesBranch(req, s) ==> WalkedBranch(req, s) == Run(req, s)
    decreases s
  {
    hide Holds;
    match s
    case Block(body) => NoEscape(req, body);
    case If(c, t, e) =>
      NoEscapeBranch(req, t);
      if e.Some? { NoEscapeBranch(req, e.value); }
    case _ =>
  }

  /** Return statements that are emitted. */
  predicate Emitted(stmts: seq<Stmt>, id: nat)
    decreases stmts
  {
    if stmts == [] then false
    else match stmts[0]
      case Return(x) => x == id
      case If(c, t, e) =>
        assert t < stmts[0];
        (RenderCondition(c).Some? &&
          (EmittedBranch(t, id)
            || match e case None => false case Some(other) => assert other < stmts[0]; EmittedBranch(other, id)))
        || Emitted(stmts[1..], id)
      case _ => Emitted(stmts[1..], id)
  }

  predicate EmittedBranch(s: Stmt, id: nat)
    decreases s
  {
    match s
    case Block(body) => Emitted(body, id)
    case Return(x) => x == id
    case If(c, t, e) =>
      RenderCondition(c).Some? && (EmittedBranch(t, id)
        || match e case None => false case Some(other) => EmittedBranch(other, id))
    case Unknown(_) => false
  }

  /** Return statements inside something skipped that some request can reach. */
  ghost predicate Hidden(stmts: seq<Stmt>, id: nat)
    decreases stmts
  {
    if stmts == [] then false
    else if !Seen(stmts[0]) then (exists req :: Run(req, stmts[0]) == Some(id)) || Hidden(stmts[1..], id)
    else match stmts[0]
      case If(_, t, e) =>
        assert t < stmts[0];
        HiddenBranch(t, id)
          || (match e case None => false case Some(other) => assert other < stmts[0]; HiddenBranch(other, id))
        || Hidden(stmts[1..], id)
      case _ => false
  }

  ghost predicate HiddenBranch(s: Stmt, id: nat)
    decreases s
  {
    match s
    case Block(body) => Hidden(body, id)
    case Return(_) => false
    case If(c, t, e) =>
      if RenderCondition(c).None? then exists req :: Run(req, s) == Some(id)
      else HiddenBranch(t, id) || (match e case None => false case Some(other) => HiddenBranch(other, id))
    case Unknown(_) => exists req :: Run(req, s) == Some(id)
  }

  /** Different return statements have different names. */
  ghost predicate NamesApart(stmts: seq<Stmt>) {
    forall id :: !(Emitted(stmts, id) && Hidden(stmts, id))
  }

  lemma {:induction false} WalkedIsEmitted(req: Request, stmts: seq<Stmt>)
    ensures Walked(req, stmts).Some? ==> Emitted(stmts, Walked(req, stmts).value)
    decreases stmts
  {
    hide Holds;
    if stmts != [] {
      WalkedIsEmitted(req, stmts[1..]);
      match stmts[0]
      case If(c, t, e) =>
        assert t < stmts[0];
        WalkedBranchIsEmitted(req, t);
        if e.Some? { assert e.value < stmts[0]; WalkedBranchIsEmitted(req, e.value); }
      case _ =>
    }
  }

  lemma {:induction false} WalkedBranchIsEmitted(req: Request, s: Stmt)
    ensures WalkedBranch(req, s).Some? ==> EmittedBranch(s, WalkedBranch(req, s).value)
    decreases s
  {
    hide Holds;
    match s
    case Block(body) => WalkedIsEmitted(req, body);
    case If(c, t, e) =>
      WalkedBranchIsEmitted(req, t);
      if e.Some? { WalkedBranchIsEmitted(req, e.value); }
    case _ =>
  }

  lemma {:induction false} EscapeIsHidden(req: Request, stmts: seq<Stmt>)
    requires Escapes(req, stmts)
    ensures RunAll(req, stmts).Some? && Hidden(stmts, RunAll(req, stmts).value)
    decreases stmts
  {
    hide Holds;
    if !Seen(stmts[0]) {
      if Run(req, stmts[0]).None? { EscapeIsHidden(req, stmts[1..]); }
    } else {
      var c, t, e := stmts[0].cond, stmts[0].thn, stmts[0].els;
      assert t < stmts[0];
      if Holds(req, c) && EscapesBranch(req, t) {
        EscapeBranchIsHidden(req, t);
      } else if !Holds(req, c) && e.Some? && EscapesBranch(req, e.value) {
        assert e.value < stmts[0];
        EscapeBranchIsHidden(req, e.value);
      } else {
        EscapeIsHidden(req, stmts[1..]);
      }
    }
  }

  lemma {:induction false} EscapeBranchIsHidden(req: Request, s: Stmt)
    requires EscapesBranch(req, s)
    ensures Run(req, s).Some? && HiddenBranch(s, Run(req, s).value)
    decreases s
  {
    hide Holds;
    match s
    case Block(body) => EscapeIsHidden(req, body);
    case If(c, t, e) =>
      if RenderCondition(c).Some? {
        if Holds(req, c) { EscapeBranchIsHidden(req, t); } else { EscapeBranchIsHidden(req, e.value); }
      }
    case _ =>
  }

  /** What the handler's source answers; running off its end is the default response. */
  function SourceOutcome(req: Request, body: seq<Stmt>): Answered {
    match RunAll(req, body) case Some(id) => Responds(id) case None => Default500
  }

  /** The control flow generated for a handler body. */
  function Generated(body: seq<Stmt>): seq<Line> {
    WalkPrints(body, None);
    EmitBody(PrintBlocks(WalkStatements(body, None)))
  }

  /** What the generated function answers. */
  function TargetOutcome(req: Request, body: seq<Stmt>): Answered
    requires Compiles(Generated(body))
  {
    RunLines(req, Generated(body))
  }

  /**
   For every body: the generated control flow compiles exactly when each rendered condition above an emitted
   return compares operands Rust can compare and holds no lone carriage return.
   */
  lemma CompilesExactly(body: seq<Stmt>)
    ensures Compiles(Generated(body)) <==> GuardsFit(false, body)
  {
    hide WalkStatements, Compiles, EmitBody, BlocksFit, GuardsFit, PrintBlocks;
    WalkPrints(body, None);
    WalkFits(false, body, None);
    var req := Request([], [], [], [], map[], map[], map[]);
    EmitKeeps(req, WalkStatements(body, None));
  }

  /**
   Where no such condition holds a carriage return at all, the generated code runs the statements that are
   not skipped.
   */
  lemma TargetWalks(req: Request, body: seq<Stmt>)
    requires GuardsFit(true, body)
    ensures Compiles(Generated(body))
    ensures TargetOutcome(req, body) == match Walked(req, body) case Some(id) => Responds(id) case None => Default500
  {
    hide WalkStatements, Compiles, EmitBody, BlocksFit, GuardsFit, PrintBlocks, Walked, RunLines;
    WalkPrints(body, None);
    WalkFits(true, body, None);
    EmitKeeps(req, WalkStatements(body, None));
    FitBlocksAreKept(req, WalkStatements(body, None));
    WalkKeeps(req, body, None);
  }

  /**
   For every body and request, the generated function answers with the return statement the source would
   run, exactly when the source does not return from inside a statement that flattening skips.
   */
  lemma FlattenExact(req: Request, body: seq<Stmt>)
    requires GuardsFit(true, body) && NamesApart(body)
    ensures Compiles(Generated(body))
    ensures TargetOutcome(req, body) == SourceOutcome(req, body) <==> !Escapes(req, body)
  {
    hide Compiles, Generated, TargetOutcome, GuardsFit;
    TargetWalks(req, body);
    NoEscape(req, body);
    WalkedIsEmitted(req, body);
    if Escapes(req, body) { EscapeIsHidden(req, body); }
  }

  /** Nothing is skipped: every condition renders, and blocks stand only under an if. */
  predicate AllSeen(stmts: seq<Stmt>)
    decreases stmts
  {
    stmts == [] ||
      (Seen(stmts[0]) && AllSeen(stmts[1..]) &&
       match stmts[0]
       case If(_, t, e) =>
         assert t < stmts[0];
         AllSeenBranch(t)
           && (match e case None => true case Some(other) => assert other < stmts[0]; AllSeenBranch(other))
       case _ => true)
  }

  predicate AllSeenBranch(s: Stmt)
    decreases s
  {
    match s
    case Block(body) => AllSeen(body)
    case Return(_) => true
    case If(c, t, e) =>
      RenderCondition(c).Some? && AllSeenBranch(t)
        && (match e case None => true case Some(other) => AllSeenBranch(other))
    case Unknown(_) => false
  }

  lemma {:induction false} SeenNeverEscapes(req: Request, stmts: seq<Stmt>)
    requires AllSeen(stmts)
    ensures !Escapes(req, stmts)
    decreases stmts
  {
    hide Holds;
    if stmts != [] {
      SeenNeverEscapes(req, stmts[1..]);
      match stmts[0]
      case If(c, t, e) =>
        assert t < stmts[0];
        SeenBranchNeverEscapes(req, t);
        if e.Some? { assert e.value < stmts[0]; SeenBranchNeverEscapes(req, e.value); }
      case _ =>
    }
  }

  lemma {:induction false} SeenBranchNeverEscapes(req: Request, s: Stmt)
    requires AllSeenBranch(s)
    ensures !EscapesBranch(req, s)
    decreases s
  {
    hide Holds;
    match s
    case Block(body) => SeenNeverEscapes(req, body);
    case If(c, t, e) =>
      SeenBranchNeverEscapes(req, t);
      if e.Some? { SeenBranchNeverEscapes(req, e.value); }
    case _ =>
  }

  /** Where the compiler sees every statement, the generated function answers every request as the source does. */
  lemma FlattenKeepsMeaning(req: Request, body: seq<Stmt>)
    requires GuardsFit(true, body) && AllSeen(body)
    ensures Compiles(Generated(body))
    ensures TargetOutcome(req, body) == SourceOutcome(req, body)
  {
    hide Compiles, Generated, TargetOutcome, GuardsFit;
    TargetWalks(req, body);
    SeenNeverEscapes(req, body);
    NoEscape(req, body);
  }

  /** A skipped condition and a bare block both change the answer of a one-line handler. */
  lemma SkippedIsLost(req: Request)
    ensures var body := [If(Unrendered(_ => true), Return(1), None), Return(2)];
            Compiles(Generated(body)) && SourceOutcome(req, body) == Responds(1)
              && TargetOutcome(req, body) == Responds(2)
    ensures var body := [Block([Return(1)]), Return(2)];
            Compiles(Generated(body)) && SourceOutcome(req, body) == Responds(1)
              && TargetOutcome(req, body) == Responds(2)
  {
    var hidden, bare := [If(Unrendered(_ => true), Return(1), None), Return(2)], [Block([Return(1)]), Return(2)];
    assert hidden[1..] == [Return(2)] && bare[1..] == [Return(2)];
    TargetWalks(req, hidden);
    TargetWalks(req, bare);
    assert Walked(req, [Return(2)]) == Some(2);
    assert RunAll(req, [Return(1)]) == Some(1);
    hide Compiles, Generated, TargetOutcome;
  }

  /** `if (ctx.query.q === "a\rb") return ...`: the generated function does not compile. */
  lemma CarriageReturnBreaks()
    ensures var c := Compare(true, Get(Query([113])), Str([97, CR, 98]));
            var body := [If(c, Return(1), None), Return(2)];
            RenderCondition(c).Some? && Typed(c) && !Compiles(Generated(body))
  {
    var text: Bytes := [97, CR, 98];
    var c := Compare(true, Get(Query([113])), Str(text));
    var body := [If(c, Return(1), None), Return(2)];
    assert text[1..] == [CR, 98] && !NoLoneCr(text[1..]) && !NoLoneCr(text);
    assert !LegibleCond(c) && !CondFits(false, c);
    assert EmitsBranch(Return(1)) && IfEmits(c, Return(1), None) && !IfFits(false, c, Return(1), None);
    assert !GuardsFit(false, body);
    CompilesExactly(body);
    hide Compiles, Generated;
  }

  // ---------------------------------------------------------------- the code's own form

  /** Every guard is printed with the parentheses it needs, whatever it compares. */
  lemma {:induction false} WalkPrints(stmts: seq<Stmt>, guard: Option<Rust>)
    requires Printable(guard)
    ensures AllPrinted(WalkStatements(stmts, guard))
    decreases stmts
  {
    hide Printed;
    if stmts != [] {
      WalkPrints(stmts[1..], guard);
      match stmts[0]
      case If(c, t, e) =>
        assert t < stmts[0];
        if RenderCondition(c).Some? {
          ConjoinPrints(guard, c);
          BranchPrints(t, Conjoin(guard, Translate(c)));
          if e.Some? { assert e.value < stmts[0]; BranchPrints(e.value, Conjoin(guard, Not(Translate(c)))); }
        }
      case _ =>
    }
  }

  lemma {:induction false} BranchPrints(s: Stmt, guard: Rust)
    requires Printed(guard)
    ensures AllPrinted(WalkBranch(s, guard))
    decreases s
  {
    hide Printed;
    match s
    case Block(body) => WalkPrints(body, Some(guard));
    case If(c, t, e) =>
      if RenderCondition(c).Some? {
        ConjoinPrints(Some(guard), c);
        BranchPrints(t, And(guard, Translate(c)));
        if e.Some? { BranchPrints(e.value, And(guard, Not(Translate(c)))); }
      }
    case _ =>
  }

  /** The guard strings the compiler builds for the two sides of an if. */
  lemma ConjoinPrints(guard: Option<Rust>, c: Cond)
    requires Printable(guard) && RenderCondition(c).Some?
    ensures var t, cond := Translate(c), RenderCondition(c).value;
            && Printed(Conjoin(guard, t)) && Printed(Conjoin(guard, Not(t)))
            && Print(Conjoin(guard, t)) ==
                 (if guard.Some? then Paren(Print(guard.value)) + [AndAnd] + Paren(cond) else cond)
            && Print(Conjoin(guard, Not(t))) ==
                 (if guard.Some? then Paren(Print(guard.value)) + [AndAnd] + Paren([Bang] + Paren(cond))
                   else [Bang] + Paren(cond))
  {
    RenderKeeps(c);
  }

  /** The array every level of the walk pushes to. */
  class BlockList {
    var items: seq<Branch>

    constructor ()
      ensures items == []
    {
      items := [];
    }

    method Push(b: Branch)
      modifies this
      ensures items == old(items) + [b]
    {
      items := items + [b];
    }
  }

  lemma PrintAppend(a: seq<Guarded>, b: seq<Guarded>)
    requires AllPrinted(a) && AllPrinted(b)
    ensures AllPrinted(a + b) && PrintBlocks(a + b) == PrintBlocks(a) + PrintBlocks(b)
  {
  }

  lemma NothingPrinted()
    ensures AllPrinted([]) && PrintBlocks([]) == []
  {
  }

  lemma PrintOne(g: Option<Rust>, id: nat)
    requires Printable(g)
    ensures AllPrinted([Guarded(g, id)]) && PrintBlocks([Guarded(g, id)]) == [Branch(PrintGuard(g), id)]
  {
  }

  /** The walk from one statement on, behind the blocks of the earlier ones. */
  lemma WalkStep(stmts: seq<Stmt>, i: nat, g: Option<Rust>, done: seq<Guarded>)
    requires i < |stmts|
    ensures var s, rest, all := stmts[i], WalkStatements(stmts[i + 1..], g), done + WalkStatements(stmts[i..], g);
            if s.Return? then all == done + [Guarded(g, s.id)]
            else if s.If? && RenderCondition(s.cond).Some? then all == done + IfBlocks(g, s.cond, s.thn, s.els) + rest
            else all == done + rest
  {
    hide WalkBranch, RenderCondition;
    var rest := WalkStatements(stmts[i + 1..], g);
    assert stmts[i..][0] == stmts[i] && stmts[i..][1..] == stmts[i + 1..];
    match stmts[i]
    case If(c, t, e) =>
      if RenderCondition(c).Some? {
        assert WalkStatements(stmts[i..], g) == IfBlocks(g, c, t, e) + rest;
        assert done + (IfBlocks(g, c, t, e) + rest) == done + IfBlocks(g, c, t, e) + rest;
      } else {
        assert WalkStatements(stmts[i..], g) == [] + rest;
        assert [] + rest == rest;
      }
    case _ =>
  }

  lemma WalkEnds(done: seq<Guarded>, g: Option<Rust>)
    ensures done + WalkStatements([], g) == done
  {
  }

  /** One if with a rendered condition: its branches under the conjoined guards. */
  method WalkIf(c: Cond, t: Stmt, e: Option<Stmt>, cond: seq<Token>, guard: Option<seq<Token>>, ghost g: Option<Rust>,
                blocks: BlockList)
    requires Printable(g) && guard == PrintGuard(g) && RenderCondition(c) == Some(cond)
    modifies blocks
    ensures AllPrinted(IfBlocks(g, c, t, e))
    ensures blocks.items == old(blocks.items) + PrintBlocks(IfBlocks(g, c, t, e))
    decreases If(c, t, e), 0
  {
    hide WalkBranch, WalkStatements, Print, Printed, Conjoin, Paren, PrintBlocks, RenderCondition;
    ConjoinPrints(g, c);
    ghost var yes, no := Conjoin(g, Translate(c)), Conjoin(g, Not(Translate(c)));
    BranchPrints(t, yes);
    var combined := if guard.Some? then Paren(guard.value) + [AndAnd] + Paren(cond) else cond;
    WalkBranchInto(t, combined, yes, blocks);
    if e.Some? {
      BranchPrints(e.value, no);
      PrintAppend(WalkBranch(t, yes), WalkBranch(e.value, no));
      var negated := [Bang] + Paren(cond);
      var elseGuard := if guard.Some? then Paren(guard.value) + [AndAnd] + Paren(negated) else negated;
      WalkBranchInto(e.value, elseGuard, no, blocks);
    } else {
      assert IfBlocks(g, c, t, e) == WalkBranch(t, yes);
    }
  }

  /** Pushes the blocks of a statement list; what follows a return is unreachable. */
  method WalkStatementsInto(stmts: seq<Stmt>, guard: Option<seq<Token>>, ghost g: Option<Rust>, blocks: BlockList)
    requires Printable(g) && guard == PrintGuard(g)
    modifies blocks
    ensures AllPrinted(WalkStatements(stmts, g))
    ensures blocks.items == old(blocks.items) + PrintBlocks(WalkStatements(stmts, g))
    decreases stmts
  {
    hide WalkStatements, WalkBranch, Printed, Print, PrintGuard, RenderCondition, IfBlocks, AllPrinted, PrintBlocks;
    WalkPrints(stmts, g);
    ghost var done: seq<Guarded> := [];
    NothingPrinted();
    assert [] + WalkStatements(stmts, g) == WalkStatements(stmts, g);
    var i := 0;
    assert stmts[0..] == stmts;
    while i < |stmts|
      invariant 0 <= i <= |stmts| && AllPrinted(done)
      invariant WalkStatements(stmts, g) == done + WalkStatements(stmts[i..], g)
      invariant blocks.items == old(blocks.items) + PrintBlocks(done)
    {
      var s := stmts[i];
      WalkStep(stmts, i, g, done);
      match s {
        case Return(id) =>
          PrintOne(g, id);
          PrintAppend(done, [Guarded(g, id)]);
          blocks.Push(Branch(guard, id));
          return;
        case If(c, t, e) =>
          var cond := RenderCondition(c);
          if cond.Some? {
            WalkIf(c, t, e, cond.value, guard, g, blocks);
            PrintAppend(done, IfBlocks(g, c, t, e));
            done := done + IfBlocks(g, c, t, e);
          }
        case _ =>
      }
      i := i + 1;
    }
    assert stmts[i..] == [];
    WalkEnds(done, g);
  }

  method WalkBranchInto(s: Stmt, guard: seq<Token>, ghost g: Rust, blocks: BlockList)
    requires Printed(g) && guard == Print(g)
    modifies blocks
    ensures AllPrinted(WalkBranch(s, g))
    ensures blocks.items == old(blocks.items) + PrintBlocks(WalkBranch(s, g))
    decreases s, 1
  {
    hide WalkStatements;
    BranchPrints(s, g);
    match s {
      case Block(body) => WalkStatementsInto(body, Some(guard), Some(g), blocks);
      case Return(id) => blocks.Push(Branch(Some(guard), id));
      case If(c, t, e) =>
        var cond := RenderCondition(c);
        if cond.Some? {
          WalkIf(c, t, e, cond.value, Some(guard), Some(g), blocks);
          assert IfBlocks(Some(g), c, t, e) == WalkBranch(s, g);
        }
      case Unknown(_) =>
    }
  }

  method EmitFunctionBody(branches: seq<Branch>) returns (lines: seq<Line>)
    ensures lines == EmitBody(branches)
  {
    lines := [];
    var i := 0;
    assert branches[0..] == branches;
    while i < |branches|
      invariant 0 <= i <= |branches|
      invariant EmitBody(branches) == lines + EmitBody(branches[i..])
    {
      var branch := branches[i];
      assert branches[i..][0] == branch && branches[i..][1..] == branches[i + 1..];
      if branch.guard.None? {
        lines := lines + [Body(branch.id)];
        return;
      }
      lines := lines + [IfReturn(branch.guard.value, branch.id)];
      i := i + 1;
    }
    lines := lines + [InternalError];
  }

  /** Compiles a handler body; a body without a recognised return is left to the fallback server. */
  method TranspileBody(body: seq<Stmt>) returns (lines: Option<seq<Line>>)
    ensures lines == if Emits(body) then Some(Generated(body)) else None
  {
    var blocks := new BlockList();
    WalkStatementsInto(body, None, None, blocks);
    assert blocks.items == PrintBlocks(WalkStatements(body, None));
    WalkFits(false, body, None);
    if |blocks.items| == 0 {
      return None;
    }
    var emitted := EmitFunctionBody(blocks.items);
    lines := Some(emitted);
  }
}
