/** Which returns make it into the generated function, and so which handlers are compiled at all. */
module Coverage {
  import opened Bytes
  import opened Handlers
  import opened Guards
  import opened Flatten
  import opened Emission
  import opened Chains
  import opened Compiler

  // ---------------------------------------------------------------- conditions

  /** The conditions joined by conjunctions and disjunctions. */
  function Leaves(c: Cond): seq<Cond> {
    match c
    case Both(a, b) => Leaves(a) + Leaves(b)
    case Either(a, b) => Leaves(a) + Leaves(b)
    case _ => [c]
  }

  /** Nothing but comparisons of texts, numbers and reads of the request. */
  predicate Legible(c: Cond) {
    forall i :: 0 <= i < |Leaves(c)| ==> PlainComparison(Leaves(c)[i])
  }

  predicate PlainComparison(c: Cond) {
    c.Compare? && !c.left.Computed? && !c.right.Computed?
  }

  lemma LegibleJoined(c: Cond, a: Cond, b: Cond)
    requires Leaves(c) == Leaves(a) + Leaves(b)
    ensures Legible(c) <==> Legible(a) && Legible(b)
  {
    hide PlainComparison, Leaves;
    var left, right := Leaves(a), Leaves(b);
    assert forall i :: 0 <= i < |left| ==> Leaves(c)[i] == left[i];
    assert forall i :: 0 <= i < |right| ==> Leaves(c)[|left| + i] == right[i];
  }

  /** Exactly these are rendered. */
  lemma {:induction false} RenderedExactly(c: Cond)
    ensures RenderCondition(c).Some? <==> Legible(c)
  {
    hide WriteOperand;
    match c
    case Both(a, b) =>
      RenderedExactly(a);
      RenderedExactly(b);
      hide Legible;
      LegibleJoined(c, a, b);
    case Either(a, b) =>
      RenderedExactly(a);
      RenderedExactly(b);
      hide Legible;
      LegibleJoined(c, a, b);
    case _ => assert Leaves(c)[0] == c;
  }

  // ---------------------------------------------------------------- returns

  predicate HasBlock(blocks: seq<Guarded>, id: nat) {
    exists i :: 0 <= i < |blocks| && blocks[i].id == id
  }

  predicate HasLine(lines: seq<Line>, id: nat) {
    exists i :: 0 <= i < |lines| && !lines[i].InternalError? && lines[i].id == id
  }

  lemma HasAppend(a: seq<Guarded>, b: seq<Guarded>, id: nat)
    ensures HasBlock(a + b, id) <==> HasBlock(a, id) || HasBlock(b, id)
  {
    if HasBlock(a, id) { var i :| 0 <= i < |a| && a[i].id == id; assert (a + b)[i].id == id; }
    if HasBlock(b, id) { var i :| 0 <= i < |b| && b[i].id == id; assert (a + b)[|a| + i].id == id; }
    if HasBlock(a + b, id) {
      var i :| 0 <= i < |a + b| && (a + b)[i].id == id;
      if i < |a| { assert a[i].id == id; } else { assert b[i - |a|].id == id; }
    }
  }

  lemma HasOne(guard: Option<Rust>, x: nat, id: nat)
    ensures HasBlock([Guarded(guard, x)], id) <==> x == id
  {
    assert [Guarded(guard, x)][0].id == x;
  }

  /** The blocks of a list are its emitted returns. */
  lemma {:induction false} WalkHas(stmts: seq<Stmt>, guard: Option<Rust>, id: nat)
    ensures HasBlock(WalkStatements(stmts, guard), id) <==> Emitted(stmts, id)
    decreases stmts
  {
    hide RenderCondition, HasBlock, WalkBranch, EmittedBranch;
    NothingHas(id);
    if stmts != [] {
      match stmts[0]
      case Return(x) => HasOne(guard, x, id);
      case If(c, t, e) =>
        assert t < stmts[0];
        WalkHas(stmts[1..], guard, id);
        IfHas(guard, c, t, e, id);
        if RenderCondition(c).Some? {
          assert WalkStatements(stmts, guard) == IfBlocks(guard, c, t, e) + WalkStatements(stmts[1..], guard);
          HasAppend(IfBlocks(guard, c, t, e), WalkStatements(stmts[1..], guard), id);
        } else {
          assert [] + WalkStatements(stmts[1..], guard) == WalkStatements(stmts[1..], guard);
        }
      case _ => WalkHas(stmts[1..], guard, id);
    }
  }

  lemma NothingHas(id: nat)
    ensures !HasBlock([], id)
  {
  }

  lemma {:induction false} IfHas(guard: Option<Rust>, c: Cond, t: Stmt, e: Option<Stmt>, id: nat)
    ensures RenderCondition(c).Some? ==>
              (HasBlock(IfBlocks(guard, c, t, e), id) <==>
                 EmittedBranch(t, id) || match e case None => false case Some(other) => EmittedBranch(other, id))
    decreases If(c, t, e), 0
  {
    hide RenderCondition, HasBlock, WalkBranch, EmittedBranch;
    if RenderCondition(c).Some? {
      var yes, no := Conjoin(guard, Translate(c)), Conjoin(guard, Not(Translate(c)));
      BranchHas(t, yes, id);
      NothingHas(id);
      match e
      case None => assert IfBlocks(guard, c, t, e) == WalkBranch(t, yes);
      case Some(other) =>
        BranchHas(other, no, id);
        HasAppend(WalkBranch(t, yes), WalkBranch(other, no), id);
    }
  }

  lemma {:induction false} BranchHas(s: Stmt, guard: Rust, id: nat)
    ensures HasBlock(WalkBranch(s, guard), id) <==> EmittedBranch(s, id)
    decreases s, 1
  {
    hide RenderCondition, HasBlock;
    NothingHas(id);
    match s
    case Block(body) => WalkHas(body, Some(guard), id);
    case Return(x) => HasOne(Some(guard), x, id);
    case If(c, t, e) =>
      IfHas(Some(guard), c, t, e, id);
      if RenderCondition(c).Some? { assert WalkBranch(s, guard) == IfBlocks(Some(guard), c, t, e); }
    case Unknown(_) =>
  }

  /** Only the last block can stand without a guard. */
  predicate LastUnguarded(blocks: seq<Guarded>) {
    forall i :: 0 <= i < |blocks| - 1 ==> blocks[i].guard.Some?
  }

  lemma {:induction false} WalkLast(stmts: seq<Stmt>, guard: Option<Rust>)
    ensures LastUnguarded(WalkStatements(stmts, guard))
    decreases stmts
  {
    hide RenderCondition, WalkBranch;
    if stmts != [] {
      match stmts[0]
      case If(c, t, e) =>
        WalkLast(stmts[1..], guard);
        if RenderCondition(c).Some? {
          IfWalkFits(true, guard, c, t, e);
          assert WalkStatements(stmts, guard) == IfBlocks(guard, c, t, e) + WalkStatements(stmts[1..], guard);
        } else {
          assert [] + WalkStatements(stmts[1..], guard) == WalkStatements(stmts[1..], guard);
        }
      case Return(_) =>
      case _ => WalkLast(stmts[1..], guard);
    }
  }

  lemma {:induction false} LinesHave(blocks: seq<Guarded>, id: nat)
    requires AllPrinted(blocks) && LastUnguarded(blocks)
    ensures HasLine(EmitBody(PrintBlocks(blocks)), id) <==> HasBlock(blocks, id)
  {
    hide Printable, PrintGuard, HasLine, HasBlock;
    NothingHas(id);
    if blocks == [] {
      NoLine(id);
    } else {
      var first, rest := PrintBlocks(blocks)[0], blocks[1..];
      LinesHave(rest, id);
      assert PrintBlocks(blocks)[1..] == PrintBlocks(rest);
      assert blocks == [blocks[0]] + rest;
      HasOne(blocks[0].guard, blocks[0].id, id);
      HasAppend([blocks[0]], rest, id);
      GuardPrinted(blocks[0].guard);
      if blocks[0].guard.None? {
        NoLine(id);
        LineFirst(Body(first.id), [], id);
        assert rest == [] && EmitBody(PrintBlocks(blocks)) == [Body(first.id)] + [];
      } else {
        LineFirst(IfReturn(first.guard.value, first.id), EmitBody(PrintBlocks(rest)), id);
      }
    }
  }

  lemma GuardPrinted(g: Option<Rust>)
    requires Printable(g)
    ensures PrintGuard(g).Some? <==> g.Some?
  {
  }

  lemma NoLine(id: nat)
    ensures !HasLine([], id) && !HasLine([InternalError], id)
  {
  }

  lemma LineFirst(l: Line, more: seq<Line>, id: nat)
    requires !l.InternalError?
    ensures HasLine([l] + more, id) <==> l.id == id || HasLine(more, id)
  {
    var all := [l] + more;
    assert all[0] == l;
    assert forall i :: 0 <= i < |more| ==> all[i + 1] == more[i];
    if HasLine(all, id) && l.id != id {
      var i :| 0 <= i < |all| && !all[i].InternalError? && all[i].id == id;
      assert more[i - 1].id == id;
    }
  }

  /** The generated function holds exactly the emitted returns. */
  lemma GeneratedHas(body: seq<Stmt>, id: nat)
    ensures HasLine(Generated(body), id) <==> Emitted(body, id)
  {
    hide HasLine, HasBlock, Emitted, WalkStatements, EmitBody;
    WalkPrints(body, None);
    WalkHas(body, None, id);
    WalkLast(body, None);
    LinesHave(WalkStatements(body, None), id);
  }

  /** A handler is compiled exactly when something of it is emitted and every emitted return has a shape. */
  lemma CompilesWhen(body: seq<Stmt>, exprs: Returns)
    ensures Compile(body, exprs).Some? <==>
              && (exists id :: Emitted(body, id))
              && (forall id :: Emitted(body, id) ==> id in exprs && ExtractShape(exprs[id]).Some?)
  {
    hide Emitted, Emits, Generated, ExtractShape, WalkStatements;
    var blocks := WalkStatements(body, None);
    WalkFits(true, body, None);
    forall id ensures HasBlock(blocks, id) <==> Emitted(body, id) { WalkHas(body, None, id); }
    if Emits(body) { assert HasBlock(blocks, blocks[0].id); }
    if id :| Emitted(body, id) { assert HasBlock(blocks, id); }
    assert Emits(body) <==> exists id :: Emitted(body, id);
    ShapedLines(body, exprs);
  }

  lemma ShapedLines(body: seq<Stmt>, exprs: Returns)
    ensures AllShaped(exprs, Generated(body)) <==>
              forall id :: Emitted(body, id) ==> id in exprs && ExtractShape(exprs[id]).Some?
  {
    hide Emitted, Generated, ExtractShape;
    var lines := Generated(body);
    forall id ensures HasLine(lines, id) <==> Emitted(body, id) { GeneratedHas(body, id); }
    if forall id :: Emitted(body, id) ==> id in exprs && ExtractShape(exprs[id]).Some? {
      forall i | 0 <= i < |lines| && !lines[i].InternalError? ensures ShapeFor(exprs, lines[i].id).Some? {
        assert HasLine(lines, lines[i].id);
      }
    }
    if AllShaped(exprs, lines) {
      forall id | Emitted(body, id) ensures id in exprs && ExtractShape(exprs[id]).Some? {
        assert HasLine(lines, id);
        var i :| 0 <= i < |lines| && !lines[i].InternalError? && lines[i].id == id;
        assert ShapeFor(exprs, id).Some?;
      }
    }
  }
}
