/**
 Conditions as Rust source (packages/aot-transpiler/src/index.ts): the tokens printed, and how the Rust
 grammar reads them back.
 */
module Guards {
  import opened Bytes
  import opened Decimal
  import opened Escaping
  import opened Handlers
  import opened Literals

  /**
   `Computed` is any operand the compiler does not render. A number is its text as the TypeScript parser gives
   it, which is the same for equal values.
   */
  datatype Operand = Str(text: Bytes) | Number(digits: Bytes) | Get(read: Read) | Computed(value: Request -> Bytes)

  /** `Unrendered` is any condition that is not a comparison, a conjunction or a disjunction. */
  datatype Cond =
    | Compare(equal: bool, left: Operand, right: Operand)
    | Both(first: Cond, second: Cond)
    | Either(first: Cond, second: Cond)
    | Unrendered(truth: Request -> bool)

  /** An operand as text: a string literal, a number, or a getter call. */
  datatype Written = StringText(literal: Bytes) | NumberText(digits: Bytes) | GetterText(getter: Getter)

  datatype Token = Open | Close | AndAnd | OrOr | Bang | EqEq | NotEq | Piece(text: Written)

  /** A Rust expression. */
  datatype Rust =
    | Leaf(operand: Operand)
    | Equals(equal: bool, left: Rust, right: Rust)
    | And(first: Rust, second: Rust)
    | Or(first: Rust, second: Rust)
    | Not(inner: Rust)

  // ---------------------------------------------------------------- meaning

  datatype Val = Textual(bytes: Bytes) | Numeric(digits: Bytes)

  function ValueIn(req: Request, o: Operand): Val {
    match o
    case Str(text) => Textual(text)
    case Number(digits) => Numeric(digits)
    case Get(r) => Textual(ReadFrom(req, r))
    case Computed(value) => Textual(value(req))
  }

  /** The source condition. */
  predicate Holds(req: Request, c: Cond) {
    match c
    case Compare(equal, l, r) => equal == (ValueIn(req, l) == ValueIn(req, r))
    case Both(a, b) => Holds(req, a) && Holds(req, b)
    case Either(a, b) => Holds(req, a) || Holds(req, b)
    case Unrendered(truth) => truth(req)
  }

  const I32_LIMIT: nat := 0x8000_0000

  predicate IsFloat(digits: Bytes) {
    46 in digits || 101 in digits
  }

  /** A numeric literal Rust accepts: an integer of the default type, or a float. */
  predicate NumberFits(digits: Bytes) {
    && digits != [] && 48 <= digits[0] <= 57
    && (IsFloat(digits) || (IsDigits(digits) && Value(digits) < I32_LIMIT))
  }

  /** Two operands may be compared: two strings, or two numbers of the same kind. */
  predicate Comparable(a: Operand, b: Operand) {
    if a.Number? && b.Number? then NumberFits(a.digits) && NumberFits(b.digits)
      && IsFloat(a.digits) == IsFloat(b.digits)
    else (a.Str? || a.Get?) && (b.Str? || b.Get?)
  }

  /** Comparisons of comparable operands and what is built from them; a bare operand is no condition. */
  predicate IsBool(r: Rust) {
    match r
    case Leaf(_) => false
    case Equals(_, Leaf(a), Leaf(b)) => Comparable(a, b)
    case Equals(_, _, _) => false
    case And(a, b) => IsBool(a) && IsBool(b)
    case Or(a, b) => IsBool(a) && IsBool(b)
    case Not(a) => IsBool(a)
  }

  predicate IsTrue(req: Request, r: Rust) {
    match r
    case Equals(equal, Leaf(a), Leaf(b)) => equal == (ValueIn(req, a) == ValueIn(req, b))
    case And(a, b) => IsTrue(req, a) && IsTrue(req, b)
    case Or(a, b) => IsTrue(req, a) || IsTrue(req, b)
    case Not(a) => !IsTrue(req, a)
    case _ => false
  }

  // ---------------------------------------------------------------- operands as text

  function WriteOperand(o: Operand): Written {
    match o
    case Str(text) => StringText(EscapeQuotes(text))
    case Number(digits) => NumberText(digits)
    case Get(r) => GetterText(GetterOf(r))
    case Computed(_) => NumberText([])
  }

  /** What an operand's text denotes; none when a literal in it is not legal. */
  function ReadOperand(w: Written): Option<Operand> {
    match w
    case StringText(literal) => (match TextOf(literal) case None => None case Some(text) => Some(Str(text)))
    case NumberText(digits) => Some(Number(digits))
    case GetterText(getter) => (match ReadBack(getter) case None => None case Some(r) => Some(Get(r)))
  }

  /** The text of a literal in the operand, if it has one. */
  function LiteralIn(o: Operand): Bytes {
    match o
    case Str(text) => text
    case Get(r) => if r.Input? then [] else r.name
    case _ => []
  }

  /** The operand with its text as Rust reads it: CRLF is LF. */
  function Reread(o: Operand): Operand {
    match o
    case Str(text) => Str(CrlfToLf(text))
    case Get(Param(name)) => Get(Param(CrlfToLf(name)))
    case Get(Query(name)) => Get(Query(CrlfToLf(name)))
    case Get(Header(name)) => Get(Header(CrlfToLf(name)))
    case _ => o
  }

  /** An operand's text is legal exactly without a lone carriage return. */
  lemma OperandReads(o: Operand)
    requires !o.Computed?
    ensures ReadOperand(WriteOperand(o)) == if NoLoneCr(LiteralIn(o)) then Some(Reread(o)) else None
  {
    hide EscapeQuotes, TextOf, CrlfToLf;
    TextReads(LiteralIn(o));
  }

  lemma RereadKept(o: Operand)
    requires CR !in LiteralIn(o)
    ensures NoLoneCr(LiteralIn(o)) && Reread(o) == o
  {
    NoCrNoLone(LiteralIn(o));
    CrlfShortens(LiteralIn(o));
  }

  // ---------------------------------------------------------------- the Rust grammar

  // `&&` binds tighter than `||`, comparisons tighter than both and do not chain, `!` tightest.

  function ParseUnary(t: seq<Token>): (r: Option<(Rust, seq<Token>)>)
    ensures r.Some? ==> |r.value.1| < |t|
    decreases |t|, 0
  {
    if t == [] then None
    else match t[0]
      case Bang => (match ParseUnary(t[1..]) case None => None case Some((e, rest)) => Some((Not(e), rest)))
      case Piece(text) => (match ReadOperand(text) case None => None case Some(o) => Some((Leaf(o), t[1..])))
      case Open =>
        (match ParseOr(t[1..])
         case None => None
         case Some((e, rest)) => if rest != [] && rest[0] == Close then Some((e, rest[1..])) else None)
      case _ => None
  }

  /** At most one comparison: they do not chain. */
  function ParseComparison(t: seq<Token>): (r: Option<(Rust, seq<Token>)>)
    ensures r.Some? ==> |r.value.1| < |t|
    decreases |t|, 1
  {
    match ParseUnary(t)
    case None => None
    case Some((left, rest)) =>
      if rest != [] && (rest[0] == EqEq || rest[0] == NotEq) then
        match ParseUnary(rest[1..])
        case None => None
        case Some((right, more)) =>
          if more != [] && (more[0] == EqEq || more[0] == NotEq) then None
          else Some((Equals(rest[0] == EqEq, left, right), more))
      else Some((left, rest))
  }

  function ParseAnd(t: seq<Token>): (r: Option<(Rust, seq<Token>)>)
    ensures r.Some? ==> |r.value.1| < |t|
    decreases |t|, 2
  {
    match ParseComparison(t) case None => None case Some((left, rest)) => MoreAnds(left, rest)
  }

  function MoreAnds(left: Rust, t: seq<Token>): (r: Option<(Rust, seq<Token>)>)
    ensures r.Some? ==> |r.value.1| <= |t|
    decreases |t|, 0
  {
    if t != [] && t[0] == AndAnd then
      match ParseComparison(t[1..]) case None => None case Some((right, rest)) => MoreAnds(And(left, right), rest)
    else Some((left, t))
  }

  function ParseOr(t: seq<Token>): (r: Option<(Rust, seq<Token>)>)
    ensures r.Some? ==> |r.value.1| < |t|
    decreases |t|, 3
  {
    match ParseAnd(t) case None => None case Some((left, rest)) => MoreOrs(left, rest)
  }

  function MoreOrs(left: Rust, t: seq<Token>): (r: Option<(Rust, seq<Token>)>)
    ensures r.Some? ==> |r.value.1| <= |t|
    decreases |t|, 0
  {
    if t != [] && t[0] == OrOr then
      match ParseAnd(t[1..]) case None => None case Some((right, rest)) => MoreOrs(Or(left, right), rest)
    else Some((left, t))
  }

  /** The expression a whole text denotes. */
  function Parse(t: seq<Token>): Option<Rust> {
    match ParseOr(t) case Some((e, rest)) => if rest == [] then Some(e) else None case None => None
  }

  // ---------------------------------------------------------------- printing

  function Paren(t: seq<Token>): seq<Token> {
    [Open] + t + [Close]
  }

  function RenderOperand(o: Operand): Option<Token> {
    if o.Computed? then None else Some(Piece(WriteOperand(o)))
  }

  /** The tokens of a condition, or none when some part of it has no rendering. */
  function RenderCondition(c: Cond): Option<seq<Token>> {
    match c
    case Compare(equal, l, r) =>
      (match (RenderOperand(l), RenderOperand(r))
       case (Some(left), Some(right)) => Some([left, if equal then EqEq else NotEq, right])
       case _ => None)
    case Both(a, b) =>
      (match (RenderCondition(a), RenderCondition(b))
       case (Some(left), Some(right)) => Some(Paren(left) + [AndAnd] + Paren(right))
       case _ => None)
    case Either(a, b) =>
      (match (RenderCondition(a), RenderCondition(b))
       case (Some(left), Some(right)) => Some(Paren(left) + [OrOr] + Paren(right))
       case _ => None)
    case Unrendered(_) => None
  }

  /** The expression a rendered condition should denote. */
  function Translate(c: Cond): Rust
    requires RenderCondition(c).Some?
  {
    match c
    case Compare(equal, l, r) => Equals(equal, Leaf(l), Leaf(r))
    case Both(a, b) => And(Translate(a), Translate(b))
    case Either(a, b) => Or(Translate(a), Translate(b))
  }

  /** The shapes guards are made of. */
  predicate Printed(r: Rust) {
    match r
    case Leaf(_) => false
    case Equals(_, l, r) => l.Leaf? && r.Leaf? && !l.operand.Computed? && !r.operand.Computed?
    case And(a, b) => Printed(a) && Printed(b)
    case Or(a, b) => Printed(a) && Printed(b)
    case Not(a) => Printed(a)
  }

  /** How guards are written: every operand of `&&`, `||` and `!` in parentheses. */
  function Print(r: Rust): seq<Token>
    requires Printed(r)
  {
    match r
    case Equals(equal, l, r) =>
      [Piece(WriteOperand(l.operand)), if equal then EqEq else NotEq, Piece(WriteOperand(r.operand))]
    case And(a, b) => Paren(Print(a)) + [AndAnd] + Paren(Print(b))
    case Or(a, b) => Paren(Print(a)) + [OrOr] + Paren(Print(b))
    case Not(a) => [Bang] + Paren(Print(a))
  }

  // ---------------------------------------------------------------- the grammar reads guards back

  /** Nothing follows that could continue an expression. */
  predicate Ends(rest: seq<Token>) {
    rest == [] || rest[0] == Close
  }

  /** A reading that uses everything up to `rest`, or none. */
  function Then(e: Option<Rust>, rest: seq<Token>): Option<(Rust, seq<Token>)> {
    match e case None => None case Some(x) => Some((x, rest))
  }

  function AndOf(a: Option<Rust>, b: Option<Rust>): Option<Rust> {
    if a.Some? && b.Some? then Some(And(a.value, b.value)) else None
  }

  function OrOf(a: Option<Rust>, b: Option<Rust>): Option<Rust> {
    if a.Some? && b.Some? then Some(Or(a.value, b.value)) else None
  }

  lemma ParenReads(inner: seq<Token>, e: Option<Rust>, rest: seq<Token>)
    requires ParseOr(inner + ([Close] + rest)) == Then(e, [Close] + rest)
    ensures ParseUnary(Paren(inner) + rest) == Then(e, rest)
  {
    hide ParseOr;
    var t := Paren(inner) + rest;
    assert t[1..] == inner + ([Close] + rest);
    assert ([Close] + rest)[1..] == rest;
  }

  lemma UnaryAlone(t: seq<Token>, e: Option<Rust>, rest: seq<Token>)
    requires ParseUnary(t) == Then(e, rest) && (Ends(rest) || rest[0] == AndAnd || rest[0] == OrOr)
    ensures ParseComparison(t) == Then(e, rest)
  {
    hide ParseUnary;
  }

  lemma ComparisonAlone(t: seq<Token>, e: Option<Rust>, rest: seq<Token>)
    requires ParseComparison(t) == Then(e, rest) && (Ends(rest) || rest[0] == OrOr)
    ensures ParseAnd(t) == Then(e, rest)
    ensures Ends(rest) ==> ParseOr(t) == Then(e, rest)
  {
    hide ParseComparison;
  }

  lemma AndReads(t: seq<Token>, a: Option<Rust>, u: seq<Token>, b: Option<Rust>, rest: seq<Token>)
    requires ParseUnary(t) == Then(a, [AndAnd] + u) && ParseUnary(u) == Then(b, rest) && Ends(rest)
    ensures ParseOr(t) == Then(AndOf(a, b), rest)
  {
    UnaryAlone(t, a, [AndAnd] + u);
    UnaryAlone(u, b, rest);
    assert ([AndAnd] + u)[1..] == u;
    hide ParseComparison;
    if a.Some? && b.Some? {
      assert MoreAnds(a.value, [AndAnd] + u) == MoreAnds(And(a.value, b.value), rest);
    }
    assert ParseAnd(t) == Then(AndOf(a, b), rest);
  }

  lemma OrReads(t: seq<Token>, a: Option<Rust>, u: seq<Token>, b: Option<Rust>, rest: seq<Token>)
    requires ParseUnary(t) == Then(a, [OrOr] + u) && ParseUnary(u) == Then(b, rest) && Ends(rest)
    ensures ParseOr(t) == Then(OrOf(a, b), rest)
  {
    UnaryAlone(t, a, [OrOr] + u);
    UnaryAlone(u, b, rest);
    ComparisonAlone(t, a, [OrOr] + u);
    ComparisonAlone(u, b, rest);
    assert ([OrOr] + u)[1..] == u;
    hide ParseAnd;
    if a.Some? && b.Some? {
      assert MoreOrs(a.value, [OrOr] + u) == MoreOrs(Or(a.value, b.value), rest);
    }
  }

  lemma CompareReads(equal: bool, l: Operand, r: Operand, rest: seq<Token>)
    requires Ends(rest) && !l.Computed? && !r.Computed?
    ensures var c := Equals(equal, Leaf(l), Leaf(r));
            ParseOr([Piece(WriteOperand(l)), if equal then EqEq else NotEq, Piece(WriteOperand(r))] + rest)
              == Then(if Legible(c) then Some(RereadRust(c)) else None, rest)
  {
    hide WriteOperand, ReadOperand, Reread, NoLoneCr, LiteralIn;
    OperandReads(l);
    OperandReads(r);
    var t := [Piece(WriteOperand(l)), if equal then EqEq else NotEq, Piece(WriteOperand(r))] + rest;
    var u := [Piece(WriteOperand(r))] + rest;
    assert t[1..] == [if equal then EqEq else NotEq] + u && t[1..][1..] == u && u[1..] == rest;
    var left, right := ReadOperand(WriteOperand(l)), ReadOperand(WriteOperand(r));
    assert ParseUnary(t) == Then(if left.Some? then Some(Leaf(left.value)) else None, t[1..]);
    assert ParseUnary(u) == Then(if right.Some? then Some(Leaf(right.value)) else None, rest);
    var both := if left.Some? && right.Some? then Some(Equals(equal, Leaf(left.value), Leaf(right.value))) else None;
    assert ParseComparison(t) == Then(both, rest);
    ComparisonAlone(t, both, rest);
  }

  lemma NotReads(inner: seq<Token>, e: Option<Rust>, rest: seq<Token>)
    requires ParseUnary(inner + rest) == Then(e, rest) && Ends(rest)
    ensures ParseOr([Bang] + inner + rest) == Then(if e.Some? then Some(Not(e.value)) else None, rest)
  {
    var t := [Bang] + inner + rest;
    var n := if e.Some? then Some(Not(e.value)) else None;
    assert t[1..] == inner + rest;
    assert ParseUnary(t) == Then(n, rest);
    UnaryAlone(t, n, rest);
    ComparisonAlone(t, n, rest);
  }

  /** No text in the guard holds a lone carriage return. */
  predicate Legible(r: Rust) {
    match r
    case Leaf(o) => NoLoneCr(LiteralIn(o))
    case Equals(_, a, b) => Legible(a) && Legible(b)
    case And(a, b) => Legible(a) && Legible(b)
    case Or(a, b) => Legible(a) && Legible(b)
    case Not(a) => Legible(a)
  }

  function RereadRust(r: Rust): Rust {
    match r
    case Leaf(o) => Leaf(Reread(o))
    case Equals(equal, a, b) => Equals(equal, RereadRust(a), RereadRust(b))
    case And(a, b) => And(RereadRust(a), RereadRust(b))
    case Or(a, b) => Or(RereadRust(a), RereadRust(b))
    case Not(a) => Not(RereadRust(a))
  }

  function ReadingOf(r: Rust): Option<Rust> {
    if Legible(r) then Some(RereadRust(r)) else None
  }

  lemma ReadingParts(a: Rust, b: Rust)
    ensures ReadingOf(And(a, b)) == AndOf(ReadingOf(a), ReadingOf(b))
    ensures ReadingOf(Or(a, b)) == OrOf(ReadingOf(a), ReadingOf(b))
    ensures ReadingOf(Not(a)) == if ReadingOf(a).Some? then Some(Not(ReadingOf(a).value)) else None
  {
  }

  /** Two parenthesised expressions and an operator between them. */
  lemma PairReads(a: Rust, op: Token, b: Rust, rest: seq<Token>)
    requires Printed(a) && Printed(b) && Ends(rest)
    requires ParseOr(Print(a) + ([Close] + ([op] + (Paren(Print(b)) + rest))))
               == Then(ReadingOf(a), [Close] + ([op] + (Paren(Print(b)) + rest)))
    requires ParseOr(Print(b) + ([Close] + rest)) == Then(ReadingOf(b), [Close] + rest)
    ensures op == AndAnd ==>
              ParseOr(Paren(Print(a)) + [op] + Paren(Print(b)) + rest) == Then(AndOf(ReadingOf(a), ReadingOf(b)), rest)
    ensures op == OrOr ==>
              ParseOr(Paren(Print(a)) + [op] + Paren(Print(b)) + rest) == Then(OrOf(ReadingOf(a), ReadingOf(b)), rest)
  {
    hide ParseOr, ParseUnary, Print, Printed, ReadingOf, Then, AndOf, OrOf;
    var u := Paren(Print(b)) + rest;
    ParenReads(Print(a), ReadingOf(a), [op] + u);
    ParenReads(Print(b), ReadingOf(b), rest);
    var t := Paren(Print(a)) + ([op] + u);
    assert Paren(Print(a)) + [op] + Paren(Print(b)) + rest == t;
    if op == AndAnd { AndReads(t, ReadingOf(a), u, ReadingOf(b), rest); }
    if op == OrOr { OrReads(t, ReadingOf(a), u, ReadingOf(b), rest); }
  }

  /**
   No parenthesis is missing: the grammar reads a guard back as the expression it was made from, with every
   CRLF in its texts an LF; and it reads nothing exactly when a text holds a lone carriage return.
   */
  lemma {:induction false} PrintReads(r: Rust, rest: seq<Token>)
    requires Printed(r) && Ends(rest)
    ensures ParseOr(Print(r) + rest) == Then(ReadingOf(r), rest)
  {
    hide ParseOr, ReadingOf, Then, AndOf, OrOf, WriteOperand;
    match r
    case Equals(equal, l, r) => EqualsReads(equal, l.operand, r.operand, rest);
    case And(a, b) =>
      PrintReads(a, [Close] + ([AndAnd] + (Paren(Print(b)) + rest)));
      PrintReads(b, [Close] + rest);
      ReadingParts(a, b);
      PairReads(a, AndAnd, b, rest);
    case Or(a, b) =>
      PrintReads(a, [Close] + ([OrOr] + (Paren(Print(b)) + rest)));
      PrintReads(b, [Close] + rest);
      ReadingParts(a, b);
      PairReads(a, OrOr, b, rest);
    case Not(a) =>
      PrintReads(a, [Close] + rest);
      ReadingParts(a, a);
      ParenReads(Print(a), ReadingOf(a), rest);
      NotReads(Paren(Print(a)), ReadingOf(a), rest);
  }

  lemma EqualsReads(equal: bool, l: Operand, r: Operand, rest: seq<Token>)
    requires Ends(rest) && !l.Computed? && !r.Computed?
    ensures var c := Equals(equal, Leaf(l), Leaf(r)); ParseOr(Print(c) + rest) == Then(ReadingOf(c), rest)
  {
    hide ParseOr, WriteOperand, Legible, RereadRust;
    CompareReads(equal, l, r, rest);
  }

  lemma ParsePrint(r: Rust)
    requires Printed(r)
    ensures Parse(Print(r)) == ReadingOf(r)
  {
    PrintReads(r, []);
    assert Print(r) + [] == Print(r);
  }

  // ---------------------------------------------------------------- conditions keep their meaning

  /** Every comparison of the condition is one Rust types. */
  predicate Typed(c: Cond) {
    match c
    case Compare(_, l, r) => Comparable(l, r)
    case Both(a, b) => Typed(a) && Typed(b)
    case Either(a, b) => Typed(a) && Typed(b)
    case Unrendered(_) => true
  }

  /** No text in the condition holds a lone carriage return. */
  predicate LegibleCond(c: Cond) {
    match c
    case Compare(_, l, r) => NoLoneCr(LiteralIn(l)) && NoLoneCr(LiteralIn(r))
    case Both(a, b) => LegibleCond(a) && LegibleCond(b)
    case Either(a, b) => LegibleCond(a) && LegibleCond(b)
    case Unrendered(_) => true
  }

  /** The condition with its texts as Rust reads them. */
  function RereadCond(c: Cond): Cond {
    match c
    case Compare(equal, l, r) => Compare(equal, Reread(l), Reread(r))
    case Both(a, b) => Both(RereadCond(a), RereadCond(b))
    case Either(a, b) => Either(RereadCond(a), RereadCond(b))
    case Unrendered(_) => c
  }

  predicate CrFreeRust(r: Rust) {
    match r
    case Leaf(o) => CR !in LiteralIn(o)
    case Equals(_, a, b) => CrFreeRust(a) && CrFreeRust(b)
    case And(a, b) => CrFreeRust(a) && CrFreeRust(b)
    case Or(a, b) => CrFreeRust(a) && CrFreeRust(b)
    case Not(a) => CrFreeRust(a)
  }

  lemma {:induction false} CrFreeReads(r: Rust)
    requires CrFreeRust(r)
    ensures Legible(r) && RereadRust(r) == r
  {
    match r
    case Leaf(o) => RereadKept(o);
    case Equals(_, a, b) => CrFreeReads(a); CrFreeReads(b);
    case And(a, b) => CrFreeReads(a); CrFreeReads(b);
    case Or(a, b) => CrFreeReads(a); CrFreeReads(b);
    case Not(a) => CrFreeReads(a);
  }

  /** What a condition needs for its guard to compile, and, if `exactly`, to be itself. */
  predicate CondFits(exactly: bool, c: Cond) {
    Typed(c) && (if exactly then CrFree(c) else LegibleCond(c))
  }

  predicate RustFits(exactly: bool, r: Rust) {
    IsBool(r) && (if exactly then CrFreeRust(r) else Legible(r))
  }

  lemma {:induction false} CondFitsTranslated(exactly: bool, c: Cond)
    requires RenderCondition(c).Some?
    ensures RustFits(exactly, Translate(c)) <==> CondFits(exactly, c)
  {
    match c
    case Both(a, b) => CondFitsTranslated(exactly, a); CondFitsTranslated(exactly, b);
    case Either(a, b) => CondFitsTranslated(exactly, a); CondFitsTranslated(exactly, b);
    case Compare(equal, l, r) =>
      assert Legible(Leaf(l)) == NoLoneCr(LiteralIn(l)) && Legible(Leaf(r)) == NoLoneCr(LiteralIn(r));
      assert CrFreeRust(Leaf(l)) == (CR !in LiteralIn(l)) && CrFreeRust(Leaf(r)) == (CR !in LiteralIn(r));
  }

  /** No text in the condition holds a carriage return. */
  predicate CrFree(c: Cond) {
    match c
    case Compare(_, l, r) => CR !in LiteralIn(l) && CR !in LiteralIn(r)
    case Both(a, b) => CrFree(a) && CrFree(b)
    case Either(a, b) => CrFree(a) && CrFree(b)
    case Unrendered(_) => true
  }

  lemma {:induction false} CrFreeIsKept(c: Cond)
    requires CrFree(c)
    ensures LegibleCond(c) && RereadCond(c) == c
  {
    match c
    case Compare(_, l, r) => RereadKept(l); RereadKept(r);
    case Both(a, b) => CrFreeIsKept(a); CrFreeIsKept(b);
    case Either(a, b) => CrFreeIsKept(a); CrFreeIsKept(b);
    case _ =>
  }

  /** What is printed for a condition is a guard: typed exactly when the condition is, and true exactly when it is. */
  lemma {:induction false} RenderKeeps(c: Cond)
    requires RenderCondition(c).Some?
    ensures Printed(Translate(c)) && RenderCondition(c).value == Print(Translate(c))
    ensures IsBool(Translate(c)) <==> Typed(c)
    ensures forall req :: IsTrue(req, Translate(c)) <==> Holds(req, c)
  {
    match c
    case Both(a, b) => RenderKeeps(a); RenderKeeps(b);
    case Either(a, b) => RenderKeeps(a); RenderKeeps(b);
    case _ =>
  }

  /** Rereading a condition and translating it is translating it and rereading. */
  lemma {:induction false} RereadTranslates(c: Cond)
    ensures RenderCondition(RereadCond(c)).Some? <==> RenderCondition(c).Some?
    ensures RenderCondition(c).Some? ==>
              && Translate(RereadCond(c)) == RereadRust(Translate(c))
              && (Legible(Translate(c)) <==> LegibleCond(c))
    ensures Typed(RereadCond(c)) <==> Typed(c)
  {
    match c
    case Both(a, b) => RereadTranslates(a); RereadTranslates(b);
    case Either(a, b) => RereadTranslates(a); RereadTranslates(b);
    case _ =>
  }

  lemma {:induction false} RereadIsBool(r: Rust)
    ensures Printed(r) ==> Printed(RereadRust(r))
    ensures IsBool(RereadRust(r)) <==> IsBool(r)
  {
    match r
    case Equals(_, a, b) => RereadIsBool(a); RereadIsBool(b);
    case And(a, b) => RereadIsBool(a); RereadIsBool(b);
    case Or(a, b) => RereadIsBool(a); RereadIsBool(b);
    case Not(a) => RereadIsBool(a);
    case _ =>
  }

  /**
   The text of a rendered condition parses exactly when none of its texts holds a lone carriage return; it is
   then the condition with CRLF read as LF, typed and true exactly when that is.
   */
  lemma ConditionKeepsMeaning(c: Cond)
    requires RenderCondition(c).Some?
    ensures Parse(RenderCondition(c).value).Some? <==> LegibleCond(c)
    ensures LegibleCond(c) ==>
              var e := Parse(RenderCondition(c).value).value;
              && (IsBool(e) <==> Typed(c))
              && forall req :: IsTrue(req, e) <==> Holds(req, RereadCond(c))
    ensures CrFree(c) ==> LegibleCond(c) && RereadCond(c) == c
  {
    hide Legible, RereadRust, IsTrue, Holds, IsBool, Typed;
    RenderKeeps(c);
    RereadTranslates(c);
    RereadIsBool(Translate(c));
    RenderKeeps(RereadCond(c));
    ParsePrint(Translate(c));
    if CrFree(c) { CrFreeIsKept(c); }
  }

  /** A CRLF compiles and changes the condition: the generated guard compares with a line feed. */
  lemma CrlfReadsLf(req: Request)
    requires req.path == [CR, LF]
    ensures var c := Compare(true, Get(Input(Path)), Str([CR, LF]));
            && Holds(req, c) && RenderCondition(c).Some? && Parse(RenderCondition(c).value).Some?
            && !IsTrue(req, Parse(RenderCondition(c).value).value)
  {
    var text: Bytes := [CR, LF];
    var c := Compare(true, Get(Input(Path)), Str(text));
    assert text[2..] == [] && CrlfToLf([]) == [] && NoLoneCr([]);
    assert CrlfToLf(text) == [LF] + CrlfToLf(text[2..]) && NoLoneCr(text);
    ConditionKeepsMeaning(c);
  }
}
