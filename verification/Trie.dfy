/**
 The backtracking route trie both servers use (src/app.ts, rust-core/src/lib.rs), and the plain list of
 patterns it stands for. The two differ in which of two routes with the same shape they keep.
 */
module Trie {
  import opened Bytes

  /** One segment of a pattern: fixed text, or a hole that takes any segment. */
  datatype Part = Fixed(text: Bytes) | Hole(name: Bytes)

  type Pattern = seq<Part>

  datatype Node = Node(route: Option<nat>, statics: map<Bytes, Node>, param: Option<Param>)
  datatype Param = Param(key: Bytes, child: Node)

  const EMPTY: Node := Node(None, map[], None)

  datatype Policy = KeepFirst | KeepLast

  type Bindings = map<Bytes, Bytes>

  // ---------------------------------------------------------------- the trie

  function Child(n: Node, text: Bytes): Node {
    if text in n.statics then n.statics[text] else EMPTY
  }

  /** A param child keeps the name it was created with. */
  function Insert(policy: Policy, n: Node, parts: Pattern, route: nat): Node
    decreases |parts|
  {
    if parts == [] then
      if policy == KeepFirst && n.route.Some? then n else n.(route := Some(route))
    else match parts[0]
      case Fixed(text) => n.(statics := n.statics[text := Insert(policy, Child(n, text), parts[1..], route)])
      case Hole(name) =>
        match n.param
        case None => n.(param := Some(Param(name, Insert(policy, EMPTY, parts[1..], route))))
        case Some(p) => n.(param := Some(Param(p.key, Insert(policy, p.child, parts[1..], route))))
  }

  datatype Matched = Matched(route: Option<nat>, params: Bindings)

  /** Static child first, then the param child; `params` is one map all branches write to and clean up after. */
  function Match(n: Node, segs: seq<Bytes>, decode: Bytes -> Bytes, params: Bindings): Matched
    decreases |segs|
  {
    if segs == [] then Matched(n.route, params)
    else
      var first := if segs[0] in n.statics then Match(n.statics[segs[0]], segs[1..], decode, params)
        else Matched(None, params);
      if first.route.Some? then first
      else match n.param
        case None => first
        case Some(p) =>
          var second := Match(p.child, segs[1..], decode, first.params[p.key := decode(segs[0])]);
          if second.route.Some? then second else Matched(None, second.params - {p.key})
  }

  // ---------------------------------------------------------------- shapes

  /** A pattern without its names: the text of each fixed segment, nothing for a hole. */
  type Shape = seq<Option<Bytes>>

  function ShapeOf(parts: Pattern): Shape {
    seq(|parts|, i requires 0 <= i < |parts| => match parts[i] case Fixed(text) => Some(text) case Hole(_) => None)
  }

  /** A request path fits a shape when it has its fixed segments. */
  predicate Fits(shape: Shape, segs: seq<Bytes>) {
    |shape| == |segs| && forall i :: 0 <= i < |segs| ==> shape[i] == None || shape[i] == Some(segs[i])
  }

  /** Lexicographic order, fixed before hole, for two shapes the same path fits. */
  predicate Before(a: Shape, b: Shape)
    requires |a| == |b|
  {
    a != [] && (if a[0] == b[0] then Before(a[1..], b[1..]) else a[0].Some? && b[0].None?)
  }

  /** The route stored under a shape. */
  function RouteAt(n: Node, shape: Shape): Option<nat>
    decreases |shape|
  {
    if shape == [] then n.route
    else match shape[0]
      case Some(text) => if text in n.statics then RouteAt(n.statics[text], shape[1..]) else None
      case None => match n.param case None => None case Some(p) => RouteAt(p.child, shape[1..])
  }

  /** The shape matching ends at. */
  function Chosen(n: Node, segs: seq<Bytes>): Option<Shape>
    decreases |segs|
  {
    if segs == [] then if n.route.Some? then Some([]) else None
    else
      var first := if segs[0] in n.statics then Chosen(n.statics[segs[0]], segs[1..]) else None;
      if first.Some? then Some([Some(segs[0])] + first.value)
      else match n.param
        case None => None
        case Some(p) =>
          match Chosen(p.child, segs[1..]) case None => None case Some(rest) => Some([None] + rest)
  }

  lemma {:induction false} MatchIsChosen(n: Node, segs: seq<Bytes>, decode: Bytes -> Bytes, params: Bindings)
    ensures var m := Match(n, segs, decode, params);
            && (m.route.Some? <==> Chosen(n, segs).Some?)
            && (m.route.Some? ==> Fits(Chosen(n, segs).value, segs) && RouteAt(n, Chosen(n, segs).value) == m.route)
    decreases |segs|
  {
    if segs != [] {
      var rest := segs[1..];
      if segs[0] in n.statics { MatchIsChosen(n.statics[segs[0]], rest, decode, params); }
      var first := if segs[0] in n.statics then Match(n.statics[segs[0]], rest, decode, params)
        else Matched(None, params);
      if first.route.None? && n.param.Some? {
        var p := n.param.value;
        MatchIsChosen(p.child, rest, decode, first.params[p.key := decode(segs[0])]);
      }
      if Chosen(n, segs).Some? {
        var shape := Chosen(n, segs).value;
        assert shape[1..] == shape[1..][..] && |shape| == |segs|;
      }
    }
  }

  /** Nothing that fits comes before the chosen shape, and nothing fits when none is chosen. */
  lemma {:induction false} ChosenIsFirst(n: Node, segs: seq<Bytes>, other: Shape)
    requires Fits(other, segs) && RouteAt(n, other).Some?
    ensures Chosen(n, segs).Some? && |Chosen(n, segs).value| == |other|
    ensures Chosen(n, segs).value == other || Before(Chosen(n, segs).value, other)
    decreases |segs|
  {
    if segs != [] {
      var rest := segs[1..];
      match other[0]
      case Some(text) =>
        assert text == segs[0];
        ChosenIsFirst(n.statics[text], rest, other[1..]);
        assert other == [Some(text)] + other[1..];
      case None =>
        ChosenIsFirst(n.param.value.child, rest, other[1..]);
        assert other == [None] + other[1..];
        if segs[0] in n.statics && Chosen(n.statics[segs[0]], rest).Some? {
          MatchIsChosen(n.statics[segs[0]], rest, x => x, map[]);
        }
    }
  }

  // ---------------------------------------------------------------- registrations

  datatype Registration = Registration(parts: Pattern, route: nat)

  /** The trie after registering a list of routes in order. */
  function Build(policy: Policy, regs: seq<Registration>): Node {
    if regs == [] then EMPTY
    else
      var last := regs[|regs| - 1];
      Insert(policy, Build(policy, regs[..|regs| - 1]), last.parts, last.route)
  }

  /** The route a list of registrations has for a shape: its first or its last one. */
  function Registered(policy: Policy, regs: seq<Registration>, shape: Shape): Option<nat> {
    if regs == [] then None
    else
      var last, before := regs[|regs| - 1], Registered(policy, regs[..|regs| - 1], shape);
      if ShapeOf(last.parts) != shape then before
      else if policy == KeepFirst && before.Some? then before
      else Some(last.route)
  }

  lemma {:induction false} InsertAt(policy: Policy, n: Node, parts: Pattern, route: nat, shape: Shape)
    ensures RouteAt(Insert(policy, n, parts, route), shape) ==
              if ShapeOf(parts) == shape && !(policy == KeepFirst && RouteAt(n, shape).Some?) then Some(route)
              else RouteAt(n, shape)
    decreases |parts|
  {
    if parts != [] && shape != [] {
      assert ShapeOf(parts)[1..] == ShapeOf(parts[1..]);
      assert ShapeOf(parts) == shape <==> ShapeOf(parts)[0] == shape[0] && ShapeOf(parts[1..]) == shape[1..] by {
        assert shape == [shape[0]] + shape[1..];
        assert ShapeOf(parts) == [ShapeOf(parts)[0]] + ShapeOf(parts[1..]);
      }
      match parts[0]
      case Fixed(text) =>
        InsertAt(policy, Child(n, text), parts[1..], route, shape[1..]);
        if text !in n.statics { NothingInEmpty(shape[1..]); }
      case Hole(_) =>
        if n.param.Some? {
          InsertAt(policy, n.param.value.child, parts[1..], route, shape[1..]);
        } else {
          InsertAt(policy, EMPTY, parts[1..], route, shape[1..]);
          NothingInEmpty(shape[1..]);
        }
    }
  }

  lemma NothingInEmpty(shape: Shape)
    ensures RouteAt(EMPTY, shape) == None
  {
  }

  /** The trie holds for every shape exactly the route the list has for it. */
  lemma {:induction false} BuildHolds(policy: Policy, regs: seq<Registration>, shape: Shape)
    ensures RouteAt(Build(policy, regs), shape) == Registered(policy, regs, shape)
  {
    if regs == [] {
      NothingInEmpty(shape);
    } else {
      var last := regs[|regs| - 1];
      BuildHolds(policy, regs[..|regs| - 1], shape);
      InsertAt(policy, Build(policy, regs[..|regs| - 1]), last.parts, last.route, shape);
    }
  }

  lemma {:induction false} RegisteredMeans(policy: Policy, regs: seq<Registration>, shape: Shape)
    ensures Registered(policy, regs, shape).Some? <==> exists i :: 0 <= i < |regs| && ShapeOf(regs[i].parts) == shape
    ensures Registered(policy, regs, shape).Some? ==>
              exists i :: 0 <= i < |regs| && ShapeOf(regs[i].parts) == shape
                && Registered(policy, regs, shape) == Some(regs[i].route)
                && forall j :: 0 <= j < |regs| && (if policy == KeepFirst then j < i else j > i) ==>
                     ShapeOf(regs[j].parts) != shape
  {
    if regs != [] {
      var n := |regs| - 1;
      var before := regs[..n];
      RegisteredMeans(policy, before, shape);
      if ShapeOf(regs[n].parts) == shape {
        if policy == KeepFirst && Registered(policy, before, shape).Some? {
          var i :| 0 <= i < n && ShapeOf(before[i].parts) == shape
            && Registered(policy, before, shape) == Some(before[i].route)
            && forall j :: 0 <= j < n && j < i ==> ShapeOf(before[j].parts) != shape;
          assert ShapeOf(regs[i].parts) == shape;
          assert forall j :: 0 <= j < |regs| && j < i ==> regs[j] == before[j];
        } else {
          assert ShapeOf(regs[n].parts) == shape;
          assert forall j :: 0 <= j < n ==> regs[j] == before[j];
        }
      } else if Registered(policy, before, shape).Some? {
        var i :| 0 <= i < n && ShapeOf(before[i].parts) == shape
          && Registered(policy, before, shape) == Some(before[i].route)
          && forall j :: 0 <= j < n && (if policy == KeepFirst then j < i else j > i) ==>
               ShapeOf(before[j].parts) != shape;
        assert ShapeOf(regs[i].parts) == shape;
        assert forall j :: 0 <= j < n ==> regs[j] == before[j];
      }
    }
  }

  /**
   Matching refines the list: it succeeds exactly when some registered pattern fits the path, and picks the
   pattern that comes first, static before param, in lexicographic order; among equal shapes the first
   registered, or the last.
   */
  lemma MatchRefinesList(policy: Policy, regs: seq<Registration>, segs: seq<Bytes>, decode: Bytes -> Bytes,
                         params: Bindings)
    ensures var r := Match(Build(policy, regs), segs, decode, params).route;
            && (r.Some? <==> exists i :: 0 <= i < |regs| && Fits(ShapeOf(regs[i].parts), segs))
            && (r.Some? ==>
                  && Chosen(Build(policy, regs), segs).Some?
                  && var shape := Chosen(Build(policy, regs), segs).value;
                     && Fits(shape, segs) && r == Registered(policy, regs, shape)
                     && forall i :: 0 <= i < |regs| && Fits(ShapeOf(regs[i].parts), segs)
                          && ShapeOf(regs[i].parts) != shape
                          ==> Before(shape, ShapeOf(regs[i].parts)))
  {
    hide Match, Chosen, Build, Registered, ShapeOf, RouteAt;
    var t := Build(policy, regs);
    MatchIsChosen(t, segs, decode, params);
    forall i | 0 <= i < |regs| && Fits(ShapeOf(regs[i].parts), segs)
      ensures Chosen(t, segs).Some? && |Chosen(t, segs).value| == |ShapeOf(regs[i].parts)|
      ensures Chosen(t, segs).value == ShapeOf(regs[i].parts) || Before(Chosen(t, segs).value, ShapeOf(regs[i].parts))
    {
      var shape := ShapeOf(regs[i].parts);
      RegisteredMeans(policy, regs, shape);
      BuildHolds(policy, regs, shape);
      ChosenIsFirst(t, segs, shape);
    }
    if Chosen(t, segs).Some? {
      BuildHolds(policy, regs, Chosen(t, segs).value);
      RegisteredMeans(policy, regs, Chosen(t, segs).value);
    }
  }

  // ---------------------------------------------------------------- captures

  /** Keys of every param child a failed match has been through. */
  function Visited(n: Node, segs: seq<Bytes>): set<Bytes>
    decreases |segs|
  {
    if segs == [] then {}
    else
      (if segs[0] in n.statics then Visited(n.statics[segs[0]], segs[1..]) else {}) +
      (match n.param case None => {} case Some(p) => {p.key} + Visited(p.child, segs[1..]))
  }

  /** A failed match takes the keys it has been through out of the map, and touches nothing else. */
  lemma {:induction false} FailureCleansUp(n: Node, segs: seq<Bytes>, decode: Bytes -> Bytes, params: Bindings)
    requires Match(n, segs, decode, params).route.None?
    ensures Match(n, segs, decode, params).params == params - Visited(n, segs)
    decreases |segs|
  {
    if segs != [] {
      var rest := segs[1..];
      if segs[0] in n.statics { FailureCleansUp(n.statics[segs[0]], rest, decode, params); }
      var first := if segs[0] in n.statics then Match(n.statics[segs[0]], rest, decode, params)
        else Matched(None, params);
      if n.param.Some? {
        var p := n.param.value;
        FailureCleansUp(p.child, rest, decode, first.params[p.key := decode(segs[0])]);
      }
    }
  }

  /** So a failed match leaves the map as it was exactly when no such key was in it. */
  lemma FailureRestores(n: Node, segs: seq<Bytes>, decode: Bytes -> Bytes, params: Bindings)
    requires Match(n, segs, decode, params).route.None?
    ensures Match(n, segs, decode, params).params == params <==> Visited(n, segs) !! params.Keys
  {
    FailureCleansUp(n, segs, decode, params);
    if Visited(n, segs) !! params.Keys {
      assert params - Visited(n, segs) == params;
    } else {
      var k :| k in Visited(n, segs) && k in params;
      assert k !in params - Visited(n, segs);
    }
  }

  /** Along no path that fits does a key occur twice, or one in `used`. */
  predicate KeysApart(n: Node, segs: seq<Bytes>, used: set<Bytes>)
    decreases |segs|
  {
    segs == [] || (
      (segs[0] in n.statics ==> KeysApart(n.statics[segs[0]], segs[1..], used)) &&
      (match n.param case None => true case Some(p) => p.key !in used && KeysApart(p.child, segs[1..], used + {p.key})))
  }

  /** One value for each hole of a shape, under the trie's key for it. */
  function Captures(n: Node, shape: Shape, segs: seq<Bytes>, decode: Bytes -> Bytes): Bindings
    requires |shape| == |segs|
    decreases |shape|
  {
    if shape == [] then map[]
    else match shape[0]
      case Some(text) => if text in n.statics then Captures(n.statics[text], shape[1..], segs[1..], decode) else map[]
      case None =>
        match n.param
        case None => map[]
        case Some(p) => map[p.key := decode(segs[0])] + Captures(p.child, shape[1..], segs[1..], decode)
  }

  lemma {:induction false} ApartVisited(n: Node, segs: seq<Bytes>, used: set<Bytes>)
    requires KeysApart(n, segs, used)
    ensures Visited(n, segs) !! used
    decreases |segs|
  {
    if segs != [] {
      if segs[0] in n.statics { ApartVisited(n.statics[segs[0]], segs[1..], used); }
      if n.param.Some? { ApartVisited(n.param.value.child, segs[1..], used + {n.param.value.key}); }
    }
  }

  lemma FixedCaptures(n: Node, segs: seq<Bytes>, decode: Bytes -> Bytes, shape: Shape)
    requires segs != [] && segs[0] in n.statics && |shape| == |segs| - 1
    ensures Captures(n, [Some(segs[0])] + shape, segs, decode) == Captures(n.statics[segs[0]], shape, segs[1..], decode)
  {
    assert ([Some(segs[0])] + shape)[1..] == shape;
  }

  /** Binding a hole and then the holes below it is binding all of them at once. */
  lemma HoleCaptures(n: Node, segs: seq<Bytes>, decode: Bytes -> Bytes, shape: Shape, params: Bindings)
    requires segs != [] && n.param.Some? && |shape| == |segs| - 1
    ensures var p := n.param.value;
            params[p.key := decode(segs[0])] + Captures(p.child, shape, segs[1..], decode)
              == params + Captures(n, [None] + shape, segs, decode)
  {
    assert ([None] + shape)[1..] == shape;
    hide Captures;
    var below := Captures(n.param.value.child, shape, segs[1..], decode);
    var key, value := n.param.value.key, decode(segs[0]);
    assert params[key := value] + below == params + (map[key := value] + below);
    assert Captures(n, [None] + shape, segs, decode) == map[key := value] + below by {
      CaptureHole(n, segs, decode, shape);
    }
  }

  lemma CaptureHole(n: Node, segs: seq<Bytes>, decode: Bytes -> Bytes, shape: Shape)
    requires segs != [] && n.param.Some? && |shape| == |segs| - 1
    ensures var p := n.param.value;
            Captures(n, [None] + shape, segs, decode)
              == map[p.key := decode(segs[0])] + Captures(p.child, shape, segs[1..], decode)
  {
    assert ([None] + shape)[1..] == shape;
  }

  lemma FailureKeeps(n: Node, segs: seq<Bytes>, decode: Bytes -> Bytes, params: Bindings)
    requires KeysApart(n, segs, params.Keys) && Match(n, segs, decode, params).route.None?
    ensures Match(n, segs, decode, params).params == params
  {
    ApartVisited(n, segs, params.Keys);
    FailureRestores(n, segs, decode, params);
  }

  /** Where keys are distinct along every path, a match binds the holes of the chosen shape and a failed one nothing. */
  lemma {:induction false} MatchCaptures(n: Node, segs: seq<Bytes>, decode: Bytes -> Bytes, params: Bindings)
    requires KeysApart(n, segs, params.Keys)
    ensures var m := Match(n, segs, decode, params);
            && (m.route.None? ==> m.params == params)
            && (m.route.Some? ==>
                  && Chosen(n, segs).Some? && |Chosen(n, segs).value| == |segs|
                  && m.params == params + Captures(n, Chosen(n, segs).value, segs, decode))
    decreases |segs|
  {
    var m := Match(n, segs, decode, params);
    MatchIsChosen(n, segs, decode, params);
    if m.route.None? {
      FailureKeeps(n, segs, decode, params);
    } else if segs == [] {
      assert Captures(n, [], segs, decode) == map[];
    } else {
      hide Captures;
      var rest := segs[1..];
      if segs[0] in n.statics {
        MatchIsChosen(n.statics[segs[0]], rest, decode, params);
        MatchCaptures(n.statics[segs[0]], rest, decode, params);
      }
      if segs[0] in n.statics && Match(n.statics[segs[0]], rest, decode, params).route.Some? {
        FixedCaptures(n, segs, decode, Chosen(n.statics[segs[0]], rest).value);
      } else {
        var p := n.param.value;
        var bound := params[p.key := decode(segs[0])];
        assert bound.Keys == params.Keys + {p.key};
        MatchCaptures(p.child, rest, decode, bound);
        HoleCaptures(n, segs, decode, Chosen(p.child, rest).value, params);
      }
    }
  }

  /** The first route's names stay in the trie: two routes with distinct names each can still share a key. */
  lemma NamesCollide()
    ensures var a: Bytes, b: Bytes, x: Bytes, y: Bytes := [97], [98], [120], [121];
            var regs := [Registration([Hole(a), Fixed(x)], 1), Registration([Hole(b), Hole(a)], 2)];
            && Match(Build(KeepFirst, regs), [x, y], s => s, map[]) == Matched(Some(2), map[a := y])
            && !KeysApart(Build(KeepFirst, regs), [x, y], {})
  {
    var a: Bytes, b: Bytes, x: Bytes, y: Bytes := [97], [98], [120], [121];
    var first, second := Registration([Hole(a), Fixed(x)], 1), Registration([Hole(b), Hole(a)], 2);
    var regs := [first, second];
    assert regs[..1] == [first] && [first][..0] == [];
    var leaf := Node(Some(1), map[], None);
    assert Insert(KeepFirst, EMPTY, [Fixed(x)], 1) == Node(None, map[x := leaf], None) by {
      assert [Fixed(x)][1..] == [];
    }
    var mid := Node(None, map[x := leaf], None);
    assert Build(KeepFirst, [first]) == Node(None, map[], Some(Param(a, mid))) by {
      assert first.parts[1..] == [Fixed(x)];
    }
    var deep := Node(None, map[x := leaf], Some(Param(a, Node(Some(2), map[], None))));
    assert Insert(KeepFirst, mid, [Hole(a)], 2) == deep by { assert [Hole(a)][1..] == []; }
    assert Build(KeepFirst, regs) == Node(None, map[], Some(Param(a, deep))) by {
      assert second.parts[1..] == [Hole(a)];
    }
    var segs: seq<Bytes> := [x, y];
    assert segs[1..] == [y] && segs[1..][1..] == [];
    assert x != y by { assert x[0] != y[0]; }
    assert Match(deep, [y], s => s, map[a := x]) == Matched(Some(2), map[a := x][a := y]);
  }

  // ---------------------------------------------------------------- first or last: when it shows

  function Same(s: Bytes): Bytes { s }

  /** The route a path gets. */
  function Selected(policy: Policy, regs: seq<Registration>, segs: seq<Bytes>): Option<nat> {
    Match(Build(policy, regs), segs, Same, map[]).route
  }

  lemma {:induction false} BeforeOneWay(a: Shape, b: Shape)
    requires |a| == |b|
    ensures !(Before(a, b) && Before(b, a))
    decreases |a|
  {
    if a != [] && a[0] == b[0] { BeforeOneWay(a[1..], b[1..]); }
  }

  lemma StoredIsRegistered(policy: Policy, regs: seq<Registration>, shape: Shape)
    ensures RouteAt(Build(policy, regs), shape).Some? <==>
            exists i :: 0 <= i < |regs| && ShapeOf(regs[i].parts) == shape
  {
    BuildHolds(policy, regs, shape);
    RegisteredMeans(policy, regs, shape);
  }

  /** Which shape is chosen does not depend on the policy. */
  lemma SameShapeChosen(regs: seq<Registration>, segs: seq<Bytes>)
    ensures Chosen(Build(KeepFirst, regs), segs) == Chosen(Build(KeepLast, regs), segs)
  {
    hide Chosen, Build, RouteAt, Match, ShapeOf;
    ChosenElsewhere(KeepFirst, KeepLast, regs, segs);
    ChosenElsewhere(KeepLast, KeepFirst, regs, segs);
    var a, b := Chosen(Build(KeepFirst, regs), segs), Chosen(Build(KeepLast, regs), segs);
    if a.Some? { BeforeOneWay(a.value, b.value); }
  }

  lemma ChosenElsewhere(one: Policy, other: Policy, regs: seq<Registration>, segs: seq<Bytes>)
    ensures var a, b := Chosen(Build(one, regs), segs), Chosen(Build(other, regs), segs);
            a.Some? ==> b.Some? && |a.value| == |b.value| && (b == a || Before(b.value, a.value))
  {
    hide Chosen, Build, RouteAt, Match, ShapeOf;
    MatchIsChosen(Build(one, regs), segs, Same, map[]);
    if Chosen(Build(one, regs), segs).Some? {
      var shape := Chosen(Build(one, regs), segs).value;
      StoredIsRegistered(one, regs, shape);
      StoredIsRegistered(other, regs, shape);
      ChosenIsFirst(Build(other, regs), segs, shape);
    }
  }

  /** Text longer than any fixed segment of the routes. */
  function Unused(regs: seq<Registration>): Bytes {
    seq(1 + Longest(regs), _ => 120)
  }

  function Longest(regs: seq<Registration>): nat {
    if regs == [] then 0 else LongestPart(regs[0].parts) + Longest(regs[1..])
  }

  function LongestPart(parts: Pattern): nat {
    if parts == [] then 0 else (if parts[0].Fixed? then |parts[0].text| else 0) + LongestPart(parts[1..])
  }

  lemma {:induction false} PartIsShort(parts: Pattern, i: nat)
    requires i < |parts| && parts[i].Fixed?
    ensures |parts[i].text| <= LongestPart(parts)
  {
    if i > 0 { PartIsShort(parts[1..], i - 1); }
  }

  lemma {:induction false} UnusedIsNowhere(regs: seq<Registration>, k: nat, i: nat)
    requires k < |regs| && i < |regs[k].parts| && regs[k].parts[i].Fixed?
    ensures |regs[k].parts[i].text| <= Longest(regs)
  {
    if k == 0 { PartIsShort(regs[0].parts, i); } else { UnusedIsNowhere(regs[1..], k - 1, i); }
  }

  /** A path that fits the shape, and only fits shapes with a hole where this one has one. */
  function Probe(shape: Shape, text: Bytes): seq<Bytes> {
    seq(|shape|, i requires 0 <= i < |shape| => match shape[i] case Some(t) => t case None => text)
  }

  lemma {:induction false} FirstDifference(a: Shape, b: Shape) returns (i: nat)
    requires |a| == |b| && Before(a, b)
    ensures i < |a| && a[i].Some? && b[i].None?
    decreases |a|
  {
    if a[0] == b[0] {
      var j := FirstDifference(a[1..], b[1..]);
      i := j + 1;
    } else {
      i := 0;
    }
  }

  /** A path whose segments at the shape's holes are no fixed segment of any route. */
  predicate FreshAt(regs: seq<Registration>, shape: Shape, segs: seq<Bytes>) {
    Fits(shape, segs) && forall i :: 0 <= i < |shape| && shape[i].None? ==> |segs[i]| > Longest(regs)
  }

  lemma FreshChooses(policy: Policy, regs: seq<Registration>, shape: Shape, segs: seq<Bytes>)
    requires Registered(policy, regs, shape).Some? && FreshAt(regs, shape, segs)
    ensures Chosen(Build(policy, regs), segs) == Some(shape)
  {
    var t := Build(policy, regs);
    hide Build, Chosen, RouteAt, Registered, Match;
    BuildHolds(policy, regs, shape);
    ChosenIsFirst(t, segs, shape);
    MatchIsChosen(t, segs, Same, map[]);
    var c := Chosen(t, segs).value;
    if c != shape {
      var i := FirstDifference(c, shape);
      StoredIsRegistered(policy, regs, c);
      var k :| 0 <= k < |regs| && ShapeOf(regs[k].parts) == c;
      assert regs[k].parts[i].Fixed? && regs[k].parts[i].text == segs[i];
      UnusedIsNowhere(regs, k, i);
    }
  }

  /** Both policies give every path the same route. */
  ghost predicate SelectAlike(regs: seq<Registration>) {
    forall segs: seq<Bytes> :: Selected(KeepFirst, regs, segs) == Selected(KeepLast, regs, segs)
  }

  /** Of every shape, the first and the last registration are for the same route. */
  ghost predicate RegisteredAlike(regs: seq<Registration>) {
    forall shape: Shape :: Registered(KeepFirst, regs, shape) == Registered(KeepLast, regs, shape)
  }

  /**
   Keeping the first route of a shape or the last makes no difference to any path exactly when those are the
   same route.
   */
  lemma PoliciesAgreeExactly(regs: seq<Registration>)
    ensures SelectAlike(regs) <==> RegisteredAlike(regs)
  {
    hide Match, Chosen, Build, Registered, Probe, Unused, ShapeOf;
    if RegisteredAlike(regs) {
      forall segs: seq<Bytes> ensures Selected(KeepFirst, regs, segs) == Selected(KeepLast, regs, segs) {
        SameShapeChosen(regs, segs);
        MatchRefinesList(KeepFirst, regs, segs, Same, map[]);
        MatchRefinesList(KeepLast, regs, segs, Same, map[]);
      }
      assert SelectAlike(regs);
    }
    if SelectAlike(regs) {
      forall shape: Shape ensures Registered(KeepFirst, regs, shape) == Registered(KeepLast, regs, shape) {
        RegisteredMeans(KeepFirst, regs, shape);
        RegisteredMeans(KeepLast, regs, shape);
        if Registered(KeepFirst, regs, shape).Some? {
          var segs := Probe(shape, Unused(regs));
          ProbeSelects(KeepFirst, regs, shape);
          ProbeSelects(KeepLast, regs, shape);
          assert Selected(KeepFirst, regs, segs) == Selected(KeepLast, regs, segs);
        }
      }
    }
  }

  lemma ProbeSelects(policy: Policy, regs: seq<Registration>, shape: Shape)
    requires Registered(policy, regs, shape).Some?
    ensures Selected(policy, regs, Probe(shape, Unused(regs))) == Registered(policy, regs, shape)
  {
    Picks(policy, regs, Probe(shape, Unused(regs)), shape);
  }

  /** Two routes of one shape: the first is kept by one policy, the last by the other. */
  lemma SameShapeDiffers()
    ensures var a: Bytes, x: Bytes := [97], [120];
            var regs := [Registration([Hole(a)], 1), Registration([Hole(a)], 2)];
            Selected(KeepFirst, regs, [x]) == Some(1) && Selected(KeepLast, regs, [x]) == Some(2)
  {
    var a: Bytes, x: Bytes := [97], [120];
    var first, second := Registration([Hole(a)], 1), Registration([Hole(a)], 2);
    var regs := [first, second];
    var shape := ShapeOf([Hole(a)]);
    assert shape == [None] && regs[..1] == [first] && [first][..0] == [];
    assert Registered(KeepFirst, [first], shape) == Some(1) && Registered(KeepLast, [first], shape) == Some(1);
    var none: seq<Registration> := [];
    assert regs[1..] == [second] && regs[1..][1..] == none && first.parts[1..] == second.parts[1..] == [];
    assert LongestPart(first.parts) == 0 && Longest(none) == 0 && Longest(regs[1..]) == 0 && Longest(regs) == 0;
    Picks(KeepFirst, regs, [x], shape);
    Picks(KeepLast, regs, [x], shape);
  }

  /** On a path that fits no fixed segment, the route of a fitting shape is selected. */
  lemma Picks(policy: Policy, regs: seq<Registration>, segs: seq<Bytes>, shape: Shape)
    requires Registered(policy, regs, shape).Some? && FreshAt(regs, shape, segs)
    ensures Selected(policy, regs, segs) == Registered(policy, regs, shape)
  {
    hide Match, Chosen, Build, Registered, ShapeOf;
    FreshChooses(policy, regs, shape, segs);
    MatchRefinesList(policy, regs, segs, Same, map[]);
    MatchIsChosen(Build(policy, regs), segs, Same, map[]);
  }
}
