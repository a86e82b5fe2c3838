/**
 Which name a capture gets. A param child is named by the first route through it (src/app.ts,
 rust-core/src/lib.rs), so a route sees its own names when the routes of a table agree on them.
 */
module ParamNames {
  import opened Bytes
  import opened Trie

  /** The key of the param child at the node a shape leads to. */
  function KeyAt(n: Node, shape: Shape): Option<Bytes>
    decreases |shape|
  {
    if shape == [] then match n.param case None => None case Some(p) => Some(p.key)
    else match shape[0]
      case Some(text) => if text in n.statics then KeyAt(n.statics[text], shape[1..]) else None
      case None => match n.param case None => None case Some(p) => KeyAt(p.child, shape[1..])
  }

  /** A pattern that goes through `shape` and has a hole there. */
  predicate HoleBehind(parts: Pattern, shape: Shape) {
    |shape| < |parts| && parts[|shape|].Hole? && ShapeOf(parts)[..|shape|] == shape
  }

  lemma NoKeyInEmpty(shape: Shape)
    ensures KeyAt(EMPTY, shape) == None
  {
  }

  lemma HoleBelow(parts: Pattern, shape: Shape)
    requires parts != [] && shape != []
    ensures HoleBehind(parts, shape) <==> ShapeOf(parts)[0] == shape[0] && HoleBehind(parts[1..], shape[1..])
  {
    assert ShapeOf(parts)[1..] == ShapeOf(parts[1..]);
    if |shape| < |parts| {
      var s := ShapeOf(parts);
      assert s[..|shape|] == [s[0]] + s[1..][..|shape| - 1] && shape == [shape[0]] + shape[1..];
    }
  }

  /** Inserting names a param child once, and never renames it. */
  lemma {:induction false} InsertKey(policy: Policy, n: Node, parts: Pattern, route: nat, shape: Shape)
    ensures KeyAt(Insert(policy, n, parts, route), shape) ==
              if KeyAt(n, shape).Some? then KeyAt(n, shape)
              else if HoleBehind(parts, shape) then Some(parts[|shape|].name) else None
    decreases |parts|
  {
    if parts != [] {
      if shape != [] {
        HoleBelow(parts, shape);
        NoKeyInEmpty(shape[1..]);
        match parts[0]
        case Fixed(text) => InsertKey(policy, Child(n, text), parts[1..], route, shape[1..]);
        case Hole(_) => InsertKey(policy, if n.param.Some? then n.param.value.child else EMPTY, parts[1..], route,
          shape[1..]);
      } else {
        assert ShapeOf(parts)[..0] == [];
      }
    }
  }

  /** No route uses a name twice. */
  predicate NamesDistinct(parts: Pattern) {
    forall j, k :: 0 <= j < k < |parts| && parts[j].Hole? && parts[k].Hole? ==> parts[j].name != parts[k].name
  }

  /** The name the first route through `shape` with a hole there gives to that hole. */
  function NameAt(regs: seq<Registration>, shape: Shape): Option<Bytes> {
    if regs == [] then None
    else
      var last, before := regs[|regs| - 1], NameAt(regs[..|regs| - 1], shape);
      if before.Some? then before
      else if HoleBehind(last.parts, shape) then Some(last.parts[|shape|].name) else None
  }

  /** Keys of the trie are first names, whichever route of a shape is kept. */
  lemma {:induction false} KeyIsFirstName(policy: Policy, regs: seq<Registration>, shape: Shape)
    ensures KeyAt(Build(policy, regs), shape) == NameAt(regs, shape)
  {
    if regs == [] {
      NoKeyInEmpty(shape);
    } else {
      var last, before := regs[|regs| - 1], regs[..|regs| - 1];
      KeyIsFirstName(policy, before, shape);
      InsertKey(policy, Build(policy, before), last.parts, last.route, shape);
    }
  }

  lemma {:induction false} NameIsSomeones(regs: seq<Registration>, shape: Shape)
    ensures NameAt(regs, shape).Some? ==>
              exists i :: 0 <= i < |regs| && HoleBehind(regs[i].parts, shape)
                && NameAt(regs, shape).value == regs[i].parts[|shape|].name
  {
    if regs != [] {
      var n := |regs| - 1;
      NameIsSomeones(regs[..n], shape);
      if NameAt(regs[..n], shape).Some? {
        var i :| 0 <= i < n && HoleBehind(regs[..n][i].parts, shape)
          && NameAt(regs[..n], shape).value == regs[..n][i].parts[|shape|].name;
        assert regs[i] == regs[..n][i];
      } else if NameAt(regs, shape).Some? {
        assert HoleBehind(regs[n].parts, shape);
      }
    }
  }

  /** The registration that stands for its shape: the first of it, or the last. */
  predicate Effective(policy: Policy, regs: seq<Registration>, i: nat) {
    && i < |regs|
    && forall j :: 0 <= j < |regs| && (if policy == KeepFirst then j < i else j > i) ==>
         ShapeOf(regs[j].parts) != ShapeOf(regs[i].parts)
  }

  lemma EffectiveStands(policy: Policy, regs: seq<Registration>, shape: Shape) returns (i: nat)
    requires exists j :: 0 <= j < |regs| && ShapeOf(regs[j].parts) == shape
    ensures i < |regs| && Effective(policy, regs, i) && ShapeOf(regs[i].parts) == shape
            && Registered(policy, regs, shape) == Some(regs[i].route)
  {
    hide ShapeOf, Registered;
    RegisteredMeans(policy, regs, shape);
    i :| 0 <= i < |regs| && ShapeOf(regs[i].parts) == shape && Registered(policy, regs, shape) == Some(regs[i].route)
      && forall j :: 0 <= j < |regs| && (if policy == KeepFirst then j < i else j > i) ==>
           ShapeOf(regs[j].parts) != shape;
  }

  lemma EffectiveIsRegistered(policy: Policy, regs: seq<Registration>, i: nat)
    requires Effective(policy, regs, i)
    ensures Registered(policy, regs, ShapeOf(regs[i].parts)) == Some(regs[i].route)
  {
    hide ShapeOf, Registered;
    var k := EffectiveStands(policy, regs, ShapeOf(regs[i].parts));
    assert k == i;
  }

  /** A route's names are distinct, and each hole was first named as it names it. */
  predicate OwnsNames(regs: seq<Registration>, parts: Pattern) {
    && NamesDistinct(parts)
    && forall k :: 0 <= k < |parts| && parts[k].Hole? ==> NameAt(regs, ShapeOf(parts)[..k]) == Some(parts[k].name)
  }

  /** Every route that can be chosen owns its names. */
  ghost predicate Settled(policy: Policy, regs: seq<Registration>) {
    forall i: nat :: Effective(policy, regs, i) ==> OwnsNames(regs, regs[i].parts)
  }

  // ---------------------------------------------------------------- keys are distinct along paths

  function KeysAlong(n: Node, shape: Shape): set<Bytes>
    decreases |shape|
  {
    if shape == [] then {}
    else match shape[0]
      case Some(text) => if text in n.statics then KeysAlong(n.statics[text], shape[1..]) else {}
      case None => match n.param case None => {} case Some(p) => {p.key} + KeysAlong(p.child, shape[1..])
  }

  lemma {:induction false} KeyAlongIsKeyAt(n: Node, shape: Shape, key: Bytes)
    requires key in KeysAlong(n, shape)
    ensures exists q :: 0 <= q < |shape| && shape[q] == None && KeyAt(n, shape[..q]) == Some(key)
    decreases |shape|
  {
    var x, rest := shape[0], shape[1..];
    if x == None && n.param.Some? && n.param.value.key == key {
      assert shape[..0] == [] && KeyAt(n, shape[..0]) == Some(key);
    } else {
      var child := if x.Some? then n.statics[x.value] else n.param.value.child;
      KeyAlongIsKeyAt(child, rest, key);
      var q :| 0 <= q < |rest| && rest[q] == None && KeyAt(child, rest[..q]) == Some(key);
      assert shape[..q + 1][0] == x && shape[..q + 1][1..] == rest[..q];
      assert shape[q + 1] == None && KeyAt(n, shape[..q + 1]) == Some(key);
    }
  }

  /** Wherever a path leads, the next key is a new one. */
  ghost predicate PathsDistinct(n: Node, used: set<Bytes>) {
    forall shape: Shape :: KeyAt(n, shape).Some? ==> KeyAt(n, shape).value !in used + KeysAlong(n, shape)
  }

  lemma {:induction false} DistinctIsApart(n: Node, segs: seq<Bytes>, used: set<Bytes>)
    requires PathsDistinct(n, used)
    ensures KeysApart(n, segs, used)
    decreases |segs|
  {
    if segs != [] {
      var rest := segs[1..];
      if segs[0] in n.statics {
        var child := n.statics[segs[0]];
        forall shape: Shape | KeyAt(child, shape).Some?
          ensures KeyAt(child, shape).value !in used + KeysAlong(child, shape) {
          var below := [Some(segs[0])] + shape;
          assert below[1..] == shape && KeyAt(n, below) == KeyAt(child, shape)
            && KeysAlong(n, below) == KeysAlong(child, shape);
        }
        DistinctIsApart(child, rest, used);
      }
      if n.param.Some? {
        var p := n.param.value;
        assert KeyAt(n, []) == Some(p.key);
        forall shape: Shape | KeyAt(p.child, shape).Some?
          ensures KeyAt(p.child, shape).value !in used + {p.key} + KeysAlong(p.child, shape) {
          var below := [None] + shape;
          assert below[1..] == shape && KeyAt(n, below) == KeyAt(p.child, shape);
          assert KeysAlong(n, below) == {p.key} + KeysAlong(p.child, shape);
        }
        DistinctIsApart(p.child, rest, used + {p.key});
      }
    }
  }

  /** A route with a hole behind `shape` that can be chosen. */
  lemma ChoosableThrough(policy: Policy, regs: seq<Registration>, shape: Shape) returns (i: nat)
    requires NameAt(regs, shape).Some?
    ensures i < |regs| && Effective(policy, regs, i) && HoleBehind(regs[i].parts, shape)
  {
    hide NameAt;
    NameIsSomeones(regs, shape);
    var j :| 0 <= j < |regs| && HoleBehind(regs[j].parts, shape)
      && NameAt(regs, shape).value == regs[j].parts[|shape|].name;
    i := EffectiveStands(policy, regs, ShapeOf(regs[j].parts));
    assert ShapeOf(regs[i].parts)[|shape|] == ShapeOf(regs[j].parts)[|shape|] == None;
  }

  lemma HoleOnTheWay(parts: Pattern, shape: Shape, q: nat)
    requires HoleBehind(parts, shape) && q < |shape| && shape[q] == None
    ensures q < |parts| && parts[q].Hole? && ShapeOf(parts)[..q] == shape[..q]
  {
    assert ShapeOf(parts)[..|shape|][q] == ShapeOf(parts)[q];
    assert ShapeOf(parts)[..q] == ShapeOf(parts)[..|shape|][..q];
  }

  /** Every node of the trie lies on the path of a route that can be chosen. */
  lemma SettledIsDistinct(policy: Policy, regs: seq<Registration>)
    requires Settled(policy, regs)
    ensures PathsDistinct(Build(policy, regs), {})
  {
    var t := Build(policy, regs);
    hide Build, KeyAt, KeysAlong, NameAt, ShapeOf, Effective, HoleBehind;
    forall shape: Shape | KeyAt(t, shape).Some? ensures KeyAt(t, shape).value !in {} + KeysAlong(t, shape) {
      KeyIsFirstName(policy, regs, shape);
      var i := ChoosableThrough(policy, regs, shape);
      NewKey(policy, regs, shape, i);
    }
  }

  lemma NewKey(policy: Policy, regs: seq<Registration>, shape: Shape, i: nat)
    requires i < |regs| && OwnsNames(regs, regs[i].parts) && HoleBehind(regs[i].parts, shape)
    ensures KeyAt(Build(policy, regs), shape).Some?
            && KeyAt(Build(policy, regs), shape).value !in KeysAlong(Build(policy, regs), shape)
  {
    hide Build, KeyAt, KeysAlong, NameAt, ShapeOf;
    var t, parts := Build(policy, regs), regs[i].parts;
    KeyIsFirstName(policy, regs, shape);
    forall key | key in KeysAlong(t, shape) ensures key != parts[|shape|].name {
      KeyAlongIsKeyAt(t, shape, key);
      var q :| 0 <= q < |shape| && shape[q] == None && KeyAt(t, shape[..q]) == Some(key);
      HoleOnTheWay(parts, shape, q);
      KeyIsFirstName(policy, regs, shape[..q]);
    }
  }

  // ---------------------------------------------------------------- captures by the route's own names

  /** What a route's own pattern binds. */
  function Bind(parts: Pattern, segs: seq<Bytes>, decode: Bytes -> Bytes): Bindings
    requires |parts| == |segs|
    decreases |parts|
  {
    if parts == [] then map[]
    else match parts[0]
      case Fixed(_) => Bind(parts[1..], segs[1..], decode)
      case Hole(name) => map[name := decode(segs[0])] + Bind(parts[1..], segs[1..], decode)
  }

  ghost predicate KeysFollow(n: Node, parts: Pattern) {
    forall k :: 0 <= k < |parts| && parts[k].Hole? ==> KeyAt(n, ShapeOf(parts)[..k]) == Some(parts[k].name)
  }

  lemma {:induction false} CapturesAreOwn(n: Node, parts: Pattern, segs: seq<Bytes>, decode: Bytes -> Bytes)
    requires |parts| == |segs| && RouteAt(n, ShapeOf(parts)).Some? && KeysFollow(n, parts)
    ensures Captures(n, ShapeOf(parts), segs, decode) == Bind(parts, segs, decode)
    decreases |parts|
  {
    if parts != [] {
      var s, rest := ShapeOf(parts), parts[1..];
      assert s[1..] == ShapeOf(rest);
      assert s[..0] == [];
      var child := match parts[0] case Fixed(text) => n.statics[text] case Hole(_) => n.param.value.child;
      forall k | 0 <= k < |rest| && rest[k].Hole? ensures KeyAt(child, ShapeOf(rest)[..k]) == Some(rest[k].name) {
        assert rest[k] == parts[k + 1];
        assert s[..k + 1][0] == s[0] && s[..k + 1][1..] == ShapeOf(rest)[..k];
      }
      CapturesAreOwn(child, rest, segs[1..], decode);
    }
  }

  /** One value for each hole under the route's own name, and nothing else. */
  predicate OneEach(parts: Pattern, segs: seq<Bytes>, decode: Bytes -> Bytes, params: Bindings)
    requires |parts| == |segs|
  {
    && (forall k :: 0 <= k < |parts| && parts[k].Hole? ==>
          parts[k].name in params && params[parts[k].name] == decode(segs[k]))
    && (forall n :: n in params ==> exists k :: 0 <= k < |parts| && parts[k].Hole? && parts[k].name == n)
  }

  lemma {:induction false} BindIsOneEach(parts: Pattern, segs: seq<Bytes>, decode: Bytes -> Bytes)
    requires |parts| == |segs| && NamesDistinct(parts)
    ensures OneEach(parts, segs, decode, Bind(parts, segs, decode))
    decreases |parts|
  {
    if parts != [] {
      var rest, more := parts[1..], Bind(parts[1..], segs[1..], decode);
      var all := Bind(parts, segs, decode);
      assert NamesDistinct(rest) by { assert forall j :: 0 <= j < |rest| ==> rest[j] == parts[j + 1]; }
      BindIsOneEach(rest, segs[1..], decode);
      forall k | 0 <= k < |parts| && parts[k].Hole? ensures parts[k].name in all
        && all[parts[k].name] == decode(segs[k]) {
        if k > 0 {
          assert rest[k - 1] == parts[k] && segs[1..][k - 1] == segs[k];
        } else {
          assert forall q :: 0 <= q < |rest| && rest[q].Hole? ==> rest[q].name != parts[0].name;
        }
      }
      forall n | n in all ensures exists k :: 0 <= k < |parts| && parts[k].Hole? && parts[k].name == n {
        if n in more {
          var q :| 0 <= q < |rest| && rest[q].Hole? && rest[q].name == n;
          assert parts[q + 1] == rest[q];
        } else {
          assert parts[0].Hole? && parts[0].name == n;
        }
      }
    }
  }

  /** Whatever path and decoder, the chosen route sees one value for each of its holes under its own name. */
  ghost predicate OwnNames(policy: Policy, regs: seq<Registration>) {
    forall segs: seq<Bytes>, decode: Bytes -> Bytes, i: nat ::
      Effective(policy, regs, i) && |regs[i].parts| == |segs|
        && Chosen(Build(policy, regs), segs) == Some(ShapeOf(regs[i].parts)) ==>
        OneEach(regs[i].parts, segs, decode, Match(Build(policy, regs), segs, decode, map[]).params)
  }

  lemma SettledBinds(policy: Policy, regs: seq<Registration>, segs: seq<Bytes>, decode: Bytes -> Bytes, i: nat)
    requires Settled(policy, regs) && Effective(policy, regs, i)
             && Chosen(Build(policy, regs), segs) == Some(ShapeOf(regs[i].parts))
    ensures |regs[i].parts| == |segs|
    ensures Match(Build(policy, regs), segs, decode, map[])
              == Matched(Some(regs[i].route), Bind(regs[i].parts, segs, decode))
  {
    hide Build, Match, Chosen, KeysApart, Captures, Bind, RouteAt, KeyAt, Registered, NameAt;
    var t := Build(policy, regs);
    var none: Bindings := map[];
    var parts := regs[i].parts;
    SettledIsDistinct(policy, regs);
    DistinctIsApart(t, segs, {});
    assert none.Keys == {};
    MatchCaptures(t, segs, decode, none);
    MatchIsChosen(t, segs, decode, none);
    EffectiveIsRegistered(policy, regs, i);
    BuildHolds(policy, regs, ShapeOf(parts));
    assert OwnsNames(regs, parts);
    forall k | 0 <= k < |parts| && parts[k].Hole? ensures KeyAt(t, ShapeOf(parts)[..k]) == Some(parts[k].name) {
      KeyIsFirstName(policy, regs, ShapeOf(parts)[..k]);
    }
    CapturesAreOwn(t, parts, segs, decode);
    var bound := Captures(t, ShapeOf(parts), segs, decode);
    assert none + bound == bound;
  }

  // ---------------------------------------------------------------- no table does better

  /** The node a shape leads to has a static child for this text. */
  function HasStatic(n: Node, shape: Shape, text: Bytes): bool
    decreases |shape|
  {
    if shape == [] then text in n.statics
    else match shape[0]
      case Some(t) => t in n.statics && HasStatic(n.statics[t], shape[1..], text)
      case None => n.param.Some? && HasStatic(n.param.value.child, shape[1..], text)
  }

  predicate FixedBehind(parts: Pattern, shape: Shape, text: Bytes) {
    |shape| < |parts| && parts[|shape|] == Fixed(text) && ShapeOf(parts)[..|shape|] == shape
  }

  lemma FixedBelow(parts: Pattern, shape: Shape, text: Bytes)
    requires parts != [] && shape != []
    ensures FixedBehind(parts, shape, text) <==>
            ShapeOf(parts)[0] == shape[0] && FixedBehind(parts[1..], shape[1..], text)
  {
    assert ShapeOf(parts)[1..] == ShapeOf(parts[1..]);
    if |shape| < |parts| {
      var s := ShapeOf(parts);
      assert s[..|shape|] == [s[0]] + s[1..][..|shape| - 1] && shape == [shape[0]] + shape[1..];
    }
  }

  lemma {:induction false} InsertStatic(policy: Policy, n: Node, parts: Pattern, route: nat, shape: Shape, text: Bytes)
    ensures HasStatic(Insert(policy, n, parts, route), shape, text) <==>
            HasStatic(n, shape, text) || FixedBehind(parts, shape, text)
    decreases |parts|
  {
    if parts != [] {
      if shape != [] {
        FixedBelow(parts, shape, text);
        assert !HasStatic(EMPTY, shape[1..], text);
        match parts[0]
        case Fixed(t) => InsertStatic(policy, Child(n, t), parts[1..], route, shape[1..], text);
        case Hole(_) => InsertStatic(policy, if n.param.Some? then n.param.value.child else EMPTY, parts[1..], route,
          shape[1..], text);
      } else {
        assert ShapeOf(parts)[..0] == [];
      }
    }
  }

  lemma {:induction false} StaticIsShort(policy: Policy, regs: seq<Registration>, shape: Shape, text: Bytes)
    requires HasStatic(Build(policy, regs), shape, text)
    ensures |text| <= Longest(regs)
  {
    StaticFromPattern(policy, regs, shape, text);
    var i :| 0 <= i < |regs| && FixedBehind(regs[i].parts, shape, text);
    UnusedIsNowhere(regs, i, |shape|);
  }

  lemma {:induction false} StaticFromPattern(policy: Policy, regs: seq<Registration>, shape: Shape, text: Bytes)
    requires HasStatic(Build(policy, regs), shape, text)
    ensures exists i :: 0 <= i < |regs| && FixedBehind(regs[i].parts, shape, text)
  {
    if regs != [] {
      var n := |regs| - 1;
      InsertStatic(policy, Build(policy, regs[..n]), regs[n].parts, regs[n].route, shape, text);
      if FixedBehind(regs[n].parts, shape, text) {
      } else {
        StaticFromPattern(policy, regs[..n], shape, text);
        var i :| 0 <= i < n && FixedBehind(regs[..n][i].parts, shape, text);
        assert regs[i] == regs[..n][i];
      }
    }
  }

  /** On a path with no static child at any hole, matching binds the keys it meets, one after the other. */
  lemma {:induction false} FreshMatch(n: Node, shape: Shape, segs: seq<Bytes>, decode: Bytes -> Bytes, params: Bindings)
    requires Chosen(n, segs) == Some(shape) && |shape| == |segs|
    requires forall k :: 0 <= k < |shape| && shape[k].None? ==> !HasStatic(n, shape[..k], segs[k])
    ensures Match(n, segs, decode, params).params == params + Captures(n, shape, segs, decode)
    decreases |segs|
  {
    MatchIsChosen(n, segs, decode, params);
    if segs == [] {
      assert Captures(n, shape, segs, decode) == map[];
    } else {
      hide Captures;
      var x, rest, below := shape[0], segs[1..], shape[1..];
      assert shape[..0] == [] && shape == [x] + below;
      var child := if x.Some? then n.statics[segs[0]] else n.param.value.child;
      forall k | 0 <= k < |below| && below[k].None? ensures !HasStatic(child, below[..k], rest[k]) {
        assert shape[..k + 1][0] == x && shape[..k + 1][1..] == below[..k] && rest[k] == segs[k + 1];
      }
      if x.Some? {
        MatchIsChosen(child, rest, decode, params);
        FreshMatch(child, below, rest, decode, params);
        FixedCaptures(n, segs, decode, below);
      } else {
        assert segs[0] !in n.statics;
        var p := n.param.value;
        FreshMatch(p.child, below, rest, decode, params[p.key := decode(segs[0])]);
        HoleCaptures(n, segs, decode, below, params);
      }
    }
  }

  /** What is captured under a name was captured at a hole of that key. */
  lemma {:induction false} CaptureIsKeyed(n: Node, shape: Shape, segs: seq<Bytes>, decode: Bytes -> Bytes, name: Bytes)
    returns (q: nat)
    requires |shape| == |segs| && name in Captures(n, shape, segs, decode)
    ensures q < |shape| && shape[q] == None && KeyAt(n, shape[..q]) == Some(name)
    ensures Captures(n, shape, segs, decode)[name] == decode(segs[q])
    decreases |shape|
  {
    var x, rest, below := shape[0], segs[1..], shape[1..];
    var child := if x.Some? then n.statics[x.value] else n.param.value.child;
    if name in Captures(child, below, rest, decode) {
      var k := CaptureIsKeyed(child, below, rest, decode, name);
      q := k + 1;
      assert shape[..q][0] == x && shape[..q][1..] == below[..k] && segs[q] == rest[k];
    } else {
      q := 0;
      assert shape[..0] == [];
    }
  }

  /** A path for a shape with a segment of its own, used nowhere else, at every hole. */
  function ProbeEach(shape: Shape, limit: nat): seq<Bytes> {
    seq(|shape|, i requires 0 <= i < |shape| =>
      match shape[i] case Some(t) => t case None => seq(limit + 1 + i, _ => 120))
  }

  lemma ProbeShows(policy: Policy, regs: seq<Registration>, i: nat)
    requires OwnNames(policy, regs) && Effective(policy, regs, i)
    ensures OwnsNames(regs, regs[i].parts)
  {
    hide Build, Match, Chosen, Captures, RouteAt, KeyAt, Registered, NameAt, HasStatic;
    var t, parts := Build(policy, regs), regs[i].parts;
    var shape := ShapeOf(parts);
    var segs := ProbeEach(shape, Longest(regs));
    var none: Bindings := map[];
    EffectiveIsRegistered(policy, regs, i);
    FreshChooses(policy, regs, shape, segs);
    forall k | 0 <= k < |shape| && shape[k].None? ensures !HasStatic(t, shape[..k], segs[k]) {
      if HasStatic(t, shape[..k], segs[k]) { StaticIsShort(policy, regs, shape[..k], segs[k]); }
    }
    FreshMatch(t, shape, segs, Same, none);
    var params := Match(t, segs, Same, none).params;
    assert none + Captures(t, shape, segs, Same) == Captures(t, shape, segs, Same);
    assert OneEach(parts, segs, Same, params);
    forall k | 0 <= k < |parts| && parts[k].Hole? ensures NameAt(regs, shape[..k]) == Some(parts[k].name) {
      var q := CaptureIsKeyed(t, shape, segs, Same, parts[k].name);
      assert segs[q] == segs[k] && |segs[q]| == Longest(regs) + 1 + q;
      KeyIsFirstName(policy, regs, shape[..k]);
    }
    forall j, k | 0 <= j < k < |parts| && parts[j].Hole? && parts[k].Hole? ensures parts[j].name != parts[k].name {
      assert |segs[j]| != |segs[k]|;
    }
  }

  /**
   For every table: each route sees one value for each hole under its own name, whatever path and decoder,
   exactly when every route that can be chosen has distinct names and the first route through each of its
   holes gave it that name. Routes that are never chosen do not matter but for the holes they named first.
   */
  lemma OwnNamesExactly(policy: Policy, regs: seq<Registration>)
    ensures OwnNames(policy, regs) <==> Settled(policy, regs)
  {
    hide Build, Match, Chosen, ShapeOf, OwnsNames, NameAt, OneEach;
    if Settled(policy, regs) {
      forall segs: seq<Bytes>, decode: Bytes -> Bytes, i: nat |
        Effective(policy, regs, i) && |regs[i].parts| == |segs|
          && Chosen(Build(policy, regs), segs) == Some(ShapeOf(regs[i].parts))
        ensures OneEach(regs[i].parts, segs, decode, Match(Build(policy, regs), segs, decode, map[]).params)
      {
        SettledBinds(policy, regs, segs, decode, i);
        SettledDistinct(policy, regs, i);
        BindIsOneEach(regs[i].parts, segs, decode);
      }
      assert OwnNames(policy, regs);
    }
    if OwnNames(policy, regs) {
      forall i: nat | Effective(policy, regs, i) ensures OwnsNames(regs, regs[i].parts) { ProbeShows(policy, regs, i); }
    }
  }

  lemma SettledDistinct(policy: Policy, regs: seq<Registration>, i: nat)
    requires Settled(policy, regs) && Effective(policy, regs, i)
    ensures i < |regs| && NamesDistinct(regs[i].parts)
  {
  }

  /** The i-th route fits the path, and no other fitting shape comes before its own. */
  predicate FirstFit(regs: seq<Registration>, segs: seq<Bytes>, i: nat)
    requires i < |regs|
  {
    && Fits(ShapeOf(regs[i].parts), segs)
    && forall j :: 0 <= j < |regs| && Fits(ShapeOf(regs[j].parts), segs)
         && ShapeOf(regs[j].parts) != ShapeOf(regs[i].parts)
         ==> Before(ShapeOf(regs[i].parts), ShapeOf(regs[j].parts))
  }

  predicate NoneFits(regs: seq<Registration>, segs: seq<Bytes>) {
    forall i :: 0 <= i < |regs| ==> !Fits(ShapeOf(regs[i].parts), segs)
  }

  /**
   For every such table and every path: a match returns the first route that fits in static-before-param
   order, with exactly its own names bound to the path's segments; where nothing fits, nothing is returned
   and nothing bound.
   */
  lemma MatchBindsOwnNames(policy: Policy, regs: seq<Registration>, segs: seq<Bytes>, decode: Bytes -> Bytes)
    requires Settled(policy, regs)
    ensures var m := Match(Build(policy, regs), segs, decode, map[]);
            if NoneFits(regs, segs) then m == Matched(None, map[])
            else exists i: nat :: i < |regs| && Effective(policy, regs, i) && FirstFit(regs, segs, i)
                   && m == Matched(Some(regs[i].route), Bind(regs[i].parts, segs, decode))
  {
    hide Build, Match, Chosen, Registered, ShapeOf, Bind, Effective, Settled;
    var t := Build(policy, regs);
    var none: Bindings := map[];
    MatchRefinesList(policy, regs, segs, decode, none);
    MatchIsChosen(t, segs, decode, none);
    if Match(t, segs, decode, none).route.Some? {
      var shape := Chosen(t, segs).value;
      RegisteredMeans(policy, regs, shape);
      var i := EffectiveStands(policy, regs, shape);
      SettledBinds(policy, regs, segs, decode, i);
      assert FirstFit(regs, segs, i);
    } else {
      FailureRestores(t, segs, decode, none);
    }
  }

  /** Keeping the last route of a shape and the first route's names: `/:a`, then `/:b` answers under `a`. */
  lemma RenamedIsLost()
    ensures var a: Bytes, b: Bytes, x: Bytes := [97], [98], [120];
            var regs := [Registration([Hole(a)], 1), Registration([Hole(b)], 2)];
            Match(Build(KeepLast, regs), [x], s => s, map[]) == Matched(Some(2), map[a := x])
  {
    var a: Bytes, b: Bytes, x: Bytes := [97], [98], [120];
    var first, second := Registration([Hole(a)], 1), Registration([Hole(b)], 2);
    var regs := [first, second];
    assert regs[..1] == [first] && [first][..0] == [];
    assert first.parts[1..] == [] && second.parts[1..] == [];
    assert Insert(KeepLast, EMPTY, [], 1) == Node(Some(1), map[], None);
    assert Build(KeepLast, []) == EMPTY;
    assert Build(KeepLast, [first]) == Insert(KeepLast, EMPTY, first.parts, 1);
    assert Build(KeepLast, regs) == Insert(KeepLast, Build(KeepLast, [first]), second.parts, 2);
    assert Insert(KeepLast, Node(Some(1), map[], None), [], 2) == Node(Some(2), map[], None);
    assert Build(KeepLast, [first]) == Node(None, map[], Some(Param(a, Node(Some(1), map[], None))));
    assert Build(KeepLast, regs) == Node(None, map[], Some(Param(a, Node(Some(2), map[], None))));
    var segs: seq<Bytes> := [x];
    assert segs[1..] == [];
  }

  // ---------------------------------------------------------------- tries that match alike

  /** The same routes and the same keys everywhere. */
  ghost predicate Alike(a: Node, b: Node) {
    forall shape: Shape :: RouteAt(a, shape) == RouteAt(b, shape) && KeyAt(a, shape) == KeyAt(b, shape)
  }

  /** Nothing anywhere. */
  ghost predicate Bare(n: Node) {
    forall shape: Shape :: RouteAt(n, shape) == None && KeyAt(n, shape) == None
  }

  lemma {:induction false} BareMatch(n: Node, segs: seq<Bytes>, decode: Bytes -> Bytes, params: Bindings)
    requires Bare(n)
    ensures Match(n, segs, decode, params) == Matched(None, params)
    decreases |segs|
  {
    assert RouteAt(n, []) == None && KeyAt(n, []) == None;
    if segs != [] && segs[0] in n.statics {
      var child := n.statics[segs[0]];
      forall shape: Shape ensures RouteAt(child, shape) == None && KeyAt(child, shape) == None {
        BelowStatic(n, segs[0], shape);
      }
      BareMatch(child, segs[1..], decode, params);
    }
  }

  lemma BelowStatic(n: Node, text: Bytes, shape: Shape)
    requires text in n.statics
    ensures RouteAt(n.statics[text], shape) == RouteAt(n, [Some(text)] + shape)
    ensures KeyAt(n.statics[text], shape) == KeyAt(n, [Some(text)] + shape)
  {
    assert ([Some(text)] + shape)[1..] == shape;
  }

  lemma BelowHole(n: Node, shape: Shape)
    requires n.param.Some?
    ensures RouteAt(n.param.value.child, shape) == RouteAt(n, [None] + shape)
    ensures KeyAt(n.param.value.child, shape) == KeyAt(n, [None] + shape)
  {
    assert ([None] + shape)[1..] == shape;
  }

  lemma NothingBelow(n: Node, text: Bytes, shape: Shape)
    requires text !in n.statics
    ensures RouteAt(n, [Some(text)] + shape) == None && KeyAt(n, [Some(text)] + shape) == None
  {
  }

  /** A branch that only one of two tries has, which are alike, leads nowhere. */
  lemma OnlyOne(a: Node, b: Node, text: Bytes)
    requires Alike(a, b) && text in a.statics && text !in b.statics
    ensures Bare(a.statics[text])
  {
    forall shape: Shape ensures RouteAt(a.statics[text], shape) == None && KeyAt(a.statics[text], shape) == None {
      BelowStatic(a, text, shape);
      NothingBelow(b, text, shape);
    }
  }

  lemma {:induction false} AlikeMatch(a: Node, b: Node, segs: seq<Bytes>, decode: Bytes -> Bytes, params: Bindings)
    requires Alike(a, b)
    ensures Match(a, segs, decode, params) == Match(b, segs, decode, params)
    decreases |segs|
  {
    assert RouteAt(a, []) == RouteAt(b, []) && KeyAt(a, []) == KeyAt(b, []);
    if segs != [] {
      var text, rest := segs[0], segs[1..];
      if text in a.statics && text in b.statics {
        forall shape: Shape
          ensures RouteAt(a.statics[text], shape) == RouteAt(b.statics[text], shape)
          ensures KeyAt(a.statics[text], shape) == KeyAt(b.statics[text], shape)
        {
          BelowStatic(a, text, shape);
          BelowStatic(b, text, shape);
        }
        AlikeMatch(a.statics[text], b.statics[text], rest, decode, params);
      } else if text in a.statics {
        OnlyOne(a, b, text);
        BareMatch(a.statics[text], rest, decode, params);
      } else if text in b.statics {
        OnlyOne(b, a, text);
        BareMatch(b.statics[text], rest, decode, params);
      }
      if a.param.Some? {
        var p, q := a.param.value, b.param.value;
        forall shape: Shape ensures RouteAt(p.child, shape) == RouteAt(q.child, shape)
          && KeyAt(p.child, shape) == KeyAt(q.child, shape) {
          BelowHole(a, shape);
          BelowHole(b, shape);
        }
        var first := if text in a.statics then Match(a.statics[text], rest, decode, params) else Matched(None, params);
        AlikeMatch(p.child, q.child, rest, decode, first.params[p.key := decode(text)]);
      }
    }
  }

  /**
   Where first and last route of every shape are the same, both policies match every path alike, captures
   included.
   */
  lemma PoliciesMatchAlike(regs: seq<Registration>, segs: seq<Bytes>, decode: Bytes -> Bytes, params: Bindings)
    requires RegisteredAlike(regs)
    ensures Match(Build(KeepFirst, regs), segs, decode, params) == Match(Build(KeepLast, regs), segs, decode, params)
  {
    hide Build, Match, RouteAt, KeyAt, Registered, NameAt;
    var a, b := Build(KeepFirst, regs), Build(KeepLast, regs);
    forall shape: Shape ensures RouteAt(a, shape) == RouteAt(b, shape) && KeyAt(a, shape) == KeyAt(b, shape) {
      BuildHolds(KeepFirst, regs, shape);
      BuildHolds(KeepLast, regs, shape);
      KeyIsFirstName(KeepFirst, regs, shape);
      KeyIsFirstName(KeepLast, regs, shape);
    }
    AlikeMatch(a, b, segs, decode, params);
  }
}
