/** When the TypeScript app and the Rust server route alike: an exact condition over all requests. */
module Agreement {
  import opened Bytes
  import opened Trie
  import opened Paths
  import opened Routers
  import ParamNames

  /** Both servers choose the same route, captures and body suppression, or neither has one. */
  predicate AgreeAt(isStatic: nat -> bool, defs: seq<RouteDef>, cors: bool, verb: Verb, path: Bytes,
                    decode: Bytes -> Bytes) {
    Lookup(FromManifest(isStatic, defs), cors, verb, path, decode) ==
      match FindRoute(AddAll(defs), verb, path, decode)
      case Some(found) => Route(found)
      case None => NotFound(verb == HEAD)
  }

  /** OPTIONS requests never reach the Rust routes when CORS answers them. */
  predicate Routed(cors: bool, verb: Verb) {
    !(verb == OPTIONS && cors)
  }

  /** Both servers answer every request alike. */
  ghost predicate ServersAlike(isStatic: nat -> bool, defs: seq<RouteDef>, cors: bool) {
    forall verb: Verb, path: Bytes, decode: Bytes -> Bytes ::
      Routed(cors, verb) && Plain(path) ==> AgreeAt(isStatic, defs, cors, verb, path, decode)
  }

  /** Of the routes of a method with one shape, the first and the last are the same, for every method and shape. */
  ghost predicate RoutesAlike(defs: seq<RouteDef>, cors: bool) {
    forall verb: Verb :: Routed(cors, verb) ==> RegisteredAlike(RegsFor(defs, verb))
  }

  // ---------------------------------------------------------------- alike routes, alike servers

  lemma TriesAgree(isStatic: nat -> bool, defs: seq<RouteDef>, verb: Verb, segs: seq<Bytes>, decode: Bytes -> Bytes,
                   suppress: bool)
    requires Ordinary(defs) && RegisteredAlike(RegsFor(defs, verb))
    ensures FindParamRoute(AddAll(defs), verb, segs, decode, suppress)
         == FindParamRoute(FromManifest(isStatic, defs), verb, segs, decode, suppress)
  {
    hide Match, Build, AddAll, FromManifest, RegsFor, FindParamRoute, TrieOf, RegisteredAlike;
    TablesHold(isStatic, defs, verb);
    ParamNames.PoliciesMatchAlike(RegsFor(defs, verb), segs, decode, map[]);
    ParamRouteByTrie(AddAll(defs), verb, segs, decode, suppress);
    ParamRouteByTrie(FromManifest(isStatic, defs), verb, segs, decode, suppress);
  }

  lemma AlikeAgree(isStatic: nat -> bool, defs: seq<RouteDef>, cors: bool, verb: Verb, path: Bytes,
                   decode: Bytes -> Bytes)
    requires Ordinary(defs) && Plain(path) && Routed(cors, verb) && RoutesAlike(defs, cors)
    ensures AgreeAt(isStatic, defs, cors, verb, path, decode)
  {
    hide AddAll, FromManifest, RegsFor, FindParamRoute, Normalize, SplitPath, SplitNormalizedPath, RegisteredAlike;
    var p := Normalize(path);
    NormalizeIsNormal(path);
    SplitsAgree(p);
    TablesHold(isStatic, defs, verb);
    assert Routed(cors, GET);
    TriesAgree(isStatic, defs, verb, SplitPath(p), decode, verb == HEAD);
    TriesAgree(isStatic, defs, GET, SplitPath(p), decode, true);
  }

  // ---------------------------------------------------------------- a request that tells

  /** Longer than every path registered. */
  function Longest(defs: seq<RouteDef>): nat {
    if defs == [] then 0 else |defs[0].path| + 1 + Longest(defs[1..])
  }

  lemma {:induction false} PathIsShort(defs: seq<RouteDef>, i: nat)
    requires i < |defs|
    ensures |defs[i].path| + 1 <= Longest(defs)
  {
    if i > 0 { PathIsShort(defs[1..], i - 1); }
  }

  lemma {:induction false} ExactIsSomeones(defs: seq<RouteDef>, verb: Verb, p: Bytes)
    requires (verb, p) in AddAll(defs).exact
    ensures exists i :: 0 <= i < |defs| && p == Normalize(defs[i].path)
  {
    hide Normalize, Insert, IsNormal, SplitNormalizedPath, PartsOf;
    var before, last := defs[..|defs| - 1], defs[|defs| - 1];
    if p != Normalize(last.path) {
      ExactIsSomeones(before, verb, p);
      var i :| 0 <= i < |before| && p == Normalize(before[i].path);
      assert defs[i] == before[i];
    }
  }

  lemma LongIsNotExact(defs: seq<RouteDef>, verb: Verb, p: Bytes)
    requires |p| > Longest(defs)
    ensures (verb, p) !in AddAll(defs).exact
  {
    hide AddAll, Normalize;
    if (verb, p) in AddAll(defs).exact {
      ExactIsSomeones(defs, verb, p);
      var i :| 0 <= i < |defs| && p == Normalize(defs[i].path);
      PathIsShort(defs, i);
      NormalizeIsShort(defs[i].path);
    }
  }

  /** What is registered for a method are the patterns of its routes, with a hole. */
  lemma {:induction false} RegIsSomeones(defs: seq<RouteDef>, verb: Verb, k: nat)
    requires k < |RegsFor(defs, verb)|
    ensures AnyHole(RegsFor(defs, verb)[k].parts)
    ensures exists i :: 0 <= i < |defs| && IsNormal(Normalize(defs[i].path))
                     && RegsFor(defs, verb)[k].parts == PartsOf(SplitNormalizedPath(Normalize(defs[i].path)))
  {
    hide Normalize, IsNormal, SplitNormalizedPath, PartsOf, AnyHole;
    var before, last := defs[..|defs| - 1], defs[|defs| - 1];
    NormalizeIsNormal(last.path);
    if k < |RegsFor(before, verb)| {
      RegIsSomeones(before, verb, k);
      var i :| 0 <= i < |before| && IsNormal(Normalize(before[i].path))
               && RegsFor(before, verb)[k].parts == PartsOf(SplitNormalizedPath(Normalize(before[i].path)));
      assert defs[i] == before[i];
    } else {
      assert RegsFor(defs, verb)[k].parts == PartsOf(SplitNormalizedPath(Normalize(defs[|defs| - 1].path)));
    }
  }

  function LongText(n: nat): Bytes {
    seq(n + 1, _ => 120)
  }

  /** A request path for a shape of a method, which is no exact route and fits no other shape better. */
  lemma ProbePath(defs: seq<RouteDef>, verb: Verb, shape: Shape) returns (segs: seq<Bytes>)
    requires Ordinary(defs) && Registered(KeepFirst, RegsFor(defs, verb), shape).Some?
    ensures segs != [] && IsNormal(Joined(segs)) && Joined(segs) != ROOT && SplitNormalizedPath(Joined(segs)) == segs
    ensures NoEmptySegments(Joined(segs)) && |Joined(segs)| > Longest(defs)
    ensures FreshAt(RegsFor(defs, verb), shape, segs)
  {
    var regs := RegsFor(defs, verb);
    hide RegsFor, Normalize, SplitNormalizedPath, Registered, Trie.Longest, Joined;
    RegisteredMeans(KeepFirst, regs, shape);
    var k :| 0 <= k < |regs| && ShapeOf(regs[k].parts) == shape;
    RegIsSomeones(defs, verb, k);
    var i :| 0 <= i < |defs| && IsNormal(Normalize(defs[i].path))
             && regs[k].parts == PartsOf(SplitNormalizedPath(Normalize(defs[i].path)));
    var p, text := Normalize(defs[i].path), LongText(Trie.Longest(regs) + Longest(defs));
    assert Plain(defs[i].path);
    segs := Probe(shape, text);
    assert Whole(text);
    forall j | 0 <= j < |segs| ensures Whole(segs[j]) { SegmentsWhole(p, j); }
    var h :| 0 <= h < |regs[k].parts| && regs[k].parts[h].Hole?;
    assert segs[h] == text;
    PathOfSegments(segs);
  }

  lemma ProbeFound(isStatic: nat -> bool, defs: seq<RouteDef>, verb: Verb, shape: Shape, segs: seq<Bytes>,
                   suppress: bool)
    requires Ordinary(defs) && FreshAt(RegsFor(defs, verb), shape, segs)
    requires Registered(KeepFirst, RegsFor(defs, verb), shape).Some?
    ensures var a, b := FindParamRoute(AddAll(defs), verb, segs, Same, suppress),
                        FindParamRoute(FromManifest(isStatic, defs), verb, segs, Same, suppress);
            && a.Some? && b.Some? && Some(a.value.route) == Registered(KeepFirst, RegsFor(defs, verb), shape)
            && Some(b.value.route) == Registered(KeepLast, RegsFor(defs, verb), shape)
  {
    hide Match, Build, AddAll, FromManifest, RegsFor, FindParamRoute, TrieOf, Registered, FreshAt;
    var regs := RegsFor(defs, verb);
    TablesHold(isStatic, defs, verb);
    RegisteredMeans(KeepFirst, regs, shape);
    RegisteredMeans(KeepLast, regs, shape);
    Picks(KeepFirst, regs, segs, shape);
    Picks(KeepLast, regs, segs, shape);
    ParamRouteByTrie(AddAll(defs), verb, segs, Same, suppress);
    ParamRouteByTrie(FromManifest(isStatic, defs), verb, segs, Same, suppress);
  }

  /** Where the servers agree on that request, the two routes are the same. */
  lemma ProbeTells(isStatic: nat -> bool, defs: seq<RouteDef>, cors: bool, verb: Verb, shape: Shape)
    requires Ordinary(defs) && Routed(cors, verb) && ServersAlike(isStatic, defs, cors)
    requires Registered(KeepFirst, RegsFor(defs, verb), shape).Some?
    ensures Registered(KeepFirst, RegsFor(defs, verb), shape) == Registered(KeepLast, RegsFor(defs, verb), shape)
  {
    hide AddAll, FromManifest, RegsFor, FindParamRoute, Normalize, SplitPath, SplitNormalizedPath, Registered, FreshAt,
      Joined, Longest;
    var segs := ProbePath(defs, verb, shape);
    var path := Joined(segs);
    NormalStays(path);
    SplitsAgree(path);
    ProbeFound(isStatic, defs, verb, shape, segs, verb == HEAD);
    SameExact(isStatic, defs);
    LongIsNotExact(defs, verb, path);
    LongIsNotExact(defs, GET, path);
    assert AgreeAt(isStatic, defs, cors, verb, path, Same);
  }

  /**
   For every list of routes: both servers answer every request alike, route, captures and body suppression, in
   the same HEAD-to-GET order, exactly when of the routes of one method and shape the first and the last are the
   same.
   */
  lemma RoutersAgree(isStatic: nat -> bool, defs: seq<RouteDef>, cors: bool)
    requires Ordinary(defs)
    ensures ServersAlike(isStatic, defs, cors) <==> RoutesAlike(defs, cors)
  {
    hide AgreeAt, RegsFor, Registered, Plain, Ordinary, Routed;
    if RoutesAlike(defs, cors) {
      forall verb: Verb, path: Bytes, decode: Bytes -> Bytes | Routed(cors, verb) && Plain(path)
        ensures AgreeAt(isStatic, defs, cors, verb, path, decode)
      {
        AlikeAgree(isStatic, defs, cors, verb, path, decode);
      }
      assert ServersAlike(isStatic, defs, cors);
    }
    if ServersAlike(isStatic, defs, cors) {
      forall verb: Verb | Routed(cors, verb) ensures RegisteredAlike(RegsFor(defs, verb)) {
        forall shape: Shape
          ensures Registered(KeepFirst, RegsFor(defs, verb), shape) == Registered(KeepLast, RegsFor(defs, verb), shape)
        {
          RegisteredMeans(KeepFirst, RegsFor(defs, verb), shape);
          RegisteredMeans(KeepLast, RegsFor(defs, verb), shape);
          if Registered(KeepFirst, RegsFor(defs, verb), shape).Some? { ProbeTells(isStatic, defs, cors, verb, shape); }
        }
      }
    }
  }

  /** No two routes of a method have the same shape. */
  predicate ShapesApart(regs: seq<Registration>) {
    forall i, j :: 0 <= i < j < |regs| ==> ShapeOf(regs[i].parts) != ShapeOf(regs[j].parts)
  }

  /** In particular when no two routes of a method have the same shape. */
  lemma ApartIsAlike(regs: seq<Registration>)
    requires ShapesApart(regs)
    ensures RegisteredAlike(regs)
  {
    hide Registered, ShapeOf;
    forall shape: Shape ensures Registered(KeepFirst, regs, shape) == Registered(KeepLast, regs, shape) {
      RegisteredMeans(KeepFirst, regs, shape);
      RegisteredMeans(KeepLast, regs, shape);
    }
  }

  /**
   An app and the Rust server it starts: for every template app whose patterns are clean, the server answers
   every request as the app does exactly under the same condition on the app's own routes.
   */
  lemma ServersAgree(isTemplate: nat -> bool, isStatic: nat -> bool, defs: seq<RouteDef>, cors: bool)
    requires forall i :: 0 <= i < |defs| ==> isTemplate(defs[i].id)
    requires AllClean(defs)
    ensures AddAll(ManifestOf(isTemplate, defs)) == AddAll(defs)
    ensures ServersAlike(isStatic, ManifestOf(isTemplate, defs), cors) <==> RoutesAlike(defs, cors)
  {
    hide AddAll, RegsFor, ManifestOf, AllClean, Ordinary, ServersAlike;
    var routes := ManifestOf(isTemplate, defs);
    forall v ensures RegsFor(routes, v) == RegsFor(defs, v) { ManifestKeeps(isTemplate, defs, v); }
    ManifestKeeps(isTemplate, defs, GET);
    RoutersAgree(isStatic, routes, cors);
  }
}
