/**
 The two servers' route tables as values: what registering a list of routes leaves in them, and the order
 in which a request is looked up (src/app.ts against rust-core/src/lib.rs).
 */
module Routers {
  import opened Bytes
  import opened Trie
  import opened Paths

  datatype Verb = GET | POST | PUT | DELETE | PATCH | OPTIONS | HEAD

  /** A route as registered; `id` stands for its handler or response. */
  datatype RouteDef = RouteDef(verb: Verb, path: Bytes, id: nat)

  datatype Table = Table(exact: map<(Verb, Bytes), nat>, tries: map<Verb, Node>, staticGet: map<Bytes, nat>)

  datatype Found = Found(route: nat, params: Bindings, suppressBody: bool)

  const NO_ROUTES: Table := Table(map[], map[], map[])

  // ---------------------------------------------------------------- registering

  function TrieOf(t: Table, verb: Verb): Node {
    if verb in t.tries then t.tries[verb] else Trie.EMPTY
  }

  /** addRoute: a later exact route replaces an earlier one, a later param route of the same shape does not. */
  function AddRoute(t: Table, def: RouteDef): Table {
    var p := Normalize(def.path);
    var parts := if IsNormal(p) then PartsOf(SplitNormalizedPath(p)) else [];
    if AnyHole(parts) then t.(tries := t.tries[def.verb := Insert(KeepFirst, TrieOf(t, def.verb), parts, def.id)])
    else t.(exact := t.exact[(def.verb, p) := def.id])
  }

  function AddAll(defs: seq<RouteDef>): Table {
    if defs == [] then NO_ROUTES else AddRoute(AddAll(defs[..|defs| - 1]), defs[|defs| - 1])
  }

  /** One turn of from_manifest's loop; `isStatic` says which blueprints have precomputed responses. */
  function AddManifestRoute(isStatic: nat -> bool, t: Table, def: RouteDef): Table {
    var p := Normalize(def.path);
    if COLON in def.path then
      t.(tries := t.tries[def.verb := Insert(KeepLast, TrieOf(t, def.verb), PartsOf(SplitPath(p)), def.id)])
    else
      t.(exact := t.exact[(def.verb, p) := def.id],
         staticGet := if def.verb == GET && isStatic(def.id) then t.staticGet[p := def.id] else t.staticGet)
  }

  function FromManifest(isStatic: nat -> bool, defs: seq<RouteDef>): Table {
    if defs == [] then NO_ROUTES else AddManifestRoute(isStatic, FromManifest(isStatic, defs[..|defs| - 1]),
      defs[|defs| - 1])
  }

  /** The loop, with the maps it fills as it goes. */
  method BuildFromManifest(isStatic: nat -> bool, defs: seq<RouteDef>) returns (t: Table)
    ensures t == FromManifest(isStatic, defs)
  {
    var exact: map<(Verb, Bytes), nat>, tries: map<Verb, Node>, staticGet: map<Bytes, nat> := map[], map[], map[];
    var i := 0;
    while i < |defs|
      invariant 0 <= i <= |defs|
      invariant Table(exact, tries, staticGet) == FromManifest(isStatic, defs[..i])
    {
      var def := defs[i];
      assert defs[..i + 1][..i] == defs[..i];
      var p := NormalizePathRust(def.path);
      if COLON in def.path {
        var root := if def.verb in tries then tries[def.verb] else Trie.EMPTY;
        tries := tries[def.verb := Insert(KeepLast, root, PartsOf(SplitPath(p)), def.id)];
      } else {
        if def.verb == GET && isStatic(def.id) {
          staticGet := staticGet[p := def.id];
        }
        exact := exact[(def.verb, p) := def.id];
      }
      i := i + 1;
    }
    assert defs[..i] == defs;
    t := Table(exact, tries, staticGet);
  }

  // ---------------------------------------------------------------- looking up

  function FindParamRoute(t: Table, verb: Verb, segs: seq<Bytes>, decode: Bytes -> Bytes,
                          suppress: bool): Option<Found> {
    if verb !in t.tries then None
    else
      var m := Match(t.tries[verb], segs, decode, map[]);
      match m.route case None => None case Some(r) => Some(Found(r, m.params, suppress))
  }

  /** findRoute in src/app.ts. */
  function FindRoute(t: Table, verb: Verb, path: Bytes, decode: Bytes -> Bytes): Option<Found> {
    var p := Normalize(path);
    var segs := if IsNormal(p) then SplitNormalizedPath(p) else [];
    if (verb, p) in t.exact then Some(Found(t.exact[(verb, p)], map[], verb == HEAD))
    else if verb == HEAD && (GET, p) in t.exact then Some(Found(t.exact[(GET, p)], map[], true))
    else
      var found := FindParamRoute(t, verb, segs, decode, verb == HEAD);
      if found.Some? then found
      else if verb != HEAD then None
      else FindParamRoute(t, GET, segs, decode, true)
  }

  /** What lookup returns: a route, the CORS preflight response, or the 404 response. */
  datatype Looked = Route(found: Found) | Preflight | NotFound(suppressBody: bool)

  /** lookup in rust-core/src/lib.rs. */
  function Lookup(t: Table, cors: bool, verb: Verb, path: Bytes, decode: Bytes -> Bytes): Looked {
    if verb == OPTIONS && cors then Preflight
    else
      var p := Normalize(path);
      if verb == HEAD then
        if (HEAD, p) in t.exact then Route(Found(t.exact[(HEAD, p)], map[], true))
        else if (GET, p) in t.exact then Route(Found(t.exact[(GET, p)], map[], true))
        else match FindParamRoute(t, HEAD, SplitPath(p), decode, true)
          case Some(found) => Route(found)
          case None =>
            match FindParamRoute(t, GET, SplitPath(p), decode, true)
            case Some(found) => Route(found)
            case None => NotFound(true)
      else if (verb, p) in t.exact then Route(Found(t.exact[(verb, p)], map[], false))
      else match FindParamRoute(t, verb, SplitPath(p), decode, false)
        case Some(found) => Route(found)
        case None => NotFound(false)
  }

  // ---------------------------------------------------------------- one trie per method

  /** Patterns with holes registered for one method, in order. */
  function RegsFor(defs: seq<RouteDef>, verb: Verb): seq<Registration> {
    if defs == [] then []
    else
      var def, before := defs[|defs| - 1], RegsFor(defs[..|defs| - 1], verb);
      var p := Normalize(def.path);
      var parts := if IsNormal(p) then PartsOf(SplitNormalizedPath(p)) else [];
      if def.verb == verb && AnyHole(parts) then before + [Registration(parts, def.id)] else before
  }

  lemma BuildSnoc(policy: Policy, regs: seq<Registration>, r: Registration)
    ensures Build(policy, regs + [r]) == Insert(policy, Build(policy, regs), r.parts, r.route)
  {
    assert (regs + [r])[..|regs|] == regs;
  }

  /** A path both servers cut alike. */
  predicate Plain(path: Bytes) {
    IsNormal(Normalize(path)) ==> NoEmptySegments(Normalize(path))
  }

  predicate Ordinary(defs: seq<RouteDef>) {
    forall i :: 0 <= i < |defs| ==> Plain(defs[i].path) && ColonsLead(defs[i].path)
  }

  lemma OrdinaryPath(path: Bytes)
    requires Plain(path) && ColonsLead(path)
    ensures IsNormal(Normalize(path)) && SplitPath(Normalize(path)) == SplitNormalizedPath(Normalize(path))
    ensures COLON in path <==> AnyHole(PartsOf(SplitNormalizedPath(Normalize(path))))
  {
    hide Normalize, SplitPath, SplitNormalizedPath;
    ParamsSeenAlike(path);
    SplitsAgree(Normalize(path));
  }

  /** The parts one definition adds to its method's trie. */
  lemma {:induction false} FirstTrie(defs: seq<RouteDef>, verb: Verb)
    ensures TrieOf(AddAll(defs), verb) == Build(KeepFirst, RegsFor(defs, verb))
  {
    if defs != [] {
      var def, before := defs[|defs| - 1], defs[..|defs| - 1];
      FirstTrie(before, verb);
      NormalizeIsNormal(def.path);
      hide Normalize, SplitNormalizedPath, AnyHole, PartsOf, Insert, Build, IsNormal;
      BuildSnoc(KeepFirst, RegsFor(before, verb),
        Registration(PartsOf(SplitNormalizedPath(Normalize(def.path))), def.id));
    }
  }

  lemma {:induction false} LastTrie(isStatic: nat -> bool, defs: seq<RouteDef>, verb: Verb)
    requires Ordinary(defs)
    ensures TrieOf(FromManifest(isStatic, defs), verb) == Build(KeepLast, RegsFor(defs, verb))
  {
    if defs != [] {
      var def, before := defs[|defs| - 1], defs[..|defs| - 1];
      LastTrie(isStatic, before, verb);
      OrdinaryPath(def.path);
      hide Normalize, SplitPath, SplitNormalizedPath, AnyHole, PartsOf, Insert, Build, IsNormal;
      BuildSnoc(KeepLast, RegsFor(before, verb),
        Registration(PartsOf(SplitNormalizedPath(Normalize(def.path))), def.id));
    }
  }

  lemma {:induction false} SameExact(isStatic: nat -> bool, defs: seq<RouteDef>)
    requires Ordinary(defs)
    ensures AddAll(defs).exact == FromManifest(isStatic, defs).exact
  {
    if defs != [] {
      SameExact(isStatic, defs[..|defs| - 1]);
      OrdinaryPath(defs[|defs| - 1].path);
      hide Normalize, SplitPath, SplitNormalizedPath, AnyHole, PartsOf, Insert, IsNormal, TrieOf;
    }
  }

  /** Same exact routes, and in each method's trie the same registrations, the first or the last of a shape kept. */
  lemma TablesHold(isStatic: nat -> bool, defs: seq<RouteDef>, verb: Verb)
    requires Ordinary(defs)
    ensures AddAll(defs).exact == FromManifest(isStatic, defs).exact
    ensures TrieOf(AddAll(defs), verb) == Build(KeepFirst, RegsFor(defs, verb))
    ensures TrieOf(FromManifest(isStatic, defs), verb) == Build(KeepLast, RegsFor(defs, verb))
  {
    SameExact(isStatic, defs);
    FirstTrie(defs, verb);
    LastTrie(isStatic, defs, verb);
  }

  // ---------------------------------------------------------------- a method's trie, there or not

  lemma EmptyFindsNothing(segs: seq<Bytes>, decode: Bytes -> Bytes)
    ensures Match(Trie.EMPTY, segs, decode, map[]).route.None?
  {
  }

  /** A method without a trie finds what the empty trie finds: nothing. */
  lemma ParamRouteByTrie(t: Table, verb: Verb, segs: seq<Bytes>, decode: Bytes -> Bytes, suppress: bool)
    ensures var m := Match(TrieOf(t, verb), segs, decode, map[]);
            FindParamRoute(t, verb, segs, decode, suppress) ==
              match m.route case None => None case Some(r) => Some(Found(r, m.params, suppress))
  {
    EmptyFindsNothing(segs, decode);
  }

  // ---------------------------------------------------------------- from one server to the other

  /** createRustManifest: template routes only, under their normal paths. */
  function ManifestOf(isTemplate: nat -> bool, defs: seq<RouteDef>): seq<RouteDef> {
    if defs == [] then []
    else
      var last, before := defs[|defs| - 1], ManifestOf(isTemplate, defs[..|defs| - 1]);
      if isTemplate(last.id) then before + [last.(path := Normalize(last.path))] else before
  }

  method CreateRustManifest(isTemplate: nat -> bool, defs: seq<RouteDef>) returns (routes: seq<RouteDef>)
    ensures routes == ManifestOf(isTemplate, defs)
  {
    routes := [];
    var i := 0;
    while i < |defs|
      invariant 0 <= i <= |defs|
      invariant routes == ManifestOf(isTemplate, defs[..i])
    {
      assert defs[..i + 1][..i] == defs[..i];
      if isTemplate(defs[i].id) {
        var p := NormalizePath(defs[i].path);
        routes := routes + [defs[i].(path := p)];
      }
      i := i + 1;
    }
    assert defs[..i] == defs;
  }

  /** Exactly the template routes are sent, in their order. */
  lemma {:induction false} ManifestHolds(isTemplate: nat -> bool, defs: seq<RouteDef>)
    ensures exists at: seq<nat> :: Selects(isTemplate, defs, at, ManifestOf(isTemplate, defs))
  {
    if defs == [] {
      var none: seq<nat> := [];
      assert Selects(isTemplate, defs, none, ManifestOf(isTemplate, defs));
    } else {
      var n := |defs| - 1;
      ManifestHolds(isTemplate, defs[..n]);
      var sent := ManifestOf(isTemplate, defs[..n]);
      var at: seq<nat> :| Selects(isTemplate, defs[..n], at, sent);
      if isTemplate(defs[n].id) {
        SelectsMore(isTemplate, defs, at, sent);
        ManifestSnoc(isTemplate, defs);
      } else {
        SelectsSame(isTemplate, defs, at, sent);
        assert ManifestOf(isTemplate, defs) == sent;
      }
    }
  }

  lemma SelectsMore(isTemplate: nat -> bool, defs: seq<RouteDef>, at: seq<nat>, sent: seq<RouteDef>)
    requires defs != [] && Selects(isTemplate, defs[..|defs| - 1], at, sent) && isTemplate(defs[|defs| - 1].id)
    ensures var n := |defs| - 1;
            Selects(isTemplate, defs, at + [n], sent + [defs[n].(path := Normalize(defs[n].path))])
  {
    hide Normalize;
    var n := |defs| - 1;
    var more := at + [n];
    assert forall j :: 0 <= j < |at| ==> more[j] == at[j] && at[j] < n && defs[..n][at[j]] == defs[at[j]];
    forall i | 0 <= i < |defs| && isTemplate(defs[i].id) ensures i in more {
      if i < n { assert defs[..n][i] == defs[i] && i in at; } else { assert more[|at|] == i; }
    }
  }

  lemma SelectsSame(isTemplate: nat -> bool, defs: seq<RouteDef>, at: seq<nat>, sent: seq<RouteDef>)
    requires defs != [] && Selects(isTemplate, defs[..|defs| - 1], at, sent) && !isTemplate(defs[|defs| - 1].id)
    ensures Selects(isTemplate, defs, at, sent)
  {
    hide Normalize;
    var n := |defs| - 1;
    assert forall j :: 0 <= j < |at| ==> at[j] < n && defs[..n][at[j]] == defs[at[j]];
    assert forall i :: 0 <= i < n ==> defs[..n][i] == defs[i];
  }

  /** `at` are the places of the template routes, and `sent` these routes under their normal paths. */
  ghost predicate Selects(isTemplate: nat -> bool, defs: seq<RouteDef>, at: seq<nat>, sent: seq<RouteDef>) {
    && |at| == |sent| && (forall j, k :: 0 <= j < k < |at| ==> at[j] < at[k])
    && (forall i :: 0 <= i < |defs| && isTemplate(defs[i].id) ==> i in at)
    && (forall j :: 0 <= j < |at| ==>
          at[j] < |defs| && isTemplate(defs[at[j]].id) && sent[j] == defs[at[j]].(path := Normalize(defs[at[j]].path)))
  }

  /** Segments are not empty, and a colon stands only at the start of one. */
  predicate Clean(p: Bytes)
    requires IsNormal(p)
  {
    NoEmptySegments(p) && forall i :: 0 <= i < |SplitNormalizedPath(p)| && COLON in SplitNormalizedPath(p)[i] ==>
                            SplitNormalizedPath(p)[i][0] == COLON
  }

  predicate AllClean(defs: seq<RouteDef>) {
    forall i :: 0 <= i < |defs| ==> IsNormal(Normalize(defs[i].path)) && Clean(Normalize(defs[i].path))
  }

  /** Sending normal paths changes nothing about the routes. */
  lemma {:induction false} ManifestKeeps(isTemplate: nat -> bool, defs: seq<RouteDef>, verb: Verb)
    requires forall i :: 0 <= i < |defs| ==> isTemplate(defs[i].id)
    requires AllClean(defs)
    ensures AddAll(ManifestOf(isTemplate, defs)) == AddAll(defs)
    ensures RegsFor(ManifestOf(isTemplate, defs), verb) == RegsFor(defs, verb)
    ensures Ordinary(ManifestOf(isTemplate, defs))
  {
    if defs != [] {
      var last, before := defs[|defs| - 1], defs[..|defs| - 1];
      ManifestKeeps(isTemplate, before, verb);
      CleanIsOrdinary(last.path);
      hide *;
      OneMore(isTemplate, defs, verb);
    }
  }

  /** The definitions of both sides, one route further. */
  lemma OneMore(isTemplate: nat -> bool, defs: seq<RouteDef>, verb: Verb)
    requires defs != [] && isTemplate(defs[|defs| - 1].id)
    requires var before, last := defs[..|defs| - 1], defs[|defs| - 1];
             var routes, sent := ManifestOf(isTemplate, before), last.(path := Normalize(last.path));
             && AddAll(routes) == AddAll(before) && RegsFor(routes, verb) == RegsFor(before, verb) && Ordinary(routes)
             && Plain(sent.path) && ColonsLead(sent.path)
    ensures AddAll(ManifestOf(isTemplate, defs)) == AddAll(defs)
    ensures RegsFor(ManifestOf(isTemplate, defs), verb) == RegsFor(defs, verb)
    ensures Ordinary(ManifestOf(isTemplate, defs))
  {
    hide *;
    var before, last := defs[..|defs| - 1], defs[|defs| - 1];
    var routes, sent := ManifestOf(isTemplate, before), last.(path := Normalize(last.path));
    SentAlike(AddAll(before), last);
    NormalIsFixed(last.path);
    ManifestSnoc(isTemplate, defs);
    assert before + [last] == defs;
    SnocAlike(routes, before, sent, last, verb);
    OrdinarySnoc(routes, sent);
  }

  lemma ManifestSnoc(isTemplate: nat -> bool, defs: seq<RouteDef>)
    requires defs != [] && isTemplate(defs[|defs| - 1].id)
    ensures var last := defs[|defs| - 1];
            ManifestOf(isTemplate, defs) == ManifestOf(isTemplate, defs[..|defs| - 1])
              + [last.(path := Normalize(last.path))]
  {
    hide Normalize;
  }

  lemma SnocAlike(a: seq<RouteDef>, b: seq<RouteDef>, x: RouteDef, y: RouteDef, verb: Verb)
    requires AddAll(a) == AddAll(b) && RegsFor(a, verb) == RegsFor(b, verb)
             && AddRoute(AddAll(b), x) == AddRoute(AddAll(b), y)
    requires x.verb == y.verb && x.id == y.id && Normalize(x.path) == Normalize(y.path)
    ensures AddAll(a + [x]) == AddAll(b + [y]) && RegsFor(a + [x], verb) == RegsFor(b + [y], verb)
  {
    hide Normalize, AddRoute, IsNormal, SplitNormalizedPath, PartsOf, AnyHole;
    assert (a + [x])[..|a|] == a && (b + [y])[..|b|] == b;
  }

  lemma OrdinarySnoc(routes: seq<RouteDef>, sent: RouteDef)
    requires Ordinary(routes) && Plain(sent.path) && ColonsLead(sent.path)
    ensures Ordinary(routes + [sent])
  {
    hide Plain, ColonsLead;
  }

  lemma SentAlike(t: Table, def: RouteDef)
    ensures AddRoute(t, def.(path := Normalize(def.path))) == AddRoute(t, def)
  {
    NormalIsFixed(def.path);
  }

  lemma CleanIsOrdinary(path: Bytes)
    requires IsNormal(Normalize(path)) && Clean(Normalize(path))
    ensures Plain(Normalize(path)) && ColonsLead(Normalize(path))
  {
    NormalIsFixed(path);
  }

  // ---------------------------------------------------------------- the fast paths

  /** lookup_static_response: the path is looked up as it stands. */
  function LookupStaticResponse(isStatic: nat -> bool, t: Table, verb: Verb, path: Bytes): Option<nat> {
    if verb != GET || (GET, path) !in t.exact then None
    else if isStatic(t.exact[(GET, path)]) then Some(t.exact[(GET, path)]) else None
  }

  /** lookup_static_response_bytes, for a GET request. */
  function LookupStaticBytes(t: Table, path: Bytes): Option<nat> {
    if path == [] || path[0] != SLASH || QUESTION in path || (|path| > 1 && path[|path| - 1] == SLASH) then None
    else if path in t.staticGet then Some(t.staticGet[path]) else None
  }

  /** How the two maps hang together, whatever was registered. */
  ghost predicate Coherent(isStatic: nat -> bool, t: Table) {
    && (forall k :: k in t.exact ==> IsNormal(k.1))
    && (forall p :: p in t.staticGet ==> (GET, p) in t.exact && isStatic(t.staticGet[p]))
    && (forall p :: (GET, p) in t.exact && isStatic(t.exact[(GET, p)]) ==>
          p in t.staticGet && t.staticGet[p] == t.exact[(GET, p)])
  }

  lemma {:induction false} ManifestIsCoherent(isStatic: nat -> bool, defs: seq<RouteDef>)
    ensures Coherent(isStatic, FromManifest(isStatic, defs))
  {
    if defs != [] {
      ManifestIsCoherent(isStatic, defs[..|defs| - 1]);
      NormalizeIsNormal(defs[|defs| - 1].path);
      hide Normalize, IsNormal, Insert, SplitPath, PartsOf;
    }
  }

  /** A hit in the route map is what the slow path finds. */
  lemma StaticLookupAgrees(isStatic: nat -> bool, defs: seq<RouteDef>, cors: bool, verb: Verb, path: Bytes,
                           decode: Bytes -> Bytes)
    requires LookupStaticResponse(isStatic, FromManifest(isStatic, defs), verb, path).Some?
    ensures var t := FromManifest(isStatic, defs);
            Lookup(t, cors, verb, path, decode) == Route(Found(LookupStaticResponse(isStatic, t, verb, path).value,
              map[], false))
  {
    hide FromManifest, Normalize;
    ManifestIsCoherent(isStatic, defs);
    NormalIsFixed(path);
  }

  /**
   A hit in the raw-byte map is what the slow path finds exactly when the route the slow path has for that
   path is static itself: a dynamic route registered later leaves the stale entry behind.
   */
  lemma StaticBytesAgree(isStatic: nat -> bool, defs: seq<RouteDef>, cors: bool, path: Bytes, decode: Bytes -> Bytes)
    requires LookupStaticBytes(FromManifest(isStatic, defs), path).Some?
    ensures var t := FromManifest(isStatic, defs);
            && (GET, path) in t.exact
            && var fast := Route(Found(LookupStaticBytes(t, path).value, map[], false));
               Lookup(t, cors, GET, path, decode) == fast <==> isStatic(t.exact[(GET, path)])
  {
    hide FromManifest, Normalize;
    ManifestIsCoherent(isStatic, defs);
    NormalIsFixed(path);
  }

  /** And no request for a static route misses the raw-byte map, if it is written in normal form. */
  lemma StaticBytesComplete(isStatic: nat -> bool, defs: seq<RouteDef>, path: Bytes)
    requires IsNormal(path)
    requires var t := FromManifest(isStatic, defs); (GET, path) in t.exact && isStatic(t.exact[(GET, path)])
    ensures LookupStaticBytes(FromManifest(isStatic, defs), path)
              == Some(FromManifest(isStatic, defs).exact[(GET, path)])
  {
    hide FromManifest;
    ManifestIsCoherent(isStatic, defs);
  }

  /** A static route, then a dynamic one for the same path: the raw-byte map still answers with the first. */
  lemma StaleEntry(cors: bool, decode: Bytes -> Bytes)
    ensures var path: Bytes := [SLASH, 97];
            var t := FromManifest(id => id == 1, [RouteDef(GET, path, 1), RouteDef(GET, path, 2)]);
            LookupStaticBytes(t, path) == Some(1) && Lookup(t, cors, GET, path, decode) == Route(Found(2, map[], false))
  {
    var path: Bytes := [SLASH, 97];
    var first, second := RouteDef(GET, path, 1), RouteDef(GET, path, 2);
    var defs := [first, second];
    assert defs[..1] == [first] && [first][..0] == [];
    assert IsNormal(path) && COLON !in path;
    NormalStays(path);
    hide Normalize;
    var isStatic: nat -> bool := id => id == 1;
    var t1 := AddManifestRoute(isStatic, NO_ROUTES, first);
    assert FromManifest(isStatic, [first]) == t1;
    assert FromManifest(isStatic, defs) == AddManifestRoute(isStatic, t1, second);
  }
}
