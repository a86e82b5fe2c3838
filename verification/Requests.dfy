/** Which route answers a request, told from the paths as the author and the client wrote them. */
module Requests {
  import opened Bytes
  import opened Trie
  import opened Paths
  import opened Routers
  import ParamNames

  // ---------------------------------------------------------------- routes by their text

  predicate IsHole(segment: Bytes) {
    segment != [] && segment[0] == ':' as int
  }

  /** A route's path: no query, and slashes stand alone but at the end. */
  predicate Tidied(defs: seq<RouteDef>) {
    forall i :: 0 <= i < |defs| ==> '?' as int !in defs[i].path && Tidy(defs[i].path)
  }

  predicate HasHole(path: Bytes) {
    exists h :: 0 <= h < |Segments(path)| && IsHole(Segments(path)[h])
  }

  predicate FitsPath(path: Bytes, segs: seq<Bytes>) {
    var own := Segments(path);
    |own| == |segs| && forall h :: 0 <= h < |segs| ==> IsHole(own[h]) || own[h] == segs[h]
  }

  /** A route of the method without holes, with exactly these segments. */
  predicate ExactFor(defs: seq<RouteDef>, verb: Verb, segs: seq<Bytes>, i: nat) {
    i < |defs| && defs[i].verb == verb && !HasHole(defs[i].path) && Segments(defs[i].path) == segs
  }

  ghost predicate LastExact(defs: seq<RouteDef>, verb: Verb, segs: seq<Bytes>, i: nat) {
    ExactFor(defs, verb, segs, i) && forall j: nat :: ExactFor(defs, verb, segs, j) ==> j <= i
  }

  /** A route of the method with holes that takes these segments. */
  predicate ParamFor(defs: seq<RouteDef>, verb: Verb, segs: seq<Bytes>, i: nat) {
    i < |defs| && defs[i].verb == verb && HasHole(defs[i].path) && FitsPath(defs[i].path, segs)
  }

  /** Where holes first differ, `own` has the fixed segment. */
  predicate Earlier(own: seq<Bytes>, other: seq<Bytes>) {
    exists h :: 0 <= h < |own| && h < |other| && !IsHole(own[h]) && IsHole(other[h])
                && forall g :: 0 <= g < h ==> (IsHole(own[g]) <==> IsHole(other[g]))
  }

  predicate SameHoles(own: seq<Bytes>, other: seq<Bytes>) {
    |own| == |other| && forall h :: 0 <= h < |own| ==> (IsHole(own[h]) <==> IsHole(other[h]))
  }

  predicate Preferred(policy: Policy, i: nat, j: nat) {
    if policy == KeepFirst then i <= j else j <= i
  }

  /**
   Of the routes that take the segments, the one with fixed segments earliest; of equal ones the first, or
   the last.
   */
  ghost predicate BestParam(policy: Policy, defs: seq<RouteDef>, verb: Verb, segs: seq<Bytes>, i: nat) {
    && ParamFor(defs, verb, segs, i)
    && forall j: nat :: ParamFor(defs, verb, segs, j) ==>
         || Earlier(Segments(defs[i].path), Segments(defs[j].path))
         || (SameHoles(Segments(defs[i].path), Segments(defs[j].path)) && Preferred(policy, i, j))
  }

  /** Each hole's name, the text behind its colon, has the segment it took; there are no other names. */
  ghost predicate Bound(path: Bytes, segs: seq<Bytes>, decode: Bytes -> Bytes, params: Bindings) {
    var own := Segments(path);
    && |own| == |segs|
    && (forall h :: 0 <= h < |own| && IsHole(own[h]) ==>
          own[h][1..] in params && params[own[h][1..]] == decode(segs[h]))
    && (forall n :: n in params ==> exists h :: 0 <= h < |own| && IsHole(own[h]) && own[h][1..] == n)
  }

  /** A path with these segments. */
  function PathWith(segs: seq<Bytes>): Bytes {
    if segs == [] then [] else ['/' as int] + segs[0] + PathWith(segs[1..])
  }

  lemma {:induction false} PathIsJoined(segs: seq<Bytes>)
    ensures PathWith(segs) == Joined(segs)
  {
    if segs != [] { PathIsJoined(segs[1..]); }
  }

  /** Segments are what stands between slashes. */
  lemma SegmentsOfPath(segs: seq<Bytes>)
    requires forall i :: 0 <= i < |segs| ==> segs[i] != [] && '/' as int !in segs[i]
    ensures Segments(PathWith(segs)) == segs && Tidy(PathWith(segs))
  {
    hide Split, NonEmpty;
    PathIsJoined(segs);
    if segs == [] {
      NothingSplits();
    } else {
      JoinedSplits(segs);
      var p := Joined(segs);
      assert p == ROOT + p[1..];
      LeadKeepsSegments(p[1..]);
      NonEmptyKeeps(segs);
    }
  }

  lemma NothingSplits()
    ensures Split([]) == [[]] && Segments([]) == []
  {
  }

  // ---------------------------------------------------------------- what the tables hold of them

  lemma PathSeen(path: Bytes)
    requires '?' as int !in path && Tidy(path)
    ensures IsNormal(Normalize(path)) && SplitNormalizedPath(Normalize(path)) == Segments(path)
    ensures AnyHole(PartsOf(Segments(path))) <==> HasHole(path)
  {
    NormalKeepsSegments(path);
    var own := Segments(path);
    hide Segments, Normalize;
    if HasHole(path) {
      var h :| 0 <= h < |own| && IsHole(own[h]);
      assert PartsOf(own)[h].Hole?;
    }
    if AnyHole(PartsOf(own)) {
      var h :| 0 <= h < |PartsOf(own)| && PartsOf(own)[h].Hole?;
      assert IsHole(own[h]);
    }
  }

  lemma ExactGrows(defs: seq<RouteDef>)
    requires defs != [] && Tidied(defs)
    ensures var n := |defs| - 1;
            AddAll(defs).exact ==
              if HasHole(defs[n].path) then AddAll(defs[..n]).exact
              else AddAll(defs[..n]).exact[(defs[n].verb, Normalize(defs[n].path)) := defs[n].id]
  {
    PathSeen(defs[|defs| - 1].path);
    hide Normalize, Segments, Tidy, HasHole, IsNormal, SplitNormalizedPath, PartsOf, AnyHole;
  }

  /** The exact routes are the last ones of their segments. */
  lemma {:induction false} ExactHolds(defs: seq<RouteDef>, verb: Verb, a: Bytes)
    requires Tidied(defs) && '?' as int !in a && Tidy(a)
    ensures var key := (verb, Normalize(a));
            if key in AddAll(defs).exact
            then exists i: nat :: LastExact(defs, verb, Segments(a), i) && AddAll(defs).exact[key] == defs[i].id
            else forall i: nat :: !ExactFor(defs, verb, Segments(a), i)
  {
    hide Normalize, Segments, Tidy, HasHole, IsNormal, SplitNormalizedPath, PartsOf, AnyHole, AddRoute;
    if defs != [] {
      var n := |defs| - 1;
      var before, last := defs[..n], defs[n];
      var segs, key := Segments(a), (verb, Normalize(a));
      ExactHolds(before, verb, a);
      ExactGrows(defs);
      hide AddAll;
      SegmentsTell(last.path, a);
      assert forall i: nat :: i < n ==> (ExactFor(before, verb, segs, i) <==> ExactFor(defs, verb, segs, i));
      if ExactFor(defs, verb, segs, n) {
        assert LastExact(defs, verb, segs, n);
        assert AddAll(defs).exact[key] == defs[n].id;
      } else if key in AddAll(before).exact {
        var i: nat :| LastExact(before, verb, segs, i) && AddAll(before).exact[key] == before[i].id;
        assert LastExact(defs, verb, segs, i);
        assert AddAll(defs).exact[key] == defs[i].id;
      }
    }
  }

  function ShapeIn(defs: seq<RouteDef>, i: nat): Shape
    requires i < |defs|
  {
    ShapeOf(PartsOf(Segments(defs[i].path)))
  }

  predicate ShapeFor(defs: seq<RouteDef>, verb: Verb, shape: Shape, i: nat) {
    i < |defs| && defs[i].verb == verb && HasHole(defs[i].path) && ShapeIn(defs, i) == shape
  }

  ghost predicate NoneFor(defs: seq<RouteDef>, verb: Verb, shape: Shape) {
    forall i: nat :: !ShapeFor(defs, verb, shape, i)
  }

  /** The route a method keeps of a shape. */
  ghost predicate KeptFor(policy: Policy, defs: seq<RouteDef>, verb: Verb, shape: Shape, i: nat) {
    ShapeFor(defs, verb, shape, i) && forall j: nat :: ShapeFor(defs, verb, shape, j) ==> Preferred(policy, i, j)
  }

  /** The registration of route `i`, and that it is the one its table keeps. */
  ghost predicate Mirrors(policy: Policy, defs: seq<RouteDef>, verb: Verb, i: nat, k: nat) {
    var regs := RegsFor(defs, verb);
    && i < |defs| && ParamNames.Effective(policy, regs, k)
    && regs[k] == Registration(PartsOf(Segments(defs[i].path)), defs[i].id)
  }

  lemma RegsSnoc(defs: seq<RouteDef>, verb: Verb)
    requires defs != [] && Tidied(defs)
    ensures var n := |defs| - 1;
            RegsFor(defs, verb) == RegsFor(defs[..n], verb)
              + if defs[n].verb == verb && HasHole(defs[n].path)
                then [Registration(PartsOf(Segments(defs[n].path)), defs[n].id)] else []
  {
    PathSeen(defs[|defs| - 1].path);
    hide Normalize, Segments, HasHole, IsNormal, SplitNormalizedPath, PartsOf, AnyHole, Tidy;
  }

  lemma ShapeForSnoc(defs: seq<RouteDef>, verb: Verb, shape: Shape)
    requires defs != []
    ensures forall i: nat :: i < |defs| - 1 ==>
              (ShapeFor(defs[..|defs| - 1], verb, shape, i) <==> ShapeFor(defs, verb, shape, i))
  {
    hide Segments, HasHole, PartsOf, ShapeOf;
  }

  /** The last route is the one kept of its shape. */
  lemma LastKept(policy: Policy, defs: seq<RouteDef>, verb: Verb, shape: Shape) returns (k: nat)
    requires defs != [] && Tidied(defs) && ShapeFor(defs, verb, shape, |defs| - 1)
    requires policy == KeepFirst ==> Registered(policy, RegsFor(defs[..|defs| - 1], verb), shape).None?
    requires policy == KeepFirst ==> NoneFor(defs[..|defs| - 1], verb, shape)
    ensures KeptFor(policy, defs, verb, shape, |defs| - 1) && Mirrors(policy, defs, verb, |defs| - 1, k)
    ensures Registered(policy, RegsFor(defs, verb), shape) == Some(defs[|defs| - 1].id)
  {
    var n := |defs| - 1;
    var regs, was := RegsFor(defs, verb), RegsFor(defs[..n], verb);
    LastRegistered(policy, defs, verb, shape);
    k := |was|;
    hide Segments, HasHole, PartsOf, ShapeOf, RegsFor, Tidy, Mirrors;
    ShapeForSnoc(defs, verb, shape);
    ShapesInRange(defs, verb, shape);
    hide ShapeFor;
  }

  lemma LastRegistered(policy: Policy, defs: seq<RouteDef>, verb: Verb, shape: Shape)
    requires defs != [] && Tidied(defs) && ShapeFor(defs, verb, shape, |defs| - 1)
    requires policy == KeepFirst ==> Registered(policy, RegsFor(defs[..|defs| - 1], verb), shape).None?
    ensures Mirrors(policy, defs, verb, |defs| - 1, |RegsFor(defs[..|defs| - 1], verb)|)
    ensures Registered(policy, RegsFor(defs, verb), shape) == Some(defs[|defs| - 1].id)
  {
    var n := |defs| - 1;
    var was, last := RegsFor(defs[..n], verb), Registration(PartsOf(Segments(defs[n].path)), defs[n].id);
    RegsSnoc(defs, verb);
    LastIsEffective(policy, was, last, shape);
    hide Segments, HasHole, PartsOf, ShapeOf, RegsFor, Tidy, Registered, ParamNames.Effective;
  }

  lemma LastIsEffective(policy: Policy, was: seq<Registration>, last: Registration, shape: Shape)
    requires ShapeOf(last.parts) == shape && (policy == KeepFirst ==> Registered(policy, was, shape).None?)
    ensures ParamNames.Effective(policy, was + [last], |was|)
    ensures Registered(policy, was + [last], shape) == Some(last.route)
  {
    RegisteredMeans(policy, was, shape);
    hide ShapeOf;
    var regs := was + [last];
    assert regs[..|was|] == was;
    assert forall j :: 0 <= j < |was| ==> regs[j] == was[j];
  }

  /** The last route changes nothing for a shape that is not its own, or that keeps its first. */
  lemma EarlierKept(policy: Policy, defs: seq<RouteDef>, verb: Verb, shape: Shape, i: nat, k: nat)
    requires defs != [] && Tidied(defs) && (policy == KeepFirst || !ShapeFor(defs, verb, shape, |defs| - 1))
    requires KeptFor(policy, defs[..|defs| - 1], verb, shape, i) && Mirrors(policy, defs[..|defs| - 1], verb, i, k)
    ensures KeptFor(policy, defs, verb, shape, i) && Mirrors(policy, defs, verb, i, k)
  {
    hide Segments, PartsOf, ShapeOf, RegsFor, Tidy, HasHole;
    ShapeForSnoc(defs, verb, shape);
    hide ShapeFor;
    var n := |defs| - 1;
    assert forall j: nat :: ShapeFor(defs, verb, shape, j) ==> j <= n by { ShapesInRange(defs, verb, shape); }
    assert forall j: nat :: ShapeFor(defs[..n], verb, shape, j) ==> j < n by { ShapesInRange(defs[..n], verb, shape); }
    assert KeptFor(policy, defs, verb, shape, i);
    MirrorStays(policy, defs, verb, shape, i, k);
  }

  lemma ShapesInRange(defs: seq<RouteDef>, verb: Verb, shape: Shape)
    ensures forall i: nat :: ShapeFor(defs, verb, shape, i) ==> i < |defs|
  {
  }

  lemma EffectiveStays(policy: Policy, regs: seq<Registration>, more: seq<Registration>, k: nat)
    requires ParamNames.Effective(policy, regs, k)
    requires policy == KeepFirst ||
             forall j :: 0 <= j < |more| ==> ShapeOf(more[j].parts) != ShapeOf(regs[k].parts)
    ensures ParamNames.Effective(policy, regs + more, k)
  {
    hide ShapeOf;
    assert forall j :: 0 <= j < |regs + more| ==> (regs + more)[j] == if j < |regs| then regs[j] else more[j - |regs|];
  }

  lemma MirrorStays(policy: Policy, defs: seq<RouteDef>, verb: Verb, shape: Shape, i: nat, k: nat)
    requires defs != [] && Tidied(defs) && (policy == KeepFirst || !ShapeFor(defs, verb, shape, |defs| - 1))
    requires Mirrors(policy, defs[..|defs| - 1], verb, i, k) && ShapeFor(defs[..|defs| - 1], verb, shape, i)
    ensures Mirrors(policy, defs, verb, i, k)
  {
    var n := |defs| - 1;
    RegsSnoc(defs, verb);
    hide Segments, PartsOf, ShapeOf, RegsFor, Tidy, HasHole, ParamNames.Effective;
    var was := RegsFor(defs[..n], verb);
    var more := if defs[n].verb == verb && HasHole(defs[n].path)
                then [Registration(PartsOf(Segments(defs[n].path)), defs[n].id)] else [];
    assert was[k].parts == PartsOf(Segments(defs[i].path)) by { InRange(policy, was, k); }
    EffectiveStays(policy, was, more, k);
    InRange(policy, was, k);
  }

  lemma InRange(policy: Policy, regs: seq<Registration>, k: nat)
    requires ParamNames.Effective(policy, regs, k)
    ensures k < |regs|
  {
  }

  /** Where the last route does not count, the table keeps what it had. */
  lemma RegisteredStays(policy: Policy, defs: seq<RouteDef>, verb: Verb, shape: Shape)
    requires defs != [] && Tidied(defs)
    requires ShapeFor(defs, verb, shape, |defs| - 1) ==>
               policy == KeepFirst && Registered(policy, RegsFor(defs[..|defs| - 1], verb), shape).Some?
    ensures Registered(policy, RegsFor(defs, verb), shape)
              == Registered(policy, RegsFor(defs[..|defs| - 1], verb), shape)
    ensures NoneFor(defs[..|defs| - 1], verb, shape) && !ShapeFor(defs, verb, shape, |defs| - 1) ==>
              NoneFor(defs, verb, shape)
  {
    RegsSnoc(defs, verb);
    ShapeForSnoc(defs, verb, shape);
    ShapesInRange(defs, verb, shape);
    hide Segments, HasHole, PartsOf, ShapeOf, RegsFor, Tidy;
    var regs, was := RegsFor(defs, verb), RegsFor(defs[..|defs| - 1], verb);
    if regs != was { assert regs[..|regs| - 1] == was; }
  }

  /** A table keeps a route of a shape exactly if there is one, and keeps the first or the last. */
  lemma {:induction false} ShapesHold(policy: Policy, defs: seq<RouteDef>, verb: Verb, shape: Shape)
    requires Tidied(defs)
    ensures if Registered(policy, RegsFor(defs, verb), shape).Some?
            then exists i: nat, k: nat :: KeptFor(policy, defs, verb, shape, i) && Mirrors(policy, defs, verb, i, k)
                   && Registered(policy, RegsFor(defs, verb), shape) == Some(defs[i].id)
            else NoneFor(defs, verb, shape)
  {
    if defs != [] {
      var n := |defs| - 1;
      var before := defs[..n];
      ShapesHold(policy, before, verb, shape);
      hide Segments, HasHole, PartsOf, ShapeOf, RegsFor, Tidy, KeptFor, Mirrors, ShapeFor, Registered, NoneFor;
      var kept := Registered(policy, RegsFor(before, verb), shape);
      if ShapeFor(defs, verb, shape, n) && !(policy == KeepFirst && kept.Some?) {
        var k := LastKept(policy, defs, verb, shape);
        assert KeptFor(policy, defs, verb, shape, n) && Mirrors(policy, defs, verb, n, k);
      } else {
        RegisteredStays(policy, defs, verb, shape);
        if kept.Some? {
          var i: nat, k: nat :| KeptFor(policy, before, verb, shape, i) && Mirrors(policy, before, verb, i, k)
                                && kept == Some(before[i].id);
          EarlierKept(policy, defs, verb, shape, i, k);
          KeptIsRoute(policy, before, verb, shape, i);
        }
      }
    }
  }

  lemma KeptIsRoute(policy: Policy, defs: seq<RouteDef>, verb: Verb, shape: Shape, i: nat)
    requires KeptFor(policy, defs, verb, shape, i)
    ensures i < |defs| && ShapeIn(defs, i) == shape
  {
  }

  // ---------------------------------------------------------------- matching

  lemma ShapeFits(path: Bytes, segs: seq<Bytes>)
    ensures Fits(ShapeOf(PartsOf(Segments(path))), segs) <==> FitsPath(path, segs)
  {
    hide Segments;
    var own, shape := Segments(path), ShapeOf(PartsOf(Segments(path)));
    assert forall h :: 0 <= h < |own| ==> shape[h] == if IsHole(own[h]) then None else Some(own[h]);
  }

  /** Where two shapes first differ, the one that comes before has the fixed segment. */
  lemma {:induction false} FirstDifference(a: Shape, b: Shape)
    requires |a| == |b| && Before(a, b)
    ensures exists h :: 0 <= h < |a| && a[h].Some? && b[h].None? && a[..h] == b[..h]
  {
    if a[0] == b[0] {
      FirstDifference(a[1..], b[1..]);
      var h :| 0 <= h < |a[1..]| && a[1..][h].Some? && b[1..][h].None? && a[1..][..h] == b[1..][..h];
      assert a[..h + 1] == [a[0]] + a[1..][..h] && b[..h + 1] == [b[0]] + b[1..][..h];
      assert a[h + 1].Some? && b[h + 1].None?;
    } else {
      assert a[..0] == b[..0];
    }
  }

  /** Shapes of two paths that take the same segments are ordered as their holes are. */
  lemma ShapesOrdered(own: seq<Bytes>, other: seq<Bytes>, segs: seq<Bytes>)
    requires |own| == |segs| == |other|
    requires forall h :: 0 <= h < |segs| ==>
               (IsHole(own[h]) || own[h] == segs[h]) && (IsHole(other[h]) || other[h] == segs[h])
    ensures var a, b := ShapeOf(PartsOf(own)), ShapeOf(PartsOf(other));
            && (a == b <==> SameHoles(own, other)) && (Before(a, b) ==> Earlier(own, other))
  {
    var a, b := ShapeOf(PartsOf(own)), ShapeOf(PartsOf(other));
    assert forall h :: 0 <= h < |segs| ==> a[h] == if IsHole(own[h]) then None else Some(segs[h]);
    assert forall h :: 0 <= h < |segs| ==> b[h] == if IsHole(other[h]) then None else Some(segs[h]);
    hide ShapeOf, PartsOf, IsHole, Before;
    if Before(a, b) {
      FirstDifference(a, b);
      var h :| 0 <= h < |a| && a[h].Some? && b[h].None? && a[..h] == b[..h];
      forall g | 0 <= g < h ensures IsHole(own[g]) <==> IsHole(other[g]) { assert a[g] == a[..h][g] == b[..h][g]; }
    }
  }

  /** A route that takes the segments has a shape the table holds a route of. */
  lemma ParamRegistered(policy: Policy, defs: seq<RouteDef>, verb: Verb, segs: seq<Bytes>, j: nat)
    requires Tidied(defs) && ParamFor(defs, verb, segs, j)
    ensures ShapeFor(defs, verb, ShapeIn(defs, j), j) && Fits(ShapeIn(defs, j), segs)
    ensures exists r :: 0 <= r < |RegsFor(defs, verb)| && ShapeOf(RegsFor(defs, verb)[r].parts) == ShapeIn(defs, j)
  {
    hide Registered, RegsFor, Segments, Tidy, HasHole, FitsPath, KeptFor, Mirrors, ShapeOf, PartsOf;
    ShapeFits(defs[j].path, segs);
    ShapesHold(policy, defs, verb, ShapeIn(defs, j));
    assert ShapeFor(defs, verb, ShapeIn(defs, j), j);
    RegisteredMeans(policy, RegsFor(defs, verb), ShapeIn(defs, j));
  }

  /** The route kept of the shape matching ends at is the best one. */
  lemma ChosenIsBest(policy: Policy, defs: seq<RouteDef>, verb: Verb, segs: seq<Bytes>, shape: Shape, i: nat)
    requires Tidied(defs) && KeptFor(policy, defs, verb, shape, i) && Fits(shape, segs)
    requires forall j: nat :: ParamFor(defs, verb, segs, j) ==>
               |ShapeIn(defs, j)| == |shape| && (ShapeIn(defs, j) == shape || Before(shape, ShapeIn(defs, j)))
    ensures BestParam(policy, defs, verb, segs, i)
  {
    hide Segments, Tidy, HasHole, ShapeOf, PartsOf, Earlier, SameHoles, Before;
    ShapeFits(defs[i].path, segs);
    forall j: nat | ParamFor(defs, verb, segs, j)
      ensures Earlier(Segments(defs[i].path), Segments(defs[j].path))
              || (SameHoles(Segments(defs[i].path), Segments(defs[j].path)) && Preferred(policy, i, j))
    {
      ShapesOrdered(Segments(defs[i].path), Segments(defs[j].path), segs);
      assert ShapeIn(defs, i) == shape;
    }
  }

  lemma BindIsBound(path: Bytes, segs: seq<Bytes>, decode: Bytes -> Bytes)
    requires |Segments(path)| == |segs| && ParamNames.NamesDistinct(PartsOf(Segments(path)))
    ensures Bound(path, segs, decode, ParamNames.Bind(PartsOf(Segments(path)), segs, decode))
  {
    hide Segments, ParamNames.Bind, ParamNames.NamesDistinct;
    var own, parts := Segments(path), PartsOf(Segments(path));
    ParamNames.BindIsOneEach(parts, segs, decode);
    var params := ParamNames.Bind(parts, segs, decode);
    forall h | 0 <= h < |own| && IsHole(own[h]) ensures own[h][1..] in params
      && params[own[h][1..]] == decode(segs[h]) {
      assert parts[h] == Hole(own[h][1..]);
    }
    forall n | n in params ensures exists h :: 0 <= h < |own| && IsHole(own[h]) && own[h][1..] == n {
      var h :| 0 <= h < |parts| && parts[h].Hole? && parts[h].name == n;
      assert IsHole(own[h]);
    }
  }

  lemma OwnBound(policy: Policy, defs: seq<RouteDef>, verb: Verb, segs: seq<Bytes>, decode: Bytes -> Bytes, i: nat,
                 k: nat)
    requires Mirrors(policy, defs, verb, i, k) && ParamNames.Settled(policy, RegsFor(defs, verb))
    requires Chosen(Build(policy, RegsFor(defs, verb)), segs) == Some(ShapeIn(defs, i))
    ensures Bound(defs[i].path, segs, decode, Match(Build(policy, RegsFor(defs, verb)), segs, decode, map[]).params)
  {
    hide Match, Build, RegsFor, Chosen, Segments, ParamNames.Settled, ParamNames.Bind, Bound, ParamNames.Effective,
      ParamNames.NamesDistinct;
    var regs := RegsFor(defs, verb);
    ParamNames.SettledDistinct(policy, regs, k);
    ParamNames.SettledBinds(policy, regs, segs, decode, k);
    BindIsBound(defs[i].path, segs, decode);
  }

  /**
   What a method's trie answers: the best of the routes that take the segments, with its own names where it
   owns them.
   */
  lemma ParamAnswers(policy: Policy, defs: seq<RouteDef>, verb: Verb, segs: seq<Bytes>, decode: Bytes -> Bytes)
    requires Tidied(defs)
    ensures var m := Match(Build(policy, RegsFor(defs, verb)), segs, decode, map[]);
            if m.route.None? then forall i: nat :: !ParamFor(defs, verb, segs, i)
            else exists i: nat :: BestParam(policy, defs, verb, segs, i) && m.route == Some(defs[i].id)
                   && (ParamNames.Settled(policy, RegsFor(defs, verb)) ==> Bound(defs[i].path, segs, decode, m.params))
  {
    hide Match, Build, RegsFor, Registered, Chosen, Segments, Tidy, HasHole, ParamNames.Settled, Before, KeptFor,
      BestParam, FitsPath, Bound, ParamNames.Bind, ParamNames.OwnsNames;
    var regs := RegsFor(defs, verb);
    var t := Build(policy, regs);
    MatchRefinesList(policy, regs, segs, decode, map[]);
    var m := Match(t, segs, decode, map[]);
    forall j: nat | ParamFor(defs, verb, segs, j)
      ensures m.route.Some? && |ShapeIn(defs, j)| == |Chosen(t, segs).value|
              && (ShapeIn(defs, j) == Chosen(t, segs).value || Before(Chosen(t, segs).value, ShapeIn(defs, j)))
    {
      ParamRegistered(policy, defs, verb, segs, j);
    }
    if m.route.Some? {
      var shape := Chosen(t, segs).value;
      ShapesHold(policy, defs, verb, shape);
      var i: nat, k: nat :| KeptFor(policy, defs, verb, shape, i) && Mirrors(policy, defs, verb, i, k)
                            && m.route == Some(defs[i].id);
      ChosenIsBest(policy, defs, verb, segs, shape, i);
      KeptIsRoute(policy, defs, verb, shape, i);
      if ParamNames.Settled(policy, regs) { OwnBound(policy, defs, verb, segs, decode, i, k); }
    }
  }

  // ---------------------------------------------------------------- whole requests

  /** What routes of one method have to say: an exact one, or a param route with its captures. */
  ghost predicate ByExact(defs: seq<RouteDef>, verb: Verb, segs: seq<Bytes>, found: Option<Found>, suppress: bool) {
    exists i: nat :: LastExact(defs, verb, segs, i) && found == Some(Found(defs[i].id, map[], suppress))
  }

  ghost predicate ByParam(policy: Policy, defs: seq<RouteDef>, verb: Verb, segs: seq<Bytes>, decode: Bytes -> Bytes,
                          found: Option<Found>, suppress: bool) {
    found.Some? && found.value.suppressBody == suppress &&
    exists i: nat :: BestParam(policy, defs, verb, segs, i) && found.value.route == defs[i].id
      && (ParamNames.Settled(policy, RegsFor(defs, verb)) ==> Bound(defs[i].path, segs, decode, found.value.params))
  }

  ghost predicate HasExact(defs: seq<RouteDef>, verb: Verb, segs: seq<Bytes>) {
    exists i: nat :: ExactFor(defs, verb, segs, i)
  }

  ghost predicate HasParam(defs: seq<RouteDef>, verb: Verb, segs: seq<Bytes>) {
    exists i: nat :: ParamFor(defs, verb, segs, i)
  }

  /** Exact routes first, then those with holes; HEAD takes what GET has where it has none, and never has a body. */
  ghost predicate Says(policy: Policy, defs: seq<RouteDef>, verb: Verb, segs: seq<Bytes>, decode: Bytes -> Bytes,
                       found: Option<Found>) {
    if HasExact(defs, verb, segs) then ByExact(defs, verb, segs, found, verb == HEAD)
    else if verb == HEAD && HasExact(defs, GET, segs) then ByExact(defs, GET, segs, found, true)
    else if HasParam(defs, verb, segs) then ByParam(policy, defs, verb, segs, decode, found, verb == HEAD)
    else if verb == HEAD && HasParam(defs, GET, segs) then ByParam(policy, defs, GET, segs, decode, found, true)
    else found == None
  }

  lemma ExactSays(defs: seq<RouteDef>, verb: Verb, a: Bytes, suppress: bool)
    requires Tidied(defs) && '?' as int !in a && Tidy(a)
    ensures var key, t := (verb, Normalize(a)), AddAll(defs);
            && (key in t.exact <==> HasExact(defs, verb, Segments(a)))
            && (key in t.exact ==> ByExact(defs, verb, Segments(a), Some(Found(t.exact[key], map[], suppress)),
               suppress))
  {
    hide AddAll, Normalize, Segments, Tidy, ExactFor;
    ExactHolds(defs, verb, a);
  }

  lemma ParamSays(policy: Policy, defs: seq<RouteDef>, t: Table, verb: Verb, segs: seq<Bytes>, decode: Bytes -> Bytes,
                  suppress: bool)
    requires Tidied(defs) && TrieOf(t, verb) == Build(policy, RegsFor(defs, verb))
    ensures var found := FindParamRoute(t, verb, segs, decode, suppress);
            && (found.Some? <==> HasParam(defs, verb, segs))
            && (found.Some? ==> ByParam(policy, defs, verb, segs, decode, found, suppress))
  {
    hide Build, RegsFor, TrieOf, Segments, Tidy, ParamNames.Settled, BestParam, Bound, Match, FindParamRoute;
    ParamRouteByTrie(t, verb, segs, decode, suppress);
    ParamAnswers(policy, defs, verb, segs, decode);
    assert forall i: nat :: BestParam(policy, defs, verb, segs, i) ==> ParamFor(defs, verb, segs, i) by {
      BestIsParam(policy, defs, verb, segs);
    }
    hide ParamFor;
  }

  lemma BestIsParam(policy: Policy, defs: seq<RouteDef>, verb: Verb, segs: seq<Bytes>)
    ensures forall i: nat :: BestParam(policy, defs, verb, segs, i) ==> ParamFor(defs, verb, segs, i)
  {
    hide ParamFor;
  }

  /**
   The app, for every list of routes written without doubled slashes: a request, whatever its query, is answered
   by the last exact route for its segments, or by the best route that takes them.
   */
  lemma AppAnswers(defs: seq<RouteDef>, verb: Verb, a: Bytes, q: Bytes, decode: Bytes -> Bytes)
    requires Tidied(defs) && '?' as int !in a && Tidy(a) && (q == [] || q[0] == '?' as int)
    ensures Says(KeepFirst, defs, verb, Segments(a), decode, FindRoute(AddAll(defs), verb, a + q, decode))
  {
    NormalOf(a, q);
    hide AddAll, Normalize, Segments, Tidy, Tidied, FindParamRoute, HasExact, HasParam, ByExact, ByParam, IsNormal,
      SplitNormalizedPath, Build, RegsFor, TrieOf;
    ExactSays(defs, verb, a, verb == HEAD);
    ExactSays(defs, GET, a, true);
    FirstTrie(defs, verb);
    FirstTrie(defs, GET);
    ParamSays(KeepFirst, defs, AddAll(defs), verb, Segments(a), decode, verb == HEAD);
    ParamSays(KeepFirst, defs, AddAll(defs), GET, Segments(a), decode, true);
  }

  lemma NormalOf(a: Bytes, q: Bytes)
    requires '?' as int !in a && Tidy(a) && (q == [] || q[0] == '?' as int)
    ensures Normalize(a + q) == Normalize(a) && IsNormal(Normalize(a))
    ensures SplitNormalizedPath(Normalize(a)) == Segments(a) == SplitPath(Normalize(a))
  {
    if q == [] {
      assert a + q == a;
    } else {
      assert a + q == a + [QUESTION] + q[1..];
      QueryMakesNoDifference(a, q[1..]);
    }
    NormalKeepsSegments(a);
    SplitsAgree(Normalize(a));
  }

  /** And colons stand only in front of a hole's name. */
  predicate Spelled(defs: seq<RouteDef>) {
    Tidied(defs) &&
    forall i, h :: 0 <= i < |defs| && 0 <= h < |Segments(defs[i].path)| ==>
      (':' as int in Segments(defs[i].path)[h] ==> IsHole(Segments(defs[i].path)[h]))
  }

  lemma SpelledIsOrdinary(defs: seq<RouteDef>)
    requires Spelled(defs)
    ensures Ordinary(defs)
  {
    hide Segments, Normalize, Tidy, SplitNormalizedPath;
    forall i | 0 <= i < |defs| ensures Plain(defs[i].path) && ColonsLead(defs[i].path) {
      var a := defs[i].path;
      NormalKeepsSegments(a);
      ColonStays(a);
    }
  }

  lemma ColonStays(a: Bytes)
    requires QUESTION !in a
    ensures COLON in a ==> COLON in Normalize(a)
  {
    CutIs(a, []);
    assert a + [] == a;
    if a != [] { StripHas(if a[0] == SLASH then a else ROOT + a, COLON); }
  }

  /** Preflights aside, the Rust server's answer is a route, or a 404 without a body for HEAD. */
  ghost predicate LookedSays(defs: seq<RouteDef>, cors: bool, verb: Verb, segs: seq<Bytes>, decode: Bytes -> Bytes,
                             looked: Looked) {
    if verb == OPTIONS && cors then looked == Preflight
    else match looked
      case Preflight => false
      case Route(found) => Says(KeepLast, defs, verb, segs, decode, Some(found))
      case NotFound(suppress) => suppress == (verb == HEAD) && Says(KeepLast, defs, verb, segs, decode, None)
  }

  /** The Rust server, for every such list: likewise, but the last of equal routes with holes. */
  lemma ServerAnswers(isStatic: nat -> bool, defs: seq<RouteDef>, cors: bool, verb: Verb, a: Bytes, q: Bytes,
                      decode: Bytes -> Bytes)
    requires Spelled(defs) && '?' as int !in a && Tidy(a) && (q == [] || q[0] == '?' as int)
    ensures LookedSays(defs, cors, verb, Segments(a), decode,
              Lookup(FromManifest(isStatic, defs), cors, verb, a + q, decode))
  {
    NormalOf(a, q);
    SpelledIsOrdinary(defs);
    hide AddAll, FromManifest, Normalize, Segments, Tidy, Tidied, FindParamRoute, HasExact, HasParam, ByExact, ByParam,
      IsNormal, SplitPath, SplitNormalizedPath, Build, RegsFor, TrieOf, Ordinary;
    var t := FromManifest(isStatic, defs);
    TablesHold(isStatic, defs, verb);
    TablesHold(isStatic, defs, GET);
    ExactSays(defs, verb, a, verb == HEAD);
    ExactSays(defs, GET, a, true);
    ParamSays(KeepLast, defs, t, verb, Segments(a), decode, verb == HEAD);
    ParamSays(KeepLast, defs, t, GET, Segments(a), decode, true);
  }

  // ---------------------------------------------------------------- the fast path

  /** The last exact route for these segments, if it is static. */
  ghost predicate StaticFor(isStatic: nat -> bool, defs: seq<RouteDef>, segs: seq<Bytes>, id: nat) {
    exists i: nat :: LastExact(defs, GET, segs, i) && id == defs[i].id && isStatic(id)
  }

  /** A request hits exactly for a static route, spelled in normal form. */
  lemma StaticAnswers(isStatic: nat -> bool, defs: seq<RouteDef>, verb: Verb, a: Bytes, id: nat)
    requires Spelled(defs) && '?' as int !in a && Tidy(a)
    ensures LookupStaticResponse(isStatic, FromManifest(isStatic, defs), verb, a) == Some(id) <==>
              verb == GET && IsNormal(a) && StaticFor(isStatic, defs, Segments(a), id)
  {
    hide Normalize, IsNormal, Segments, Tidy, Tidied, FromManifest, AddAll, Ordinary, ExactFor;
    SpelledIsOrdinary(defs);
    ManifestIsCoherent(isStatic, defs);
    SameExact(isStatic, defs);
    ExactHolds(defs, GET, a);
    NormalIsFixed(a);
    OneIsLast(defs, GET, Segments(a));
  }

  lemma OneIsLast(defs: seq<RouteDef>, verb: Verb, segs: seq<Bytes>)
    ensures forall i: nat, j: nat :: LastExact(defs, verb, segs, i) && LastExact(defs, verb, segs, j) ==> i == j
  {
    hide ExactFor;
  }
}
