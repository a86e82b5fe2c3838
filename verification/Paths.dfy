/** Request paths and route patterns (src/path.ts, src/app.ts, rust-core/src/lib.rs), in both implementations. */
module Paths {
  import opened Bytes
  import opened Pipeline
  import opened Trie

  const SLASH: Byte := 47
  const QUESTION: Byte := 63
  const COLON: Byte := 58
  const ROOT: Bytes := [SLASH]

  // ---------------------------------------------------------------- normal form

  /** The path in front of its query. */
  function CutQuery(path: Bytes): Bytes {
    match FirstByte(QUESTION, path, 0) case None => path case Some(p) => path[..p]
  }

  function StripSlashes(p: Bytes): Bytes {
    if |p| > 1 && p[|p| - 1] == SLASH then StripSlashes(p[..|p| - 1]) else p
  }

  /** One leading slash at least, no query, no trailing slash but that of the root. */
  function Normalize(path: Bytes): Bytes {
    var cut := CutQuery(path);
    if cut == [] then ROOT else StripSlashes(if cut[0] == SLASH then cut else ROOT + cut)
  }

  predicate IsNormal(p: Bytes) {
    && p != [] && p[0] == SLASH && QUESTION !in p
    && (|p| > 1 ==> p[|p| - 1] != SLASH)
  }

  lemma {:induction false} StripIsNormal(p: Bytes)
    requires p != [] && p[0] == SLASH && QUESTION !in p
    ensures IsNormal(StripSlashes(p)) && StripSlashes(p) <= p
  {
    if |p| > 1 && p[|p| - 1] == SLASH { StripIsNormal(p[..|p| - 1]); }
  }

  lemma NormalizeIsNormal(path: Bytes)
    ensures IsNormal(Normalize(path))
  {
    var cut := CutQuery(path);
    if cut != [] { StripIsNormal(if cut[0] == SLASH then cut else ROOT + cut); }
  }

  /** Exactly the normal paths stay as they are, so normalizing twice is normalizing once. */
  lemma NormalIsFixed(p: Bytes)
    ensures Normalize(p) == p <==> IsNormal(p)
    ensures Normalize(Normalize(p)) == Normalize(p)
  {
    NormalizeIsNormal(p);
    NormalStays(Normalize(p));
    if IsNormal(p) { NormalStays(p); }
  }

  lemma NormalStays(p: Bytes)
    requires IsNormal(p)
    ensures Normalize(p) == p
  {
    assert FirstByte(QUESTION, p, 0) == None;
  }

  lemma {:induction false} StripOne(p: Bytes)
    requires p != [] && p[0] != SLASH
    ensures StripSlashes(ROOT + p) == ROOT + StripSlashes(p)
  {
    if p[|p| - 1] == SLASH {
      assert (ROOT + p)[..|ROOT + p| - 1] == ROOT + p[..|p| - 1];
      StripOne(p[..|p| - 1]);
    }
  }

  /** src/path.ts. */
  method NormalizePath(path: Bytes) returns (r: Bytes)
    ensures r == Normalize(path)
  {
    if path == [] || path == ROOT {
      assert CutQuery(path) == path;
      return ROOT;
    }
    var query := Memchr(QUESTION, path, 0);
    var normalized := if query.Some? then path[..query.value] else path;
    if normalized == [] {
      return ROOT;
    }
    if normalized[|normalized| - 1] != SLASH {
      return if normalized[0] == SLASH then normalized else ROOT + normalized;
    }
    if normalized[0] != SLASH {
      normalized := ROOT + normalized;
    }
    var end := |normalized|;
    assert normalized[..end] == normalized;
    while end > 1 && normalized[end - 1] == SLASH
      invariant 1 <= end <= |normalized|
      invariant StripSlashes(normalized[..end]) == Normalize(path)
    {
      assert normalized[..end][..end - 1] == normalized[..end - 1];
      end := end - 1;
    }
    r := normalized[..end];
  }

  /** rust-core/src/lib.rs: strips first, then puts the leading slash in front. */
  method NormalizePathRust(path: Bytes) returns (r: Bytes)
    ensures r == Normalize(path)
  {
    if path == [] || path == ROOT {
      assert CutQuery(path) == path;
      return ROOT;
    }
    var query := Memchr(QUESTION, path, 0);
    var cut := if query.Some? then path[..query.value] else path;
    if cut == [] || cut == ROOT {
      return ROOT;
    }
    var end := |cut|;
    assert cut[..end] == cut;
    while end > 1 && cut[end - 1] == SLASH
      invariant 1 <= end <= |cut|
      invariant StripSlashes(cut[..end]) == StripSlashes(cut)
    {
      assert cut[..end][..end - 1] == cut[..end - 1];
      end := end - 1;
    }
    var normalized := cut[..end];
    if normalized[0] == SLASH {
      return normalized;
    }
    StripOne(cut);
    r := ROOT + normalized;
  }

  // ---------------------------------------------------------------- segments

  /** Splits at every slash, empty pieces included. */
  function Split(b: Bytes): (r: seq<Bytes>)
    ensures |r| > 0
  {
    if b == [] then [[]]
    else if b[0] == SLASH then [[]] + Split(b[1..])
    else
      var rest := Split(b[1..]);
      [[b[0]] + rest[0]] + rest[1..]
  }

  /** src/app.ts. */
  function SplitNormalizedPath(p: Bytes): seq<Bytes>
    requires IsNormal(p)
  {
    if p == ROOT then [] else Split(p[1..])
  }

  function NonEmpty(segs: seq<Bytes>): seq<Bytes> {
    if segs == [] then [] else (if segs[0] == [] then [] else [segs[0]]) + NonEmpty(segs[1..])
  }

  function TrimSlashes(p: Bytes): Bytes {
    if p != [] && p[0] == SLASH then TrimSlashes(p[1..]) else p
  }

  /** rust-core/src/lib.rs. */
  function SplitPath(p: Bytes): seq<Bytes> {
    if p == ROOT then []
    else
      var trimmed := TrimSlashes(p);
      if trimmed == [] then [] else NonEmpty(Split(trimmed))
  }

  predicate NoEmptySegments(p: Bytes)
    requires IsNormal(p)
  {
    forall i :: 0 <= i < |SplitNormalizedPath(p)| ==> SplitNormalizedPath(p)[i] != []
  }

  lemma {:induction false} TrimDropsEmpty(b: Bytes)
    ensures NonEmpty(Split(TrimSlashes(b))) == NonEmpty(Split(b))
  {
    if b != [] && b[0] == SLASH {
      TrimDropsEmpty(b[1..]);
      assert Split(b)[1..] == Split(b[1..]);
    }
  }

  lemma {:induction false} NonEmptyKeeps(segs: seq<Bytes>)
    ensures |NonEmpty(segs)| <= |segs|
    ensures NonEmpty(segs) == segs <==> forall i :: 0 <= i < |segs| ==> segs[i] != []
  {
    if segs != [] {
      NonEmptyKeeps(segs[1..]);
      assert segs == [segs[0]] + segs[1..];
    }
  }

  /** The two servers see the same segments exactly when none is empty. */
  lemma SplitsAgree(p: Bytes)
    requires IsNormal(p)
    ensures SplitPath(p) == SplitNormalizedPath(p) <==> NoEmptySegments(p)
  {
    if p != ROOT {
      TrimDropsEmpty(p);
      assert Split(p) == [[]] + Split(p[1..]);
      assert NonEmpty(Split(p)) == NonEmpty(Split(p[1..])) by { assert Split(p)[1..] == Split(p[1..]); }
      NonEmptyKeeps(Split(p[1..]));
      if TrimSlashes(p) == [] { TrimmedAway(p); }
    }
  }

  lemma {:induction false} TrimmedAway(p: Bytes)
    requires TrimSlashes(p) == [] && p != []
    ensures p[|p| - 1] == SLASH
  {
    if |p| > 1 { TrimmedAway(p[1..]); }
  }

  // ---------------------------------------------------------------- patterns

  function PartOf(segment: Bytes): Part {
    if segment != [] && segment[0] == COLON then Hole(segment[1..]) else Fixed(segment)
  }

  function PartsOf(segs: seq<Bytes>): Pattern {
    seq(|segs|, i requires 0 <= i < |segs| => PartOf(segs[i]))
  }

  predicate AnyHole(parts: Pattern) {
    exists i :: 0 <= i < |parts| && parts[i].Hole?
  }

  lemma AnyHoleSnoc(parts: Pattern, part: Part)
    ensures AnyHole(parts + [part]) <==> AnyHole(parts) || part.Hole?
  {
    var all := parts + [part];
    assert all[|parts|] == part;
    assert forall i :: 0 <= i < |parts| ==> all[i] == parts[i];
  }

  datatype Compiled = Compiled(normalized: Bytes, parts: Pattern, hasParams: bool)

  method CompilePath(path: Bytes) returns (r: Compiled)
    ensures IsNormal(r.normalized) && r.normalized == Normalize(path)
    ensures r.parts == PartsOf(SplitNormalizedPath(r.normalized)) && r.hasParams == AnyHole(r.parts)
  {
    var normalized := NormalizePath(path);
    NormalizeIsNormal(path);
    var segs := SplitNormalizedPath(normalized);
    var parts: Pattern, hasParams := [], false;
    var i := 0;
    while i < |segs|
      invariant 0 <= i <= |segs|
      invariant parts == PartsOf(segs[..i]) && hasParams == AnyHole(parts)
    {
      var segment := segs[i];
      assert PartsOf(segs[..i + 1]) == PartsOf(segs[..i]) + [PartOf(segment)];
      AnyHoleSnoc(parts, PartOf(segment));
      if segment != [] && segment[0] == COLON {
        hasParams := true;
        parts := parts + [Hole(segment[1..])];
      } else {
        parts := parts + [Fixed(segment)];
      }
      i := i + 1;
    }
    assert segs[..i] == segs;
    r := Compiled(normalized, parts, hasParams);
  }

  /** Colons stand only at the start of segments, and none in a query. */
  predicate ColonsLead(path: Bytes) {
    var p := Normalize(path);
    && (COLON in path ==> COLON in p)
    && (IsNormal(p) ==>
          forall i :: 0 <= i < |SplitNormalizedPath(p)| && COLON in SplitNormalizedPath(p)[i] ==>
            SplitNormalizedPath(p)[i][0] == COLON)
  }

  lemma {:induction false} SplitHas(b: Bytes, c: Byte)
    requires c != SLASH
    ensures c in b <==> exists i :: 0 <= i < |Split(b)| && c in Split(b)[i]
  {
    if b != [] {
      var segs, rest := Split(b), Split(b[1..]);
      SplitHas(b[1..], c);
      assert b == [b[0]] + b[1..];
      if b[0] == SLASH {
        assert segs == [[]] + rest;
        if c in b {
          var i :| 0 <= i < |rest| && c in rest[i];
          assert c in segs[i + 1];
        }
        if i :| 0 <= i < |segs| && c in segs[i] { assert c in rest[i - 1]; }
      } else {
        assert segs == [[b[0]] + rest[0]] + rest[1..];
        if c in b {
          if c == b[0] {
            assert c in segs[0];
          } else {
            var i :| 0 <= i < |rest| && c in rest[i];
            assert c in segs[i];
          }
        }
        if i :| 0 <= i < |segs| && c in segs[i] {
          if i == 0 { assert c == b[0] || c in rest[0]; } else { assert c in rest[i]; }
        }
      }
    } else {
      assert Split(b) == [[]];
    }
  }

  lemma {:induction false} StripHas(p: Bytes, c: Byte)
    requires c != SLASH
    ensures c in StripSlashes(p) <==> c in p
  {
    if |p| > 1 && p[|p| - 1] == SLASH {
      StripHas(p[..|p| - 1], c);
      assert p == p[..|p| - 1] + [SLASH];
    }
  }

  /** Rust looks for a colon anywhere in the raw path, TypeScript at segment starts: the same, where colons lead. */
  lemma ParamsSeenAlike(path: Bytes)
    requires ColonsLead(path)
    ensures IsNormal(Normalize(path))
    ensures COLON in path <==> AnyHole(PartsOf(SplitNormalizedPath(Normalize(path))))
  {
    var p := Normalize(path);
    NormalizeIsNormal(path);
    var segs := SplitNormalizedPath(p);
    var cut := CutQuery(path);
    assert COLON in p ==> COLON in path by {
      if cut != [] { StripHas(if cut[0] == SLASH then cut else ROOT + cut, COLON); }
    }
    if p != ROOT {
      SplitHas(p[1..], COLON);
      assert p == [SLASH] + p[1..];
      if COLON in path {
        var i :| 0 <= i < |segs| && COLON in segs[i];
        assert PartsOf(segs)[i].Hole?;
      }
      if AnyHole(PartsOf(segs)) {
        var i :| 0 <= i < |PartsOf(segs)| && PartsOf(segs)[i].Hole?;
        assert segs[i][0] == COLON && COLON in Split(p[1..])[i];
      }
    }
  }

  // ---------------------------------------------------------------- paths from segments

  /** A segment that can stand in a normal path. */
  predicate Whole(segment: Bytes) {
    segment != [] && SLASH !in segment && QUESTION !in segment
  }

  function Joined(segs: seq<Bytes>): Bytes {
    if segs == [] then [] else [SLASH] + segs[0] + Joined(segs[1..])
  }

  lemma {:induction false} SplitFirst(segment: Bytes, b: Bytes)
    requires SLASH !in segment
    ensures Split(segment) == [segment]
    ensures Split(segment + [SLASH] + b) == [segment] + Split(b)
  {
    if segment == [] {
      assert segment + [SLASH] + b == [SLASH] + b && ([SLASH] + b)[1..] == b;
    } else {
      SplitFirst(segment[1..], b);
      var all := segment + [SLASH] + b;
      assert all[1..] == segment[1..] + [SLASH] + b;
      assert segment == [segment[0]] + segment[1..];
      assert ([segment[1..]] + Split(b))[1..] == Split(b);
      assert [segment[1..]][1..] == Split(segment[1..])[1..];
    }
  }

  lemma {:induction false} JoinedSplits(segs: seq<Bytes>)
    requires segs != [] && forall i :: 0 <= i < |segs| ==> SLASH !in segs[i]
    ensures Joined(segs) != [] && Split(Joined(segs)[1..]) == segs
  {
    hide Split;
    var first, rest := segs[0], segs[1..];
    SplitFirst(first, if rest == [] then [] else Joined(rest)[1..]);
    if rest == [] {
      assert Joined(segs) == [SLASH] + first + [];
      assert Joined(segs)[1..] == first && segs == [first];
    } else {
      JoinedSplits(rest);
      assert Joined(segs)[1..] == first + [SLASH] + Joined(rest)[1..];
    }
  }

  lemma {:induction false} JoinedIsNormal(segs: seq<Bytes>)
    requires segs != [] && forall i :: 0 <= i < |segs| ==> Whole(segs[i])
    ensures |Joined(segs)| > 1 && IsNormal(Joined(segs))
    ensures forall i :: 0 <= i < |segs| ==> |Joined(segs)| > |segs[i]|
  {
    var first, rest := segs[0], segs[1..];
    assert Whole(first);
    if rest == [] {
      assert Joined(segs) == [SLASH] + first;
    } else {
      JoinedIsNormal(rest);
      assert Joined(segs)[|Joined(segs)| - 1] == Joined(rest)[|Joined(rest)| - 1];
      forall i | 0 <= i < |segs| ensures |Joined(segs)| > |segs[i]| { if i > 0 { assert segs[i] == rest[i - 1]; } }
    }
  }

  /** The path of some segments is normal, and is cut into them. */
  lemma PathOfSegments(segs: seq<Bytes>)
    requires segs != [] && forall i :: 0 <= i < |segs| ==> Whole(segs[i])
    ensures IsNormal(Joined(segs)) && Joined(segs) != ROOT && SplitNormalizedPath(Joined(segs)) == segs
    ensures forall i :: 0 <= i < |segs| ==> |Joined(segs)| > |segs[i]|
  {
    hide IsNormal, Joined;
    JoinedIsNormal(segs);
    JoinedSplits(segs);
  }

  lemma {:induction false} SplitHasNoSlash(b: Bytes, i: nat)
    requires i < |Split(b)|
    ensures SLASH !in Split(b)[i]
  {
    if b != [] {
      if b[0] == SLASH {
        if i > 0 { SplitHasNoSlash(b[1..], i - 1); }
      } else {
        SplitHasNoSlash(b[1..], i);
      }
    }
  }

  /** Every segment of a normal path without empty ones is whole. */
  lemma SegmentsWhole(p: Bytes, i: nat)
    requires IsNormal(p) && NoEmptySegments(p) && i < |SplitNormalizedPath(p)|
    ensures Whole(SplitNormalizedPath(p)[i])
  {
    SplitHasNoSlash(p[1..], i);
    SplitHas(p[1..], QUESTION);
  }

  lemma NormalizeIsShort(path: Bytes)
    ensures |Normalize(path)| <= |path| + 1
  {
    var cut := CutQuery(path);
    if cut != [] { StripIsShort(if cut[0] == SLASH then cut else ROOT + cut); }
  }

  lemma {:induction false} StripIsShort(p: Bytes)
    ensures |StripSlashes(p)| <= |p|
  {
    if |p| > 1 && p[|p| - 1] == SLASH { StripIsShort(p[..|p| - 1]); }
  }

  // ---------------------------------------------------------------- the path as written

  /** The segments of a path without a query, wherever its slashes stand. */
  function Segments(a: Bytes): seq<Bytes> {
    NonEmpty(Split(a))
  }

  lemma CutIs(a: Bytes, q: Bytes)
    requires QUESTION !in a && (q == [] || q[0] == QUESTION)
    ensures CutQuery(a + q) == a
  {
    if q == [] {
      assert a + q == a;
    } else {
      var path := a + q;
      assert path[|a|] == QUESTION && path[..|a|] == a;
      assert forall i :: 0 <= i < |a| ==> path[i] == a[i];
    }
  }

  /** What follows the first question mark makes no difference. */
  lemma QueryMakesNoDifference(a: Bytes, q: Bytes)
    requires QUESTION !in a
    ensures Normalize(a + [QUESTION] + q) == Normalize(a)
  {
    CutIs(a, [QUESTION] + q);
    CutIs(a, []);
    assert a + [QUESTION] + q == a + ([QUESTION] + q) && a + [] == a;
  }

  function Slashes(n: nat): Bytes {
    seq(n, _ => SLASH)
  }

  lemma {:induction false} StripTakesSlashes(p: Bytes)
    ensures exists n: nat :: p == StripSlashes(p) + Slashes(n)
  {
    if |p| > 1 && p[|p| - 1] == SLASH {
      StripTakesSlashes(p[..|p| - 1]);
      var n: nat :| p[..|p| - 1] == StripSlashes(p) + Slashes(n);
      assert p == StripSlashes(p) + Slashes(n + 1);
    } else {
      assert p == StripSlashes(p) + Slashes(0);
    }
  }

  /** Without a query, only a leading slash is put in front and only slashes are taken off the end. */
  lemma NormalKeepsText(a: Bytes)
    requires QUESTION !in a
    ensures IsNormal(Normalize(a))
    ensures exists n: nat :: (if a != [] && a[0] == SLASH then a else ROOT + a) == Normalize(a) + Slashes(n)
  {
    NormalizeIsNormal(a);
    CutIs(a, []);
    assert a + [] == a;
    if a == [] {
      assert ROOT + a == ROOT + Slashes(0);
    } else {
      StripTakesSlashes(if a[0] == SLASH then a else ROOT + a);
    }
  }

  lemma {:induction false} SplitSnoc(b: Bytes)
    ensures Split(b + [SLASH]) == Split(b) + [[]]
  {
    if b == [] {
      assert b + [SLASH] == [SLASH] && [SLASH][1..] == [];
    } else {
      SplitSnoc(b[1..]);
      assert (b + [SLASH])[1..] == b[1..] + [SLASH];
    }
  }

  lemma {:induction false} NonEmptySnoc(segs: seq<Bytes>)
    ensures NonEmpty(segs + [[]]) == NonEmpty(segs)
  {
    if segs != [] {
      NonEmptySnoc(segs[1..]);
      assert (segs + [[]])[1..] == segs[1..] + [[]];
    }
  }

  lemma TidySnoc(b: Bytes)
    ensures Segments(b + [SLASH]) == Segments(b)
    ensures Tidy(b + [SLASH]) ==> Tidy(b)
  {
    hide Split;
    SplitSnoc(b);
    NonEmptySnoc(Split(b));
    var longer := Split(b + [SLASH]);
    if Tidy(b + [SLASH]) {
      forall i, j | 0 < i < j < |Split(b)| && Split(b)[i] == [] ensures Split(b)[j] == [] {
        assert longer[i] == Split(b)[i] && longer[j] == Split(b)[j];
      }
    }
  }

  lemma {:induction false} StripKeepsSegments(p: Bytes)
    ensures Segments(StripSlashes(p)) == Segments(p)
    ensures Tidy(p) ==> Tidy(StripSlashes(p))
  {
    if |p| > 1 && p[|p| - 1] == SLASH {
      var b := p[..|p| - 1];
      StripKeepsSegments(b);
      assert p == b + [SLASH];
      TidySnoc(b);
    }
  }

  /** Slashes stand alone but at the end: an empty piece between two is the first, or has only empty ones behind it. */
  predicate Tidy(a: Bytes) {
    forall i, j :: 0 < i < j < |Split(a)| && Split(a)[i] == [] ==> Split(a)[j] == []
  }

  lemma LeadKeepsSegments(a: Bytes)
    ensures Split(ROOT + a) == [[]] + Split(a) && Segments(ROOT + a) == Segments(a)
    ensures a != [] && a[0] != SLASH && Tidy(a) ==> Tidy(ROOT + a)
  {
    assert (ROOT + a)[1..] == a;
    var all := Split(ROOT + a);
    assert all == [[]] + Split(a) && all[1..] == Split(a);
    if a != [] && a[0] != SLASH && Tidy(a) {
      assert Split(a)[0] != [];
      forall i, j | 0 < i < j < |all| && all[i] == [] ensures all[j] == [] {
        assert Split(a)[i - 1] == [];
      }
    }
  }

  lemma {:induction false} LastPiece(b: Bytes)
    ensures Split(b)[|Split(b)| - 1] == [] <==> b == [] || b[|b| - 1] == SLASH
  {
    if |b| > 0 { LastPiece(b[1..]); }
  }

  lemma TidyHasNoEmpty(p: Bytes)
    requires IsNormal(p) && Tidy(p)
    ensures NoEmptySegments(p) && SplitNormalizedPath(p) == Segments(p)
  {
    if p == ROOT {
      assert Split(ROOT) == [[]] + Split(ROOT[1..]) && ROOT[1..] == [];
      var two, one: seq<Bytes> := [[], []], [[]];
      assert two[1..] == one && one[1..] == [] && Split(ROOT) == two;
    } else {
      assert ROOT + p[1..] == p;
      LeadKeepsSegments(p[1..]);
      LastPiece(p);
      var all := Split(p);
      assert all == [[]] + Split(p[1..]);
      forall i | 0 <= i < |Split(p[1..])| ensures Split(p[1..])[i] != [] { assert all[i + 1] == Split(p[1..])[i]; }
      NonEmptyKeeps(Split(p[1..]));
    }
  }

  /** A path and its normal form have the same segments; where slashes stand alone, both servers see exactly them. */
  lemma NormalKeepsSegments(a: Bytes)
    requires QUESTION !in a
    ensures IsNormal(Normalize(a)) && Segments(Normalize(a)) == Segments(a)
    ensures Tidy(a) ==> NoEmptySegments(Normalize(a)) && SplitNormalizedPath(Normalize(a)) == Segments(a)
  {
    NormalizeIsNormal(a);
    CutIs(a, []);
    assert a + [] == a;
    LeadKeepsSegments(a);
    if a == [] {
      assert ROOT + a == ROOT;
      assert Split(ROOT) == [[], []];
    } else {
      StripKeepsSegments(if a[0] == SLASH then a else ROOT + a);
    }
    hide Normalize, Split;
    if Tidy(a) { TidyHasNoEmpty(Normalize(a)); }
  }

  lemma {:induction false} SplitTells(b: Bytes, c: Bytes)
    requires Split(b) == Split(c)
    ensures b == c
  {
    if b != [] && c != [] {
      assert Split(b)[0] == Split(c)[0];
      if b[0] == SLASH {
        assert Split(b)[1..] == Split(c)[1..];
      } else {
        assert Split(b)[0][0] == b[0];
        assert Split(b)[0][1..] == Split(b[1..])[0] && Split(b)[1..] == Split(b[1..])[1..];
        assert Split(c)[0][1..] == Split(c[1..])[0] && Split(c)[1..] == Split(c[1..])[1..];
        assert Split(b[1..]) == [Split(b[1..])[0]] + Split(b[1..])[1..];
        assert Split(c[1..]) == [Split(c[1..])[0]] + Split(c[1..])[1..];
      }
      SplitTells(b[1..], c[1..]);
      assert b == [b[0]] + b[1..] && c == [c[0]] + c[1..];
    }
  }

  /** Two such paths are one to both servers exactly when their segments are the same. */
  lemma SegmentsTell(a: Bytes, b: Bytes)
    requires QUESTION !in a && QUESTION !in b && Tidy(a) && Tidy(b)
    ensures Normalize(a) == Normalize(b) <==> Segments(a) == Segments(b)
  {
    NormalKeepsSegments(a);
    NormalKeepsSegments(b);
    var p, r := Normalize(a), Normalize(b);
    hide Normalize, Segments;
    if Segments(a) == Segments(b) {
      if p == ROOT || r == ROOT {
        assert p == r;
      } else {
        SplitTells(p[1..], r[1..]);
        assert p == ROOT + p[1..] && r == ROOT + r[1..];
      }
    }
  }
}
