/** Counting in sequences and sets. */
module Counting {
  function RemoveAt<T>(s: seq<T>, k: nat): (r: seq<T>)
    requires k < |s|
    ensures |r| == |s| - 1
    ensures forall i :: 0 <= i < |r| ==> r[i] == s[if i < k then i else i + 1]
  {
    s[..k] + s[k + 1..]
  }

  lemma RemoveCounts<T>(s: seq<T>, k: nat)
    requires k < |s|
    ensures multiset(s) == multiset(RemoveAt(s, k)) + multiset{s[k]}
  {
    assert s == s[..k] + [s[k]] + s[k + 1..];
  }

  lemma CountedOnce<T>(s: seq<T>)
    requires forall x :: x in s ==> multiset(s)[x] <= 1
    ensures forall i, j :: 0 <= i < j < |s| ==> s[i] != s[j]
  {
    forall i, j | 0 <= i < j < |s| ensures s[i] != s[j] {
      RemoveCounts(s, i);
      assert RemoveAt(s, i)[j - 1] == s[j];
      assert s[j] in multiset(RemoveAt(s, i));
      assert s[i] in s;
    }
  }

  /** A sequence without repetitions is no longer than a set that holds its elements. */
  lemma {:induction false} DistinctFits<T>(s: seq<T>, space: set<T>)
    requires forall i, j :: 0 <= i < j < |s| ==> s[i] != s[j]
    requires forall i :: 0 <= i < |s| ==> s[i] in space
    ensures |s| <= |space|
  {
    if s != [] {
      DistinctFits(s[1..], space - {s[0]});
    }
  }

  lemma {:induction false} DistinctSize<T>(s: seq<T>)
    requires forall i, j :: 0 <= i < j < |s| ==> s[i] != s[j]
    ensures |set x | x in s| == |s|
  {
    var elems := set x | x in s;
    if s == [] {
      assert elems == {};
    } else {
      DistinctSize(s[1..]);
      var rest := set x | x in s[1..];
      assert elems == rest + {s[0]};
      assert s[0] !in rest;
    }
  }

  /** The same, for a set and two elements more. */
  lemma CountedFits(s: seq<nat>, live: set<nat>, a: nat, b: nat)
    requires forall x :: x in s ==> multiset(s)[x] <= 1 && (x == a || x == b || x in live)
    ensures |s| <= |live| + 2
  {
    var space := (live + {a}) + {b};
    CountedOnce(s);
    DistinctFits(s, space);
    assert |live + {a}| <= |live| + 1;
  }

  /** A one-to-one image of a set has as many elements. */
  lemma {:induction false} ImageSize(f: map<nat, nat>, image: set<nat>)
    requires forall i :: i in f ==> f[i] in image
    requires forall y :: y in image ==> exists i :: i in f && f[i] == y
    requires forall i, j :: i in f && j in f && i != j ==> f[i] != f[j]
    ensures |image| == |f|
    decreases |f.Keys|
  {
    if f == map[] {
      assert image == {};
    } else {
      var x :| x in f;
      var g := f - {x};
      assert f.Keys == g.Keys + {x};
      forall y | y in image - {f[x]} ensures exists i :: i in g && g[i] == y {
        var i :| i in f && f[i] == y;
        assert i in g;
      }
      ImageSize(g, image - {f[x]});
      assert |f.Keys| == |g.Keys| + 1;
    }
  }

  function Upto(n: nat): set<nat> {
    if n == 0 then {} else Upto(n - 1) + {n - 1}
  }

  lemma {:induction false} UptoSize(n: nat)
    ensures |Upto(n)| == n && forall i: nat :: i in Upto(n) <==> i < n
  {
    if n > 0 { UptoSize(n - 1); }
  }
}
