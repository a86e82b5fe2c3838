/** Bytes as the code moves them, and the few sequence facts every other module leans on. */
module Bytes {
  type Byte = b: int | 0 <= b < 256
  type Bytes = seq<Byte>

  const CR: Byte := 13
  const LF: Byte := 10

  datatype Option<+T> = None | Some(value: T)

  function OrElse<T>(a: Option<T>, b: Option<T>): Option<T> {
    if a.Some? then a else b
  }

  /** The bytes of a source literal. Literals of the model are printable ASCII; nothing else would pass. */
  function Ascii(s: string): (r: Bytes)
    ensures |r| == |s|
    ensures forall i :: 0 <= i < |r| ==> 32 <= r[i] <= 126
  {
    seq(|s|, i requires 0 <= i < |s| => if ' ' <= s[i] <= '~' then s[i] as int else 63)
  }

  /** Concatenation of a list of byte strings, in order. */
  function Concat(parts: seq<Bytes>): Bytes {
    if parts == [] then [] else parts[0] + Concat(parts[1..])
  }

  function Min(a: nat, b: nat): nat {
    if a <= b then a else b
  }

  lemma {:induction false} ConcatAppend(xs: seq<Bytes>, ys: seq<Bytes>)
    ensures Concat(xs + ys) == Concat(xs) + Concat(ys)
  {
    if xs == [] {
      assert xs + ys == ys;
    } else {
      var all := xs + ys;
      assert all[1..] == xs[1..] + ys;
      ConcatAppend(xs[1..], ys);
      assert Concat(all) == xs[0] + Concat(all[1..]);
    }
  }

  lemma ConcatSnoc(xs: seq<Bytes>, y: Bytes)
    ensures Concat(xs + [y]) == Concat(xs) + y
  {
    ConcatAppend(xs, [y]);
    assert Concat([y]) == y + Concat([]);
  }
}
