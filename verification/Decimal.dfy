/** Base-10 numbers on the wire (rust-core/src/aot/runtime.rs, write_decimal). */
module Decimal {
  import opened Bytes

  const USIZE_LIMIT: nat := 0x1_0000_0000_0000_0000
  const DIGIT_BUFFER: nat := 20

  function Digits(n: nat): (r: Bytes)
    ensures |r| > 0
  {
    if n < 10 then [48 + n] else Digits(n / 10) + [48 + n % 10]
  }

  predicate IsDigits(s: Bytes) {
    |s| > 0 && forall i :: 0 <= i < |s| ==> 48 <= s[i] <= 57
  }

  /** What a reader makes of a digit string. */
  function Value(s: Bytes): nat
    requires forall i :: 0 <= i < |s| ==> 48 <= s[i] <= 57
  {
    if s == [] then 0 else 10 * Value(s[..|s| - 1]) + (s[|s| - 1] - 48)
  }

  function Pow10(k: nat): nat {
    if k == 0 then 1 else 10 * Pow10(k - 1)
  }

  lemma {:induction false} DigitsRoundTrip(n: nat)
    ensures IsDigits(Digits(n)) && Value(Digits(n)) == n
    ensures |Digits(n)| > 1 ==> Digits(n)[0] != 48
  {
    if n >= 10 {
      DigitsRoundTrip(n / 10);
      assert Digits(n)[..|Digits(n)| - 1] == Digits(n / 10);
      if n / 10 < 10 {
        assert Digits(n)[0] == 48 + n / 10;
      } else {
        assert Digits(n)[0] == Digits(n / 10)[0];
      }
    }
  }

  lemma {:induction false} DigitsBound(n: nat, k: nat)
    requires k > 0 && n < Pow10(k)
    ensures |Digits(n)| <= k
  {
    if n >= 10 {
      DigitsBound(n / 10, k - 1);
    }
  }

  /** A `Vec<u8>` that callees append to. */
  class ByteVec {
    var data: Bytes

    constructor ()
      ensures data == []
    {
      data := [];
    }

    method Extend(bytes: Bytes)
      modifies this
      ensures data == old(data) + bytes
    {
      data := data + bytes;
    }

    method Push(b: Byte)
      modifies this
      ensures data == old(data) + [b]
    {
      data := data + [b];
    }
  }

  function Reversed(s: Bytes): (r: Bytes)
    ensures |r| == |s|
  {
    seq(|s|, i requires 0 <= i < |s| => s[|s| - 1 - i])
  }

  /** What is still to be written in front of the digits already buffered. */
  function Pending(value: nat): Bytes {
    if value == 0 then [] else Digits(value)
  }

  lemma NextDigit(value: nat, buffered: Bytes)
    requires value > 0
    ensures Pending(value) + Reversed(buffered) == Pending(value / 10) + Reversed(buffered + [48 + value % 10])
  {
    var d: Byte := 48 + value % 10;
    assert Reversed(buffered + [d]) == [d] + Reversed(buffered);
    assert Pending(value) == Pending(value / 10) + [d];
  }

  /** Every 64-bit value fits in the buffer. */
  lemma TwentyDigits()
    ensures USIZE_LIMIT <= Pow10(DIGIT_BUFFER)
  {
    assert Pow10(5) == 100000;
    assert Pow10(10) == 10000000000;
    assert Pow10(15) == 1000000000000000;
    assert Pow10(20) == 100000000000000000000;
  }

  /** Dividing by ten leaves one digit less to place. */
  lemma RoomLeft(v: nat, k: nat)
    requires 0 < v < Pow10(k)
    ensures k > 0 && v / 10 < Pow10(k - 1)
  {
  }

  lemma NothingPending(buffered: Bytes, value: nat)
    ensures Pending(0) + Reversed(buffered) == Reversed(buffered)
    ensures value > 0 ==> Pending(value) + Reversed([]) == Digits(value)
  {
  }

  method PushReversed(out: ByteVec, buf: array<Byte>, len: nat)
    requires len <= buf.Length
    modifies out
    ensures out.data == old(out.data) + Reversed(buf[..len])
  {
    ghost var digits := Reversed(buf[..len]);
    var i := len;
    while i > 0
      invariant 0 <= i <= len
      invariant out.data == old(out.data) + digits[..len - i]
    {
      i := i - 1;
      out.Push(buf[i]);
      assert digits[..len - i] == digits[..len - i - 1] + [buf[i]];
    }
  }

  /** Fills a 20-byte buffer least significant digit first, then copies it out in reverse. */
  method WriteDecimal(out: ByteVec, value: nat)
    requires value < USIZE_LIMIT
    modifies out
    ensures out.data == old(out.data) + Digits(value)
  {
    if value == 0 {
      out.Push(48);
      return;
    }
    hide Digits, Pow10, Pending;
    var buf := new Byte[DIGIT_BUFFER];
    var len: nat, v: nat := 0, value;
    TwentyDigits();
    NothingPending([], value);
    assert buf[..len] == [];
    while v > 0
      invariant 0 <= len <= DIGIT_BUFFER && v < Pow10(DIGIT_BUFFER - len)
      invariant Digits(value) == Pending(v) + Reversed(buf[..len])
      invariant out.data == old(out.data)
    {
      NextDigit(v, buf[..len]);
      RoomLeft(v, DIGIT_BUFFER - len);
      buf[len] := 48 + v % 10;
      assert buf[..len + 1] == buf[..len] + [48 + v % 10];
      v := v / 10;
      len := len + 1;
    }
    NothingPending(buf[..len], value);
    PushReversed(out, buf, len);
  }
}
