/** Bytes and machine words, bit by bit. */
module Bits {
  import opened Common

  newtype byte = x: int | 0 <= x < 256

  function Zeros(n: nat): (z: seq<bool>)
    ensures |z| == n && forall i | 0 <= i < n :: !z[i]
  {
    seq(n, i => false)
  }

  function Xor(a: seq<bool>, b: seq<bool>): (c: seq<bool>)
    requires |a| == |b|
    ensures |c| == |a| && forall i | 0 <= i < |c| :: c[i] == (a[i] != b[i])
  {
    seq(|a|, i requires 0 <= i < |a| => a[i] != b[i])
  }

  /** The low `width` bits of a number, most significant first. */
  function BitsOf(n: nat, width: nat): (bits: seq<bool>)
    ensures |bits| == width
    decreases width
  {
    if width == 0 then [] else BitsOf(n / 2, width - 1) + [n % 2 == 1]
  }

  function Pow2(n: nat): (p: nat)
    ensures p > 0
  {
    if n == 0 then 1 else 2 * Pow2(n - 1)
  }

  /** The number written by `bits`. */
  function Value(bits: seq<bool>): (n: nat)
    ensures n < Pow2(|bits|)
    ensures BitsOf(n, |bits|) == bits
    decreases |bits|
  {
    if bits == [] then
      0
    else
      var init, last := bits[..|bits| - 1], bits[|bits| - 1];
      assert bits == init + [last];
      2 * Value(init) + if last then 1 else 0
  }

  lemma {:induction false} BitsInjective(n: nat, m: nat, width: nat)
    requires n < Pow2(width) && m < Pow2(width)
    requires BitsOf(n, width) == BitsOf(m, width)
    ensures n == m
    decreases width
  {
    if width > 0 {
      var a, b := BitsOf(n, width), BitsOf(m, width);
      assert a[..width - 1] == BitsOf(n / 2, width - 1);
      assert b[..width - 1] == BitsOf(m / 2, width - 1);
      assert a[width - 1] == b[width - 1];
      BitsInjective(n / 2, m / 2, width - 1);
    }
  }

  function ByteBits(b: byte): (bits: seq<bool>)
    ensures |bits| == 8
  {
    BitsOf(b as int, 8)
  }

  /** The byte with the given bits. */
  function ByteOf(bits: seq<bool>): (b: byte)
    requires |bits| == 8
    ensures ByteBits(b) == bits
  {
    assert Pow2(8) == 256;
    Value(bits) as byte
  }

  /** The message bits of a byte string, in transmission order. */
  function Bits(data: seq<byte>): (bits: seq<bool>)
    ensures |bits| == 8 * |data|
    decreases |data|
  {
    if data == [] then [] else ByteBits(data[0]) + Bits(data[1..])
  }

  lemma {:induction false} BitsConcat(a: seq<byte>, b: seq<byte>)
    ensures Bits(a + b) == Bits(a) + Bits(b)
    decreases |a|
  {
    if a == [] {
      assert a + b == b;
    } else {
      assert (a + b)[1..] == a[1..] + b;
      BitsConcat(a[1..], b);
    }
  }

  lemma SameByte(a: byte, b: byte)
    requires ByteBits(a) == ByteBits(b)
    ensures a == b
  {
    assert Pow2(8) == 256;
    BitsInjective(a as int, b as int, 8);
  }

  /** Equal bits come from equal bytes. */
  lemma {:induction false} SameBitsSameBytes(a: seq<byte>, b: seq<byte>)
    requires |a| == |b| && Bits(a) == Bits(b)
    ensures a == b
    decreases |a|
  {
    hide ByteBits;
    if a != [] {
      SplitEqual(ByteBits(a[0]), Bits(a[1..]), ByteBits(b[0]), Bits(b[1..]));
      SameByte(a[0], b[0]);
      SameBitsSameBytes(a[1..], b[1..]);
      assert a == [a[0]] + a[1..] && b == [b[0]] + b[1..];
    }
  }

  /** The bits of one byte of a string. */
  lemma {:induction false} BitsAt(data: seq<byte>, i: nat)
    requires i < |data|
    ensures Bits(data)[8 * i..8 * i + 8] == ByteBits(data[i])
    decreases i
  {
    hide ByteBits;
    var front, back := ByteBits(data[0]), Bits(data[1..]);
    if i == 0 {
      assert (front + back)[..8] == front;
    } else {
      BitsAt(data[1..], i - 1);
      assert (front + back)[8 * i..8 * i + 8] == back[8 * (i - 1)..8 * (i - 1) + 8];
    }
  }

  lemma OneDigit(high: nat, low: nat, width: nat)
    requires low < 2
    ensures BitsOf(2 * high + low, width + 1) == BitsOf(high, width) + [low == 1]
  {
    assert (2 * high + low) / 2 == high && (2 * high + low) % 2 == low;
  }

  /** Four digits more. */
  lemma FourDigits(high: nat, a: nat, b: nat, c: nat, d: nat, width: nat)
    requires a < 2 && b < 2 && c < 2 && d < 2
    ensures BitsOf(16 * high + 8 * a + 4 * b + 2 * c + d, width + 4)
      == BitsOf(high, width) + [a == 1, b == 1, c == 1, d == 1]
  {
    OneDigit(high, a, width);
    OneDigit(2 * high + a, b, width + 1);
    OneDigit(2 * (2 * high + a) + b, c, width + 2);
    OneDigit(2 * (2 * (2 * high + a) + b) + c, d, width + 3);
    hide BitsOf;
  }

  lemma Digits(low: nat) returns (a: nat, b: nat, c: nat, d: nat)
    requires low < 16
    ensures a < 2 && b < 2 && c < 2 && d < 2 && low == 8 * a + 4 * b + 2 * c + d
  {
    a, b, c, d := low / 8, low / 4 % 2, low / 2 % 2, low % 2;
  }

  lemma BitsOfFour(high: nat, low: nat, width: nat)
    requires low < 16
    ensures BitsOf(16 * high + low, width + 4) == BitsOf(high, width) + BitsOf(low, 4)
  {
    hide BitsOf;
    var a, b, c, d := Digits(low);
    FourDigits(high, a, b, c, d, width);
    FourDigits(0, a, b, c, d, 0);
    NoDigits(0);
  }

  lemma NoDigits(n: nat)
    ensures BitsOf(n, 0) == []
  {
  }

  lemma {:induction false} NoBits(width: nat)
    ensures BitsOf(0, width) == Zeros(width)
    decreases width
  {
    if width > 0 {
      NoBits(width - 1);
    }
  }

  /** A uint32_t, most significant bit first. */
  type Word32 = w: seq<bool> | |w| == 32 witness Zeros(32)
}
