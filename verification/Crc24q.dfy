/** CRC-24Q as main/base_station.cpp computes it, and which errors it detects. */
module Crc24q {
  import opened Bits

  // The program keeps the remainder in the low 24 bits of a 32-bit word. The
  // specification works on those 24 bits as a vector over GF(2) and takes its
  // input one message bit at a time.

  /** A 24-bit register, most significant bit first. */
  type Register = r: seq<bool> | |r| == 24 witness Zeros(24)

  const ZERO: Register := Zeros(24)

  /** The 24 low bits of the generator 0x1864CFB. */
  const GENERATOR: Register := [
    true, false, false, false, false, true, true, false,
    false, true, false, false, true, true, false, false,
    true, true, true, true, true, false, true, true]

  /** Multiply by x and add one message bit, modulo the generator. */
  function Shift(r: Register, message: bool): Register {
    var feedback := r[0] != message;
    seq(24, i requires 0 <= i < 24 => (i < 23 && r[i + 1]) != (feedback && GENERATOR[i]))
  }

  function FeedBits(r: Register, bits: seq<bool>): Register
    decreases |bits|
  {
    if bits == [] then r else FeedBits(Shift(r, bits[0]), bits[1..])
  }

  /** The CRC-24Q of a byte string. */
  function Crc(data: seq<byte>): Register {
    FeedBits(ZERO, Bits.Bits(data))
  }

  // ---------------------------------------------------------------- algebra

  lemma ShiftLinear(r: Register, s: Register, a: bool, b: bool)
    ensures Shift(Xor(r, s), a != b) == Xor(Shift(r, a), Shift(s, b))
  {
  }

  lemma {:induction false} FeedLinear(r: Register, s: Register, a: seq<bool>, b: seq<bool>)
    requires |a| == |b|
    ensures FeedBits(Xor(r, s), Xor(a, b)) == Xor(FeedBits(r, a), FeedBits(s, b))
    decreases |a|
  {
    if a == [] {
    } else {
      ShiftLinear(r, s, a[0], b[0]);
      FeedLinear(Shift(r, a[0]), Shift(s, b[0]), a[1..], b[1..]);
      assert Xor(a, b)[1..] == Xor(a[1..], b[1..]);
    }
  }

  /** One step loses nothing: the old register can be read back from the new one. */
  lemma ShiftInjective(r: Register, s: Register, message: bool)
    requires Shift(r, message) == Shift(s, message)
    ensures r == s
  {
    var r', s' := Shift(r, message), Shift(s, message);
    assert r'[23] == (r[0] != message) && s'[23] == (s[0] != message);
    assert r[0] == s[0];
    forall i | 0 <= i < 24
      ensures r[i] == s[i]
    {
      if i > 0 {
        assert r'[i - 1] == s'[i - 1];
      }
    }
  }

  lemma {:induction false} FeedInjective(r: Register, s: Register, bits: seq<bool>)
    requires FeedBits(r, bits) == FeedBits(s, bits)
    ensures r == s
    decreases |bits|
  {
    if bits == [] {
    } else {
      FeedInjective(Shift(r, bits[0]), Shift(s, bits[0]), bits[1..]);
      ShiftInjective(r, s, bits[0]);
    }
  }

  lemma {:induction false} FeedConcat(r: Register, a: seq<bool>, b: seq<bool>)
    ensures FeedBits(r, a + b) == FeedBits(FeedBits(r, a), b)
    decreases |a|
  {
    if a == [] {
      assert a + b == b;
    } else {
      assert (a + b)[1..] == a[1..] + b;
      FeedConcat(Shift(r, a[0]), a[1..], b);
    }
  }

  /** Up to 24 message bits bring the register to zero exactly when the register
      holds those very bits, left aligned. */
  lemma {:induction false} ZeroAfter(r: Register, w: seq<bool>)
    requires |w| <= 24
    ensures FeedBits(r, w) == ZERO <==> r == w + Zeros(24 - |w|)
    decreases |w|
  {
    if w == [] {
      assert w + Zeros(24) == ZERO;
    } else {
      var r' := Shift(r, w[0]);
      var tail := w[1..] + Zeros(25 - |w|);
      ZeroAfter(r', w[1..]);
      if r' == tail {
        assert !r'[23];
        assert r[0] == w[0];
        forall i | 0 <= i < 24
          ensures r[i] == (w + Zeros(24 - |w|))[i]
        {
          if i > 0 {
            assert r'[i - 1] == r[i];
          }
        }
      }
      if r == w + Zeros(24 - |w|) {
        forall i | 0 <= i < 24
          ensures r'[i] == tail[i]
        {
        }
      }
    }
  }

  // ---------------------------------------------------- what the check detects

  /** Three more bytes leave zero exactly when they are the CRC of what came before. */
  lemma {:induction false} CodewordIffZero(message: seq<byte>, field: seq<byte>)
    requires |field| == 3
    ensures Crc(message + field) == ZERO <==> Bits.Bits(field) == Crc(message)
  {
    BitsConcat(message, field);
    FeedConcat(ZERO, Bits.Bits(message), Bits.Bits(field));
    ZeroAfter(Crc(message), Bits.Bits(field));
    assert Bits.Bits(field) + Zeros(0) == Bits.Bits(field);
  }

  /** Two bit strings that differ, but only inside a window of 24 positions. */
  ghost predicate DifferInBurst(a: seq<bool>, b: seq<bool>, start: nat) {
    && |a| == |b|
    && a != b
    && forall i | 0 <= i < |a| && !(start <= i < start + 24) :: a[i] == b[i]
  }

  /** Any error burst of at most 24 bits changes the CRC register. */
  lemma BurstChangesRegister(r: Register, a: seq<bool>, b: seq<bool>, start: nat)
    requires DifferInBurst(a, b, start)
    ensures FeedBits(r, a) != FeedBits(r, b)
  {
    if start < |a| {
      var end := if start + 24 <= |a| then start + 24 else |a|;
      var head, mid, mid', tail := a[..start], a[start..end], b[start..end], a[end..];
      assert a == head + (mid + tail);
      assert b == head + (mid' + tail) by {
        assert b[..start] == head && b[end..] == tail;
      }
      var at := FeedBits(r, head);
      FeedConcat(r, head, mid + tail);
      FeedConcat(r, head, mid' + tail);
      FeedConcat(at, mid, tail);
      FeedConcat(at, mid', tail);
      if FeedBits(r, a) == FeedBits(r, b) {
        FeedInjective(FeedBits(at, mid), FeedBits(at, mid'), tail);
        FeedLinear(at, at, mid, mid');
        assert Xor(at, at) == ZERO;
        assert FeedBits(ZERO, Xor(mid, mid')) == ZERO;
        ZeroAfter(ZERO, Xor(mid, mid'));
        assert forall i | 0 <= i < |mid| :: !ZERO[i] && Xor(mid, mid')[i] == (mid[i] != mid'[i]);
      }
    }
  }

  // ------------------------------------------------------------ the program

  const POLYNOMIAL: Word32 := Zeros(7) + [true] + GENERATOR

  /** `r` as the program stores it. */
  function Stored(r: Register): Word32 {
    Zeros(8) + r
  }

  lemma {:induction false} AddingUpFront(r: Register, w: seq<bool>)
    requires |w| <= 24
    ensures FeedBits(Xor(r, w + Zeros(24 - |w|)), Zeros(|w|)) == FeedBits(r, w)
    decreases |w|
  {
    if w == [] {
      assert Xor(r, w + Zeros(24)) == r;
    } else {
      AddingUpFront(Shift(r, w[0]), w[1..]);
      var x := Xor(r, w + Zeros(24 - |w|));
      assert Shift(x, false) == Xor(Shift(r, w[0]), w[1..] + Zeros(25 - |w|));
      assert Zeros(|w|)[1..] == Zeros(|w| - 1);
    }
  }

  /** `data[i] << 16` as a 32-bit word. */
  function Placed(b: byte): Word32 {
    Zeros(8) + ByteBits(b) + Zeros(16)
  }

  function ShiftLeft(w: Word32): Word32 {
    w[1..] + [false]
  }

  lemma StoredXor(r: Register, b: byte) returns (r': Register)
    ensures r' == Xor(r, ByteBits(b) + Zeros(16))
    ensures Xor(Stored(r), Placed(b)) == Stored(r')
    ensures FeedBits(r', Zeros(8)) == FeedBits(r, ByteBits(b))
  {
    r' := Xor(r, ByteBits(b) + Zeros(16));
    AddingUpFront(r, ByteBits(b));
  }

  lemma StoredShift(r: Register)
    ensures var w := ShiftLeft(Stored(r));
            (if w[7] then Xor(w, POLYNOMIAL) else w) == Stored(Shift(r, false))
  {
  }

  lemma CrcExtend(data: seq<byte>, i: nat)
    requires i < |data|
    ensures Crc(data[..i + 1]) == FeedBits(Crc(data[..i]), ByteBits(data[i]))
  {
    assert data[..i + 1] == data[..i] + [data[i]];
    BitsConcat(data[..i], [data[i]]);
    assert Bits.Bits([data[i]]) == ByteBits(data[i]) + [];
    assert ByteBits(data[i]) + [] == ByteBits(data[i]);
    FeedConcat(ZERO, Bits.Bits(data[..i]), ByteBits(data[i]));
  }

  /** The loops of rtcm_crc24q; no step ever leaves the low 24 bits. */
  method ComputeCrc(data: seq<byte>) returns (crc: Word32)
    ensures crc == Stored(Crc(data))
  {
    crc := Zeros(32);
    for i := 0 to |data|
      invariant crc == Stored(Crc(data[..i]))
    {
      CrcExtend(data, i);
      crc := AddByte(crc, data[i], Crc(data[..i]));
    }
    assert data[..|data|] == data;
    crc := Zeros(8) + crc[8..];
  }

  method AddByte(before: Word32, b: byte, ghost r0: Register) returns (crc: Word32)
    requires before == Stored(r0)
    ensures crc == Stored(FeedBits(r0, ByteBits(b)))
  {
    hide ByteBits;
    ghost var r: Register := StoredXor(r0, b);
    crc := Xor(before, Placed(b));
    for bit := 0 to 8
      invariant crc == Stored(r)
      invariant FeedBits(r, Zeros(8 - bit)) == FeedBits(r0, ByteBits(b))
    {
      StoredShift(r);
      assert Zeros(8 - bit)[1..] == Zeros(7 - bit);
      crc := ShiftLeft(crc);
      if crc[7] {
        crc := Xor(crc, POLYNOMIAL);
      }
      r := Shift(r, false);
    }
  }
}
