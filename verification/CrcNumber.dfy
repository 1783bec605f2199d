/** The CRC is a remainder. */
module CrcNumber {
  import opened Common
  import opened Bits
  import opened Polynomials
  import Crc24q
  import Deframer

  // Crc24q says what the loops compute in its own terms, a register that is shifted. Here the
  // register is read as a number, and the terms are those of polynomials.

  /** The number that bits write. */
  function Number(bits: seq<bool>): nat
    decreases |bits|
  {
    if bits == [] then 0 else 2 * Number(bits[..|bits| - 1]) + Weight(bits[|bits| - 1], 1)
  }

  function Weight(bit: bool, weight: nat): nat {
    if bit then weight else 0
  }

  lemma {:induction false} NumberIsValue(bits: seq<bool>)
    ensures Number(bits) == Value(bits)
    decreases |bits|
  {
    if bits != [] {
      NumberIsValue(bits[..|bits| - 1]);
    }
  }

  /** Times x^k. */
  function Scaled(n: nat, k: nat): nat {
    if k == 0 then n else 2 * Scaled(n, k - 1)
  }

  lemma NumberSnoc(bits: seq<bool>, last: bool)
    ensures Number(bits + [last]) == 2 * Number(bits) + Weight(last, 1)
  {
    assert (bits + [last])[..|bits|] == bits;
  }

  lemma NumberEmpty()
    ensures Number([]) == 0
  {
  }

  lemma {:induction false} NumberConcat(a: seq<bool>, b: seq<bool>)
    ensures Number(a + b) == Scaled(Number(a), |b|) + Number(b)
    decreases |b|
  {
    if b == [] {
      ConcatEmpty(a);
    } else {
      var init, last := b[..|b| - 1], b[|b| - 1];
      NumberConcat(a, init);
      assert b == init + [last];
      NumberSnoc(a + init, last);
      NumberSnoc(init, last);
      ConcatAssoc(a, init, [last]);
      hide Number;
    }
  }

  lemma {:induction false} NumberZeros(n: nat)
    ensures Number(Zeros(n)) == 0
    decreases n
  {
    if n > 0 {
      assert Zeros(n)[..n - 1] == Zeros(n - 1);
      NumberZeros(n - 1);
    }
  }

  lemma {:induction false} NumberBound(bits: seq<bool>)
    ensures Number(bits) < Pow2(|bits|)
    decreases |bits|
  {
    if bits != [] {
      NumberBound(bits[..|bits| - 1]);
    }
  }

  /** The exclusive or of two words is the sum of their polynomials. */
  lemma {:induction false} NumberXor(a: seq<bool>, b: seq<bool>)
    requires |a| == |b|
    ensures Number(Xor(a, b)) == Plus(Number(a), Number(b))
    decreases |a|
  {
    if a == [] {
      PlusZero(0);
    } else {
      hide Plus, Number, Xor, Weight;
      var n := |a| - 1;
      NumberXor(a[..n], b[..n]);
      XorPrefix(a, b, n);
      LastBit(a);
      LastBit(b);
      LastBit(Xor(a, b));
      WeightXor(a[n], b[n]);
      PlusDigits(Number(a[..n]), Number(b[..n]), Weight(a[n], 1), Weight(b[n], 1));
    }
  }

  lemma LastBit(b: seq<bool>)
    requires b != []
    ensures Number(b) == 2 * Number(b[..|b| - 1]) + Weight(b[|b| - 1], 1)
  {
  }

  lemma XorPrefix(a: seq<bool>, b: seq<bool>, n: nat)
    requires |a| == |b| == n + 1
    ensures Xor(a, b)[..n] == Xor(a[..n], b[..n]) && Xor(a, b)[n] == (a[n] != b[n])
  {
  }

  lemma WeightXor(i: bool, j: bool)
    ensures Weight(i, 1) < 2 && Weight(i != j, 1) == (Weight(i, 1) + Weight(j, 1)) % 2
  {
  }

  lemma PlusDigits(a: nat, b: nat, i: nat, j: nat)
    requires i < 2 && j < 2
    ensures Plus(2 * a + i, 2 * b + j) == 2 * Plus(a, b) + (i + j) % 2
  {
    hide Plus;
    PlusParts(2 * a + i, 2 * b + j);
    Halves(a, i);
    Halves(b, j);
    Halves(a + b, i + j);
  }

  lemma Halves(a: nat, i: nat)
    ensures (2 * a + i) / 2 == a + i / 2 && (2 * a + i) % 2 == i % 2
  {
  }

  // -------------------------------------------------------------------- the generator

  lemma NumberFour(b: seq<bool>)
    requires |b| == 4
    ensures Number(b) == Weight(b[0], 8) + Weight(b[1], 4) + Weight(b[2], 2) + Weight(b[3], 1)
  {
    NumberEmpty();
    NumberPrefix(b, 0);
    NumberPrefix(b, 1);
    NumberPrefix(b, 2);
    NumberPrefix(b, 3);
    hide Number;
    assert b[..0] == [] && b[..4] == b;
  }

  lemma NumberPrefix(b: seq<bool>, k: nat)
    requires k < |b|
    ensures Number(b[..k + 1]) == 2 * Number(b[..k]) + Weight(b[k], 1)
  {
    assert b[..k + 1][..k] == b[..k];
  }

  lemma NumberEight(b: seq<bool>)
    requires |b| == 8
    ensures Number(b) == 16 * Number(b[..4]) + Number(b[4..])
  {
    hide Number;
    NumberConcat(b[..4], b[4..]);
    assert b == b[..4] + b[4..];
    ScaledFour(Number(b[..4]), 0);
  }

  lemma ScaledFour(n: nat, k: nat)
    ensures Scaled(n, k + 4) == 16 * Scaled(n, k)
  {
    assert Scaled(n, k + 4) == 2 * Scaled(n, k + 3);
    assert Scaled(n, k + 2) == 2 * Scaled(n, k + 1);
  }

  lemma ScaledIs(n: nat)
    ensures Scaled(n, 4) == 16 * n && Scaled(n, 8) == 256 * n
    ensures Scaled(n, 16) == 0x1_0000 * n && Scaled(n, 24) == 0x100_0000 * n
  {
    ScaledFour(n, 0);
    ScaledFour(n, 4);
    ScaledFour(n, 8);
    ScaledFour(n, 12);
    ScaledFour(n, 16);
    ScaledFour(n, 20);
    assert Scaled(n, 0) == n;
    hide Scaled;
  }

  lemma GeneratorBytes()
    ensures var g := Crc24q.GENERATOR;
      Number(g[..8]) == 0x86 && Number(g[8..16]) == 0x4C && Number(g[16..]) == 0xFB
  {
    var g := Crc24q.GENERATOR;
    NibblesOf(g[..8]);
    NibblesOf(g[8..16]);
    NibblesOf(g[16..]);
  }

  lemma NibblesOf(b: seq<bool>)
    requires |b| == 8
    ensures Number(b) == Weight(b[0], 128) + Weight(b[1], 64) + Weight(b[2], 32) + Weight(b[3], 16)
                         + Weight(b[4], 8) + Weight(b[5], 4) + Weight(b[6], 2) + Weight(b[7], 1)
  {
    hide Number;
    NumberEight(b);
    NumberFour(b[..4]);
    NumberFour(b[4..]);
  }

  /** The constant of the program, and of section 4 of RTCM 10403.3. */
  lemma GeneratorIs()
    ensures Number(Crc24q.GENERATOR) == 0x864CFB && Number([true] + Crc24q.GENERATOR) == 0x1864CFB
    ensures Number(Crc24q.POLYNOMIAL) == 0x1864CFB
  {
    GeneratorBytes();
    var g := Crc24q.GENERATOR;
    hide Number, Scaled;
    NumberConcat(g[..8], g[8..16]);
    NumberConcat(g[..16], g[16..]);
    NumberZeros(7);
    NumberEmpty();
    NumberSnoc([], true);
    NumberConcat([true], g);
    NumberConcat(Zeros(7), [true] + g);
    ScaledIs(0x86);
    ScaledIs(0x864C);
    ScaledIs(1);
    assert g == g[..16] + g[16..] && g[..16] == g[..8] + g[8..16] && [] + [true] == [true];
    assert Crc24q.POLYNOMIAL == Zeros(7) + ([true] + g);
    ScaledZero(25);
  }

  lemma {:induction false} ScaledZero(k: nat)
    ensures Scaled(0, k) == 0
  {
    if k > 0 {
      ScaledZero(k - 1);
    }
  }

  // -------------------------------------------------------------------- the register

  /** One step of the register, in terms of polynomials: times x, plus the message bit times x^24,
      plus the generator if that has a term x^24. */
  lemma ShiftNumber(r: Crc24q.Register, message: bool)
    ensures var s := Plus(2 * Number(r), Scaled(Weight(message, 1), 24));
      Number(Crc24q.Shift(r, message)) == Plus(s, if r[0] != message then CRC24Q else 0)
  {
    hide Crc24q.Shift, Crc24q.GENERATOR, Number, Plus, Scaled, Xor;
    var doubled, top := r + [false], [message] + Zeros(24);
    var g := if r[0] != message then [true] + Crc24q.GENERATOR else Zeros(25);
    ShiftIsXor(r, message, g);
    NumberOf(message, Crc24q.Shift(r, message));
    GeneratorIs();
    NumberXor(doubled, top);
    NumberXor(Xor(doubled, top), g);
    NumberSnoc(r, false);
    NumberZeros(25);
  }

  lemma ShiftIsXor(r: Crc24q.Register, message: bool, g: seq<bool>)
    requires g == if r[0] != message then [true] + Crc24q.GENERATOR else Zeros(25)
    ensures |g| == 25
    ensures Xor(Xor(r + [false], [message] + Zeros(24)), g) == [false] + Crc24q.Shift(r, message)
  {
  }

  lemma NumberOf(message: bool, r: Crc24q.Register)
    ensures Number([message] + Zeros(24)) == Scaled(Weight(message, 1), 24)
    ensures Number([false] + r) == Number(r)
  {
    NumberEmpty();
    NumberSnoc([], message);
    NumberSnoc([], false);
    NumberConcat([message], Zeros(24));
    NumberConcat([false], r);
    NumberZeros(24);
    ScaledZero(24);
    hide Number, Scaled;
    assert [] + [message] == [message] && [] + [false] == [false];
  }

  lemma {:induction false} ScaledPlus(a: nat, b: nat, k: nat)
    ensures Scaled(Plus(a, b), k) == Plus(Scaled(a, k), Scaled(b, k))
  {
    hide Plus;
    if k > 0 {
      ScaledPlus(a, b, k - 1);
      Doubled(Scaled(a, k - 1), Scaled(b, k - 1));
    }
  }

  lemma {:induction false} ScaledDouble(n: nat, k: nat)
    ensures Scaled(2 * n, k) == 2 * Scaled(n, k)
  {
    if k > 0 {
      ScaledDouble(n, k - 1);
    }
  }

  /** One more digit of the message. */
  lemma ScaledDigit(n: nat, digit: nat)
    requires digit < 2
    ensures Scaled(2 * n + digit, 24) == Plus(2 * Scaled(n, 24), Scaled(digit, 24))
  {
    hide Plus, Scaled;
    PlusDigits(n, 0, 0, digit);
    PlusZero(n);
    ScaledPlus(2 * n, digit, 24);
    ScaledDouble(n, 24);
  }

  lemma RemainderStep(a: nat, r: nat, m: nat, feedback: bool)
    requires IsRemainder(a, r)
    requires Plus(Plus(2 * r, m), if feedback then CRC24Q else 0) < 0x100_0000
    ensures IsRemainder(Plus(2 * a, m), Plus(Plus(2 * r, m), if feedback then CRC24Q else 0))
  {
    var q: nat :| a == Plus(Times(q, CRC24Q), r);
    hide Plus, Times;
    var t, s := Times(q, CRC24Q), Plus(2 * r, m);
    Doubled(t, r);
    PlusAssociates(2 * t, 2 * r, m);
    QuotientDigits(q);
    PlusZero(s);
    Subtracted(2 * t, s, CRC24Q);
    assert Plus(2 * a, m) == Plus(2 * t, s);
    var q' := if feedback then 2 * q + 1 else 2 * q;
    assert Plus(2 * a, m) == Plus(Times(q', CRC24Q), Plus(s, if feedback then CRC24Q else 0));
  }

  lemma RegisterBound(r: Crc24q.Register)
    ensures Number(r) < 0x100_0000
  {
    NumberBound(r);
    GeneratorDegree();
  }

  /** After a message the register holds the remainder of the message times x^24. */
  lemma {:induction false} FeedIsRemainder(bits: seq<bool>)
    ensures IsRemainder(Scaled(Number(bits), 24), Number(Crc24q.FeedBits(Crc24q.ZERO, bits)))
    decreases |bits|
  {
    if bits == [] {
      NothingRemains();
    } else {
      hide *;
      var n := |bits| - 1;
      var init, last := bits[..n], bits[n];
      FeedIsRemainder(init);
      FeedOneBit(init, last);
      assert bits == init + [last];
      NumberSnoc(init, last);
      ShiftIsRemainder(Number(init), Crc24q.FeedBits(Crc24q.ZERO, init), last);
    }
  }

  lemma ShiftIsRemainder(n: nat, r: Crc24q.Register, last: bool)
    requires IsRemainder(Scaled(n, 24), Number(r))
    ensures IsRemainder(Scaled(2 * n + Weight(last, 1), 24), Number(Crc24q.Shift(r, last)))
  {
    hide *;
    ShiftNumber(r, last);
    RegisterBound(Crc24q.Shift(r, last));
    ScaledBit(n, last);
    RemainderStep(Scaled(n, 24), Number(r), Scaled(Weight(last, 1), 24), r[0] != last);
  }

  lemma ScaledBit(n: nat, last: bool)
    ensures Scaled(2 * n + Weight(last, 1), 24) == Plus(2 * Scaled(n, 24), Scaled(Weight(last, 1), 24))
  {
    ScaledDigit(n, Weight(last, 1));
    hide Plus, Scaled;
  }

  lemma NothingRemains()
    ensures IsRemainder(Scaled(Number([]), 24), Number(Crc24q.FeedBits(Crc24q.ZERO, [])))
  {
    NumberZeros(24);
    ScaledZero(24);
    PlusZero(0);
    assert 0 == Plus(Times(0, CRC24Q), 0);
    hide Scaled;
  }

  lemma FeedOneBit(init: seq<bool>, last: bool)
    ensures Crc24q.FeedBits(Crc24q.ZERO, init + [last]) == Crc24q.Shift(Crc24q.FeedBits(Crc24q.ZERO, init), last)
  {
    hide Crc24q.Shift;
    Crc24q.FeedConcat(Crc24q.ZERO, init, [last]);
    assert [last][1..] == [];
  }

  // ------------------------------------------------------------------ what is computed

  /** The CRC-24Q of a byte string is the remainder of its polynomial times x^24 by 0x1864CFB, and
      the only one there is; so is the word the program returns. */
  lemma CrcIsRemainder(data: seq<byte>)
    ensures var a := 0x100_0000 * Value(Bits.Bits(data));
      && Value(Crc24q.Crc(data)) == Value(Crc24q.Stored(Crc24q.Crc(data))) == Remainder(a)
      && IsRemainder(a, Remainder(a))
      && CRC24Q == 0x1864CFB
  {
    var bits, r := Bits.Bits(data), Crc24q.Crc(data);
    FeedIsRemainder(bits);
    assert CRC24Q == 0x1864CFB;
    hide *;
    NumberIsValue(bits);
    NumberIsValue(r);
    NumberIsValue(Crc24q.Stored(r));
    StoredNumber(r);
    ScaledIs(Number(bits));
    CrcIs(data);
    RemainderIs(Scaled(Number(bits), 24));
    RemainderUnique(Scaled(Number(bits), 24), Number(r), Remainder(Scaled(Number(bits), 24)));
  }

  lemma CrcIs(data: seq<byte>)
    ensures Crc24q.Crc(data) == Crc24q.FeedBits(Crc24q.ZERO, Bits.Bits(data))
  {
  }

  lemma StoredNumber(r: Crc24q.Register)
    ensures Number(Crc24q.Stored(r)) == Number(r)
  {
    hide Number;
    NumberConcat(Zeros(8), r);
    NumberZeros(8);
    ScaledZero(24);
  }

  /** A frame passes exactly when its last three bytes are the remainder of the others' polynomial
      times x^24. */
  lemma MatchesIffRemainder(frame: seq<byte>)
    requires |frame| >= 6
    ensures var n := |frame| - 3;
      Deframer.CrcMatches(frame) <==>
        Value(Bits.Bits(frame[n..])) == Remainder(0x100_0000 * Value(Bits.Bits(frame[..n])))
  {
    var n := |frame| - 3;
    CrcIsRemainder(frame[..n]);
    hide Remainder, Value;
    SameValue(Bits.Bits(frame[n..]), Crc24q.Crc(frame[..n]));
  }

  lemma SameValue(a: seq<bool>, b: seq<bool>)
    requires |a| == |b|
    ensures a == b <==> Value(a) == Value(b)
  {
  }

  // ------------------------------------------------------------------- one real frame

  lemma OneByte(b: byte)
    ensures Bits.Bits([b]) == ByteBits(b)
  {
    hide ByteBits;
    assert ByteBits(b) + [] == ByteBits(b);
  }

  lemma GeneratorFront(g: seq<bool>)
    requires g == Crc24q.GENERATOR
    ensures g[0] && !g[1] && !g[2] && !g[3] && !g[4] && g[5] && g[6] && !g[7]
  {
  }

  lemma GeneratorMiddle(g: seq<bool>)
    requires g == Crc24q.GENERATOR
    ensures !g[8] && g[9] && !g[10] && !g[11] && g[12] && g[13] && !g[14] && !g[15]
  {
  }

  lemma GeneratorBack(g: seq<bool>)
    requires g == Crc24q.GENERATOR
    ensures g[16] && g[17] && g[18] && g[19] && g[20] && !g[21] && g[22] && g[23]
  {
  }

  /** One step, bit by bit. */
  lemma Step(r: Crc24q.Register, m: bool) returns (s: Crc24q.Register)
    ensures s == Crc24q.Shift(r, m)
    ensures s[0] == (r[1] != (r[0] != m))
    ensures s[1] == r[2]
    ensures s[2] == r[3]
    ensures s[3] == r[4]
    ensures s[4] == r[5]
    ensures s[5] == (r[6] != (r[0] != m))
    ensures s[6] == (r[7] != (r[0] != m))
    ensures s[7] == r[8]
    ensures s[8] == r[9]
    ensures s[9] == (r[10] != (r[0] != m))
    ensures s[10] == r[11]
    ensures s[11] == r[12]
    ensures s[12] == (r[13] != (r[0] != m))
    ensures s[13] == (r[14] != (r[0] != m))
    ensures s[14] == r[15]
    ensures s[15] == r[16]
    ensures s[16] == (r[17] != (r[0] != m))
    ensures s[17] == (r[18] != (r[0] != m))
    ensures s[18] == (r[19] != (r[0] != m))
    ensures s[19] == (r[20] != (r[0] != m))
    ensures s[20] == (r[21] != (r[0] != m))
    ensures s[21] == r[22]
    ensures s[22] == (r[23] != (r[0] != m))
    ensures s[23] == (false != (r[0] != m))
  {
    s := Crc24q.Shift(r, m);
    hide Crc24q.GENERATOR;
    GeneratorFront(Crc24q.GENERATOR);
    GeneratorMiddle(Crc24q.GENERATOR);
    GeneratorBack(Crc24q.GENERATOR);
  }

  /** 0xE33309, 0x19A569 and 0x47EA4B. */
  predicate AfterFirst(r: Crc24q.Register) {
    r[0] && r[1] && r[2] && !r[3] && !r[4] && !r[5] && r[6] && r[7]
    && !r[8] && !r[9] && r[10] && r[11] && !r[12] && !r[13] && r[14] && r[15]
    && !r[16] && !r[17] && !r[18] && !r[19] && r[20] && !r[21] && !r[22] && r[23]
  }

  predicate AfterSecond(r: Crc24q.Register) {
    !r[0] && !r[1] && !r[2] && r[3] && r[4] && !r[5] && !r[6] && r[7]
    && r[8] && !r[9] && r[10] && !r[11] && !r[12] && r[13] && !r[14] && r[15]
    && !r[16] && r[17] && r[18] && !r[19] && r[20] && !r[21] && !r[22] && r[23]
  }

  predicate AfterThird(r: Crc24q.Register) {
    !r[0] && r[1] && !r[2] && !r[3] && !r[4] && r[5] && r[6] && r[7]
    && r[8] && r[9] && r[10] && !r[11] && r[12] && !r[13] && r[14] && !r[15]
    && !r[16] && r[17] && !r[18] && !r[19] && r[20] && !r[21] && r[22] && r[23]
  }

  lemma FeedFour(r: Crc24q.Register, r1: Crc24q.Register, r2: Crc24q.Register, r3: Crc24q.Register,
                 r4: Crc24q.Register, b: seq<bool>)
    requires |b| >= 4 && r1 == Crc24q.Shift(r, b[0]) && r2 == Crc24q.Shift(r1, b[1])
    requires r3 == Crc24q.Shift(r2, b[2]) && r4 == Crc24q.Shift(r3, b[3])
    ensures Crc24q.FeedBits(r, b) == Crc24q.FeedBits(r4, b[4..])
  {
    hide Crc24q.Shift;
    assert b[1..][0] == b[1] && b[1..][1..] == b[2..];
    assert Crc24q.FeedBits(r, b) == Crc24q.FeedBits(r2, b[2..]);
    assert b[2..][0] == b[2] && b[2..][1..] == b[3..];
    assert b[3..][0] == b[3] && b[3..][1..] == b[4..];
  }

  const D3: seq<bool> := [true, true, false, true, false, false, true, true]
  const NONE: seq<bool> := [false, false, false, false, false, false, false, false]

  lemma FirstByte() returns (r8: Crc24q.Register)
    ensures r8 == Crc24q.FeedBits(Crc24q.ZERO, D3) && AfterFirst(r8)
  {
    var r0 := Crc24q.ZERO;
    hide Crc24q.Shift, Crc24q.GENERATOR, Crc24q.FeedBits;
    var r1 := Step(r0, true);
    var r2 := Step(r1, true);
    var r3 := Step(r2, false);
    var r4 := Step(r3, true);
    var r5 := Step(r4, false);
    var r6 := Step(r5, false);
    var r7 := Step(r6, true);
    r8 := Step(r7, true);
    FeedFour(r0, r1, r2, r3, r4, D3);
    FeedFour(r4, r5, r6, r7, r8, D3[4..]);
    FeedNothing(r8, D3[4..][4..]);
  }

  lemma FeedNothing(r: Crc24q.Register, b: seq<bool>)
    requires b == []
    ensures Crc24q.FeedBits(r, b) == r
  {
  }

  lemma ZeroByte(r0: Crc24q.Register) returns (r8: Crc24q.Register)
    ensures r8 == Crc24q.FeedBits(r0, NONE)
    ensures AfterFirst(r0) ==> AfterSecond(r8)
    ensures AfterSecond(r0) ==> AfterThird(r8)
  {
    hide Crc24q.Shift, Crc24q.GENERATOR, Crc24q.FeedBits;
    var r1 := Step(r0, false);
    var r2 := Step(r1, false);
    var r3 := Step(r2, false);
    var r4 := Step(r3, false);
    var r5 := Step(r4, false);
    var r6 := Step(r5, false);
    var r7 := Step(r6, false);
    r8 := Step(r7, false);
    FeedFour(r0, r1, r2, r3, r4, NONE);
    FeedFour(r4, r5, r6, r7, r8, NONE[4..]);
    FeedNothing(r8, NONE[4..][4..]);
  }

  lemma ByteIs(b: byte, bits: seq<bool>)
    requires |bits| == 8
    requires Weight(bits[0], 128) + Weight(bits[1], 64) + Weight(bits[2], 32) + Weight(bits[3], 16)
             + Weight(bits[4], 8) + Weight(bits[5], 4) + Weight(bits[6], 2) + Weight(bits[7], 1) == b as int
    ensures Bits.Bits([b]) == bits
  {
    NibblesOf(bits);
    NumberIsValue(bits);
    hide Number;
    assert Pow2(8) == 256;
    BitsInjective(Value(bits), b as int, 8);
    OneByte(b);
  }

  lemma ThreeBytesBits(a: byte, b: byte, c: byte)
    ensures Bits.Bits([a, b, c]) == (Bits.Bits([a]) + Bits.Bits([b])) + Bits.Bits([c])
  {
    BitsConcat([a], [b]);
    BitsConcat([a, b], [c]);
    hide Bits.Bits;
    assert [a] + [b] == [a, b] && [a, b] + [c] == [a, b, c];
  }

  lemma FeedThree(r: Crc24q.Register, x: seq<bool>, y: seq<bool>, z: seq<bool>)
    ensures Crc24q.FeedBits(r, (x + y) + z)
      == Crc24q.FeedBits(Crc24q.FeedBits(Crc24q.FeedBits(r, x), y), z)
  {
    hide *;
    Crc24q.FeedConcat(r, x, y);
    Crc24q.FeedConcat(r, x + y, z);
  }

  lemma HeaderCrc()
    ensures AfterThird(Crc24q.Crc([0xD3, 0, 0]))
  {
    ByteIs(0xD3, D3);
    ByteIs(0, NONE);
    hide *;
    var r1 := FirstByte();
    var r2 := ZeroByte(r1);
    var r3 := ZeroByte(r2);
    ThreeBytesBits(0xD3, 0, 0);
    FeedThree(Crc24q.ZERO, D3, NONE, NONE);
    CrcIs([0xD3, 0, 0]);
  }

  lemma FieldBits(r: Crc24q.Register)
    requires AfterThird(r)
    ensures Bits.Bits([0x47, 0xEA, 0x4B]) == r
  {
    ByteIs(0x47, r[..8]);
    ByteIs(0xEA, r[8..16]);
    ByteIs(0x4B, r[16..]);
    hide *;
    ThreeBytesBits(0x47, 0xEA, 0x4B);
    ThreeParts(r);
  }

  lemma ThreeParts(r: seq<bool>)
    requires |r| == 24
    ensures (r[..8] + r[8..16]) + r[16..] == r
  {
  }

  lemma MatchesByParts(head: seq<byte>, field: seq<byte>)
    requires |head| >= 3 && |field| == 3
    ensures Deframer.CrcMatches(head + field) <==> Bits.Bits(field) == Crc24q.Crc(head)
  {
    var frame := head + field;
    assert frame[..|frame| - 3] == head && frame[|frame| - 3..] == field;
    hide Bits.Bits, Crc24q.Crc;
  }

  lemma HeaderThenField()
    ensures var head, field: seq<byte> := [0xD3, 0, 0], [0x47, 0xEA, 0x4B];
      head + field == [0xD3, 0, 0, 0x47, 0xEA, 0x4B] && Deframer.IsWhole(head + field)
  {
  }

  /** The shortest frame there is, a header without a payload, as any sender writes it. */
  lemma ShortestFrame()
    ensures Deframer.IsWhole([0xD3, 0, 0, 0x47, 0xEA, 0x4B]) && Deframer.CrcMatches([0xD3, 0, 0, 0x47, 0xEA, 0x4B])
  {
    hide *;
    HeaderCrc();
    FieldBits(Crc24q.Crc([0xD3, 0, 0]));
    HeaderThenField();
    MatchesByParts([0xD3, 0, 0], [0x47, 0xEA, 0x4B]);
  }
}
