/** Base64 as in RFC 4648. */
module Base64Text {
  import opened Bits
  import opened Common
  import Base64

  // Section 4: the bits of the input in order, six to a character of the alphabet, with zeros behind the
  // last bit and '=' up to a multiple of four characters.

  /** Table 1 of RFC 4648. */
  function Row(k: nat): (row: string)
    requires k < 8
    ensures |row| == 8
  {
    match k
    case 0 => "ABCDEFGH"
    case 1 => "IJKLMNOP"
    case 2 => "QRSTUVWX"
    case 3 => "YZabcdef"
    case 4 => "ghijklmn"
    case 5 => "opqrstuv"
    case 6 => "wxyz0123"
    case 7 => "456789+/"
  }

  function Letter(v: nat): char
    requires v < 64
  {
    Row(v / 8)[v % 8]
  }

  lemma LetterIs(v: nat)
    requires v < 64
    ensures Letter(v) == Base64.Digit(v) && Base64.DigitValue(Letter(v)) == v && Letter(v) != '='
  {
    var k, i := v / 8, v % 8;
    assert v == 8 * k + i;
  }

  /** The decoder knows the letters of the alphabet and refuses every other character. */
  lemma LettersAre(c: char)
    ensures Base64.DigitValue(c) >= 0 <==> exists v: nat | v < 64 :: Letter(v) == c
  {
    var v := Base64.DigitValue(c);
    if v >= 0 {
      hide Row;
      LetterIs(v);
      hide Letter;
      assert Letter(v) == c;
    } else {
      forall u: nat | u < 64
        ensures Letter(u) != c
      {
        LetterIs(u);
      }
    }
  }

  function Spelled(digits: seq<nat>): (text: string)
    requires forall i | 0 <= i < |digits| :: digits[i] < 64
    ensures |text| == |digits|
  {
    if digits == [] then [] else [Letter(digits[0])] + Spelled(digits[1..])
  }

  function SixBits(digits: seq<nat>): (bits: seq<bool>)
    ensures |bits| == 6 * |digits|
  {
    if digits == [] then [] else BitsOf(digits[0], 6) + SixBits(digits[1..])
  }

  lemma {:induction false} BitsSplit(q: nat, r: nat, width: nat, left: nat)
    requires r < Pow2(left)
    ensures BitsOf(q * Pow2(left) + r, width + left) == BitsOf(q, width) + BitsOf(r, left)
    decreases left
  {
    if left == 0 {
      NoDigits(r);
    } else {
      var p, r', d := Pow2(left - 1), r / 2, r % 2;
      assert Pow2(left) == 2 * p && r == 2 * r' + d;
      hide BitsOf, Pow2;
      Twice(q, p, r', d);
      BitsSplit(q, r', width, left - 1);
      OneDigit(q * p + r', d, width + left - 1);
      OneDigit(r', d, left - 1);
    }
  }

  lemma Twice(q: nat, p: nat, r: nat, d: nat)
    ensures 2 * (q * p + r) + d == q * (2 * p) + (2 * r + d)
  {
  }

  /** The pieces in which bytes and digits share their bits. */
  lemma Split(q: nat, r: nat, width: nat, left: nat, p: nat)
    requires (left == 2 && p == 4) || (left == 4 && p == 16) || (left == 6 && p == 64)
    requires r < p
    ensures BitsOf(p * q + r, width + left) == BitsOf(q, width) + BitsOf(r, left)
  {
    Base64.Powers();
    BitsSplit(q, r, width, left);
  }

  lemma ThreeBytes(ah: nat, al: nat, bh: nat, bl: nat, ch: nat, cl: nat)
    requires ah < 64 && al < 4 && bh < 16 && bl < 16 && ch < 4 && cl < 64
    ensures BitsOf(ah, 6) + BitsOf(16 * al + bh, 6) + BitsOf(4 * bl + ch, 6) + BitsOf(cl, 6)
      == BitsOf(4 * ah + al, 8) + BitsOf(16 * bh + bl, 8) + BitsOf(64 * ch + cl, 8)
  {
    hide *;
    Split(ah, al, 6, 2, 4);
    Split(al, bh, 2, 4, 16);
    Split(bh, bl, 4, 4, 16);
    Split(bl, ch, 4, 2, 4);
    Split(ch, cl, 2, 6, 64);
    Regrouped(BitsOf(ah, 6), BitsOf(al, 2), BitsOf(bh, 4), BitsOf(bl, 4), BitsOf(ch, 2), BitsOf(cl, 6));
  }

  lemma Regrouped(a: seq<bool>, b: seq<bool>, c: seq<bool>, d: seq<bool>, e: seq<bool>, f: seq<bool>)
    ensures a + (b + c) + (d + e) + f == (a + b) + (c + d) + (e + f)
  {
  }

  /** The bits of up to three bytes, of which those past the end count as zero. */
  function GroupBits(data: seq<byte>): seq<bool>
    requires 1 <= |data| <= 3
  {
    BitsOf(data[0] as int, 8) + BitsOf(if |data| > 1 then data[1] as int else 0, 8)
    + BitsOf(if |data| > 2 then data[2] as int else 0, 8)
  }

  /** One group: four digits, of which those that only hold missing bytes are replaced by padding. */
  lemma OneGroup(data: seq<byte>) returns (digits: seq<nat>)
    requires 1 <= |data| <= 3
    ensures |digits| == 4 && forall i | 0 <= i < 4 :: digits[i] < 64
    ensures SixBits(digits) == GroupBits(data)
    ensures |data| == 1 ==> digits[2] == 0
    ensures |data| <= 2 ==> digits[3] == 0
    ensures Base64.Quad(data) == Spelled(digits[..|data| + 1]) + Padding(3 - |data|)
  {
    hide *;
    var a, b, c := data[0], if |data| > 1 then data[1] else 0, if |data| > 2 then data[2] else 0;
    var ah, al := Base64.Cut6(a);
    var bh, bl := Base64.Cut4(b);
    var ch, cl := Base64.Cut2(c);
    digits := [ah, 16 * al + bh, 4 * bl + ch, cl];
    ThreeBytes(ah, al, bh, bl, ch, cl);
    FourSixes(digits);
    QuadLetters(data, ah, al, bh, bl, ch, cl);
    QuadSpelled(data, digits);
    GroupBitsAre(data);
  }

  lemma GroupBitsAre(data: seq<byte>)
    requires 1 <= |data| <= 3
    ensures GroupBits(data) == BitsOf(data[0] as int, 8) + BitsOf(if |data| > 1 then data[1] as int else 0, 8)
      + BitsOf(if |data| > 2 then data[2] as int else 0, 8)
  {
  }

  /** A quad's text from its digits. */
  predicate IsQuad(data: seq<byte>, digits: seq<nat>)
    requires data != [] && |digits| == 4 && forall i | 0 <= i < 4 :: digits[i] < 64
  {
    && Base64.Quad(data)[..2] == [Letter(digits[0]), Letter(digits[1])]
    && Base64.Quad(data)[2] == (if |data| > 1 then Letter(digits[2]) else '=')
    && Base64.Quad(data)[3] == (if |data| > 2 then Letter(digits[3]) else '=')
  }

  lemma QuadLetters(data: seq<byte>, ah: nat, al: nat, bh: nat, bl: nat, ch: nat, cl: nat)
    requires ah < 64 && al < 4 && bh < 16 && bl < 16 && ch < 4 && cl < 64
    requires 1 <= |data| <= 3 && data[0] as int == 4 * ah + al
    requires (if |data| > 1 then data[1] as int else 0) == 16 * bh + bl
    requires (if |data| > 2 then data[2] as int else 0) == 64 * ch + cl
    ensures IsQuad(data, [ah, 16 * al + bh, 4 * bl + ch, cl])
  {
    hide Letter, Base64.Digit;
    Base64.DigitsOfGroup(ah, al, bh, bl, ch, cl);
    LetterIs(ah);
    LetterIs(16 * al + bh);
    LetterIs(4 * bl + ch);
    LetterIs(cl);
  }

  lemma QuadSpelled(data: seq<byte>, digits: seq<nat>)
    requires 1 <= |data| <= 3 && |digits| == 4 && forall i | 0 <= i < 4 :: digits[i] < 64
    requires IsQuad(data, digits)
    ensures Base64.Quad(data) == Spelled(digits[..|data| + 1]) + Padding(3 - |data|)
  {
    FourLetters(digits);
    hide Letter, Base64.Digit, Base64.Group, Spelled;
    assert Base64.Quad(data) == Base64.Quad(data)[..2] + [Base64.Quad(data)[2], Base64.Quad(data)[3]];
    hide Base64.Quad;
    if |data| == 3 {
      assert digits[..4] == digits;
    }
  }

  lemma FourSixes(digits: seq<nat>)
    requires |digits| == 4
    ensures SixBits(digits)
      == BitsOf(digits[0], 6) + BitsOf(digits[1], 6) + BitsOf(digits[2], 6) + BitsOf(digits[3], 6)
  {
    hide BitsOf;
    var d1 := digits[1..];
    var d2 := d1[1..];
    var d3 := d2[1..];
    assert d3[1..] == [];
    assert SixBits(d2) == BitsOf(digits[2], 6) + SixBits(d3);
    assert SixBits(d1) == BitsOf(digits[1], 6) + SixBits(d2);
    FourParts(BitsOf(digits[0], 6), BitsOf(digits[1], 6), BitsOf(digits[2], 6), BitsOf(digits[3], 6));
  }

  lemma FourParts(a: seq<bool>, b: seq<bool>, c: seq<bool>, d: seq<bool>)
    ensures a + (b + (c + (d + []))) == a + b + c + d
  {
  }

  lemma FourLetters(digits: seq<nat>)
    requires |digits| == 4 && forall i | 0 <= i < 4 :: digits[i] < 64
    ensures Spelled(digits) == [Letter(digits[0]), Letter(digits[1]), Letter(digits[2]), Letter(digits[3])]
    ensures Spelled(digits[..3]) == [Letter(digits[0]), Letter(digits[1]), Letter(digits[2])]
    ensures Spelled(digits[..2]) == [Letter(digits[0]), Letter(digits[1])]
  {
    hide Letter, Spelled;
    SpelledAt(digits);
    SpelledAt(digits[..3]);
    SpelledAt(digits[..2]);
  }

  lemma {:induction false} SpelledAt(digits: seq<nat>)
    requires forall i | 0 <= i < |digits| :: digits[i] < 64
    ensures forall i | 0 <= i < |digits| :: Spelled(digits)[i] == Letter(digits[i])
  {
    hide Letter;
    if digits != [] {
      SpelledAt(digits[1..]);
    }
  }

  function Padding(n: nat): (s: string)
    ensures |s| == n && forall i | 0 <= i < n :: s[i] == '='
  {
    seq(n, i => '=')
  }

  ghost predicate AreDigits(digits: seq<nat>) {
    forall i | 0 <= i < |digits| :: digits[i] < 64
  }

  lemma {:induction false} SixConcat(a: seq<nat>, b: seq<nat>)
    requires AreDigits(a) && AreDigits(b)
    ensures AreDigits(a + b)
    ensures Spelled(a + b) == Spelled(a) + Spelled(b) && SixBits(a + b) == SixBits(a) + SixBits(b)
  {
    hide Letter, BitsOf;
    if a == [] {
      assert a + b == b;
    } else {
      assert (a + b)[0] == a[0] && (a + b)[1..] == a[1..] + b;
      SixConcat(a[1..], b);
      ConcatAssoc(BitsOf(a[0], 6), SixBits(a[1..]), SixBits(b));
      ConcatAssoc([Letter(a[0])], Spelled(a[1..]), Spelled(b));
    }
  }

  lemma ByteStrings(a: byte, b: byte, c: byte)
    ensures Bits.Bits([a]) == BitsOf(a as int, 8)
    ensures Bits.Bits([a, b]) == BitsOf(a as int, 8) + BitsOf(b as int, 8)
    ensures Bits.Bits([a, b, c]) == BitsOf(a as int, 8) + BitsOf(b as int, 8) + BitsOf(c as int, 8)
  {
    hide BitsOf;
    assert [a][1..] == [] && [a, b][1..] == [b] && [b][1..] == [] && [a, b, c][1..] == [b, c] && [b, c][1..] == [c]
      && [c][1..] == [];
    assert Bits.Bits([a, b]) == ByteBits(a) + Bits.Bits([b]);
    assert Bits.Bits([a, b, c]) == ByteBits(a) + Bits.Bits([b, c]);
    assert Bits.Bits([b, c]) == ByteBits(b) + Bits.Bits([c]);
    ConcatAssoc(ByteBits(a), ByteBits(b), ByteBits(c));
  }

  lemma ZerosBehind(x: seq<bool>, y: seq<bool>)
    requires |x| == 8 && |y| == 8
    ensures (x + Zeros(8) + Zeros(8))[..12] == x + Zeros(4)
    ensures (x + y + Zeros(8))[..18] == x + y + Zeros(2)
    ensures x + Zeros(0) == x
  {
  }

  lemma GroupPrefix(data: seq<byte>)
    requires 1 <= |data| <= 3
    ensures |GroupBits(data)| == 24
    ensures GroupBits(data)[..6 * (|data| + 1)] == Bits.Bits(data) + Zeros(2 * (3 - |data|))
  {
    hide *;
    NoBits(8);
    var b, c := if |data| > 1 then data[1] else 0, if |data| > 2 then data[2] else 0;
    ByteStrings(data[0], b, c);
    GroupBitsAre(data);
    assert data == if |data| == 1 then [data[0]] else if |data| == 2 then [data[0], b] else [data[0], b, c];
    ZerosBehind(BitsOf(data[0] as int, 8), BitsOf(b as int, 8));
    if |data| == 3 {
      assert GroupBits(data)[..24] == GroupBits(data);
      ConcatEmpty(Bits.Bits(data));
      NoZeros();
    }
  }

  lemma NoZeros()
    ensures Zeros(0) == []
  {
  }

  /** `text` is the encoding of `data`: its digits and `pad` padding characters. */
  ghost predicate IsEncoding(data: seq<byte>, digits: seq<nat>, pad: nat) {
    && AreDigits(digits)
    && Base64.Encode(data) == Spelled(digits) + Padding(pad)
    && SixBits(digits) == Bits.Bits(data) + Zeros(2 * pad)
    && pad < 3
    && (|digits| + pad) % 4 == 0
  }

  /** The encoding: all the bits in order and nothing but zeros behind them, as few as fill a digit. */
  lemma {:induction false} EncodedBits(data: seq<byte>) returns (digits: seq<nat>, pad: nat)
    ensures IsEncoding(data, digits, pad)
    decreases |data|
  {
    hide IsEncoding;
    if data == [] {
      digits, pad := [], 0;
      NothingEncoded();
    } else if |data| < 3 {
      digits, pad := ShortEncoded(data);
    } else {
      var rest;
      rest, pad := EncodedBits(data[3..]);
      digits := MoreEncoded(data, rest, pad);
    }
  }

  lemma ShortEncoded(data: seq<byte>) returns (digits: seq<nat>, pad: nat)
    requires 1 <= |data| <= 2
    ensures IsEncoding(data, digits, pad)
  {
    hide Base64.Quad, GroupBits, Base64.Encode, Spelled, SixBits, Padding, Zeros, Bits.Bits;
    var four := OneGroup(data);
    digits, pad := four[..|data| + 1], 3 - |data|;
    assert four == digits + four[|data| + 1..];
    SixConcat(digits, four[|data| + 1..]);
    GroupPrefix(data);
    assert SixBits(digits) == SixBits(four)[..6 * (|data| + 1)];
    QuadEncoded(data);
  }

  lemma MoreEncoded(data: seq<byte>, rest: seq<nat>, pad: nat) returns (digits: seq<nat>)
    requires |data| >= 3 && IsEncoding(data[3..], rest, pad)
    ensures IsEncoding(data, digits, pad)
  {
    hide Base64.Quad, GroupBits, Base64.Encode, Spelled, SixBits, Padding, Zeros, Bits.Bits;
    var head, tail := data[..3], data[3..];
    var four := OneGroup(head);
    assert four[..4] == four;
    GroupPrefix(head);
    assert GroupBits(head)[..24] == GroupBits(head);
    digits := four + rest;
    SixConcat(four, rest);
    Base64.EncodeSplit(data);
    BitsConcat(head, tail);
    assert head + tail == data;
    Joined(Spelled(four), Spelled(rest), Padding(pad), Bits.Bits(head), Bits.Bits(tail), Zeros(2 * pad));
  }

  lemma NothingEncoded()
    ensures IsEncoding([], [], 0)
  {
  }

  lemma QuadEncoded(data: seq<byte>)
    requires 1 <= |data| <= 3
    ensures Base64.Encode(data) == Base64.Quad(data)
  {
    hide Base64.Quad;
  }

  lemma Joined(a: string, b: string, c: string, x: seq<bool>, y: seq<bool>, z: seq<bool>)
    ensures (a + Padding(0)) + (b + c) == a + b + c
    ensures (x + Zeros(0)) + (y + z) == x + y + z
  {
  }

  // ------------------------------------------------------------------------ what the decoder reads

  /** How much of the pending bits the decoder can be in the middle of, and their number's bound. */
  ghost predicate Pending(bits: nat, low: nat) {
    (bits == 0 || bits == 2 || bits == 4 || bits == 6) && low < Pow2(bits)
  }

  /** `data` are the whole bytes of `stream`. */
  ghost predicate WholeBytes(data: seq<byte>, stream: seq<bool>) {
    8 * |data| <= |stream| < 8 * |data| + 8 && Bits.Bits(data) == stream[..8 * |data|]
  }

  /** One letter: the pending bits and its six become a byte, or none, and the next pending bits. */
  ghost predicate Steps(v: nat, more: string, bits: nat, low: nat, bytes: seq<byte>, next: nat, left: nat)
    requires v < 64 && bits < 8
  {
    && Pending(next, left)
    && Base64.DecodeFrom([Letter(v)] + more, bits, low) == Base64.Prepend(bytes, Base64.DecodeFrom(more, next, left))
    && BitsOf(low, bits) + BitsOf(v, 6) == Bits.Bits(bytes) + BitsOf(left, next)
  }

  lemma OneByte(b: byte)
    ensures Bits.Bits([b]) == BitsOf(b as int, 8)
  {
    ByteStrings(b, b, b);
  }

  lemma NothingBefore(r: Option<seq<byte>>)
    ensures Base64.Prepend([], r) == r
  {
    if r.Some? {
      assert [] + r.value == r.value;
    }
  }

  lemma StepFromNone(v: nat, more: string)
    requires v < 64
    ensures Steps(v, more, 0, 0, [], 6, v)
  {
    Base64.Powers();
    LetterIs(v);
    hide BitsOf, Letter, Base64.Digit, Base64.DecodeFrom;
    Base64.DecodeDigit(v, more, 0, 0);
    NoDigits(0);
    NothingBefore(Base64.DecodeFrom(more, 6, v));
  }

  lemma ReadSix(vh: nat, vl: nat, more: string, low: nat)
    requires vh < 4 && vl < 16 && low < 64
    ensures Base64.DecodeFrom([Letter(16 * vh + vl)] + more, 6, low)
      == Base64.Prepend([(4 * low + vh) as byte], Base64.DecodeFrom(more, 4, vl))
  {
    Base64.Powers();
    LetterIs(16 * vh + vl);
    hide Letter, Base64.Digit, Base64.DecodeFrom, Pow2;
    Base64.DecodeDigit(16 * vh + vl, more, 6, low);
    Base64.Radix16(4 * low + vh, vl);
    Base64.Byte256(0, 4 * low + vh);
  }

  lemma BitsSix(vh: nat, vl: nat, low: nat)
    requires vh < 4 && vl < 16 && low < 64
    ensures BitsOf(low, 6) + BitsOf(16 * vh + vl, 6) == Bits.Bits([(4 * low + vh) as byte]) + BitsOf(vl, 4)
  {
    hide *;
    OneByte((4 * low + vh) as byte);
    Split(vh, vl, 2, 4, 16);
    Split(low, vh, 6, 2, 4);
    ConcatAssoc(BitsOf(low, 6), BitsOf(vh, 2), BitsOf(vl, 4));
  }

  lemma StepFromSix(vh: nat, vl: nat, more: string, low: nat)
    requires vh < 4 && vl < 16 && low < 64
    ensures Steps(16 * vh + vl, more, 6, low, [(4 * low + vh) as byte], 4, vl)
  {
    Base64.Powers();
    hide Letter, Base64.DecodeFrom, BitsOf, Bits.Bits, Pow2;
    ReadSix(vh, vl, more, low);
    BitsSix(vh, vl, low);
  }

  lemma ReadFour(vh: nat, vl: nat, more: string, low: nat)
    requires vh < 16 && vl < 4 && low < 16
    ensures Base64.DecodeFrom([Letter(4 * vh + vl)] + more, 4, low)
      == Base64.Prepend([(16 * low + vh) as byte], Base64.DecodeFrom(more, 2, vl))
  {
    Base64.Powers();
    LetterIs(4 * vh + vl);
    hide Letter, Base64.Digit, Base64.DecodeFrom, Pow2;
    Base64.DecodeDigit(4 * vh + vl, more, 4, low);
    Base64.Radix4(16 * low + vh, vl);
    Base64.Byte256(0, 16 * low + vh);
  }

  lemma BitsFour(vh: nat, vl: nat, low: nat)
    requires vh < 16 && vl < 4 && low < 16
    ensures BitsOf(low, 4) + BitsOf(4 * vh + vl, 6) == Bits.Bits([(16 * low + vh) as byte]) + BitsOf(vl, 2)
  {
    hide *;
    OneByte((16 * low + vh) as byte);
    Split(vh, vl, 4, 2, 4);
    Split(low, vh, 4, 4, 16);
    ConcatAssoc(BitsOf(low, 4), BitsOf(vh, 4), BitsOf(vl, 2));
  }

  lemma StepFromFour(vh: nat, vl: nat, more: string, low: nat)
    requires vh < 16 && vl < 4 && low < 16
    ensures Steps(4 * vh + vl, more, 4, low, [(16 * low + vh) as byte], 2, vl)
  {
    Base64.Powers();
    hide Letter, Base64.DecodeFrom, BitsOf, Bits.Bits, Pow2;
    ReadFour(vh, vl, more, low);
    BitsFour(vh, vl, low);
  }

  lemma ReadTwo(v: nat, more: string, low: nat)
    requires v < 64 && low < 4
    ensures Base64.DecodeFrom([Letter(v)] + more, 2, low)
      == Base64.Prepend([(64 * low + v) as byte], Base64.DecodeFrom(more, 0, 0))
  {
    Base64.Powers();
    LetterIs(v);
    hide Letter, Base64.Digit, Base64.DecodeFrom, Pow2;
    Base64.DecodeDigit(v, more, 2, low);
    Base64.Byte256(0, 64 * low + v);
  }

  lemma BitsTwo(v: nat, low: nat)
    requires v < 64 && low < 4
    ensures BitsOf(low, 2) + BitsOf(v, 6) == Bits.Bits([(64 * low + v) as byte]) + BitsOf(0, 0)
  {
    hide *;
    OneByte((64 * low + v) as byte);
    NoDigits(0);
    Split(low, v, 2, 6, 64);
    ConcatEmpty(BitsOf(64 * low + v, 8));
  }

  lemma StepFromTwo(v: nat, more: string, low: nat)
    requires v < 64 && low < 4
    ensures Steps(v, more, 2, low, [(64 * low + v) as byte], 0, 0)
  {
    Base64.Powers();
    hide Letter, Base64.DecodeFrom, BitsOf, Bits.Bits, Pow2;
    ReadTwo(v, more, low);
    BitsTwo(v, low);
  }

  lemma Step(v: nat, more: string, bits: nat, low: nat) returns (bytes: seq<byte>, next: nat, left: nat)
    requires v < 64 && Pending(bits, low)
    ensures Steps(v, more, bits, low, bytes, next, left)
  {
    Base64.Powers();
    hide Steps;
    if bits == 0 {
      bytes, next, left := [], 6, v;
      StepFromNone(v, more);
    } else if bits == 6 {
      var vh, vl := v / 16, v % 16;
      bytes, next, left := [(4 * low + vh) as byte], 4, vl;
      StepFromSix(vh, vl, more, low);
    } else if bits == 4 {
      var vh, vl := v / 4, v % 4;
      bytes, next, left := [(16 * low + vh) as byte], 2, vl;
      StepFromFour(vh, vl, more, low);
    } else {
      bytes, next, left := [(64 * low + v) as byte], 0, 0;
      StepFromTwo(v, more, low);
    }
  }

  lemma WholeAfter(bytes: seq<byte>, data: seq<byte>, front: seq<bool>, left: seq<bool>, more: seq<bool>)
    requires front == Bits.Bits(bytes) + left && WholeBytes(data, left + more)
    ensures WholeBytes(bytes + data, front + more)
  {
    BitsConcat(bytes, data);
    assert front + more == Bits.Bits(bytes) + (left + more);
  }

  lemma SpelledStep(digits: seq<nat>, rest: string)
    requires AreDigits(digits) && digits != []
    ensures Spelled(digits) + rest == [Letter(digits[0])] + (Spelled(digits[1..]) + rest)
    ensures SixBits(digits) == BitsOf(digits[0], 6) + SixBits(digits[1..])
  {
    hide Letter, BitsOf;
  }

  /** From any pending bits, letters up to padding or the end give the whole bytes of the bits. */
  lemma {:induction false} ReadsWholeBytes(digits: seq<nat>, rest: string, bits: nat, low: nat)
    requires AreDigits(digits) && Pending(bits, low) && (rest == [] || rest[0] == '=')
    ensures var r := Base64.DecodeFrom(Spelled(digits) + rest, bits, low);
      r.Some? && WholeBytes(r.value, BitsOf(low, bits) + SixBits(digits))
    decreases |digits|
  {
    if digits == [] {
      Base64.DecodeStops(if rest == [] then [] else rest[1..], bits, low);
      assert rest == [] || rest == ['='] + rest[1..];
      assert [] + rest == rest;
    } else {
      var v, ds := digits[0], digits[1..];
      var more := Spelled(ds) + rest;
      hide Base64.DecodeFrom, Spelled, SixBits, Letter, WholeBytes, BitsOf, Pow2;
      SpelledStep(digits, rest);
      var bytes, next, left := Step(v, more, bits, low);
      ReadsWholeBytes(ds, rest, next, left);
      WholeAfter(bytes, Base64.DecodeFrom(more, next, left).value, BitsOf(low, bits) + BitsOf(v, 6),
                 BitsOf(left, next), SixBits(ds));
      ConcatAssoc(BitsOf(low, bits), BitsOf(v, 6), SixBits(ds));
    }
  }

  /** A text is read up to its padding or its end; what it gives are the whole bytes its letters
      spell, whether or not their number fits or the bits left over are zero. */
  lemma DecodedBits(digits: seq<nat>, rest: string)
    requires AreDigits(digits) && (rest == [] || rest[0] == '=')
    ensures WholeBytes(Base64.Decode(Spelled(digits) + rest), SixBits(digits))
  {
    NoDigits(0);
    hide BitsOf, WholeBytes;
    ReadsWholeBytes(digits, rest, 0, 0);
    assert [] + SixBits(digits) == SixBits(digits);
  }

  /** Any other character in front of the padding and nothing is delivered. */
  lemma {:induction false} RefusedAt(digits: seq<nat>, c: char, rest: string, bits: nat, low: nat)
    requires AreDigits(digits) && Pending(bits, low)
    requires c != '=' && forall v: nat | v < 64 :: Letter(v) != c
    ensures Base64.DecodeFrom(Spelled(digits) + ([c] + rest), bits, low).None?
    decreases |digits|
  {
    if digits == [] {
      LettersAre(c);
      assert [] + ([c] + rest) == [c] + rest;
    } else {
      var more := Spelled(digits[1..]) + ([c] + rest);
      hide Base64.DecodeFrom, Spelled, SixBits, Letter, BitsOf, Pow2;
      SpelledStep(digits, [c] + rest);
      var bytes, next, left := Step(digits[0], more, bits, low);
      RefusedAt(digits[1..], c, rest, next, left);
    }
  }

  lemma RefusedText(digits: seq<nat>, c: char, rest: string)
    requires AreDigits(digits) && c != '=' && forall v: nat | v < 64 :: Letter(v) != c
    ensures Base64.Decode(Spelled(digits) + ([c] + rest)) == []
  {
    hide Spelled, Letter, Base64.DecodeFrom;
    RefusedAt(digits, c, rest, 0, 0);
  }
}
