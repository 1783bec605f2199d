/** The Base64 encoder of src/ntrip_client.h and the decoder of src/ntrip_caster.h
    (section 4 of RFC 4648).

    The encoder works on groups of three bytes, the decoder on a stream of digits with an
    accumulator of 32 bits that overflows after the sixth. The definition of the decoder keeps only
    the bits that still matter; the loop is proved to agree with it although its accumulator wraps,
    and the round trip is proved on the definition, one quad at a time. */
module Base64 {
  import opened Bits
  import opened Common

  const WORD := 0x1_0000_0000

  /** b64[v] */
  function Digit(v: nat): (c: char)
    requires v < 64
  {
    if v < 26 then (65 + v) as char
    else if v < 52 then (71 + v) as char
    else if v < 62 then (v - 4) as char
    else if v == 62 then '+' else '/'
  }

  /** base64Value */
  function DigitValue(c: char): (v: int)
    ensures -1 <= v < 64
  {
    if 'A' <= c <= 'Z' then c as int - 65
    else if 'a' <= c <= 'z' then c as int - 71
    else if '0' <= c <= '9' then c as int + 4
    else if c == '+' then 62
    else if c == '/' then 63
    else -1
  }

  lemma DigitRoundTrip(v: nat)
    requires v < 64
    ensures DigitValue(Digit(v)) == v && Digit(v) != '='
  {
  }

  /** Three bytes, or what is left of them, as one 24-bit number. */
  function Group(data: seq<byte>): (g: nat)
    requires data != []
    ensures g < 0x100_0000
  {
    data[0] as int * 65536
    + (if |data| > 1 then data[1] as int * 256 else 0)
    + (if |data| > 2 then data[2] as int else 0)
  }

  function Quad(data: seq<byte>): (s: string)
    requires data != []
    ensures |s| == 4
  {
    var g := Group(data);
    [Digit(g / 262144 % 64), Digit(g / 4096 % 64),
     if |data| > 1 then Digit(g / 64 % 64) else '=',
     if |data| > 2 then Digit(g % 64) else '=']
  }

  function Encode(data: seq<byte>): (s: string)
    ensures |s| == (|data| + 2) / 3 * 4
    decreases |data|
  {
    if data == [] then []
    else if |data| <= 3 then Quad(data)
    else Quad(data[..3]) + Encode(data[3..])
  }

  /** The decoder from a character on, when the lowest `bits` bits of its accumulator, which
      are all that still matter, read `low`; None stands for a character that is refused. */
  function DecodeFrom(s: string, bits: nat, low: nat): (r: Option<seq<byte>>)
    requires bits < 8
    decreases |s|
  {
    if s == [] || s[0] == '=' then
      Some([])
    else
      var v := DigitValue(s[0]);
      if v < 0 then
        None
      else
        var t := low * 64 + v;
        if bits + 6 < 8 then
          DecodeFrom(s[1..], bits + 6, t)
        else
          var left := bits - 2;
          match DecodeFrom(s[1..], left, t % Pow2(left))
          case None => None
          case Some(rest) => Some([(t / Pow2(left) % 256) as byte] + rest)
  }

  /** base64Decode: the empty string when a character is refused. */
  function Decode(s: string): seq<byte> {
    Delivered(DecodeFrom(s, 0, 0))
  }

  function Delivered(r: Option<seq<byte>>): seq<byte> {
    match r
    case None => []
    case Some(bytes) => bytes
  }

  // --------------------------------------------------------------- decoding undoes encoding

  lemma Powers()
    ensures Pow2(0) == 1 && Pow2(2) == 4 && Pow2(4) == 16 && Pow2(6) == 64
  {
    assert Pow2(4) == 16;
  }

  /** A number in radix `d`: its quotient and remainder are its two parts. */
  lemma Radix4(q: nat, r: nat)
    requires r < 4
    ensures (4 * q + r) / 4 == q && (4 * q + r) % 4 == r
  {
  }

  lemma Radix16(q: nat, r: nat)
    requires r < 16
    ensures (16 * q + r) / 16 == q && (16 * q + r) % 16 == r
  {
  }

  lemma Radix64(q: nat, r: nat)
    requires r < 64
    ensures (64 * q + r) / 64 == q && (64 * q + r) % 64 == r
  {
  }

  /** The four six-bit digits of a group of three bytes a, b, c, of which ah, bh, ch are the
      upper 6, 4, 2 bits and al, bl, cl the other bits. */
  lemma DigitsOfGroup(ah: nat, al: nat, bh: nat, bl: nat, ch: nat, cl: nat)
    requires ah < 64 && al < 4 && bh < 16 && bl < 16 && ch < 4 && cl < 64
    ensures var g := (4 * ah + al) * 65536 + (16 * bh + bl) * 256 + (64 * ch + cl);
      && g / 262144 % 64 == ah && g / 4096 % 64 == 16 * al + bh
      && g / 64 % 64 == 4 * bl + ch && g % 64 == cl
  {
    var d2, d3 := 16 * al + bh, 4 * bl + ch;
    var g := (4 * ah + al) * 65536 + (16 * bh + bl) * 256 + (64 * ch + cl);
    assert g == 262144 * ah + 4096 * d2 + 64 * d3 + cl;
    Quotient262144(ah, 4096 * d2 + 64 * d3 + cl);
    Quotient4096(64 * ah + d2, 64 * d3 + cl);
    Radix64(4096 * ah + 64 * d2 + d3, cl);
    Radix64(64 * ah + d2, d3);
    Radix64(ah, d2);
    Radix64(0, ah);
  }

  lemma Quotient262144(q: nat, r: nat)
    requires r < 262144
    ensures (262144 * q + r) / 262144 == q
  {
  }

  lemma Quotient4096(q: nat, r: nat)
    requires r < 4096
    ensures (4096 * q + r) / 4096 == q
  {
  }

  lemma Byte256(q: nat, r: nat)
    requires r < 256
    ensures (256 * q + r) % 256 == r
  {
  }

  function Prepend(a: seq<byte>, r: Option<seq<byte>>): Option<seq<byte>> {
    match r
    case None => None
    case Some(b) => Some(a + b)
  }

  /** One character, from each of the four states the decoder can be in. */
  lemma DecodeDigit(v: nat, rest: string, bits: nat, low: nat)
    requires v < 64 && (bits == 0 || bits == 2 || bits == 4 || bits == 6) && low < Pow2(bits)
    ensures var t := low * 64 + v;
      DecodeFrom([Digit(v)] + rest, bits, low) ==
        if bits == 0 then DecodeFrom(rest, 6, t)
        else if bits == 6 then Prepend([(t / 16 % 256) as byte], DecodeFrom(rest, 4, t % 16))
        else if bits == 4 then Prepend([(t / 4 % 256) as byte], DecodeFrom(rest, 2, t % 4))
        else Prepend([(t % 256) as byte], DecodeFrom(rest, 0, 0))
  {
    DigitRoundTrip(v);
    Powers();
    hide Digit, DigitValue;
    assert ([Digit(v)] + rest)[1..] == rest;
  }

  lemma DecodeStops(rest: string, bits: nat, low: nat)
    requires bits < 8
    ensures DecodeFrom(['='] + rest, bits, low) == Some([])
    ensures DecodeFrom([], bits, low) == Some([])
  {
  }

  /** A byte cut into its upper and its lower bits. */
  lemma Cut6(a: byte) returns (h: nat, l: nat)
    ensures h < 64 && l < 4 && a as int == 4 * h + l
  {
    h, l := a as int / 4, a as int % 4;
  }

  lemma Cut4(a: byte) returns (h: nat, l: nat)
    ensures h < 16 && l < 16 && a as int == 16 * h + l
  {
    h, l := a as int / 16, a as int % 16;
  }

  lemma Cut2(a: byte) returns (h: nat, l: nat)
    ensures h < 4 && l < 64 && a as int == 64 * h + l
  {
    h, l := a as int / 64, a as int % 64;
  }

  /** The first two characters of a quad give its first byte; four bits are left over. */
  lemma DecodeTwo(ah: nat, al: nat, bh: nat, rest: string)
    requires ah < 64 && al < 4 && bh < 16
    ensures DecodeFrom([Digit(ah)] + ([Digit(16 * al + bh)] + rest), 0, 0)
      == Prepend([(4 * ah + al) as byte], DecodeFrom(rest, 4, bh))
  {
    Powers();
    hide Digit, DecodeFrom, Pow2;
    DecodeDigit(ah, [Digit(16 * al + bh)] + rest, 0, 0);
    DecodeDigit(16 * al + bh, rest, 6, ah);
    Radix16(4 * ah + al, bh);
    Byte256(0, 4 * ah + al);
  }

  lemma DecodeThird(bh: nat, bl: nat, ch: nat, rest: string)
    requires bh < 16 && bl < 16 && ch < 4
    ensures DecodeFrom([Digit(4 * bl + ch)] + rest, 4, bh)
      == Prepend([(16 * bh + bl) as byte], DecodeFrom(rest, 2, ch))
  {
    Powers();
    hide Digit, DecodeFrom, Pow2;
    DecodeDigit(4 * bl + ch, rest, 4, bh);
    Radix4(16 * bh + bl, ch);
    Byte256(0, 16 * bh + bl);
  }

  lemma DecodeFourth(ch: nat, cl: nat, rest: string)
    requires ch < 4 && cl < 64
    ensures DecodeFrom([Digit(cl)] + rest, 2, ch) == Prepend([(64 * ch + cl) as byte], DecodeFrom(rest, 0, 0))
  {
    Powers();
    hide Digit, DecodeFrom, Pow2;
    DecodeDigit(cl, rest, 2, ch);
    Byte256(0, 64 * ch + cl);
  }

  lemma DecodeWholeQuad(a: byte, b: byte, c: byte, rest: string)
    ensures DecodeFrom(Quad([a, b, c]) + rest, 0, 0) == Prepend([a, b, c], DecodeFrom(rest, 0, 0))
  {
    var ah, al := Cut6(a);
    var bh, bl := Cut4(b);
    var ch, cl := Cut2(c);
    DigitsOfGroup(ah, al, bh, bl, ch, cl);
    var q1, q2, q3, q4 := Digit(ah), Digit(16 * al + bh), Digit(4 * bl + ch), Digit(cl);
    assert Quad([a, b, c]) == [q1, q2, q3, q4];
    hide *;
    assert [q1, q2, q3, q4] + rest == [q1] + ([q2] + ([q3] + ([q4] + rest)));
    DecodeTwo(ah, al, bh, [q3] + ([q4] + rest));
    DecodeThird(bh, bl, ch, [q4] + rest);
    DecodeFourth(ch, cl, rest);
    PrependThree(a, b, c, DecodeFrom(rest, 0, 0));
  }

  lemma PrependThree(a: byte, b: byte, c: byte, r: Option<seq<byte>>)
    ensures Prepend([a], Prepend([b], Prepend([c], r))) == Prepend([a, b, c], r)
  {
    if r.Some? {
      assert [a] + ([b] + ([c] + r.value)) == [a, b, c] + r.value;
    }
  }

  lemma DecodePair(a: byte, b: byte)
    ensures DecodeFrom(Quad([a, b]), 0, 0) == Some([a, b])
  {
    var ah, al := Cut6(a);
    var bh, bl := Cut4(b);
    DigitsOfGroup(ah, al, bh, bl, 0, 0);
    var q1, q2, q3 := Digit(ah), Digit(16 * al + bh), Digit(4 * bl + 0);
    assert Quad([a, b]) == [q1] + ([q2] + ([q3] + (['='] + [])));
    DecodeStops([], 2, 0);
    assert [a] + ([b] + []) == [a, b];
    hide Digit, Quad, DecodeFrom;
    DecodeTwo(ah, al, bh, [q3] + (['='] + []));
    DecodeThird(bh, bl, 0, ['='] + []);
  }

  lemma DecodeSingle(a: byte)
    ensures DecodeFrom(Quad([a]), 0, 0) == Some([a])
  {
    var ah, al := Cut6(a);
    DigitsOfGroup(ah, al, 0, 0, 0, 0);
    var q1, q2 := Digit(ah), Digit(16 * al + 0);
    assert Quad([a]) == [q1] + ([q2] + (['='] + ['=']));
    DecodeStops(['='], 4, 0);
    assert [a] + [] == [a];
    hide Digit, Quad, DecodeFrom;
    DecodeTwo(ah, al, 0, ['='] + ['=']);
  }

  /** Decoding gives back every byte string, of any length. */
  lemma {:induction false} DecodeEncode(data: seq<byte>)
    ensures DecodeFrom(Encode(data), 0, 0) == Some(data)
    ensures Decode(Encode(data)) == data
    ensures |Encode(data)| == (|data| + 2) / 3 * 4
    decreases |data|
  {
    hide DecodeFrom, Quad;
    if data == [] {
      DecodeStops([], 0, 0);
    } else if |data| == 1 {
      assert data == [data[0]];
      DecodeSingle(data[0]);
    } else if |data| == 2 {
      assert data == [data[0], data[1]];
      DecodePair(data[0], data[1]);
    } else {
      var head, tail := data[..3], data[3..];
      assert head == [data[0], data[1], data[2]] && data == head + tail;
      DecodeWholeQuad(data[0], data[1], data[2], Encode(tail));
      DecodeEncode(tail);
      EncodeSplit(data);
    }
  }

  lemma {:induction false} EncodeSplit(data: seq<byte>)
    requires |data| >= 3
    ensures Encode(data) == Quad(data[..3]) + Encode(data[3..])
  {
    hide Quad;
    if |data| == 3 {
      assert data[..3] == data && data[3..] == [];
      ConcatEmpty(Quad(data));
    }
  }

  // -------------------------------------------------------------------------- the loops

  method EncodeString(data: seq<byte>) returns (out: string)
    ensures out == Encode(data)
  {
    out := [];
    var i := 0;
    while i < |data|
      invariant 0 <= i
      invariant out + Encode(if i <= |data| then data[i..] else []) == Encode(data)
      decreases |data| - i
    {
      var g := data[i] as int * 65536;
      if i + 1 < |data| {
        g := g + data[i + 1] as int * 256;
      }
      if i + 2 < |data| {
        g := g + data[i + 2] as int;
      }
      var quad := [Digit(g / 262144 % 64), Digit(g / 4096 % 64),
                   if i + 1 < |data| then Digit(g / 64 % 64) else '=',
                   if i + 2 < |data| then Digit(g % 64) else '='];
      QuadAt(data, i, g, quad);
      hide Digit, Quad, Encode;
      ConcatAssoc(out, quad, Encode(if i + 3 <= |data| then data[i + 3..] else []));
      out := out + quad;
      i := i + 3;
    }
    ConcatEmpty(out);
  }

  lemma QuadAt(data: seq<byte>, i: nat, g: nat, quad: string)
    requires i < |data| && g == Group(data[i..]) && |quad| == 4
    requires quad == [Digit(g / 262144 % 64), Digit(g / 4096 % 64),
                      if i + 1 < |data| then Digit(g / 64 % 64) else '=',
                      if i + 2 < |data| then Digit(g % 64) else '=']
    ensures Encode(data[i..]) == quad + Encode(if i + 3 <= |data| then data[i + 3..] else [])
  {
    var d := data[i..];
    assert quad == Quad(d);
    hide Digit;
    if |d| >= 3 {
      assert Group(d[..3]) == Group(d);
      assert Quad(d[..3]) == Quad(d);
      EncodeSplit(d);
      assert d[3..] == data[i + 3..];
    } else {
      ConcatEmpty(quad);
      assert Encode(d) == Quad(d);
    }
  }

  /** `high` and `low` are the accumulator's bits above and below position `bits`. */
  ghost predicate Holds(accumulator: int, high: nat, bits: nat, low: nat) {
    low < Pow2(bits) && accumulator == Pow2(bits) * high + low
  }

  /** (accumulator << 6) | value, on 32 bits */
  function Shifted(accumulator: nat, v: nat): (next: nat)
    ensures next < WORD
  {
    (accumulator * 64 + v) % WORD
  }

  /** (accumulator >> bits) & 0xff */
  function ByteAt(accumulator: nat, bits: nat): (b: byte) {
    (accumulator / Pow2(bits) % 256) as byte
  }

  lemma Wraps(x: nat) returns (over: nat)
    ensures x % WORD == x - WORD * over
  {
    over := x / WORD;
  }

  /** The 32-bit accumulator wraps, but its lowest bits, which are all that is ever used, are
      those of the decoder that does not wrap. */
  lemma ShiftIn(acc: nat, high: nat, bits: nat, low: nat, v: nat) returns (h: nat)
    requires bits == 0 || bits == 2 || bits == 4 || bits == 6
    requires acc < WORD && v < 64 && Holds(acc, high, bits, low)
    ensures Holds(Shifted(acc, v), h, bits + 6, low * 64 + v)
  {
    var over := Wraps(acc * 64 + v);
    var next := (acc * 64 + v) % WORD;
    Powers();
    assert Pow2(8) == 256 && Pow2(10) == 1024 && Pow2(12) == 4096;
    var k := if bits == 0 then 0x400_0000 else if bits == 2 then 0x100_0000
             else if bits == 4 then 0x40_0000 else 0x10_0000;
    var m := Pow2(bits + 6);
    h := Carry(m, high, k, over, low * 64 + v, next);
  }

  lemma Carry(m: nat, high: nat, k: nat, over: nat, low: nat, next: nat) returns (h: nat)
    requires m * k == WORD && low < m && next == m * high + low - WORD * over
    ensures next == m * h + low
  {
    var d := high - k * over;
    assert next == m * d + low by {
      assert m * (k * over) == (m * k) * over;
      assert m * d == m * high - m * (k * over);
    }
    if d < 0 {
      Negative(m, d, low);
    }
    h := d;
  }

  lemma Negative(m: nat, d: int, low: nat)
    requires low < m && d < 0
    ensures m * d + low < 0
  {
    NotPositive(m, d + 1);
    Distribute(m, d);
  }

  lemma NotPositive(m: nat, e: int)
    requires e <= 0
    ensures m * e <= 0
  {
  }

  lemma Distribute(m: int, d: int)
    ensures m * (d + 1) == m * d + m
  {
  }

  lemma TakeByte(acc: nat, high: nat, left: nat, low: nat) returns (h: nat)
    requires left == 0 || left == 2 || left == 4
    requires Holds(acc, high, left + 8, low)
    ensures ByteAt(acc, left) == ByteAt(low, left)
    ensures Holds(acc, h, left, low % Pow2(left))
  {
    Powers();
    assert Pow2(8) == 256 && Pow2(10) == 1024 && Pow2(12) == 4096;
    var m := Pow2(left);
    var q, r := low / m, low % m;
    assert low == m * q + r;
    hide Pow2;
    h := 256 * high + q;
    if left == 2 {
      Radix4(h, r);
    } else if left == 4 {
      Radix16(h, r);
    }
    Byte256(high, q);
    Byte256(0, q);
  }

  /** One character as the loop meets it. */
  lemma DecodeOne(s: string, bits: nat, low: nat)
    requires s != [] && bits < 8
    ensures s[0] == '=' ==> DecodeFrom(s, bits, low) == Some([])
    ensures s[0] != '=' && DigitValue(s[0]) < 0 ==> DecodeFrom(s, bits, low) == None
    ensures s[0] != '=' && DigitValue(s[0]) >= 0 ==>
      var t := low * 64 + DigitValue(s[0]);
      DecodeFrom(s, bits, low) ==
        if bits < 2 then DecodeFrom(s[1..], bits + 6, t)
        else var left := bits - 2;
          Prepend([ByteAt(t, left)], DecodeFrom(s[1..], left, t % Pow2(left)))
  {
    hide DigitValue;
  }

  /** Having read `i` characters and written `output`, what is left to do is to decode the rest. */
  ghost predicate Reading(input: string, i: nat, output: seq<byte>, bits: nat, low: nat) {
    && i <= |input| && (bits == 0 || bits == 2 || bits == 4 || bits == 6)
    && DecodeFrom(input, 0, 0) == Prepend(output, DecodeFrom(input[i..], bits, low))
  }

  lemma ReadingStarts(input: string)
    ensures Reading(input, 0, [], 0, 0)
    ensures Holds(0, 0, 0, 0)
  {
    assert input[0..] == input;
    PrependNothing(DecodeFrom(input, 0, 0));
    hide DecodeFrom;
    assert Pow2(0) == 1;
  }

  lemma ReadingStops(input: string, i: nat, output: seq<byte>, bits: nat, low: nat)
    requires Reading(input, i, output, bits, low)
    requires i == |input| || input[i] == '='
    ensures Decode(input) == output
  {
    if i == |input| {
      assert input[i..] == [];
      DecodeStops([], bits, low);
    } else {
      DecodeOne(input[i..], bits, low);
    }
    hide DecodeFrom;
    PrependStops(output);
  }

  lemma ReadingRefuses(input: string, i: nat, output: seq<byte>, bits: nat, low: nat)
    requires Reading(input, i, output, bits, low) && i < |input|
    requires input[i] != '=' && DigitValue(input[i]) < 0
    ensures Decode(input) == []
  {
    DecodeOne(input[i..], bits, low);
    hide DecodeFrom;
    PrependStops(output);
  }

  lemma ReadingGoesOn(input: string, i: nat, output: seq<byte>, bits: nat, low: nat)
    requires Reading(input, i, output, bits, low) && i < |input|
    requires input[i] != '=' && DigitValue(input[i]) >= 0
    ensures var t := low * 64 + DigitValue(input[i]);
      if bits < 2 then Reading(input, i + 1, output, bits + 6, t)
      else Reading(input, i + 1, output + [ByteAt(t, bits - 2)], bits - 2, t % Pow2(bits - 2))
  {
    assert input[i..][1..] == input[i + 1..];
    DecodeOne(input[i..], bits, low);
    hide DecodeFrom, ByteAt, DigitValue, Pow2;
    var t := low * 64 + DigitValue(input[i]);
    if bits >= 2 {
      PrependTwice(output, ByteAt(t, bits - 2), DecodeFrom(input[i + 1..], bits - 2, t % Pow2(bits - 2)));
    }
  }

  lemma Advance(input: string, i: nat, output: seq<byte>, acc: nat, high: nat, bits: nat, low: nat)
    returns (h: nat, l: nat)
    requires Reading(input, i, output, bits, low) && i < |input|
    requires acc < WORD && Holds(acc, high, bits, low)
    requires input[i] != '=' && DigitValue(input[i]) >= 0
    ensures var next := Shifted(acc, DigitValue(input[i]));
      if bits < 2 then Reading(input, i + 1, output, bits + 6, l) && Holds(next, h, bits + 6, l)
      else
        && Reading(input, i + 1, output + [ByteAt(next, bits - 2)], bits - 2, l)
        && Holds(next, h, bits - 2, l)
  {
    hide DecodeFrom, DigitValue, Holds, ByteAt, Shifted, Prepend, Pow2;
    var v := DigitValue(input[i]);
    ReadingGoesOn(input, i, output, bits, low);
    h := ShiftIn(acc, high, bits, low, v);
    l := low * 64 + v;
    if bits >= 2 {
      h := TakeByte(Shifted(acc, v), h, bits - 2, l);
      l := l % Pow2(bits - 2);
    }
  }

  method DecodeString(input: string) returns (output: seq<byte>)
    ensures output == Decode(input)
  {
    hide Decode, DecodeFrom, DigitValue, Pow2, Prepend, Holds, Reading, Shifted, ByteAt;
    output := [];
    var accumulator := 0;
    var bits := 0;
    ghost var low: nat, high: nat := 0, 0;
    ReadingStarts(input);
    for i := 0 to |input|
      invariant 0 <= accumulator < WORD && 0 <= bits < 8
      invariant Holds(accumulator, high, bits, low)
      invariant Reading(input, i, output, bits, low)
    {
      if input[i] == '=' {
        ReadingStops(input, i, output, bits, low);
        return;
      }
      var value := DigitValue(input[i]);
      if value < 0 {
        ReadingRefuses(input, i, output, bits, low);
        return [];
      }
      high, low := Advance(input, i, output, accumulator, high, bits, low);
      accumulator := Shifted(accumulator, value);
      bits := bits + 6;
      if bits >= 8 {
        bits := bits - 8;
        output := output + [ByteAt(accumulator, bits)];
      }
    }
    ReadingStops(input, |input|, output, bits, low);
  }

  lemma PrependStops(a: seq<byte>)
    ensures Prepend(a, Some([])) == Some(a)
    ensures Prepend(a, None) == None
  {
    ConcatEmpty(a);
  }

  lemma PrependNothing(r: Option<seq<byte>>)
    ensures Prepend([], r) == r
  {
    if r.Some? {
      assert [] + r.value == r.value;
    }
  }

  lemma PrependTwice(a: seq<byte>, b: byte, r: Option<seq<byte>>)
    ensures Prepend(a, Prepend([b], r)) == Prepend(a + [b], r)
  {
    if r.Some? {
      ConcatAssoc(a, [b], r.value);
    }
  }
}
