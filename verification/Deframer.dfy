/** The RTCM3 byte-at-a-time deframer of main/base_station.cpp. */
module Deframer {
  import opened Bits
  import Crc24q

  // A frame is a preamble, two bytes holding six reserved bits and a ten-bit
  // payload length, the payload, and a three-byte CRC-24Q.

  const PREAMBLE: byte := 0xD3
  const BUFFER_SIZE := 1200
  const MAX_PAYLOAD := 1023

  /** (b & 0xFC) == 0 */
  predicate ReservedClear(b: byte) {
    b / 4 == 0
  }

  /** The whole frame: a ten-bit payload length plus header and CRC. */
  function FrameLength(b1: byte, b2: byte): (n: nat)
    ensures 6 <= n <= MAX_PAYLOAD + 6
  {
    (b1 % 4) as int * 256 + b2 as int + 6
  }

  /** The test made on a complete capture. */
  predicate CrcMatches(frame: seq<byte>) {
    && |frame| >= 6
    && Bits.Bits(frame[|frame| - 3..]) == Crc24q.Crc(frame[..|frame| - 3])
  }

  /** A complete capture, before its CRC is looked at. */
  predicate IsWhole(frame: seq<byte>) {
    && |frame| >= 6
    && frame[0] == PREAMBLE
    && ReservedClear(frame[1])
    && |frame| == FrameLength(frame[1], frame[2])
  }

  /** What the capture buffer can hold between two bytes. */
  predicate IsPartial(buffer: seq<byte>) {
    && (|buffer| >= 1 ==> buffer[0] == PREAMBLE)
    && (|buffer| >= 2 ==> ReservedClear(buffer[1]))
    && (|buffer| >= 3 ==> |buffer| < FrameLength(buffer[1], buffer[2]))
  }

  /** The capture buffer and everything published so far. */
  datatype Parser = Parser(buffer: seq<byte>, frames: seq<seq<byte>>)

  const START := Parser([], [])

  /** One byte, as feed_rtcm_byte treats it. */
  function FeedOne(p: Parser, b: byte): (p': Parser)
    requires IsPartial(p.buffer)
    ensures IsPartial(p'.buffer)
  {
    var grown := p.buffer + [b];
    var restart := if b == PREAMBLE then [b] else [];
    if p.buffer == [] then
      p.(buffer := restart)
    else if |grown| == 2 && !ReservedClear(b) then
      p.(buffer := restart)
    else if |grown| <= 3 || |grown| < FrameLength(grown[1], grown[2]) then
      p.(buffer := grown)
    else
      Parser([], if CrcMatches(grown) then p.frames + [grown] else p.frames)
  }

  function Feed(p: Parser, data: seq<byte>): (p': Parser)
    requires IsPartial(p.buffer)
    ensures IsPartial(p'.buffer)
    decreases |data|
  {
    if data == [] then p else Feed(FeedOne(p, data[0]), data[1..])
  }

  /** How the input is cut into reads does not matter. */
  lemma {:induction false} FeedConcat(p: Parser, a: seq<byte>, b: seq<byte>)
    requires IsPartial(p.buffer)
    ensures Feed(p, a + b) == Feed(Feed(p, a), b)
    decreases |a|
  {
    hide FeedOne, IsPartial;
    if a == [] {
      assert a + b == b;
    } else {
      assert (a + b)[1..] == a[1..] + b;
      FeedConcat(FeedOne(p, a[0]), a[1..], b);
    }
  }

  /** The comparison at the end of feed_rtcm_byte. */
  method CheckCrc(frame: seq<byte>) returns (ok: bool)
    requires |frame| >= 6
    ensures ok == CrcMatches(frame)
  {
    hide Bits.Bits, Crc24q.FeedBits;
    var crc := Crc24q.ComputeCrc(frame[..|frame| - 3]);
    var actual := Zeros(8) + Bits.Bits(frame[|frame| - 3..]);
    assert crc[8..] == Crc24q.Crc(frame[..|frame| - 3]);
    assert actual[8..] == Bits.Bits(frame[|frame| - 3..]);
    ok := actual == crc;
  }

  class RtcmDeframer {
    const frame: array<byte>
    var length: int
    var expected: int
    ghost var published: seq<seq<byte>>

    ghost predicate Valid()
      reads this, frame
    {
      && frame.Length == BUFFER_SIZE
      && 0 <= length <= frame.Length
      && IsPartial(frame[..length])
      && expected == if length < 3 then 0 else FrameLength(frame[1], frame[2])
    }

    ghost function State(): (p: Parser)
      requires Valid()
      reads this, frame
      ensures IsPartial(p.buffer)
    {
      Parser(frame[..length], published)
    }

    constructor ()
      ensures Valid() && fresh(frame) && State() == START
    {
      frame := new byte[BUFFER_SIZE](_ => 0);
      length := 0;
      expected := 0;
      published := [];
    }

    method Reset()
      requires Valid()
      modifies this
      ensures Valid() && State() == old(State()).(buffer := [])
    {
      length := 0;
      expected := 0;
    }

    /** Returns the frame that this byte completes, if it is published. */
    method FeedByte(b: byte) returns (out: seq<byte>)
      requires Valid()
      modifies this, frame
      ensures Valid() && State() == FeedOne(old(State()), b)
      ensures published == if out == [] then old(published) else old(published) + [out]
    {
      hide CrcMatches;
      out := [];
      if length == 0 {
        if b != PREAMBLE {
          return;
        }
        frame[0] := b;
        length := 1;
        return;
      }

      frame[length] := b;
      length := length + 1;
      assert frame[..length] == old(frame[..length]) + [b];

      if length == 2 && !ReservedClear(frame[1]) {
        length := 0;
        if b == PREAMBLE {
          frame[0] := b;
          length := 1;
        }
        return;
      }

      if length == 3 {
        var whole := FrameLength(frame[1], frame[2]);
        var tooLong := whole > frame.Length || whole < 6;
        expected := if tooLong then 0 else whole;
        length := if tooLong then 0 else length;
        return;
      }

      if expected == 0 || length < expected {
        return;
      }

      var ok := CheckCrc(frame[..expected]);
      if ok {
        out := frame[..expected];
        published := published + [out];
      }
      length := 0;
      expected := 0;
    }

    /** The reading loop: one call of feed_rtcm_byte per byte received. */
    method FeedAll(data: seq<byte>)
      requires Valid()
      modifies this, frame
      ensures Valid() && State() == Feed(old(State()), data)
    {
      for i := 0 to |data|
        invariant Valid()
        invariant State() == Feed(old(State()), data[..i])
      {
        var _ := FeedByte(data[i]);
        assert data[..i + 1] == data[..i] + [data[i]];
        FeedConcat(old(State()), data[..i], [data[i]]);
      }
      assert data[..|data|] == data;
    }
  }
}
