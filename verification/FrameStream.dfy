/** The deframer on whole streams. */
module FrameStream {
  import opened Bits
  import opened Common
  import opened Deframer
  import Crc24q

  // What the deframer publishes, said about the whole byte stream at once.

  /** Positions start (included) to end (excluded) of a stream. */
  datatype Span = Span(start: nat, end: nat)

  /** A capture could begin at `i`, as far as the bytes of `s` tell. */
  predicate MayStart(s: seq<byte>, i: nat) {
    i < |s| && s[i] == PREAMBLE && (i + 1 < |s| ==> ReservedClear(s[i + 1]))
  }

  /** The captures in `s` from position `from` on, complete ones and the unfinished one:
      each begins at the first possible place after the end of the one before. */
  ghost predicate Greedy(s: seq<byte>, from: nat, spans: seq<Span>, pending: nat)
    decreases |spans|
  {
    if spans == [] then
      && from <= pending <= |s|
      && (forall i | from <= i < pending :: !MayStart(s, i))
      && (pending < |s| ==> MayStart(s, pending))
      && IsPartial(s[pending..])
    else
      && from <= spans[0].start < spans[0].end <= |s|
      && (forall i | from <= i < spans[0].start :: !MayStart(s, i))
      && IsWhole(Slice(s, spans[0]))
      && Greedy(s, spans[0].end, spans[1..], pending)
  }

  function Slice(s: seq<byte>, span: Span): seq<byte> {
    if span.start <= span.end <= |s| then s[span.start..span.end] else []
  }

  /** The captures whose CRC holds. */
  function Good(s: seq<byte>, spans: seq<Span>): (frames: seq<seq<byte>>)
    decreases |spans|
  {
    if spans == [] then
      []
    else
      var frame := Slice(s, spans[0]);
      (if CrcMatches(frame) then [frame] else []) + Good(s, spans[1..])
  }

  lemma {:induction false} GreedyBounds(s: seq<byte>, from: nat, spans: seq<Span>, pending: nat)
    requires Greedy(s, from, spans, pending)
    ensures from <= pending <= |s|
    decreases |spans|
  {
    hide IsWhole, IsPartial;
    if spans != [] {
      GreedyBounds(s, spans[0].end, spans[1..], pending);
    }
  }

  /** Each capture lies inside the stream and is at most 1029 bytes long. */
  lemma {:induction false} SpanAt(s: seq<byte>, from: nat, spans: seq<Span>, pending: nat, k: nat)
    requires Greedy(s, from, spans, pending) && k < |spans|
    ensures from <= spans[k].start < spans[k].end <= pending <= |s|
    ensures IsWhole(Slice(s, spans[k])) && |Slice(s, spans[k])| <= 1029
    decreases |spans|
  {
    GreedyBounds(s, spans[0].end, spans[1..], pending);
    if k > 0 {
      hide IsWhole, IsPartial;
      SpanAt(s, spans[0].end, spans[1..], pending, k - 1);
    }
  }

  /** Captures do not overlap and come in stream order. */
  lemma {:induction false} SpansInOrder(s: seq<byte>, from: nat, spans: seq<Span>, pending: nat,
                                        j: nat, k: nat)
    requires Greedy(s, from, spans, pending) && j < k < |spans|
    ensures spans[j].end <= spans[k].start
    decreases |spans|
  {
    hide IsWhole, IsPartial;
    if j == 0 {
      SpanAt(s, spans[0].end, spans[1..], pending, k - 1);
    } else {
      SpansInOrder(s, spans[0].end, spans[1..], pending, j - 1, k - 1);
    }
  }

  // ---------------------------------------------- the parser meets the description

  /** Bytes where no capture can begin leave an idle parser as it is. */
  lemma {:induction false} FeedGap(p: Parser, s: seq<byte>)
    requires p.buffer == []
    requires forall i | 0 <= i < |s| :: s[i] != PREAMBLE
    ensures Feed(p, s) == p
    decreases |s|
  {
    if s != [] {
      FeedGap(p, s[1..]);
    }
  }

  /** Inside one capture every byte is just stored. */
  lemma {:induction false} FeedInside(p: Parser, s: seq<byte>)
    requires p.buffer != [] && IsPartial(p.buffer) && IsPartial(p.buffer + s)
    ensures Feed(p, s) == p.(buffer := p.buffer + s)
    decreases |s|
  {
    hide CrcMatches;
    if s == [] {
      assert p.buffer + s == p.buffer;
    } else {
      var grown := p.buffer + [s[0]];
      assert p.buffer + s == grown + s[1..];
      assert FeedOne(p, s[0]) == p.(buffer := grown);
      FeedInside(p.(buffer := grown), s[1..]);
    }
  }

  lemma FeedPartial(p: Parser, s: seq<byte>)
    requires p.buffer == [] && IsPartial(s)
    ensures Feed(p, s) == p.(buffer := s)
  {
    hide CrcMatches;
    if s != [] {
      assert [s[0]] + s[1..] == s;
      FeedInside(p.(buffer := [s[0]]), s[1..]);
    }
  }

  function After(p: Parser, frame: seq<byte>): Parser {
    p.(frames := if CrcMatches(frame) then p.frames + [frame] else p.frames)
  }

  /** A whole capture is published exactly when its CRC holds; either way the parser is idle again. */
  lemma FeedWhole(p: Parser, s: seq<byte>)
    requires p.buffer == [] && IsWhole(s)
    ensures Feed(p, s) == After(p, s)
  {
    hide CrcMatches;
    var init, last := s[..|s| - 1], s[|s| - 1];
    assert s == init + [last];
    FeedPartial(p, init);
    FeedConcat(p, init, [last]);
    var q := p.(buffer := init);
    assert Feed(q, [last]) == FeedOne(q, last);
  }

  /** Bytes up to the next place where a capture may begin leave an idle parser idle,
      even the preambles among them that turn out to begin nothing. */
  lemma {:induction false} FeedToStart(p: Parser, s: seq<byte>, from: nat, to: nat)
    requires p.buffer == [] && from <= to <= |s|
    requires forall i | from <= i < to :: !MayStart(s, i)
    requires to < |s| ==> MayStart(s, to)
    ensures Feed(p, s[from..]) == Feed(p, s[to..])
    decreases |s| - from
  {
    hide CrcMatches;
    if from < to {
      assert !MayStart(s, from);
      FeedToStart(p, s, from + 1, to);
      assert s[from..][1..] == s[from + 1..];
      if s[from] == PREAMBLE {
        var q := FeedOne(p, s[from]);
        assert s[from + 1..][1..] == s[from + 2..];
        assert FeedOne(q, s[from + 1]) == FeedOne(p, s[from + 1]);
      }
    }
  }

  /** On any stream, from an idle parser: what is published are the captures with a
      good CRC, in order, and what is left in the buffer is the unfinished capture. */
  lemma {:induction false} FeedIsGreedy(p: Parser, s: seq<byte>, from: nat, spans: seq<Span>, pending: nat)
    requires p.buffer == [] && from <= |s|
    requires Greedy(s, from, spans, pending)
    ensures pending <= |s|
    ensures Feed(p, s[from..]) == Parser(s[pending..], p.frames + Good(s, spans))
    decreases |spans|
  {
    hide CrcMatches, IsWhole, IsPartial, FeedOne, Feed, MayStart, Slice;
    GreedyBounds(s, from, spans, pending);
    if spans == [] {
      FeedToStart(p, s, from, pending);
      FeedPartial(p, s[pending..]);
      assert p.frames + [] == p.frames;
    } else {
      var frame := Slice(s, spans[0]);
      FeedSpan(p, s, from, spans[0]);
      FeedIsGreedy(After(p, frame), s, spans[0].end, spans[1..], pending);
      GoodFirst(p, s, spans);
    }
  }

  lemma {:induction false} GoodFirst(p: Parser, s: seq<byte>, spans: seq<Span>)
    requires spans != []
    ensures After(p, Slice(s, spans[0])).frames + Good(s, spans[1..]) == p.frames + Good(s, spans)
  {
    hide CrcMatches, Slice;
    var frame, rest := Slice(s, spans[0]), Good(s, spans[1..]);
    ConcatAssoc(p.frames, [frame], rest);
    ConcatEmpty(rest);
  }

  lemma FeedSpan(p: Parser, s: seq<byte>, from: nat, span: Span)
    requires p.buffer == [] && from <= span.start < span.end <= |s|
    requires forall i | from <= i < span.start :: !MayStart(s, i)
    requires IsWhole(Slice(s, span))
    ensures Feed(p, s[from..]) == Feed(After(p, Slice(s, span)), s[span.end..])
  {
    hide CrcMatches, IsWhole, IsPartial, FeedOne, Feed;
    var frame := Slice(s, span);
    WholeMayStart(s, span);
    FeedToStart(p, s, from, span.start);
    FeedWhole(p, frame);
    assert s[span.start..] == frame + s[span.end..];
    FeedConcat(p, frame, s[span.end..]);
  }

  lemma WholeMayStart(s: seq<byte>, span: Span)
    requires IsWhole(Slice(s, span))
    ensures span.start < |s| && MayStart(s, span.start)
  {
    assert Slice(s, span)[1] == s[span.start + 1];
  }

  /** Every stream has such a description, and only one. */
  function Scan(s: seq<byte>, from: nat): (r: (seq<Span>, nat))
    requires from <= |s|
    decreases |s| - from
  {
    if from == |s| then
      ([], from)
    else if !MayStart(s, from) then
      Scan(s, from + 1)
    else if IsPartial(s[from..]) then
      ([], from)
    else
      var end := from + FrameLength(s[from + 1], s[from + 2]);
      var rest := Scan(s, end);
      ([Span(from, end)] + rest.0, rest.1)
  }

  lemma {:induction false} ScanIsGreedy(s: seq<byte>, from: nat)
    requires from <= |s|
    ensures Greedy(s, from, Scan(s, from).0, Scan(s, from).1)
    decreases |s| - from
  {
    if from < |s| {
      if !MayStart(s, from) {
        ScanIsGreedy(s, from + 1);
        GreedyEarlier(s, from, Scan(s, from + 1).0, Scan(s, from + 1).1);
      } else if !IsPartial(s[from..]) {
        var end := from + FrameLength(s[from + 1], s[from + 2]);
        ScanIsGreedy(s, end);
        assert Scan(s, from).0[1..] == Scan(s, end).0;
      }
    }
  }

  lemma GreedyEarlier(s: seq<byte>, from: nat, spans: seq<Span>, pending: nat)
    requires from < |s| && !MayStart(s, from)
    requires Greedy(s, from + 1, spans, pending)
    ensures Greedy(s, from, spans, pending)
  {
  }

  lemma {:induction false} GreedyUnique(s: seq<byte>, from: nat, spans: seq<Span>, pending: nat,
                                        spans': seq<Span>, pending': nat)
    requires Greedy(s, from, spans, pending) && Greedy(s, from, spans', pending')
    ensures spans == spans' && pending == pending'
    decreases |spans|
  {
    var first := if spans == [] then pending else spans[0].start;
    var first' := if spans' == [] then pending' else spans'[0].start;
    hide IsWhole, IsPartial, CrcMatches;
    GreedyBounds(s, from, spans, pending);
    GreedyBounds(s, from, spans', pending');
    if spans != [] {
      WholeMayStart(s, spans[0]);
    }
    if spans' != [] {
      WholeMayStart(s, spans'[0]);
    }
    assert first == first';
    if spans != [] && spans' != [] {
      assert spans[0] == spans'[0];
      GreedyUnique(s, spans[0].end, spans[1..], pending, spans'[1..], pending');
      assert spans == [spans[0]] + spans[1..] && spans' == [spans'[0]] + spans'[1..];
    }
  }

  // ------------------------------------------------------------ encoded streams

  function CrcBytes(r: Crc24q.Register): (field: seq<byte>)
    ensures |field| == 3
  {
    [ByteOf(r[..8]), ByteOf(r[8..16]), ByteOf(r[16..])]
  }

  lemma CrcBytesBits(r: Crc24q.Register)
    ensures Bits.Bits(CrcBytes(r)) == r
  {
    hide ByteOf, ByteBits;
    var f := CrcBytes(r);
    assert f[1..] == [f[1], f[2]] && f[1..][1..] == [f[2]];
    assert Bits.Bits([f[2]]) == r[16..] + [];
    assert Bits.Bits([f[1], f[2]]) == r[8..16] + Bits.Bits([f[2]]);
    assert Bits.Bits(f) == r[..8] + Bits.Bits([f[1], f[2]]);
  }

  function Header(length: nat): (h: seq<byte>)
    requires length <= MAX_PAYLOAD
    ensures |h| == 3
  {
    [PREAMBLE, (length / 256) as byte, (length % 256) as byte]
  }

  lemma LengthBits(high: nat, low: nat, mid: nat, last: nat)
    requires high < 4 && mid < 16 && last < 16 && low == 16 * mid + last
    ensures BitsOf(256 * high + low, 10) == BitsOf(high, 2) + BitsOf(low, 8)
  {
    hide *;
    var front, n := 16 * high + mid, 256 * high + low;
    assert n == 16 * front + last;
    BitsOfFour(high, mid, 2);
    BitsOfFour(front, last, 6);
    BitsOfFour(mid, last, 4);
    BitsOfFour(0, mid, 0);
    NoDigits(0);
    assert BitsOf(mid, 4) == BitsOf(0, 0) + BitsOf(mid, 4);
    Regroup(BitsOf(high, 2), BitsOf(mid, 4), BitsOf(last, 4));
  }

  lemma Regroup(a: seq<bool>, b: seq<bool>, c: seq<bool>)
    ensures (a + b) + c == a + (b + c)
  {
  }

  lemma HighBits(high: nat, a: nat, b: nat)
    requires high == 2 * a + b && a < 2 && b < 2
    ensures BitsOf(high, 8) == Zeros(6) + BitsOf(high, 2)
  {
    hide *;
    OneDigit(a, b, 7);
    OneDigit(0, a, 6);
    OneDigit(a, b, 1);
    OneDigit(0, a, 0);
    NoBits(6);
    NoDigits(0);
    assert [] + [a == 1] == [a == 1];
    Regroup(Zeros(6), [a == 1], [b == 1]);
  }

  lemma HeaderBits(length: nat)
    requires length <= 1023
    ensures Bits.Bits(Header(length)) == BitsOf(0xD3, 8) + Zeros(6) + BitsOf(length, 10)
  {
    hide *;
    var high, low := length / 256, length % 256;
    assert length == 256 * high + low && high < 4;
    HeaderIs(length, high, low);
    ThreeByteBits(0xD3, high as byte, low as byte);
    HighBits(high, high / 2, high % 2);
    LengthBits(high, low, low / 16, low % 16);
    HeaderParts(BitsOf(0xD3, 8), Zeros(6), BitsOf(high, 2), BitsOf(low, 8));
  }

  lemma HeaderIs(length: nat, high: nat, low: nat)
    requires length <= 1023 && length == 256 * high + low && high < 4 && low < 256
    ensures Header(length) == [0xD3, high as byte, low as byte]
  {
  }

  lemma HeaderParts(a: seq<bool>, b: seq<bool>, c: seq<bool>, d: seq<bool>)
    ensures a + (b + c) + d == a + b + (c + d)
  {
  }

  lemma ThreeByteBits(a: byte, b: byte, c: byte)
    ensures Bits.Bits([a, b, c]) == BitsOf(a as int, 8) + BitsOf(b as int, 8) + BitsOf(c as int, 8)
  {
    hide BitsOf;
    assert [a, b, c][1..] == [b, c] && [b, c][1..] == [c] && [c][1..] == [];
    assert Bits.Bits([c]) == ByteBits(c) + [];
    assert Bits.Bits([b, c]) == ByteBits(b) + Bits.Bits([c]);
    assert Bits.Bits([a, b, c]) == ByteBits(a) + Bits.Bits([b, c]);
  }

  /** A capture is complete exactly if it begins with the preamble, six reserved bits that are clear,
      and the number of payload bytes in ten bits, to which header and CRC add six bytes. */
  lemma WholeIff(frame: seq<byte>)
    ensures IsWhole(frame) <==>
      6 <= |frame| <= 1029 && Bits.Bits(frame[..3]) == BitsOf(0xD3, 8) + Zeros(6) + BitsOf(|frame| - 6, 10)
  {
    if 6 <= |frame| <= 1029 {
      HeaderBits(|frame| - 6);
      WholeByBytes(frame);
      hide *;
      if Bits.Bits(frame[..3]) == Bits.Bits(Header(|frame| - 6)) {
        SameBitsSameBytes(frame[..3], Header(|frame| - 6));
      }
    }
  }

  lemma WholeByBytes(frame: seq<byte>)
    requires 6 <= |frame| <= 1029
    ensures IsWhole(frame) <==> frame[..3] == Header(|frame| - 6)
  {
    var h, n := Header(|frame| - 6), |frame| - 6;
    assert frame[..3] == [frame[0], frame[1], frame[2]];
    assert n == 256 * (n / 256) + n % 256;
  }

  /** The frame a sender builds around a payload. */
  function Encode(payload: seq<byte>): (frame: seq<byte>)
    requires |payload| <= MAX_PAYLOAD
    ensures |frame| == |payload| + 6
  {
    var body := Header(|payload|) + payload;
    body + CrcBytes(Crc24q.Crc(body))
  }

  /** The receiver's frames are exactly the sender's. */
  lemma EncodeIsFrame(payload: seq<byte>)
    requires |payload| <= MAX_PAYLOAD
    ensures IsWhole(Encode(payload)) && CrcMatches(Encode(payload))
    ensures Encode(payload)[3..|payload| + 3] == payload
  {
    hide Crc24q.Crc, CrcBytes, Bits.Bits;
    var body := Header(|payload|) + payload;
    CrcBytesBits(Crc24q.Crc(body));
    assert Encode(payload)[..|payload| + 3] == body;
    assert Encode(payload)[|payload| + 3..] == CrcBytes(Crc24q.Crc(body));
  }

  lemma FrameIsEncoded(frame: seq<byte>)
    requires IsWhole(frame) && CrcMatches(frame)
    ensures |frame| - 6 <= MAX_PAYLOAD
    ensures frame == Encode(frame[3..|frame| - 3])
  {
    hide Crc24q.Crc, CrcBytes, Bits.Bits;
    var n := |frame| - 3;
    var body, field := frame[..n], frame[n..];
    assert body == Header(n - 3) + frame[3..n];
    CrcBytesBits(Crc24q.Crc(body));
    SameBitsSameBytes(field, CrcBytes(Crc24q.Crc(body)));
    assert frame == body + field;
  }

  /** Encoded payloads with anything free of preambles before, between and after them. */
  function Transmission(fillers: seq<seq<byte>>, payloads: seq<seq<byte>>): seq<byte>
    requires |fillers| == |payloads| + 1
    requires forall k | 0 <= k < |payloads| :: |payloads[k]| <= MAX_PAYLOAD
    decreases |payloads|
  {
    if payloads == [] then
      fillers[0]
    else
      fillers[0] + (Encode(payloads[0]) + Transmission(fillers[1..], payloads[1..]))
  }

  function EncodeAll(payloads: seq<seq<byte>>): (frames: seq<seq<byte>>)
    requires forall k | 0 <= k < |payloads| :: |payloads[k]| <= MAX_PAYLOAD
    decreases |payloads|
  {
    if payloads == [] then [] else [Encode(payloads[0])] + EncodeAll(payloads[1..])
  }

  /** A clean transmission is received frame for frame. */
  lemma {:induction false} TransmissionReceived(p: Parser, fillers: seq<seq<byte>>, payloads: seq<seq<byte>>)
    requires p.buffer == [] && |fillers| == |payloads| + 1
    requires forall k | 0 <= k < |payloads| :: |payloads[k]| <= MAX_PAYLOAD
    requires forall k | 0 <= k < |fillers| :: PREAMBLE !in fillers[k]
    ensures Feed(p, Transmission(fillers, payloads)) == Parser([], p.frames + EncodeAll(payloads))
    decreases |payloads|
  {
    hide CrcMatches, IsWhole, FeedOne, Encode;
    FeedGap(p, fillers[0]);
    if payloads == [] {
      ConcatEmpty(p.frames);
    } else {
      var frame, rest := Encode(payloads[0]), Transmission(fillers[1..], payloads[1..]);
      FeedConcat(p, fillers[0], frame + rest);
      FeedConcat(p, frame, rest);
      EncodeIsFrame(payloads[0]);
      FeedWhole(p, frame);
      TransmissionReceived(After(p, frame), fillers[1..], payloads[1..]);
      ConcatAssoc(p.frames, [frame], EncodeAll(payloads[1..]));
    }
  }

  /** A frame whose payload and CRC bytes suffer an error burst of at most 24 bits is
      dropped, and the parser is idle again right after it. */
  lemma {:induction false} BurstDropped(p: Parser, sent: seq<byte>, received: seq<byte>, start: nat)
    requires p.buffer == [] && IsWhole(sent) && CrcMatches(sent)
    requires |received| == |sent| && start >= 24
    requires Crc24q.DifferInBurst(Bits.Bits(sent), Bits.Bits(received), start)
    ensures Feed(p, received) == p
  {
    WholeByHeader(sent, received, start);
    MatchesIffZero(sent);
    MatchesIffZero(received);
    Crc24q.BurstChangesRegister(Crc24q.ZERO, Bits.Bits(sent), Bits.Bits(received), start);
    hide CrcMatches, IsWhole, Crc24q.FeedBits, Crc24q.DifferInBurst;
    FeedWhole(p, received);
  }

  /** A frame passes exactly when the CRC over all of it, CRC field included, is zero. */
  lemma MatchesIffZero(frame: seq<byte>)
    requires |frame| >= 6
    ensures CrcMatches(frame) <==> Crc24q.Crc(frame) == Crc24q.ZERO
  {
    hide Bits.Bits, Crc24q.FeedBits;
    var n := |frame| - 3;
    Crc24q.CodewordIffZero(frame[..n], frame[n..]);
    assert frame == frame[..n] + frame[n..];
  }

  lemma {:induction false} WholeByHeader(sent: seq<byte>, received: seq<byte>, start: nat)
    requires IsWhole(sent) && |received| == |sent| && start >= 24
    requires Crc24q.DifferInBurst(Bits.Bits(sent), Bits.Bits(received), start)
    ensures IsWhole(received)
  {
    SameHeader(sent, received, start);
    hide Crc24q.DifferInBurst, Bits.Bits;
    assert sent[..3][0] == received[..3][0] && sent[..3][1] == received[..3][1];
    assert sent[..3][2] == received[..3][2];
  }

  lemma {:induction false} SameHeader(sent: seq<byte>, received: seq<byte>, start: nat)
    requires |received| == |sent| >= 3 && start >= 24
    requires Crc24q.DifferInBurst(Bits.Bits(sent), Bits.Bits(received), start)
    ensures received[..3] == sent[..3]
  {
    hide ByteBits;
    assert sent == sent[..3] + sent[3..] && received == received[..3] + received[3..];
    BitsConcat(sent[..3], sent[3..]);
    BitsConcat(received[..3], received[3..]);
    var a, b := Bits.Bits(sent), Bits.Bits(received);
    assert a[..24] == b[..24];
    assert a[..24] == Bits.Bits(sent[..3]) && b[..24] == Bits.Bits(received[..3]);
    SameBitsSameBytes(sent[..3], received[..3]);
  }
}
