/** The message reader, said about the whole stream. */
module RinexStream {
  import opened Common
  import opened RinexFeed

  // Which messages the reader of main/rinex_logger.cpp (feed) hands on.

  /** Positions start (included) to end (excluded) of a stream. */
  datatype Span = Span(start: nat, end: nat)

  function Slice(s: string, span: Span): string {
    if span.start <= span.end <= |s| then s[span.start..span.end] else []
  }

  /** What the buffer can hold between two characters: no message has ended in it. */
  predicate IsOpen(m: string) {
    |m| < SIZE && (m != [] ==> m[0] == '#') && Unended(m)
  }

  /** What the reader takes in before it is idle again: a whole message, or what fills the buffer
      without one, and the character for which there is no room. */
  predicate IsCapture(m: string) {
    m != [] && IsOpen(m[..|m| - 1]) && m[0] == '#' && (Ends(m) || |m| == SIZE)
  }

  /** The captures in `s` from position `from` on, complete ones and the unfinished one: each begins
      at the first '#' after the end of the one before. */
  ghost predicate Greedy(s: string, from: nat, spans: seq<Span>, pending: nat)
    decreases |spans|
  {
    if spans == [] then
      && from <= pending <= |s|
      && (forall i | from <= i < pending :: s[i] != '#')
      && IsOpen(s[pending..])
    else
      && from <= spans[0].start < spans[0].end <= |s|
      && (forall i | from <= i < spans[0].start :: s[i] != '#')
      && IsCapture(Slice(s, spans[0]))
      && Greedy(s, spans[0].end, spans[1..], pending)
  }

  predicate HandedOn(m: string) {
    |m| < SIZE && IsRange(m)
  }

  /** The captures that are RANGEA messages. */
  function Ranged(s: string, spans: seq<Span>): (ms: seq<string>)
    decreases |spans|
  {
    if spans == [] then []
    else
      var m := Slice(s, spans[0]);
      (if HandedOn(m) then [m] else []) + Ranged(s, spans[1..])
  }

  /** Captures of less than the buffer are the whole messages. */
  lemma CapturesAre(m: string)
    ensures Whole(m) <==> IsCapture(m) && |m| < SIZE
  {
    OneIsUnended(m);
    hide Ends;
    if m != [] {
      var init := m[..|m| - 1];
      assert forall k | 2 <= k < |m| :: init[..k] == m[..k];
      assert |m| >= 2 ==> init[0] == m[0];
    }
  }

  lemma OneIsUnended(m: string)
    ensures |m| <= 12 ==> !Ends(m)
  {
  }

  // ------------------------------------------------ the reader meets the description

  /** Inside one capture every character is just stored. */
  lemma {:induction false} FeedInside(out: seq<string>, m: string, k: nat)
    requires IsOpen(m) && 1 <= k <= |m|
    ensures Feed(Reader(true, m[..k], out), m[k..]) == Reader(true, m, out)
    decreases |m| - k
  {
    hide Ends, IsRange;
    if k == |m| {
      assert m[..k] == m && m[k..] == [];
    } else {
      assert m[..k] + [m[k]] == m[..k + 1] && m[k..][1..] == m[k + 1..];
      FeedInside(out, m, k + 1);
    }
  }

  lemma FeedOpen(out: seq<string>, m: string)
    requires IsOpen(m)
    ensures Feed(Reader(false, [], out), m) == Reader(m != [], m, out)
  {
    if m != [] {
      FeedInside(out, m, 1);
      assert m[..1] == ['#'];
    }
  }

  function After(out: seq<string>, m: string): seq<string> {
    out + if HandedOn(m) then [m] else []
  }

  /** A capture leaves the reader idle, and is handed on exactly when it is a RANGEA message. */
  lemma FeedCapture(out: seq<string>, m: string)
    requires IsCapture(m)
    ensures Feed(Reader(false, [], out), m) == Reader(false, [], After(out, m))
  {
    var init, last := m[..|m| - 1], m[|m| - 1];
    assert m == init + [last];
    OneIsUnended(m);
    FeedOpen(out, init);
    hide Feed, Ends, IsRange;
    FeedConcat(Reader(false, [], out), init, [last]);
    FeedSingle(Reader(true, init, out), last);
    ConcatEmpty(out);
  }

  lemma FeedSpan(out: seq<string>, s: string, from: nat, span: Span)
    requires from <= span.start < span.end <= |s|
    requires forall i | from <= i < span.start :: s[i] != '#'
    requires IsCapture(Slice(s, span))
    ensures Feed(Reader(false, [], out), s[from..])
      == Feed(Reader(false, [], After(out, Slice(s, span))), s[span.end..])
  {
    hide IsCapture, HandedOn, Feed;
    var r, m := Reader(false, [], out), Slice(s, span);
    GapIsNoise(s, from, span.start);
    assert s[from..] == s[from..span.start] + (m + s[span.end..]);
    FeedConcat(r, s[from..span.start], m + s[span.end..]);
    FeedNoise(r, s[from..span.start]);
    FeedCapture(out, m);
    FeedConcat(r, m, s[span.end..]);
  }

  lemma GapIsNoise(s: string, from: nat, to: nat)
    requires from <= to <= |s| && forall i | from <= i < to :: s[i] != '#'
    ensures Noise(s[from..to])
  {
  }

  /** On any stream, from an idle reader: what is handed on are the RANGEA messages among the
      captures, in order, and what is left in the buffer is the unfinished capture. */
  lemma {:induction false} FeedIsGreedy(out: seq<string>, s: string, from: nat, spans: seq<Span>, pending: nat)
    requires from <= |s| && Greedy(s, from, spans, pending)
    ensures pending <= |s|
    ensures Feed(Reader(false, [], out), s[from..])
      == Reader(pending < |s|, s[pending..], out + Ranged(s, spans))
    decreases |spans|
  {
    hide IsCapture, IsOpen, HandedOn, Feed, Slice;
    if spans == [] {
      GapIsNoise(s, from, pending);
      assert s[from..] == s[from..pending] + s[pending..];
      FeedConcat(Reader(false, [], out), s[from..pending], s[pending..]);
      FeedNoise(Reader(false, [], out), s[from..pending]);
      FeedOpen(out, s[pending..]);
      ConcatEmpty(out);
    } else {
      var m := Slice(s, spans[0]);
      FeedSpan(out, s, from, spans[0]);
      FeedIsGreedy(After(out, m), s, spans[0].end, spans[1..], pending);
      ConcatAssoc(out, if HandedOn(m) then [m] else [], Ranged(s, spans[1..]));
    }
  }

  // ------------------------------------------------------ one description and no other

  /** The first position from `from` on at which the text from `start` to it is a capture. */
  function EndFrom(s: string, start: nat, from: nat): (end: Option<nat>)
    requires start <= from
    decreases |s| - from
  {
    if from >= |s| then None
    else if IsCapture(s[start..from + 1]) then Some(from + 1)
    else EndFrom(s, start, from + 1)
  }

  function Scan(s: string, from: nat): (r: (seq<Span>, nat))
    requires from <= |s|
    decreases |s| - from
  {
    if from == |s| then ([], from)
    else if s[from] != '#' then Scan(s, from + 1)
    else
      match EndFrom(s, from, from)
      case None => ([], from)
      case Some(end) =>
        if from < end <= |s| then
          var rest := Scan(s, end);
          ([Span(from, end)] + rest.0, rest.1)
        else
          ([], from)
  }

  /** A text that is read character by character is open until it is a capture. */
  lemma OpenGrows(m: string, c: char)
    requires IsOpen(m) && m != []
    ensures IsCapture(m + [c]) || IsOpen(m + [c])
  {
    var t := m + [c];
    hide Ends;
    assert t[..|m|] == m && t[..|t|] == t;
    assert forall k | 2 <= k <= |m| :: t[..k] == m[..k];
  }

  lemma {:induction false} EndIs(s: string, start: nat, from: nat)
    requires start < from <= |s| && IsOpen(s[start..from])
    ensures match EndFrom(s, start, from)
      case None => IsOpen(s[start..])
      case Some(end) => from < end <= |s| && IsCapture(s[start..end])
    decreases |s| - from
  {
    hide IsOpen, IsCapture;
    if from < |s| {
      OpenGrows(s[start..from], s[from]);
      assert s[start..from] + [s[from]] == s[start..from + 1];
      if !IsCapture(s[start..from + 1]) {
        EndIs(s, start, from + 1);
      }
    } else {
      assert s[start..from] == s[start..];
    }
  }

  lemma FirstIsOpen(s: string, start: nat)
    requires start < |s| && s[start] == '#'
    ensures IsOpen(s[start..start + 1]) && !IsCapture(s[start..start + 1])
  {
    OneIsUnended(s[start..start + 1]);
  }

  lemma EndIsFromStart(s: string, start: nat)
    requires start < |s| && s[start] == '#'
    ensures match EndFrom(s, start, start)
      case None => IsOpen(s[start..])
      case Some(end) => start < end <= |s| && IsCapture(s[start..end])
  {
    hide IsOpen, IsCapture;
    FirstIsOpen(s, start);
    EndIs(s, start, start + 1);
  }

  lemma {:induction false} ScanIsGreedy(s: string, from: nat)
    requires from <= |s|
    ensures Greedy(s, from, Scan(s, from).0, Scan(s, from).1)
    decreases |s| - from
  {
    if from == |s| {
      assert s[from..] == [];
    } else {
      hide IsOpen, IsCapture, EndFrom;
      if s[from] != '#' {
        ScanIsGreedy(s, from + 1);
        GreedyEarlier(s, from, Scan(s, from + 1).0, Scan(s, from + 1).1);
      } else {
        EndIsFromStart(s, from);
        if EndFrom(s, from, from).Some? {
          var end := EndFrom(s, from, from).value;
          ScanIsGreedy(s, end);
          assert Scan(s, from).0[1..] == Scan(s, end).0;
        }
      }
    }
  }

  lemma GreedyEarlier(s: string, from: nat, spans: seq<Span>, pending: nat)
    requires from < |s| && s[from] != '#'
    requires Greedy(s, from + 1, spans, pending)
    ensures Greedy(s, from, spans, pending)
  {
    hide IsOpen, IsCapture;
  }

  /** A capture goes on for as long as it must and no longer. */
  lemma NotWithin(a: string, b: string)
    requires IsCapture(a) && |a| < |b| && b[..|a|] == a
    ensures !IsCapture(b) && !IsOpen(b)
  {
    OneIsUnended(a);
    hide Ends;
    assert b[..|b| - 1][..|a|] == a;
  }

  lemma SameCapture(s: string, p: Span, q: Span)
    requires p.start == q.start && IsCapture(Slice(s, p)) && IsCapture(Slice(s, q))
    ensures p == q
  {
    var a, b := Slice(s, p), Slice(s, q);
    assert a != [] && b != [];
    hide IsCapture;
    if p.end < q.end {
      assert b[..|a|] == a;
      NotWithin(a, b);
    } else if q.end < p.end {
      assert a[..|b|] == b;
      NotWithin(b, a);
    }
  }

  lemma OpenIsNoCapture(s: string, p: Span)
    requires IsCapture(Slice(s, p))
    ensures p.start < |s| && s[p.start] == '#' && !IsOpen(s[p.start..])
  {
    var a, b := Slice(s, p), s[p.start..];
    assert a != [] && b[..|a|] == a && s[p.start] == a[0];
    if |a| < |b| {
      NotWithin(a, b);
    } else {
      assert a == b && a[..|a|] == a;
      OneIsUnended(a);
      hide Ends;
    }
  }

  lemma OpenStarts(s: string, pending: nat)
    requires pending < |s| && IsOpen(s[pending..])
    ensures s[pending] == '#'
  {
    assert s[pending..][0] == s[pending];
  }

  lemma {:induction false} GreedyBounds(s: string, from: nat, spans: seq<Span>, pending: nat)
    requires Greedy(s, from, spans, pending)
    ensures from <= pending <= |s|
    decreases |spans|
  {
    hide IsOpen, IsCapture;
    if spans != [] {
      GreedyBounds(s, spans[0].end, spans[1..], pending);
    }
  }

  /** Where the first capture, or the unfinished one, begins. */
  function FirstStart(spans: seq<Span>, pending: nat): nat {
    if spans == [] then pending else spans[0].start
  }

  lemma FirstStartIs(s: string, from: nat, spans: seq<Span>, pending: nat)
    requires Greedy(s, from, spans, pending)
    ensures var a := FirstStart(spans, pending);
      && from <= a <= |s| && (forall i | from <= i < a :: s[i] != '#') && (a < |s| ==> s[a] == '#')
      && (spans != [] ==> a < |s|)
  {
    hide IsOpen, IsCapture;
    if spans != [] {
      OpenIsNoCapture(s, spans[0]);
    } else if pending < |s| {
      OpenStarts(s, pending);
    }
  }

  /** Every stream has only one such description. */
  lemma {:induction false} GreedyUnique(s: string, from: nat, spans: seq<Span>, pending: nat,
                                        spans': seq<Span>, pending': nat)
    requires Greedy(s, from, spans, pending) && Greedy(s, from, spans', pending')
    ensures spans == spans' && pending == pending'
    decreases |spans|
  {
    hide IsOpen, IsCapture, Slice;
    FirstStartIs(s, from, spans, pending);
    FirstStartIs(s, from, spans', pending');
    var a, b := FirstStart(spans, pending), FirstStart(spans', pending');
    assert a == b;
    if spans != [] {
      OpenIsNoCapture(s, spans[0]);
    }
    if spans' != [] {
      OpenIsNoCapture(s, spans'[0]);
    }
    if spans != [] && spans' != [] {
      SameCapture(s, spans[0], spans'[0]);
      GreedyUnique(s, spans[0].end, spans[1..], pending, spans'[1..], pending');
      assert spans == [spans[0]] + spans[1..] && spans' == [spans'[0]] + spans'[1..];
    }
  }
}
