/** Cutting the receiver's byte stream into messages (main/rinex_logger.cpp, feed). */
module RinexFeed {
  import opened Common
  import opened RinexText

  const SIZE := 32 * 1024

  /** "#RANGEA," */
  predicate IsRange(m: string) {
    |m| >= 8 && m[..8] == "#RANGEA,"
  }

  /** A '*' among the eleven characters before the last. */
  predicate HasStar(m: string) {
    exists j | |m| - 12 <= j <= |m| - 2 && 0 <= j :: m[j] == '*'
  }

  /** The text is a message, now that its last character is there. */
  predicate Ends(m: string) {
    |m| > 12 && m[|m| - 1] == NEWLINE && HasStar(m)
  }

  /** The reader: between messages, or with `text` read of one; and what it has handed on. */
  datatype Reader = Reader(inside: bool, text: string, out: seq<string>)

  const IDLE := Reader(false, [], [])

  function FeedOne(r: Reader, c: char): Reader {
    if !r.inside then
      if c == '#' then Reader(true, ['#'], r.out) else r
    else if |r.text| >= SIZE - 1 then Reader(false, [], r.out)
    else
      var m := r.text + [c];
      if Ends(m) then Reader(false, [], if IsRange(m) then r.out + [m] else r.out)
      else Reader(true, m, r.out)
  }

  function Feed(r: Reader, s: string): Reader
    decreases |s|
  {
    if s == [] then r else Feed(FeedOne(r, s[0]), s[1..])
  }

  /** The stream may arrive in any pieces. */
  lemma {:induction false} FeedConcat(r: Reader, a: string, b: string)
    ensures Feed(r, a + b) == Feed(Feed(r, a), b)
    decreases |a|
  {
    hide FeedOne;
    if a == [] {
      assert a + b == b;
    } else {
      assert (a + b)[1..] == a[1..] + b;
      FeedConcat(FeedOne(r, a[0]), a[1..], b);
    }
  }

  /** A whole message: it ends where it ends and not before, and the buffer has room for it. */
  predicate Whole(m: string) {
    && 2 <= |m| < SIZE && m[0] == '#' && Ends(m)
    && forall k | 2 <= k < |m| :: !Ends(m[..k])
  }

  predicate Noise(s: string) {
    '#' !in s
  }

  lemma {:induction false} FeedNoise(r: Reader, s: string)
    requires !r.inside && Noise(s)
    ensures Feed(r, s) == r
    decreases |s|
  {
    if s != [] {
      FeedNoise(r, s[1..]);
    }
  }

  lemma {:induction false} FeedMessage(out: seq<string>, m: string, k: nat)
    requires Whole(m) && 1 <= k < |m|
    ensures Feed(Reader(true, m[..k], out), m[k..]) == Reader(false, [], if IsRange(m) then out + [m] else out)
    decreases |m| - k
  {
    hide Ends, IsRange;
    assert m[..k] + [m[k]] == m[..k + 1] && m[k..][1..] == m[k + 1..];
    if k + 1 == |m| {
      assert m[..k + 1] == m && m[k + 1..] == [];
    } else {
      FeedMessage(out, m, k + 1);
    }
  }

  lemma FeedWhole(r: Reader, m: string)
    requires !r.inside && r.text == [] && Whole(m)
    ensures Feed(r, m) == Reader(false, [], if IsRange(m) then r.out + [m] else r.out)
  {
    FeedMessage(r.out, m, 1);
    assert m[..1] == ['#'];
  }

  /** A text ends as a message when its last line feed has a star at most eleven characters before it. */
  lemma EndsIff(m: string)
    ensures Ends(m) <==> |m| > 12 && exists a, b :: |b| <= 10 && m == a + (['*'] + (b + ['\n']))
  {
    if Ends(m) {
      var j :| |m| - 12 <= j <= |m| - 2 && 0 <= j && m[j] == '*';
      var a, b := m[..j], m[j + 1..|m| - 1];
      assert m == a + (['*'] + (b + ['\n']));
    }
    if a, b :| |b| <= 10 && m == a + (['*'] + (b + ['\n'])) {
      assert m[|a|] == '*' && m[|m| - 1] == '\n';
    }
  }

  /** What the receiver sends is one whole message: a line, a star, eight digits of a checksum, and a
      line end, when there is room for it. */
  lemma LineIsWhole(line: string, checksum: string)
    requires '\n' !in line && '\n' !in checksum && |checksum| == 8 && 1 <= |line| <= 32755
    ensures var m := ['#'] + line + ['*'] + checksum + ['\r', '\n'];
      Whole(m) && (IsRange(m) <==> |line| >= 7 && line[..7] == "RANGEA,")
  {
    var m := ['#'] + line + ['*'] + checksum + ['\r', '\n'];
    assert m[|m| - 11] == '*';
    assert forall i | 0 <= i < |m| - 1 :: m[i] != '\n';
    if |line| >= 7 {
      assert m[..8] == ['#'] + line[..7];
      assert "#RANGEA," == ['#'] + "RANGEA,";
      assert m[..8][1..] == line[..7] && "#RANGEA,"[1..] == "RANGEA,";
    } else {
      assert m[..8][1 + |line|] == '*' && "#RANGEA,"[1 + |line|] != '*';
    }
  }

  datatype Piece = Piece(noise: string, message: string)

  function Sent(pieces: seq<Piece>): string {
    if pieces == [] then [] else pieces[0].noise + (pieces[0].message + Sent(pieces[1..]))
  }

  function Ranges(pieces: seq<Piece>): seq<string> {
    if pieces == [] then []
    else (if IsRange(pieces[0].message) then [pieces[0].message] else []) + Ranges(pieces[1..])
  }

  /** Of whole messages, with anything but '#' between them, exactly the RANGEA ones are handed
      on, whole and in order. */
  lemma {:induction false} FeedSent(r: Reader, pieces: seq<Piece>)
    requires !r.inside && r.text == []
    requires forall i | 0 <= i < |pieces| :: Noise(pieces[i].noise) && Whole(pieces[i].message)
    ensures Feed(r, Sent(pieces)) == Reader(false, [], r.out + Ranges(pieces))
    decreases |pieces|
  {
    hide Feed, Whole, Noise, IsRange;
    if pieces == [] {
      FeedNothing(r);
      ConcatEmpty(r.out);
    } else {
      var p, more := pieces[0], pieces[1..];
      FeedConcat(r, p.noise, p.message + Sent(more));
      FeedNoise(r, p.noise);
      FeedConcat(r, p.message, Sent(more));
      FeedWhole(r, p.message);
      var r1 := Feed(r, p.message);
      FeedSent(r1, more);
      ConcatAssoc(r.out, if IsRange(p.message) then [p.message] else [], Ranges(more));
      ConcatEmpty(r.out);
    }
  }

  lemma FeedNothing(r: Reader)
    ensures Feed(r, []) == r
  {
  }

  /** `m` occurs in `s` within s[a..b]. */
  predicate SliceAt(s: string, m: string, a: int, b: int) {
    0 <= a <= b <= |s| && s[a..b] == m
  }

  /** No message ends in the text so far. */
  predicate Unended(text: string) {
    forall k | 2 <= k <= |text| :: !Ends(text[..k])
  }

  /** What is being read is the newest part of the stream, behind `last`. */
  predicate Reading(r: Reader, s: string, last: int) {
    if r.inside then
      && 1 <= |r.text| < SIZE && r.text[0] == '#' && Unended(r.text)
      && SliceAt(s, r.text, |s| - |r.text|, |s|) && last <= |s| - |r.text|
    else
      r.text == [] && last <= |s|
  }

  /** What was handed on are whole RANGEA messages, each a slice of the stream behind the one
      before; the i-th ends at ends[i]. */
  predicate Handed(out: seq<string>, s: string, ends: seq<int>) {
    && |ends| == |out|
    && (forall i | 0 <= i < |ends| ::
          Whole(out[i]) && IsRange(out[i]) && SliceAt(s, out[i], ends[i] - |out[i]|, ends[i]))
    && forall i, k | 0 <= i < k < |ends| :: ends[i] <= ends[k] - |out[k]|
  }

  function LastEnd(ends: seq<int>): int {
    if ends == [] then 0 else ends[|ends| - 1]
  }

  ghost predicate Faithful(r: Reader, s: string, ends: seq<int>) {
    Handed(r.out, s, ends) && Reading(r, s, LastEnd(ends))
  }

  lemma SliceStays(s: string, c: char, m: string, a: int, b: int)
    requires SliceAt(s, m, a, b)
    ensures SliceAt(s + [c], m, a, b)
  {
  }

  lemma SliceGrows(s: string, c: char, m: string, a: int)
    requires SliceAt(s, m, a, |s|)
    ensures SliceAt(s + [c], m + [c], a, |s| + 1)
  {
  }

  lemma HandedStays(out: seq<string>, s: string, ends: seq<int>, c: char)
    requires Handed(out, s, ends)
    ensures Handed(out, s + [c], ends)
  {
    hide Whole, IsRange, SliceAt;
    forall i | 0 <= i < |ends| ensures SliceAt(s + [c], out[i], ends[i] - |out[i]|, ends[i]) {
      SliceStays(s, c, out[i], ends[i] - |out[i]|, ends[i]);
    }
  }

  lemma HandedGrows(out: seq<string>, s: string, ends: seq<int>, m: string)
    requires Handed(out, s, ends) && Whole(m) && IsRange(m)
    requires SliceAt(s, m, |s| - |m|, |s|) && LastEnd(ends) <= |s| - |m|
    requires forall i | 0 <= i < |ends| :: ends[i] <= LastEnd(ends)
    ensures Handed(out + [m], s, ends + [|s|])
  {
    hide Whole, IsRange, SliceAt;
  }

  lemma LastIsLast(out: seq<string>, s: string, ends: seq<int>)
    requires Handed(out, s, ends)
    ensures forall i | 0 <= i < |ends| :: ends[i] <= LastEnd(ends)
  {
    hide Whole, IsRange, SliceAt;
  }

  /** The message that `c` completes, or the text it extends. */
  lemma Grown(text: string, c: char)
    requires 1 <= |text| < SIZE - 1 && text[0] == '#' && Unended(text)
    ensures var m := text + [c]; if Ends(m) then Whole(m) else Unended(m)
  {
    var m := text + [c];
    hide Ends;
    assert forall k | 2 <= k <= |text| :: m[..k] == text[..k];
    assert m[..|m|] == m;
  }

  lemma OneMoreIsFaithful(r: Reader, s: string, ends: seq<int>, c: char) returns (ends': seq<int>)
    requires Faithful(r, s, ends)
    ensures Faithful(FeedOne(r, c), s + [c], ends')
  {
    hide Ends, IsRange, Whole, SliceAt, Handed, Unended;
    ends' := ends;
    HandedStays(r.out, s, ends, c);
    if !r.inside {
      NewSlice(s, c);
    } else if |r.text| < SIZE - 1 {
      SliceGrows(s, c, r.text, |s| - |r.text|);
      Grown(r.text, c);
      var m := r.text + [c];
      if Ends(m) && IsRange(m) {
        LastIsLast(r.out, s, ends);
        HandedGrows(r.out, s + [c], ends, m);
        ends' := ends + [|s| + 1];
      }
    }
  }

  lemma NewSlice(s: string, c: char)
    ensures SliceAt(s + [c], [c], |s|, |s| + 1) && Unended([c])
  {
  }

  lemma {:induction false} FeedIsFaithful(r: Reader, s: string, ends: seq<int>, t: string) returns (ends': seq<int>)
    requires Faithful(r, s, ends)
    ensures Faithful(Feed(r, t), s + t, ends')
    decreases |t|
  {
    hide Faithful, FeedOne;
    ends' := ends;
    if t == [] {
      ConcatEmpty(s);
    } else {
      ends' := OneMoreIsFaithful(r, s, ends, t[0]);
      ends' := FeedIsFaithful(FeedOne(r, t[0]), s + [t[0]], ends', t[1..]);
      assert (s + [t[0]]) + t[1..] == s + t;
    }
  }

  // ------------------------------------------------------------------------- the object

  class RangeReader {
    const buffer: array<char>
    var length: nat
    var inside: bool
    ghost var out: seq<string>

    ghost predicate Valid()
      reads this
    {
      buffer.Length == SIZE && length < SIZE && (!inside ==> length == 0)
    }

    ghost function Abstract(): Reader
      requires Valid()
      reads this, buffer
    {
      Reader(inside, buffer[..length], out)
    }

    constructor ()
      ensures Valid() && Abstract() == IDLE && fresh(buffer)
    {
      buffer := new char[SIZE](_ => '\0');
      length, inside, out := 0, false, [];
    }

    /** The character loop; `handed` are the messages for process_message. */
    method FeedAll(data: string) returns (handed: seq<string>)
      requires Valid()
      modifies this, buffer
      ensures Valid() && Abstract() == Feed(old(Abstract()), data)
      ensures out == old(out) + handed
    {
      hide Feed, FeedOne;
      handed := [];
      assert data[..0] == [];
      FeedNothing(Abstract());
      for i := 0 to |data|
        invariant Valid()
        invariant Abstract() == Feed(old(Abstract()), data[..i]) && out == old(out) + handed
      {
        FeedStep(old(Abstract()), data, i);
        var done, m := FeedChar(data[i]);
        if done {
          handed := handed + [m];
        }
      }
      assert data[..|data|] == data;
    }

    method FeedChar(c: char) returns (done: bool, m: string)
      requires Valid()
      modifies this, buffer
      ensures Valid() && Abstract() == FeedOne(old(Abstract()), c)
      ensures out == if done then old(out) + [m] else old(out)
    {
      done, m := false, [];
      if !inside {
        if c == '#' {
          inside := true;
          length := 1;
          buffer[0] := c;
          assert buffer[..1] == ['#'];
        }
        return;
      }
      if length >= SIZE - 1 {
        inside := false;
        length := 0;
        return;
      }
      ghost var before := buffer[..length];
      buffer[length] := c;
      length := length + 1;
      assert buffer[..length] == before + [c];
      hide HasStar, IsRange;
      var star := false;
      if c == NEWLINE && length > 12 {
        star := FindStar();
      }
      if star {
        m := buffer[..length];
        if IsRange(m) {
          done := true;
          out := out + [m];
        }
        inside := false;
        length := 0;
      }
    }

    method FindStar() returns (found: bool)
      requires Valid() && length > 12
      ensures found == HasStar(buffer[..length])
    {
      var start := length - 12;
      var j := length - 2;
      while j >= start
        invariant start - 1 <= j <= length - 2
        invariant forall k | j < k <= length - 2 :: buffer[k] != '*'
      {
        if buffer[j] == '*' {
          assert buffer[..length][j] == '*';
          return true;
        }
        j := j - 1;
      }
      return false;
    }
  }

  lemma FeedStep(r: Reader, data: string, i: nat)
    requires i < |data|
    ensures Feed(r, data[..i + 1]) == FeedOne(Feed(r, data[..i]), data[i])
  {
    assert data[..i + 1] == data[..i] + [data[i]];
    FeedConcat(r, data[..i], [data[i]]);
    FeedSingle(Feed(r, data[..i]), data[i]);
  }

  lemma FeedSingle(r: Reader, c: char)
    ensures Feed(r, [c]) == FeedOne(r, c)
  {
    hide FeedOne;
    FeedNothing(FeedOne(r, c));
  }
}
