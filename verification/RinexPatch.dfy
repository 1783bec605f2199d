/** What in-place patching leaves of a file, and when it is the file rendered at once. */
module RinexPatch {
  import opened Common
  import opened RinexText
  import opened RinexSat
  import opened GpsTime
  import opened RinexFile

  /** From the patched line on: what is there after the epochs were written one by one, each
      appended and its time put over whatever the line held. */
  function Patchwork(epochs: seq<Epoch>): string
    requires epochs != []
    decreases |epochs|
  {
    var n := |epochs| - 1;
    var line := TimeLine(epochs[n].time);
    if n == 0 then line + Tail(epochs)
    else Overwrite(Patchwork(epochs[..n]) + Unlines(EpochLines(epochs[n])), 0, line)
  }

  /** The file that the logger leaves for a document. */
  function FileText(doc: Doc): string
    requires doc.epochs != []
  {
    Head(doc) + Patchwork(doc.epochs)
  }

  function Width(e: Epoch): nat {
    |TimeText(e.time.stamp)|
  }

  /** The last time is as wide as the first and none is wider. */
  predicate Steady(epochs: seq<Epoch>)
    requires epochs != []
  {
    && Width(epochs[|epochs| - 1]) == Width(epochs[0])
    && forall e | e in epochs :: Width(e) <= Width(epochs[0])
  }

  function Widest(epochs: seq<Epoch>): nat
    decreases |epochs|
  {
    if epochs == [] then 0
    else
      var n := |epochs| - 1;
      var m := Widest(epochs[..n]);
      if Width(epochs[n]) > m then Width(epochs[n]) else m
  }

  lemma {:induction false} WidestIs(epochs: seq<Epoch>, m: nat)
    ensures Widest(epochs) <= m <==> forall e | e in epochs :: Width(e) <= m
    decreases |epochs|
  {
    hide Width;
    if epochs != [] {
      var n := |epochs| - 1;
      WidestIs(epochs[..n], m);
      assert epochs == epochs[..n] + [epochs[n]];
    }
  }

  /** Behind the line there is room for any other: sixty blanks and more. */
  lemma TailStarts(epochs: seq<Epoch>)
    ensures |Tail(epochs)| >= 78 && forall k | 0 <= k < 60 :: Tail(epochs)[k] == ' '
  {
    var more := Unlines(Body(epochs));
    assert Tail(epochs) == EndLine() + ([NEWLINE] + more) by {
      assert ([EndLine()] + Body(epochs))[1..] == Body(epochs);
    }
    assert |EndLine()| == 77;
    hide Tail, Body, Unlines;
  }

  /** A text after some patches at its front: `was` is what it would be without them, `line` the
      last patch, `m` the length of the longest. */
  predicate IsPatched(z: string, was: string, line: string, m: nat) {
    && |z| == |was| && |line| <= |z| && z[..|line|] == line
    && 0 < m <= |z| && z[m..] == was[m..] && z[m - 1] == NEWLINE
  }

  /** One more patch at the front of a text that has just grown. */
  lemma PatchInFront(z: string, was: string, text: string, before: string, line: string, m: nat)
    requires IsPatched(z, was, before, m)
    requires 0 < |line| <= |z| && line[|line| - 1] == NEWLINE
    ensures IsPatched(Overwrite(z + text, 0, line), was + text, line, if |line| > m then |line| else m)
  {
    var y := z + text;
    var r := Overwrite(y, 0, line);
    assert r == line + y[|line|..];
    hide Overwrite;
    var longest := if |line| > m then |line| else m;
    SameBehind(z, was, text, m, longest);
    assert r[longest..] == y[longest..];
  }

  lemma SameBehind(z: string, was: string, text: string, m: nat, k: nat)
    requires |z| == |was| && m <= k <= |z| && z[m..] == was[m..]
    ensures (z + text)[k..] == (was + text)[k..]
    ensures k > m ==> (z + text)[k - 1] == (was + text)[k - 1]
  {
    assert forall i | m <= i < |z| :: z[i] == z[m..][i - m] && was[i] == was[m..][i - m];
  }

  /** A text of a line and blanks, and more, shows every patch that was longer than the line. */
  lemma PatchedIff(z: string, first: string, line: string, tail: string, m: nat)
    requires IsPatched(z, first + tail, line, m) && |first| <= m <= |first| + 60
    requires |tail| >= 60 && forall k | 0 <= k < 60 :: tail[k] == ' '
    ensures z == line + tail <==> |line| == |first| && m == |first|
  {
    if |line| == |first| && m == |first| {
      assert z == z[..m] + z[m..];
      assert (first + tail)[m..] == tail;
    }
    if z == line + tail && m > |first| {
      assert |line| == |first|;
      BlankAt(line, tail, m);
    }
  }

  lemma BlankAt(line: string, tail: string, m: nat)
    requires |tail| >= 60 && forall k | 0 <= k < 60 :: tail[k] == ' '
    requires |line| < m <= |line| + 60
    ensures (line + tail)[m - 1] == ' '
  {
  }

  lemma LineEnds(t: Time)
    ensures 77 <= |TimeLine(t)| <= 82 && TimeLine(t)[|TimeLine(t)| - 1] == NEWLINE
  {
    TimeWidth(t);
    TimeLineWidth(t);
    hide TimeText, LastLine;
  }

  predicate Is(z: string, epochs: seq<Epoch>)
    requires epochs != []
  {
    IsPatched(z, TimeLine(epochs[0].time) + Tail(epochs), TimeLine(epochs[|epochs| - 1].time), Widest(epochs) + 34)
  }

  lemma FirstIs(e: Epoch)
    ensures Is(Patchwork([e]), [e])
  {
    LineEnds(e.time);
    TimeLineWidth(e.time);
    assert [e][..0] == [];
    assert Widest([e]) == Width(e);
    hide TimeLine, Tail, TimeText;
  }

  lemma WidestNext(epochs: seq<Epoch>, e: Epoch)
    ensures Widest(epochs + [e]) == if Width(e) > Widest(epochs) then Width(e) else Widest(epochs)
  {
    hide Width;
    assert (epochs + [e])[..|epochs|] == epochs;
  }

  lemma NextIs(z: string, epochs: seq<Epoch>, e: Epoch)
    requires epochs != [] && Is(z, epochs)
    ensures Is(Overwrite(z + Unlines(EpochLines(e)), 0, TimeLine(e.time)), epochs + [e])
  {
    hide TimeLine, Tail, TimeText, EpochLines, Unlines, Overwrite, Widest, IsPatched;
    var line, text := TimeLine(e.time), Unlines(EpochLines(e));
    var first, tail, before := TimeLine(epochs[0].time), Tail(epochs), TimeLine(epochs[|epochs| - 1].time);
    LineEnds(e.time);
    LineEnds(epochs[0].time);
    TailStarts(epochs);
    TimeLineWidth(e.time);
    WidestNext(epochs, e);
    PatchedLength(z, first + tail, before, Widest(epochs) + 34);
    PatchInFront(z, first + tail, text, before, line, Widest(epochs) + 34);
    TailExtends(epochs, e);
    ConcatAssoc(first, tail, text);
    assert (epochs + [e])[0] == epochs[0] && (epochs + [e])[|epochs|] == e;
  }

  lemma PatchedLength(z: string, was: string, line: string, m: nat)
    requires IsPatched(z, was, line, m)
    ensures |z| == |was|
  {
  }

  lemma {:induction false} PatchworkIs(epochs: seq<Epoch>)
    requires epochs != []
    ensures Is(Patchwork(epochs), epochs)
    decreases |epochs|
  {
    var n := |epochs| - 1;
    assert epochs == epochs[..n] + [epochs[n]];
    if n == 0 {
      hide Patchwork, Is;
      FirstIs(epochs[0]);
    } else {
      PatchworkIs(epochs[..n]);
      hide Is, Overwrite;
      NextIs(Patchwork(epochs[..n]), epochs[..n], epochs[n]);
    }
  }

  /** In-place patching refines plain rendering, exactly: the file the logger leaves is the one
      rendered at once if and only if the last time is as wide as the first and none is wider. */
  lemma RenderedIff(doc: Doc)
    requires doc.epochs != []
    ensures FileText(doc) == Render(doc) <==> Steady(doc.epochs)
  {
    hide *;
    var epochs := doc.epochs;
    var z, n := Patchwork(epochs), |epochs| - 1;
    var line, tail := TimeLine(epochs[n].time), Tail(epochs);
    RenderIs(doc);
    FileTextIs(doc);
    PatchworkIff(epochs);
    if FileText(doc) == Render(doc) {
      SplitEqual(Head(doc), z, Head(doc), line + tail);
    }
  }

  lemma FileTextIs(doc: Doc)
    requires doc.epochs != []
    ensures FileText(doc) == Head(doc) + Patchwork(doc.epochs)
    ensures doc.Last() == doc.epochs[|doc.epochs| - 1].time
  {
    hide Head, Patchwork;
  }

  lemma PatchworkIff(epochs: seq<Epoch>)
    requires epochs != []
    ensures Patchwork(epochs) == TimeLine(epochs[|epochs| - 1].time) + Tail(epochs) <==> Steady(epochs)
  {
    hide Patchwork, Tail, TimeLine, TimeText, Widest, IsPatched;
    var z, n := Patchwork(epochs), |epochs| - 1;
    var first, line, tail := TimeLine(epochs[0].time), TimeLine(epochs[n].time), Tail(epochs);
    PatchworkIs(epochs);
    TimeLineWidth(epochs[0].time);
    TimeLineWidth(epochs[n].time);
    WidestIs(epochs, Width(epochs[0]));
    WidestBound(epochs);
    TailStarts(epochs);
    PatchedIff(z, first, line, tail, Widest(epochs) + 34);
  }

  /** It is whenever every year fits its six columns. */
  lemma NarrowIsSteady(epochs: seq<Epoch>)
    requires epochs != [] && forall e | e in epochs :: Narrow(e.time.stamp)
    ensures Steady(epochs)
  {
    hide TimeText, Narrow;
    forall e | e in epochs ensures Width(e) == 43 {
      TimeWidth(e.time);
    }
  }

  lemma {:induction false} WidestBound(epochs: seq<Epoch>)
    requires epochs != []
    ensures Widest(epochs) <= 48 && Width(epochs[0]) <= Widest(epochs) && Width(epochs[0]) >= 43
    decreases |epochs|
  {
    hide TimeText;
    var n := |epochs| - 1;
    TimeWidth(epochs[n].time);
    if n > 0 {
      WidestBound(epochs[..n]);
    }
  }

  // ------------------------------------------------------------------- the open file

  /** The open file is the one left for `doc`, and is appended to at its end. */
  ghost predicate Holds(o: Open, doc: Doc) {
    && doc.epochs != [] && o.bytes == FileText(doc) && o.pos == |o.bytes|
    && o.mask == doc.mask && o.first == doc.First() && o.last == doc.Last()
    && o.lastPos == |Head(doc)| && o.lastPos > 0
    && o.epochs == |doc.epochs|
  }

  lemma OverwriteBehind(a: string, z: string, s: string)
    ensures Overwrite(a + z, |a|, s) == a + Overwrite(z, 0, s)
  {
    var r := Overwrite(a + z, |a|, s);
    assert (a + z)[..|a|] == a;
    if |s| <= |z| {
      assert (a + z)[|a| + |s|..] == z[|s|..];
    }
    assert a + (s + (if |s| <= |z| then z[|s|..] else [])) == (a + s) + (if |s| <= |z| then z[|s|..] else []);
  }

  /** One more epoch: the bytes. */
  lemma WrittenBytes(doc: Doc, e: Epoch)
    requires doc.epochs != [] && |Head(doc)| > 0
    ensures var doc' := doc.(epochs := doc.epochs + [e]);
      && Patched(FileText(doc) + Unlines(EpochLines(e)), |Head(doc)|, e.time) == FileText(doc')
      && |FileText(doc')| == |FileText(doc)| + |Unlines(EpochLines(e))|
  {
    var doc', text := doc.(epochs := doc.epochs + [e]), Unlines(EpochLines(e));
    assert doc'.epochs[..|doc.epochs|] == doc.epochs;
    assert Patchwork(doc'.epochs) == Overwrite(Patchwork(doc.epochs) + text, 0, TimeLine(e.time));
    HeadSame(doc, e);
    PatchworkIs(doc.epochs);
    PatchworkIs(doc'.epochs);
    TailExtends(doc.epochs, e);
    hide Head, Tail, TimeLine, Patchwork, EpochLines, Unlines, Overwrite;
    ConcatAssoc(Head(doc), Patchwork(doc.epochs), text);
    OverwriteBehind(Head(doc), Patchwork(doc.epochs) + text, TimeLine(e.time));
  }

  /** An epoch appended and the header patched, whatever the two times. */
  lemma WrittenHolds(o: Open, doc: Doc, t: Time, sats: seq<Sat>)
    requires Holds(o, doc)
    ensures var rows := Chosen(sats, o.mask);
      Holds(Written(o, t, sats), if rows == [] then doc else doc.(epochs := doc.epochs + [Epoch(t, rows)]))
  {
    hide Chosen, Written, FileText, Head, EpochLines, Unlines, Patched;
    WrittenIs(o, t, sats);
    var rows := Chosen(sats, o.mask);
    if rows != [] {
      HeadSame(doc, Epoch(t, rows));
      WrittenBytes(doc, Epoch(t, rows));
    }
  }

  /** From a file that is the rendering, a further epoch leaves the rendering exactly when its time
      is as wide as the one before; a longer one overwrites the line below. */
  lemma WrittenIff(o: Open, doc: Doc, t: Time, sats: seq<Sat>)
    requires Holds(o, doc) && o.bytes == Render(doc) && Chosen(sats, o.mask) != []
    ensures Written(o, t, sats).bytes == Render(doc.(epochs := doc.epochs + [Epoch(t, Chosen(sats, o.mask))]))
      <==> |TimeText(doc.Last().stamp)| == |TimeText(t.stamp)|
  {
    var e := Epoch(t, Chosen(sats, o.mask));
    var doc' := doc.(epochs := doc.epochs + [e]);
    WrittenHolds(o, doc, t, sats);
    RenderedIff(doc);
    RenderedIff(doc');
    hide Chosen, Written, FileText, Head, Render, TimeText;
    SteadyGrows(doc.epochs, e);
  }

  lemma SteadyGrows(epochs: seq<Epoch>, e: Epoch)
    requires epochs != [] && Steady(epochs)
    ensures Steady(epochs + [e]) <==> Width(epochs[|epochs| - 1]) == Width(e)
  {
    hide Width;
    var all := epochs + [e];
    assert all[0] == epochs[0] && all[|epochs|] == e && e in all;
  }

  /** Closing patches again with the same time, so it changes nothing. */
  lemma ClosedHolds(o: Open, doc: Doc)
    requires Holds(o, doc)
    ensures Closed(o) == FileText(doc)
  {
    hide Head, TimeLine, Patchwork, Overwrite;
    FileTextIs(doc);
    OverwriteBehind(Head(doc), Patchwork(doc.epochs), TimeLine(doc.Last()));
    PatchedAgain(doc.epochs);
  }

  lemma PatchedAgain(epochs: seq<Epoch>)
    requires epochs != []
    ensures var z := Patchwork(epochs); Overwrite(z, 0, TimeLine(epochs[|epochs| - 1].time)) == z
  {
    hide TimeLine, Patchwork, Tail, Widest, Overwrite;
    PatchworkIs(epochs);
    var z, line := Patchwork(epochs), TimeLine(epochs[|epochs| - 1].time);
    assert z == z[..|line|] + z[|line|..];
    OverwriteSame(line, z[|line|..]);
  }

  lemma OpenedIs(doc: Doc, e: Epoch)
    requires doc.epochs == [e]
    ensures var o := Opened(doc.station, e.time, doc.mask);
      && o.bytes == Head(doc) + (TimeLine(e.time) + Tail([])) && o.lastPos == |Head(doc)| && o.lastPos > 0
      && o.pos == |o.bytes| && o.first == e.time && o.mask == doc.mask && o.epochs == 0
  {
    assert Tail([]) == EndLine() + [NEWLINE] by {
      UnlinesOne(EndLine());
      ConcatEmpty([EndLine()]);
    }
    HeadIsNotEmpty(doc);
    hide TimeLine, Unlines, EndLine, Before, Tail;
  }

  /** A new file and its first epoch. */
  lemma OpenedHolds(station: Station, t: Time, sats: seq<Sat>)
    requires Chosen(sats, Mask(sats)) != []
    ensures Opened(station, t, Mask(sats)).pos <= |Opened(station, t, Mask(sats)).bytes|
    ensures Holds(Written(Opened(station, t, Mask(sats)), t, sats),
                  Doc(station, Mask(sats), [Epoch(t, Chosen(sats, Mask(sats)))]))
  {
    var mask := Mask(sats);
    var e := Epoch(t, Chosen(sats, mask));
    var doc := Doc(station, mask, [e]);
    var o := Opened(station, t, mask);
    hide Opened, Chosen, Mask, Written, FileText, Head, Tail, TimeLine, EpochLines, Unlines, Patched;
    OpenedIs(doc, e);
    WrittenIs(o, t, sats);
    OpenedBytes(o.bytes, doc, e);
  }

  lemma OpenedBytes(bytes: string, doc: Doc, e: Epoch)
    requires doc.epochs == [e] && bytes == Head(doc) + (TimeLine(e.time) + Tail([])) && |Head(doc)| > 0
    ensures Patched(bytes + Unlines(EpochLines(e)), |Head(doc)|, e.time) == FileText(doc)
    ensures |FileText(doc)| == |bytes| + |Unlines(EpochLines(e))|
  {
    var line, text := TimeLine(e.time), Unlines(EpochLines(e));
    assert Patchwork([e]) == line + Tail([e]);
    hide Head, TimeLine, Tail, Patchwork, EpochLines, Unlines, Overwrite;
    TailExtends([], e);
    ConcatEmpty([e]);
    ConcatAssoc(line, Tail([]), text);
    ConcatAssoc(Head(doc), line + Tail([]), text);
    OverwriteBehind(Head(doc), line + Tail([e]), line);
    OverwriteSame(line, Tail([e]));
  }

  lemma OverwriteSame(line: string, tail: string)
    ensures Overwrite(line + tail, 0, line) == line + tail
  {
    assert (line + tail)[|line|..] == tail;
  }
}
