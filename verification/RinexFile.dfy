/** The files of main/rinex_logger.cpp: what is printed, and how the header is patched in place.

    A file is given as a document, which is rendered at once, and as the bytes the program writes:
    the header, each epoch behind the last, and the time of the newest one over a line of the header.
    Every line is built as the program's format strings build it, column by column (RINEX 3.03,
    appendix tables A2 and A3). */
module RinexFile {
  import opened Common
  import opened RinexText
  import opened RinexSat
  import opened GpsTime

  // --------------------------------------------------------------------------- lines

  /** %w.7f of a whole number of seconds */
  function Seconds(s: nat, w: nat): string {
    PadLeft(Decimal(s) + ".0000000", w)
  }

  /** %wd for each number */
  function Fields(ns: seq<int>, w: nat): string {
    if ns == [] then [] else D(ns[0], w) + Fields(ns[1..], w)
  }

  function TimeText(st: Stamp): string {
    D(st.year, 6) + (Fields([st.month, st.day, st.hour, st.minute], 6) + Seconds(st.second, 13))
  }

  function FirstLine(st: Stamp): string {
    TimeText(st) + "     GPS         TIME OF FIRST OBS"
  }

  function LastLine(st: Stamp): string {
    TimeText(st) + "     GPS         TIME OF LAST OBS"
  }

  /** The year fits its six columns. */
  predicate Narrow(st: Stamp) {
    -99999 <= st.year <= 999999
  }

  lemma SmallInt(n: nat)
    requires n < 1000
    ensures |D(n, 6)| == 6
  {
    assert Pow10(4) == 10000;
    DecimalWidth(n, 4);
  }

  lemma YearWidth(year: int)
    ensures |D(year, 6)| == 6 <==> -99999 <= year <= 999999
    ensures |D(year, 6)| >= 6
    ensures -9_999_999_999 <= year <= 99_999_999_999 ==> |D(year, 6)| <= 11
  {
    assert Pow10(5) == 100000 && Pow10(6) == 1000000 by {
      assert Pow10(3) == 1000;
    }
    assert Pow10(10) == 10_000_000_000 && Pow10(11) == 100_000_000_000 by {
      assert Pow10(8) == 100_000_000;
    }
    DecimalWidth(if year < 0 then -year else year, if year < 0 then 10 else 11);
    if year < 0 {
      DecimalWidth(-year, 5);
    } else {
      DecimalWidth(year, 6);
    }
    hide Decimal, Pow10;
  }

  /** The time takes 43 columns exactly when its year fits, and never more than 48. */
  lemma TimeWidth(t: Time)
    ensures 43 <= |TimeText(t.stamp)| <= 48
    ensures |TimeText(t.stamp)| == 43 <==> Narrow(t.stamp)
  {
    hide Decimal, D, Fields;
    var st := t.stamp;
    FieldsWidth([st.month, st.day, st.hour, st.minute]);
    YearWidth(st.year);
    assert Pow10(2) == 100;
    DecimalWidth(st.second, 2);
  }

  lemma {:induction false} FieldsWidth(ns: seq<int>)
    requires forall i | 0 <= i < |ns| :: 0 <= ns[i] < 1000
    ensures |Fields(ns, 6)| == 6 * |ns|
    decreases |ns|
  {
    hide D;
    if ns != [] {
      SmallInt(ns[0]);
      FieldsWidth(ns[1..]);
    }
  }

  datatype Station = Station(model: string, radome: string, x: int, y: int, z: int, deltaH: int)

  function Centred(a: string, b: string, c: string, name: string): string {
    PadRight(a, 20) + (PadRight(b, 20) + (PadRight(c, 20) + name))
  }

  function RunDate(st: Stamp): string {
    Cut(D0(st.year, 4) + (D0(st.month, 2) + (D0(st.day, 2) + ([' '] + (D0(st.hour, 2) + (D0(st.minute, 2)
      + (D0(st.second, 2) + " UTC")))))), 20)
  }

  /** The antenna as the header has it: sixteen columns of model and four of radome. */
  function AntennaText(s: Station): string {
    PadRight(Cut(s.model, 16), 16) + PadRight(Cut(s.radome, 4), 4)
  }

  function AntennaLine(s: Station): string {
    Centred("0000", AntennaText(s), "", "ANT # / TYPE     ")
  }

  function Metres(a: int, b: int, c: int): string {
    Fixed(a, 4, 14) + (Fixed(b, 4, 14) + Fixed(c, 4, 14))
  }

  function SysLine(d: SystemDef): string {
    PadRight([d.code] + ("  " + (D(d.nobs, 3) + (" " + ObsTypes(d.sys)))), 60) + "SYS / # / OBS TYPES"
  }

  function SysLines(mask: set<nat>, i: nat): seq<string>
    requires i <= |SYSTEMS|
    decreases |SYSTEMS| - i
  {
    if i == |SYSTEMS| then []
    else (if SYSTEMS[i].sys in mask then [SysLine(SYSTEMS[i])] else []) + SysLines(mask, i + 1)
  }

  /** The lines before the constellations. */
  function OpeningLine(s: Station, first: Stamp, k: nat): string {
    if k == 0 then Centred("     3.03", "OBSERVATION DATA", "M", "RINEX VERSION / TYPE")
    else if k == 1 then Centred("GPS_BASE", "ESP32_RTK", RunDate(first), "PGM / RUN BY / DATE")
    else if k == 2 then PadRight("GPS_BASE_STATION", 60) + "MARKER NAME      "
    else if k == 3 then PadRight("GEODETIC", 60) + "MARKER TYPE      "
    else if k == 4 then PadRight("UNKNOWN", 20) + (PadRight("UNKNOWN", 40) + "OBSERVER / AGENCY")
    else if k == 5 then Centred("0000", "UM980", "UNICORE", "REC # / TYPE / VERS")
    else if k == 6 then AntennaLine(s)
    else if k == 7 then Metres(s.x, s.y, s.z) + "                  APPROX POSITION XYZ"
    else Metres(s.deltaH, 0, 0) + "                  ANTENNA: DELTA H/E/N"
  }

  function Opening(s: Station, first: Stamp): (ls: seq<string>)
    ensures |ls| == 9 && forall k | 0 <= k < 9 :: ls[k] == OpeningLine(s, first, k)
  {
    seq(9, k requires 0 <= k < 9 => OpeningLine(s, first, k))
  }

  function IntervalLine(): string {
    "    30.000" + (Repeat(' ', 50) + "INTERVAL")
  }

  function EndLine(): string {
    Repeat(' ', 60) + "END OF HEADER    "
  }

  /** The header up to the line that is patched later. */
  function Before(s: Station, mask: set<nat>, first: Stamp): seq<string> {
    Opening(s, first) + (SysLines(mask, 0) + [IntervalLine(), FirstLine(first)])
  }

  /** One value of a row: %14.3f and two columns for flags. */
  function Value(v: int): string {
    Fixed(v, 3, 14) + "  "
  }

  function CellText(c: Cell): string {
    match c.obs
    case None => Repeat(' ', 64)
    case Some(o) => Value(o.pseudorange) + (Value(o.carrierPhase) + (Value(o.doppler) + Value(o.cn0)))
  }

  function CellsText(cells: seq<Cell>): string {
    if cells == [] then [] else CellText(cells[0]) + CellsText(cells[1..])
  }

  /** The bands of a row that its constellation declares. */
  function Declared(sat: Sat): seq<Cell> {
    match FindSystem(sat.key.sys)
    case None => []
    case Some(d) => if Bands(d) <= |sat.cells| then sat.cells[..Bands(d)] else sat.cells
  }

  function IdOf(sat: Sat): string {
    match FormatSatId(sat.key.sys, sat.key.prn)
    case None => []
    case Some(id) => id
  }

  function RowLine(sat: Sat): string {
    IdOf(sat) + CellsText(Declared(sat))
  }

  function RowLines(rows: seq<Sat>): (ls: seq<string>)
    ensures |ls| == |rows|
  {
    if rows == [] then [] else [RowLine(rows[0])] + RowLines(rows[1..])
  }

  datatype Epoch = Epoch(time: Time, rows: seq<Sat>)

  function EpochTime(st: Stamp): string {
    D(st.year, 4) + (Fields([st.month, st.day, st.hour, st.minute], 3) + Seconds(st.second, 11))
  }

  function EpochLine(e: Epoch): string {
    "> " + (EpochTime(e.time.stamp) + ("  0" + D(|e.rows|, 3)))
  }

  function EpochLines(e: Epoch): seq<string> {
    [EpochLine(e)] + RowLines(e.rows)
  }

  function Body(epochs: seq<Epoch>): seq<string>
    decreases |epochs|
  {
    if epochs == [] then [] else Body(epochs[..|epochs| - 1]) + EpochLines(epochs[|epochs| - 1])
  }

  /** What a file is meant to hold. */
  datatype Doc = Doc(station: Station, mask: set<nat>, epochs: seq<Epoch>) {
    function First(): Time
      requires epochs != []
    {
      epochs[0].time
    }

    function Last(): Time
      requires epochs != []
    {
      epochs[|epochs| - 1].time
    }
  }

  function DocLines(doc: Doc, last: Time): seq<string>
    requires doc.epochs != []
  {
    Before(doc.station, doc.mask, doc.First().stamp) + ([LastLine(last.stamp)] + ([EndLine()] + Body(doc.epochs)))
  }

  /** The file rendered at once: the header with the newest epoch's time in it, and the epochs. */
  function Render(doc: Doc): string
    requires doc.epochs != []
  {
    Unlines(DocLines(doc, doc.Last()))
  }

  // --------------------------------------------------------------- the file being written

  /** What a write at `pos` leaves: it replaces what is there and extends the file if need be. */
  function Overwrite(bytes: string, pos: nat, s: string): (r: string)
    requires pos <= |bytes|
    ensures |r| == if pos + |s| <= |bytes| then |bytes| else pos + |s|
  {
    bytes[..pos] + s + (if pos + |s| <= |bytes| then bytes[pos + |s|..] else [])
  }

  lemma OverwriteAtEnd(bytes: string, s: string)
    ensures Overwrite(bytes, |bytes|, s) == bytes + s
  {
  }

  /** Replacing a part of the file in place gives the file with that part replaced exactly when
      the new part is as long as the old one. */
  lemma OverwriteMiddle(a: string, was: string, now: string, tail: string)
    requires |now| <= |was| || |tail| > 0
    ensures Overwrite(a + (was + tail), |a|, now) == a + (now + tail) <==> |was| == |now|
  {
    var bytes := a + (was + tail);
    var r := Overwrite(bytes, |a|, now);
    if |was| == |now| {
      assert bytes[..|a|] == a;
      assert bytes[|a| + |now|..] == tail;
      assert (a + now) + tail == a + (now + tail);
    }
  }

  datatype Open = Open(
    bytes: string, pos: nat, first: Time, mask: set<nat>, lastPos: nat, last: Time, epochs: nat)

  function Mask(sats: seq<Sat>): set<nat> {
    set s | s in sats && FindSystem(s.key.sys).Some? :: s.key.sys
  }

  /** The satellites an epoch is written for. */
  function Chosen(sats: seq<Sat>, mask: set<nat>): (rows: seq<Sat>)
    ensures |rows| <= |sats|
    decreases |sats|
  {
    if sats == [] then []
    else
      var s := sats[|sats| - 1];
      Chosen(sats[..|sats| - 1], mask)
      + if s.key.sys in mask && FormatSatId(s.key.sys, s.key.prn).Some? then [s] else []
  }

  /** open_file and write_header */
  function Opened(station: Station, t: Time, mask: set<nat>): Open {
    var before := Unlines(Before(station, mask, t.stamp));
    var bytes := before + (TimeLine(t) + (EndLine() + [NEWLINE]));
    Open(bytes, |bytes|, t, mask, |before|, t, 0)
  }

  /** The patch of the header, when there is a place for it. */
  function Patched(bytes: string, lastPos: nat, t: Time): string {
    if 0 < lastPos <= |bytes| then Overwrite(bytes, lastPos, TimeLine(t)) else bytes
  }

  /** write_epoch */
  function Written(o: Open, t: Time, sats: seq<Sat>): Open
    requires o.pos <= |o.bytes|
  {
    var rows := Chosen(sats, o.mask);
    if rows == [] then o
    else
      var text := Unlines(EpochLines(Epoch(t, rows)));
      var bytes := Overwrite(o.bytes, o.pos, text);
      o.(bytes := Patched(bytes, o.lastPos, t), pos := o.pos + |text|, last := t, epochs := o.epochs + 1)
  }

  /** What close_file leaves on the card. */
  function Closed(o: Open): string {
    Patched(o.bytes, o.lastPos, o.last)
  }

  // ------------------------------------------------------ patching refines plain rendering

  /** The file up to the line that is patched, that line, and the rest of the file. */
  function Head(doc: Doc): string
    requires doc.epochs != []
  {
    Unlines(Before(doc.station, doc.mask, doc.First().stamp))
  }

  function TimeLine(t: Time): string {
    LastLine(t.stamp) + [NEWLINE]
  }

  function Tail(epochs: seq<Epoch>): string {
    Unlines([EndLine()] + Body(epochs))
  }

  lemma RenderParts(doc: Doc, last: Time)
    requires doc.epochs != []
    ensures Unlines(DocLines(doc, last)) == Head(doc) + (TimeLine(last) + Tail(doc.epochs))
  {
    var before := Before(doc.station, doc.mask, doc.First().stamp);
    var line, tail := LastLine(last.stamp), [EndLine()] + Body(doc.epochs);
    hide Before, LastLine, EndLine, Body;
    UnlinesConcat(before, [line] + tail);
    UnlinesConcat([line], tail);
    UnlinesOne(line);
  }

  lemma TailExtends(epochs: seq<Epoch>, e: Epoch)
    ensures Tail(epochs + [e]) == Tail(epochs) + Unlines(EpochLines(e))
    ensures |Tail(epochs)| > 0
  {
    assert (epochs + [e])[..|epochs|] == epochs;
    var b, x := Body(epochs), EpochLines(e);
    hide EndLine, EpochLines, Body;
    ConcatAssoc([EndLine()], b, x);
    UnlinesConcat([EndLine()] + b, x);
    TailIsNotEmpty(epochs);
  }

  lemma TailIsNotEmpty(epochs: seq<Epoch>)
    ensures |Tail(epochs)| > 0
  {
    hide EndLine, Body;
  }

  /** Patching the header of a rendering gives the rendering with the new time in it exactly when
      the two lines are equally wide. */
  lemma PatchIffSameWidth(doc: Doc, last: Time, t: Time)
    requires doc.epochs != []
    ensures |Head(doc)| <= |Unlines(DocLines(doc, last))|
    ensures Overwrite(Unlines(DocLines(doc, last)), |Head(doc)|, TimeLine(t)) == Unlines(DocLines(doc, t))
      <==> |TimeText(last.stamp)| == |TimeText(t.stamp)|
  {
    assert |TimeLine(last)| - |TimeText(last.stamp)| == |TimeLine(t)| - |TimeText(t.stamp)|;
    hide *;
    RenderParts(doc, last);
    RenderParts(doc, t);
    TailIsNotEmpty(doc.epochs);
    OverwriteMiddle(Head(doc), TimeLine(last), TimeLine(t), Tail(doc.epochs));
  }

  lemma HeadIsNotEmpty(doc: Doc)
    requires doc.epochs != []
    ensures |Head(doc)| > 0
  {
    hide Opening, SysLines, FirstLine, IntervalLine;
  }

  lemma HeadSame(doc: Doc, e: Epoch)
    requires doc.epochs != []
    ensures Head(doc.(epochs := doc.epochs + [e])) == Head(doc)
  {
    hide Before, Unlines;
  }

  lemma TimeLineWidth(t: Time)
    ensures |TimeLine(t)| == |TimeText(t.stamp)| + 34
  {
    hide TimeText;
  }

  lemma RenderIs(doc: Doc)
    requires doc.epochs != []
    ensures Render(doc) == Head(doc) + (TimeLine(doc.Last()) + Tail(doc.epochs))
  {
    hide Head, TimeLine, Tail, DocLines;
    RenderParts(doc, doc.Last());
  }

  lemma WrittenIs(o: Open, t: Time, sats: seq<Sat>)
    requires o.pos == |o.bytes|
    ensures var rows, w := Chosen(sats, o.mask), Written(o, t, sats);
      if rows == [] then w == o
      else
        var text := Unlines(EpochLines(Epoch(t, rows)));
        && w.bytes == Patched(o.bytes + text, o.lastPos, t) && w.pos == o.pos + |text|
        && w.first == o.first && w.mask == o.mask && w.lastPos == o.lastPos
        && w.last == t && w.epochs == o.epochs + 1
  {
    hide Chosen, EpochLines, Unlines, Patched;
    OverwriteAtEnd(o.bytes, Unlines(EpochLines(Epoch(t, Chosen(sats, o.mask)))));
    hide Overwrite;
  }

  // -------------------------------------------------------------------- columns of a row

  /** The value fits the fourteen columns it is printed in. */
  predicate FitsColumns(v: int) {
    |Point(v, 3)| <= 14
  }

  predicate CellFits(c: Cell) {
    match c.obs
    case None => true
    case Some(o) =>
      FitsColumns(o.pseudorange) && FitsColumns(o.carrierPhase) && FitsColumns(o.doppler) && FitsColumns(o.cn0)
  }

  lemma CellWidth(c: Cell)
    requires CellFits(c)
    ensures |CellText(c)| == 64
  {
    hide Point;
  }

  lemma {:induction false} CellColumns(cells: seq<Cell>, b: nat)
    requires b < |cells| && forall i | 0 <= i < |cells| :: CellFits(cells[i])
    ensures |CellsText(cells)| == 64 * |cells|
    ensures CellsText(cells)[64 * b..64 * b + 64] == CellText(cells[b])
    decreases |cells|
  {
    hide CellFits, CellText;
    CellWidth(cells[0]);
    var head, tail := CellText(cells[0]), CellsText(cells[1..]);
    assert CellsText(cells) == head + tail;
    if |cells| == 1 {
      assert tail == [];
    } else {
      CellColumns(cells[1..], if b > 0 then b - 1 else 0);
    }
    hide CellsText;
    if b > 0 {
      assert (head + tail)[64 * b..64 * b + 64] == tail[64 * (b - 1)..64 * (b - 1) + 64];
    } else {
      assert (head + tail)[0..64] == head;
    }
  }

  /** A row has as many columns as the header declares observations for its constellation: four
      of sixteen columns for each band, the b-th band's where the header puts it. */
  lemma RowColumns(s: Sat, b: nat)
    requires FindSystem(s.key.sys).Some? && FormatSatId(s.key.sys, s.key.prn).Some? && |s.cells| == 3
    requires b < Bands(FindSystem(s.key.sys).value) && forall i | 0 <= i < 3 :: CellFits(s.cells[i])
    ensures |RowLine(s)| == 3 + 16 * FindSystem(s.key.sys).value.nobs
    ensures RowLine(s)[3 + 64 * b..3 + 64 * b + 64] == CellText(s.cells[b])
  {
    hide CellsText, CellFits, CellText, FindSystem, FormatSatId, Declared, Bands;
    DeclaredAre(s);
    var cells := Declared(s);
    CellColumns(cells, b);
    Columns(IdOf(s), CellsText(cells), 64 * b, 64 * b + 64);
  }

  lemma DeclaredAre(s: Sat)
    requires FindSystem(s.key.sys).Some? && |s.cells| == 3
    ensures var d := FindSystem(s.key.sys).value;
      Declared(s) == s.cells[..Bands(d)] && d.nobs == 4 * Bands(d) && Bands(d) <= 3
  {
    TableIsLegal(FindSystem(s.key.sys).value);
    hide FindSystem;
  }

  /** The four values of a band are its pseudorange, phase, Doppler shift and signal strength, in
      the order of the header's codes, each in fourteen columns with two blank ones behind it. */
  lemma CellValues(o: Obs, pref: int)
    requires CellFits(Cell(pref, Some(o)))
    ensures var t := CellText(Cell(pref, Some(o)));
      && |t| == 64
      && t[..14] == Fixed(o.pseudorange, 3, 14) && t[14..16] == "  "
      && t[16..30] == Fixed(o.carrierPhase, 3, 14) && t[30..32] == "  "
      && t[32..46] == Fixed(o.doppler, 3, 14) && t[46..48] == "  "
      && t[48..62] == Fixed(o.cn0, 3, 14) && t[62..] == "  "
  {
    hide Point;
    var a, b := Fixed(o.pseudorange, 3, 14), Fixed(o.carrierPhase, 3, 14);
    var c, d := Fixed(o.doppler, 3, 14), Fixed(o.cn0, 3, 14);
    assert |a| == 14 && |b| == 14 && |c| == 14 && |d| == 14;
    assert CellText(Cell(pref, Some(o))) == (a + "  ") + ((b + "  ") + ((c + "  ") + (d + "  ")));
    hide *;
    FourValues(a, b, c, d, "  ");
  }

  lemma FourValues(a: string, b: string, c: string, d: string, gap: string)
    requires |a| == 14 && |b| == 14 && |c| == 14 && |d| == 14 && |gap| == 2
    ensures var t := (a + gap) + ((b + gap) + ((c + gap) + (d + gap)));
      && |t| == 64
      && t[..14] == a && t[14..16] == gap && t[16..30] == b && t[30..32] == gap
      && t[32..46] == c && t[46..48] == gap && t[48..62] == d && t[62..] == gap
  {
  }

  lemma Columns(a: string, t: string, i: nat, j: nat)
    requires i <= j <= |t|
    ensures (a + t)[|a| + i..|a| + j] == t[i..j]
  {
    assert (a + t)[|a|..] == t;
    var p, q := (a + t)[|a| + i..|a| + j], t[i..j];
    assert forall k | 0 <= k < j - i :: p[k] == q[k];
    assert p == q;
  }
}
