/** The header lines, as a reader finds its way in them by the labels.

    A reader looks for three things in a header: the words that end it, the two records it cannot
    do without, and the lines that declare constellations. So what has to be shown of each line the
    logger prints is mostly what it does not contain, whatever numbers, dates and antenna names are
    printed into it. A text lacks a phrase as soon as it lacks one of the phrase's letters; hence
    the predicate Free below, and the bookkeeping of which line is free of which letters. */
module RinexHeader {
  import opened Common
  import opened RinexText
  import opened RinexSat
  import opened GpsTime
  import opened RinexFile

  const END := "END OF HEADER"
  const TYPES := "SYS / # / OBS TYPES"
  const FIRST := "TIME OF FIRST OBS"
  const INTERVAL := "INTERVAL"

  /** One line of text without any of three letters. */
  predicate Free(s: string, x: char, y: char, z: char) {
    forall i | 0 <= i < |s| :: !IsBreak(s[i]) && s[i] != x && s[i] != y && s[i] != z
  }

  lemma FreeConcat(a: string, b: string, x: char, y: char, z: char)
    requires Free(a, x, y, z) && Free(b, x, y, z)
    ensures Free(a + b, x, y, z)
  {
  }

  lemma FreePadRight(a: string, w: nat, x: char, y: char, z: char)
    requires Free(a, x, y, z) && x != ' ' && y != ' ' && z != ' '
    ensures Free(PadRight(a, w), x, y, z)
  {
  }

  lemma FreeNumeric(s: string, x: char, y: char, z: char)
    requires Numeric(s) && 'A' <= x <= 'Z' && 'A' <= y <= 'Z' && (z == '#' || 'A' <= z <= 'Z')
    ensures Free(s, x, y, z)
  {
  }

  lemma FreeCentred(a: string, b: string, c: string, name: string, x: char, y: char, z: char)
    requires x != ' ' && y != ' ' && z != ' '
    requires Free(a, x, y, z) && Free(b, x, y, z) && Free(c, x, y, z) && Free(name, x, y, z)
    ensures Free(Centred(a, b, c, name), x, y, z)
  {
    FreePadRight(a, 20, x, y, z);
    FreePadRight(b, 20, x, y, z);
    FreePadRight(c, 20, x, y, z);
    hide PadRight, Free;
    FreeConcat(PadRight(c, 20), name, x, y, z);
    FreeConcat(PadRight(b, 20), PadRight(c, 20) + name, x, y, z);
    FreeConcat(PadRight(a, 20), PadRight(b, 20) + (PadRight(c, 20) + name), x, y, z);
  }

  /** A line of the header proper: it neither ends the header nor declares anything. */
  predicate Quiet(s: string) {
    Free(s, 'F', 'L', '#')
  }

  lemma QuietVersion()
    ensures Quiet(Centred("     3.03", "OBSERVATION DATA", "M", "RINEX VERSION / TYPE"))
  {
    assert Quiet("     3.03") && Quiet("OBSERVATION DATA") && Quiet("M") && Quiet("RINEX VERSION / TYPE");
    hide Free, Centred;
    FreeCentred("     3.03", "OBSERVATION DATA", "M", "RINEX VERSION / TYPE", 'F', 'L', '#');
  }

  lemma FreeCut(s: string, w: nat, x: char, y: char, z: char)
    requires Free(s, x, y, z)
    ensures Free(Cut(s, w), x, y, z)
  {
  }

  lemma QuietDate(st: Stamp)
    ensures Quiet(RunDate(st))
  {
    NumericD0(st.year, 4);
    NumericD0(st.month, 2);
    NumericD0(st.day, 2);
    NumericD0(st.hour, 2);
    NumericD0(st.minute, 2);
    NumericD0(st.second, 2);
    var a, b, c := D0(st.year, 4), D0(st.month, 2), D0(st.day, 2);
    var d, e, f := D0(st.hour, 2), D0(st.minute, 2), D0(st.second, 2);
    assert Quiet(" UTC") && Quiet([' ']);
    FreeNumeric(a, 'F', 'L', '#');
    FreeNumeric(b, 'F', 'L', '#');
    FreeNumeric(c, 'F', 'L', '#');
    FreeNumeric(d, 'F', 'L', '#');
    FreeNumeric(e, 'F', 'L', '#');
    FreeNumeric(f, 'F', 'L', '#');
    hide D0, Free, Numeric;
    FreeConcat(f, " UTC", 'F', 'L', '#');
    FreeConcat(e, f + " UTC", 'F', 'L', '#');
    FreeConcat(d, e + (f + " UTC"), 'F', 'L', '#');
    FreeConcat([' '], d + (e + (f + " UTC")), 'F', 'L', '#');
    FreeConcat(c, [' '] + (d + (e + (f + " UTC"))), 'F', 'L', '#');
    FreeConcat(b, c + ([' '] + (d + (e + (f + " UTC")))), 'F', 'L', '#');
    FreeConcat(a, b + (c + ([' '] + (d + (e + (f + " UTC"))))), 'F', 'L', '#');
    FreeCut(a + (b + (c + ([' '] + (d + (e + (f + " UTC")))))), 20, 'F', 'L', '#');
  }

  lemma QuietRunBy(st: Stamp)
    ensures Quiet(Centred("GPS_BASE", "ESP32_RTK", RunDate(st), "PGM / RUN BY / DATE"))
  {
    assert Quiet("GPS_BASE") && Quiet("ESP32_RTK") && Quiet("PGM / RUN BY / DATE");
    QuietDate(st);
    hide Free, RunDate, Centred;
    FreeCentred("GPS_BASE", "ESP32_RTK", RunDate(st), "PGM / RUN BY / DATE", 'F', 'L', '#');
  }

  lemma QuietPair(a: string, w: nat, name: string)
    requires Quiet(a) && Quiet(name)
    ensures Quiet(PadRight(a, w) + name)
  {
    hide Free, PadRight;
    FreePadRight(a, w, 'F', 'L', '#');
    FreeConcat(PadRight(a, w), name, 'F', 'L', '#');
  }

  lemma QuietMarkers()
    ensures Quiet(PadRight("GPS_BASE_STATION", 60) + "MARKER NAME      ")
    ensures Quiet(PadRight("GEODETIC", 60) + "MARKER TYPE      ")
    ensures Quiet(PadRight("UNKNOWN", 20) + (PadRight("UNKNOWN", 40) + "OBSERVER / AGENCY"))
  {
    assert Quiet("GPS_BASE_STATION") && Quiet("MARKER NAME      ");
    assert Quiet("GEODETIC") && Quiet("MARKER TYPE      ");
    assert Quiet("UNKNOWN") && Quiet("OBSERVER / AGENCY");
    hide PadRight, Free, Quiet;
    QuietPair("GPS_BASE_STATION", 60, "MARKER NAME      ");
    QuietPair("GEODETIC", 60, "MARKER TYPE      ");
    QuietPair("UNKNOWN", 40, "OBSERVER / AGENCY");
    QuietPair("UNKNOWN", 20, PadRight("UNKNOWN", 40) + "OBSERVER / AGENCY");
  }

  lemma ReceiverLine()
    ensures var s := Centred("0000", "UM980", "UNICORE", "REC # / TYPE / VERS");
      Free(s, 'F', 'L', 'L') && s != [] && s[0] == '0'
  {
    FirstCentred("0000", "UM980", "UNICORE", "REC # / TYPE / VERS");
    assert Free("0000", 'F', 'L', 'L') && Free("UM980", 'F', 'L', 'L');
    assert Free("UNICORE", 'F', 'L', 'L') && Free("REC # / TYPE / VERS", 'F', 'L', 'L');
    hide Free, Centred;
    FreeCentred("0000", "UM980", "UNICORE", "REC # / TYPE / VERS", 'F', 'L', 'L');
  }

  lemma FirstCentred(a: string, b: string, c: string, name: string)
    requires a != []
    ensures Centred(a, b, c, name) != [] && Centred(a, b, c, name)[0] == a[0]
  {
  }

  lemma Position(s: Station)
    ensures Free(Metres(s.x, s.y, s.z) + "                  APPROX POSITION XYZ", 'F', 'F', '#')
  {
    assert Free("                  APPROX POSITION XYZ", 'F', 'F', '#');
    hide Metres, Free;
    FreeMetres(s.x, s.y, s.z, "                  APPROX POSITION XYZ");
  }

  lemma Delta(s: Station)
    ensures Free(Metres(s.deltaH, 0, 0) + "                  ANTENNA: DELTA H/E/N", 'F', 'F', '#')
  {
    assert Free("                  ANTENNA: DELTA H/E/N", 'F', 'F', '#');
    hide Metres, Free;
    FreeMetres(s.deltaH, 0, 0, "                  ANTENNA: DELTA H/E/N");
  }

  lemma Interval()
    ensures Free(IntervalLine(), 'F', 'F', '#') && Contains(IntervalLine(), INTERVAL)
  {
    assert Free("    30.000", 'F', 'F', '#') && Free("INTERVAL", 'F', 'F', '#') && Free(Repeat(' ', 50), 'F', 'F', '#');
    hide Free;
    FreeConcat(Repeat(' ', 50), "INTERVAL", 'F', 'F', '#');
    FreeConcat("    30.000", Repeat(' ', 50) + "INTERVAL", 'F', 'F', '#');
    ConcatAssoc("    30.000", Repeat(' ', 50), "INTERVAL");
    ConcatEmpty(("    30.000" + Repeat(' ', 50)) + "INTERVAL");
    ContainsAt(IntervalLine(), "    30.000" + Repeat(' ', 50), "INTERVAL", []);
  }

  lemma NumericSeconds(s: nat, w: nat)
    ensures Numeric(Seconds(s, w))
  {
    hide Decimal;
    assert Numeric(Decimal(s));
    assert Numeric(".0000000");
    NumericPad(Decimal(s) + ".0000000", w);
  }

  lemma NumericTime(st: Stamp)
    ensures Numeric(TimeText(st))
  {
    NumericInt(st.year, 6);
    NumericSeconds(st.second, 13);
    var ns := [st.month, st.day, st.hour, st.minute];
    NumericFields(ns, 6);
    hide D, Seconds, Numeric, Fields;
    NumericConcat(Fields(ns, 6), Seconds(st.second, 13));
    NumericConcat(D(st.year, 6), Fields(ns, 6) + Seconds(st.second, 13));
  }

  lemma {:induction false} NumericFields(ns: seq<int>, w: nat)
    ensures Numeric(Fields(ns, w))
    decreases |ns|
  {
    hide D;
    if ns != [] {
      NumericInt(ns[0], w);
      NumericFields(ns[1..], w);
      NumericConcat(D(ns[0], w), Fields(ns[1..], w));
    }
  }

  lemma TimeLabels()
    ensures Free("     GPS         TIME OF FIRST OBS", 'H', 'H', '#')
    ensures Free("     GPS         TIME OF LAST OBS", 'H', 'H', '#')
    ensures "     GPS         TIME OF FIRST OBS" == "     GPS         " + FIRST
  {
  }

  lemma TimeLines(st: Stamp)
    ensures Free(FirstLine(st), 'H', 'H', '#') && Contains(FirstLine(st), FIRST)
    ensures Free(LastLine(st), 'H', 'H', '#')
  {
    hide TimeText, Free;
    TimeLabels();
    NumericTime(st);
    var t := TimeText(st);
    FreeNumeric(t, 'H', 'H', '#');
    FreeConcat(t, "     GPS         TIME OF FIRST OBS", 'H', 'H', '#');
    FreeConcat(t, "     GPS         TIME OF LAST OBS", 'H', 'H', '#');
    ConcatAssoc(t, "     GPS         ", FIRST);
    ConcatEmpty((t + "     GPS         ") + FIRST);
    ContainsAt(FirstLine(st), t + "     GPS         ", FIRST, []);
  }

  lemma FreeMetres(a: int, b: int, c: int, name: string)
    requires Free(name, 'F', 'F', '#')
    ensures Free(Metres(a, b, c) + name, 'F', 'F', '#')
  {
    NumericFixed(a, 4, 14);
    NumericFixed(b, 4, 14);
    NumericFixed(c, 4, 14);
    var p, q, r := Fixed(a, 4, 14), Fixed(b, 4, 14), Fixed(c, 4, 14);
    hide Fixed, Free;
    NumericConcat(q, r);
    NumericConcat(p, q + r);
    FreeNumeric(p + (q + r), 'F', 'F', '#');
    FreeConcat(p + (q + r), name, 'F', 'F', '#');
  }

  // --------------------------------------------------------- what the lines mean to a reader

  ghost predicate Declares(line: string, c: char) {
    Contains(line, TYPES) && line != [] && line[0] == c && MaxPrn(c) > 0
  }

  /** A line that neither ends the header nor declares a constellation. */
  ghost predicate Silent(line: string) {
    OneLine(line) && !Contains(line, END) && forall c :: !Declares(line, c)
  }

  lemma FreeIsSilent(s: string, x: char, y: char)
    requires Free(s, x, y, '#') && (x == 'F' || x == 'H')
    ensures Silent(s)
  {
    assert '#' !in s && x !in s;
    hide Free;
    Lacks(s, TYPES, 6);
    if x == 'F' {
      Lacks(s, END, 5);
    } else {
      Lacks(s, END, 7);
    }
  }

  lemma NoInterval(s: string, x: char, z: char)
    requires Free(s, x, 'L', z)
    ensures !Contains(s, INTERVAL)
  {
    Lacks(s, INTERVAL, 7);
  }

  lemma ReceiverIsSilent()
    ensures var s := Centred("0000", "UM980", "UNICORE", "REC # / TYPE / VERS");
      Silent(s) && !Contains(s, INTERVAL)
  {
    var s := Centred("0000", "UM980", "UNICORE", "REC # / TYPE / VERS");
    ReceiverLine();
    hide Centred;
    NoInterval(s, 'F', 'L');
    assert 'F' !in s && OneLine(s);
    Lacks(s, END, 5);
  }

  lemma QuietIsSilent(s: string)
    requires Quiet(s)
    ensures Silent(s) && !Contains(s, INTERVAL)
  {
    hide Free;
    FreeIsSilent(s, 'F', 'L');
    NoInterval(s, 'F', '#');
  }

  lemma FirstSix(s: Station, st: Stamp, k: nat)
    requires k < 6
    ensures Silent(OpeningLine(s, st, k)) && !Contains(OpeningLine(s, st, k), INTERVAL)
  {
    QuietVersion();
    QuietRunBy(st);
    QuietMarkers();
    hide Quiet, Silent, Centred, PadRight, RunDate, Metres, AntennaLine;
    ReceiverIsSilent();
    if k != 5 {
      QuietIsSilent(OpeningLine(s, st, k));
    }
  }

  lemma PositionsAreSilent(s: Station, st: Stamp)
    ensures Silent(OpeningLine(s, st, 7)) && Silent(OpeningLine(s, st, 8))
  {
    hide Free, Silent, Centred, PadRight, RunDate, Metres, AntennaLine;
    Position(s);
    Delta(s);
    FreeIsSilent(OpeningLine(s, st, 7), 'F', 'F');
    FreeIsSilent(OpeningLine(s, st, 8), 'F', 'F');
  }

  lemma BandsAreFree()
    ensures Free("C1C L1C D1C S1C", 'F', 'F', 'F') && Free("C2W L2W D2W S2W", 'F', 'F', 'F')
    ensures Free("C5Q L5Q D5Q S5Q", 'F', 'F', 'F') && Free("C2C L2C D2C S2C", 'F', 'F', 'F')
    ensures Free("C2I L2I D2I S2I", 'F', 'F', 'F') && Free("C6I L6I D6I S6I", 'F', 'F', 'F')
    ensures Free("C2L L2L D2L S2L", 'F', 'F', 'F') && Free(" ", 'F', 'F', 'F')
  {
  }

  lemma FreeBands(a: string, b: string)
    requires Free(a, 'F', 'F', 'F') && Free(b, 'F', 'F', 'F')
    ensures Free(a + (" " + b), 'F', 'F', 'F')
  {
    BandsAreFree();
    hide Free;
    FreeConcat(" ", b, 'F', 'F', 'F');
    FreeConcat(a, " " + b, 'F', 'F', 'F');
  }

  lemma ObsIsFree(i: nat)
    requires i < |SYSTEMS|
    ensures Free(ObsTypes(SYSTEMS[i].sys), 'F', 'F', 'F')
  {
    hide Free;
    BandsAreFree();
    FreeBands("C2W L2W D2W S2W", "C5Q L5Q D5Q S5Q");
    FreeBands("C1C L1C D1C S1C", "C2W L2W D2W S2W" + (" " + "C5Q L5Q D5Q S5Q"));
    FreeBands("C1C L1C D1C S1C", "C2C L2C D2C S2C");
    FreeBands("C1C L1C D1C S1C", "C5Q L5Q D5Q S5Q");
    FreeBands("C2I L2I D2I S2I", "C6I L6I D6I S6I");
    FreeBands("C1C L1C D1C S1C", "C2L L2L D2L S2L");
  }

  lemma SysLineStarts(d: SystemDef)
    ensures SysLine(d) != [] && SysLine(d)[0] == d.code && Contains(SysLine(d), TYPES)
  {
    var content := PadRight([d.code] + ("  " + (D(d.nobs, 3) + (" " + ObsTypes(d.sys)))), 60);
    assert content[0] == d.code;
    hide PadRight, D;
    ConcatEmpty(content + TYPES);
    ContainsAt(SysLine(d), content, TYPES, []);
  }

  lemma SysLineIsFree(i: nat)
    requires i < |SYSTEMS|
    ensures Free(SysLine(SYSTEMS[i]), 'F', 'F', 'F')
  {
    var d := SYSTEMS[i];
    ObsIsFree(i);
    NumericInt(d.nobs, 3);
    assert Free([d.code], 'F', 'F', 'F') && Free("  ", 'F', 'F', 'F');
    assert Free(" ", 'F', 'F', 'F') && Free(TYPES, 'F', 'F', 'F');
    var n := D(d.nobs, 3);
    FreeNumeric(n, 'F', 'F', 'F');
    hide Free, D, PadRight;
    FreeConcat(" ", ObsTypes(d.sys), 'F', 'F', 'F');
    FreeConcat(n, " " + ObsTypes(d.sys), 'F', 'F', 'F');
    FreeConcat("  ", n + (" " + ObsTypes(d.sys)), 'F', 'F', 'F');
    FreeConcat([d.code], "  " + (n + (" " + ObsTypes(d.sys))), 'F', 'F', 'F');
    FreePadRight([d.code] + ("  " + (n + (" " + ObsTypes(d.sys)))), 60, 'F', 'F', 'F');
    FreeConcat(PadRight([d.code] + ("  " + (n + (" " + ObsTypes(d.sys)))), 60), TYPES, 'F', 'F', 'F');
  }

  lemma LacksF(line: string)
    requires Free(line, 'F', 'F', 'F')
    ensures OneLine(line) && !Contains(line, END)
  {
    assert 'F' !in line;
    Lacks(line, END, 5);
  }

  /** The line of a constellation declares it and nothing else. */
  lemma SysLineDeclares(i: nat)
    requires i < |SYSTEMS|
    ensures var line := SysLine(SYSTEMS[i]);
      OneLine(line) && !Contains(line, END) && forall c :: Declares(line, c) <==> c == SYSTEMS[i].code
  {
    hide SysLine, Contains;
    var line := SysLine(SYSTEMS[i]);
    SysLineIsFree(i);
    SysLineStarts(SYSTEMS[i]);
    assert MaxPrn(SYSTEMS[i].code) > 0;
    LacksF(line);
  }
}
