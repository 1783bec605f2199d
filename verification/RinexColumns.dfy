/** Numbers read from columns. */
module RinexColumns {
  import opened Common
  import opened RinexText
  import opened RinexSat
  import opened GpsTime
  import opened RinexFile

  // Readers of RINEX files cut a line into fixed columns (RINEX 3.03, appendix tables A2 and A3) and
  // read a number from each. Here such a reader is given, and what it finds in the logger's lines.

  function Trimmed(s: string): (t: string)
    ensures |t| <= |s|
  {
    if s != [] && s[0] == ' ' then Trimmed(s[1..]) else s
  }

  /** A whole number: blanks, a minus sign if it is negative, and digits. */
  function ReadInt(s: string): Option<int> {
    var t := Trimmed(s);
    if t != [] && t[0] == '-' then
      match ParseNat(t[1..])
      case None => None
      case Some(n) => Some(0 - (n as int))
    else
      match ParseNat(t)
      case None => None
      case Some(n) => Some(n as int)
  }

  /** A number with a fixed count of decimals behind its point, in units of the last. */
  function ReadFixed(s: string, places: nat): Option<int> {
    var k := |s| - places - 1;
    if k < 1 || s[k] != '.' then None else ReadInt(s[..k] + s[k + 1..])
  }

  lemma {:induction false} TrimmedBlanks(n: nat, t: string)
    requires t != [] && t[0] != ' '
    ensures Trimmed(Repeat(' ', n) + t) == t
    decreases n
  {
    var s := Repeat(' ', n) + t;
    if n == 0 {
      assert s == t;
    } else {
      assert s[1..] == Repeat(' ', n - 1) + t;
      TrimmedBlanks(n - 1, t);
    }
  }

  lemma PadIs(s: string, w: nat)
    ensures exists n: nat :: PadLeft(s, w) == Repeat(' ', n) + s
  {
    if |s| < w {
      assert PadLeft(s, w) == Repeat(' ', w - |s|) + s;
    } else {
      assert PadLeft(s, w) == Repeat(' ', 0) + s;
    }
  }

  /** Digits behind any number of blanks and an optional sign. */
  lemma ReadsDigits(n: nat, negative: bool, digits: string, v: nat)
    requires digits != [] && Digits(digits) && ParseNat(digits) == Some(v)
    ensures ReadInt(Repeat(' ', n) + ((if negative then ['-'] else []) + digits))
      == Some(if negative then 0 - (v as int) else v as int)
  {
    hide ParseNat;
    var t := (if negative then ['-'] else []) + digits;
    TrimmedBlanks(n, t);
    if negative {
      assert t[1..] == digits;
    } else {
      assert t == digits;
    }
  }

  /** A printed whole number reads back. */
  lemma IntReads(v: int, w: nat)
    ensures ReadInt(D(v, w)) == Some(v)
  {
    var a := if v < 0 then -v else v;
    PadIs(Int(v), w);
    ParseDecimal(a);
    hide PadLeft, ReadInt, Decimal;
    var n: nat :| D(v, w) == Repeat(' ', n) + Int(v);
    ReadsDigits(n, v < 0, Decimal(a), a);
    assert [] + Decimal(a) == Decimal(a);
  }

  lemma {:induction false} ParseParts(a: nat, places: nat)
    ensures Digits(Decimal(Whole(a, places)) + Fraction(a, places))
    ensures ParseNat(Decimal(Whole(a, places)) + Fraction(a, places)) == Some(a)
    decreases places
  {
    if places == 0 {
      ParseDecimal(a);
      ConcatEmpty(Decimal(a));
    } else {
      ParseParts(a / 10, places - 1);
      var s := Decimal(Whole(a, places)) + Fraction(a / 10, places - 1);
      hide Decimal;
      ConcatAssoc(Decimal(Whole(a, places)), Fraction(a / 10, places - 1), [DigitChar(a % 10)]);
      var t := s + [DigitChar(a % 10)];
      assert t[..|t| - 1] == s;
      assert s != [];
    }
  }

  /** A printed number with decimals reads back, whatever its sign. */
  lemma FixedReads(v: int, places: nat, w: nat)
    requires places > 0
    ensures ReadFixed(Fixed(v, places, w), places) == Some(v)
  {
    var a := if v < 0 then -v else v;
    PadIs(Point(v, places), w);
    hide PadLeft;
    var n: nat :| Fixed(v, places, w) == Repeat(' ', n) + Point(v, places);
    ParseParts(a, places);
    var sign, whole, frac := if v < 0 then ['-'] else [], Decimal(Whole(a, places)), Fraction(a, places);
    assert Point(v, places) == sign + whole + ['.'] + frac;
    hide Decimal, Whole, Fraction, ParseNat, ReadInt, Point, Fixed;
    CutAtPoint(Repeat(' ', n), sign, whole, frac);
    ReadsDigits(n, v < 0, whole + frac, a);
  }

  lemma CutAtPoint(blanks: string, sign: string, whole: string, frac: string)
    requires whole != []
    ensures var s, k := blanks + (sign + whole + ['.'] + frac), |blanks| + |sign| + |whole|;
      k == |s| - |frac| - 1 && k >= 1 && s[k] == '.' && s[..k] + s[k + 1..] == blanks + (sign + (whole + frac))
  {
    var s, k := blanks + (sign + whole + ['.'] + frac), |blanks| + |sign| + |whole|;
    assert s[..k] == blanks + (sign + whole);
    assert s[k + 1..] == frac;
  }

  // ------------------------------------------------------------------------- times

  lemma ThreeDigits(n: nat, w: nat)
    requires n < 1000 && w >= 3
    ensures |Decimal(n)| <= 3 && |D(n, w)| == w
  {
    assert Pow10(3) == 1000;
    DecimalWidth(n, 3);
  }

  lemma OneZero(s: string, v: nat)
    requires s != [] && ParseNat(s) == Some(v)
    ensures ParseNat(s + ['0']) == Some(10 * v)
  {
    var t := s + ['0'];
    assert t[..|t| - 1] == s;
  }

  lemma SevenZeros(s: string, v: nat)
    requires s != [] && ParseNat(s) == Some(v)
    ensures ParseNat(s + "0000000") == Some(10_000_000 * v)
  {
    hide ParseNat;
    OneZero(s, v);
    OneZero(s + ['0'], 10 * v);
    OneZero(s + ['0'] + ['0'], 100 * v);
    OneZero(s + ['0'] + ['0'] + ['0'], 1000 * v);
    OneZero(s + ['0'] + ['0'] + ['0'] + ['0'], 10_000 * v);
    OneZero(s + ['0'] + ['0'] + ['0'] + ['0'] + ['0'], 100_000 * v);
    OneZero(s + ['0'] + ['0'] + ['0'] + ['0'] + ['0'] + ['0'], 1_000_000 * v);
    assert s + "0000000" == s + ['0'] + ['0'] + ['0'] + ['0'] + ['0'] + ['0'] + ['0'];
  }

  /** Whole seconds are printed with seven zeros behind the point. */
  lemma SecondsRead(second: nat, w: nat)
    requires second < 100 && w >= 11
    ensures |Seconds(second, w)| == w && ReadFixed(Seconds(second, w), 7) == Some(10_000_000 * second)
  {
    ThreeDigits(second, 3);
    var whole, zeros := Decimal(second), "0000000";
    PadIs(whole + ".0000000", w);
    ParseDecimal(second);
    SevenZeros(whole, second);
    hide PadLeft, Decimal, ParseNat, ReadInt, Pow10, ReadFixed;
    var n: nat :| Seconds(second, w) == Repeat(' ', n) + (whole + ".0000000");
    PointText(whole);
    PointReads(n, whole, zeros, 10_000_000 * second);
  }

  lemma PointReads(n: nat, whole: string, frac: string, v: nat)
    requires whole != [] && Digits(whole) && Digits(frac) && ParseNat(whole + frac) == Some(v)
    ensures ReadFixed(Repeat(' ', n) + ([] + whole + ['.'] + frac), |frac|) == Some(v as int)
  {
    hide ParseNat, ReadInt;
    CutAtPoint(Repeat(' ', n), [], whole, frac);
    ReadsDigits(n, false, whole + frac, v);
  }

  lemma PointText(whole: string)
    ensures whole + ".0000000" == [] + whole + ['.'] + "0000000"
  {
    assert ".0000000" == ['.'] + "0000000";
  }

  lemma SixColumns(a: string, b: string, c: string, d: string, e: string, f: string, w: nat)
    requires |b| == w && |c| == w && |d| == w && |e| == w
    ensures var t, n := a + ((b + (c + (d + (e + [])))) + f), |a|;
      && |t| == n + 4 * w + |f| && t[..n] == a && t[n..n + w] == b && t[n + w..n + 2 * w] == c
      && t[n + 2 * w..n + 3 * w] == d && t[n + 3 * w..n + 4 * w] == e && t[n + 4 * w..] == f
  {
    var t := a + ((b + (c + (d + (e + [])))) + f);
    assert t == a + b + c + d + e + f;
  }

  lemma FourFields(month: int, day: int, hour: int, minute: int, w: nat)
    ensures Fields([month, day, hour, minute], w) == D(month, w) + (D(day, w) + (D(hour, w) + (D(minute, w) + [])))
  {
    hide D;
    var ns := [month, day, hour, minute];
    assert ns[1..] == [day, hour, minute] && ns[1..][1..] == [hour, minute] && ns[1..][1..][1..] == [minute];
    assert Fields([minute], w) == D(minute, w) + [];
    assert Fields([hour, minute], w) == D(hour, w) + Fields([minute], w);
    assert Fields([day, hour, minute], w) == D(day, w) + Fields([hour, minute], w);
  }

  /** The five columns of `w` and the seconds behind them, when the year has `n`. */
  ghost predicate ReadsAs(text: string, st: Stamp, n: nat, w: nat) {
    && |text| >= n + 4 * w && ReadInt(text[..n]) == Some(st.year)
    && ReadInt(text[n..n + w]) == Some(st.month) && ReadInt(text[n + w..n + 2 * w]) == Some(st.day)
    && ReadInt(text[n + 2 * w..n + 3 * w]) == Some(st.hour) && ReadInt(text[n + 3 * w..n + 4 * w]) == Some(st.minute)
    && ReadFixed(text[n + 4 * w..], 7) == Some(10_000_000 * st.second)
  }

  lemma SixRead(a: string, b: string, c: string, d: string, e: string, f: string, st: Stamp, w: nat)
    requires |b| == w && |c| == w && |d| == w && |e| == w
    requires ReadInt(a) == Some(st.year) && ReadInt(b) == Some(st.month) && ReadInt(c) == Some(st.day)
    requires ReadInt(d) == Some(st.hour) && ReadInt(e) == Some(st.minute)
    requires ReadFixed(f, 7) == Some(10_000_000 * st.second)
    ensures ReadsAs(a + ((b + (c + (d + (e + [])))) + f), st, |a|, w)
  {
    hide ReadInt, ReadFixed;
    SixColumns(a, b, c, d, e, f, w);
  }

  lemma StampReads(st: Stamp, y: nat, w: nat, v: nat)
    requires w >= 3 && v >= 11
    ensures var text := D(st.year, y) + (Fields([st.month, st.day, st.hour, st.minute], w) + Seconds(st.second, v));
      |text| == |D(st.year, y)| + 4 * w + v && ReadsAs(text, st, |D(st.year, y)|, w)
  {
    hide *;
    ThreeDigits(st.month, w);
    ThreeDigits(st.day, w);
    ThreeDigits(st.hour, w);
    ThreeDigits(st.minute, w);
    IntReads(st.year, y);
    IntReads(st.month, w);
    IntReads(st.day, w);
    IntReads(st.hour, w);
    IntReads(st.minute, w);
    SecondsRead(st.second, v);
    FourFields(st.month, st.day, st.hour, st.minute, w);
    SixRead(D(st.year, y), D(st.month, w), D(st.day, w), D(st.hour, w), D(st.minute, w), Seconds(st.second, v), st, w);
  }

  /** The line in front of an epoch's rows, when year and count fit their columns. */
  lemma EpochLineReads(e: Epoch)
    requires -999 <= e.time.stamp.year <= 9999 && |e.rows| < 1000
    ensures var line := EpochLine(e);
      && |line| == 35 && line[..2] == "> " && ReadsAs(line[2..29], e.time.stamp, 4, 3)
      && line[29..32] == "  0" && ReadInt(line[32..]) == Some(|e.rows|)
  {
    var st := e.time.stamp;
    FourWide(st.year);
    hide Decimal, D, Fields, Seconds, ReadInt, ReadsAs;
    StampReads(st, 4, 3, 11);
    ThreeDigits(|e.rows|, 3);
    IntReads(|e.rows|, 3);
    EpochParts("> ", EpochTime(st), "  0", D(|e.rows|, 3));
  }

  lemma FourWide(year: int)
    requires -999 <= year <= 9999
    ensures |D(year, 4)| == 4
  {
    assert Pow10(3) == 1000 && Pow10(4) == 10_000;
    if year < 0 {
      DecimalWidth(-year, 3);
    } else {
      DecimalWidth(year, 4);
    }
  }

  lemma EpochParts(mark: string, time: string, flag: string, count: string)
    requires |mark| == 2 && |time| == 27 && |flag| == 3
    ensures var line := mark + (time + (flag + count));
      line[..2] == mark && line[2..29] == time && line[29..32] == flag && line[32..] == count
  {
  }

  /** The two lines of the header that hold a time, when its year fits. */
  lemma TimeReads(t: Time)
    requires Narrow(t.stamp)
    ensures FirstLine(t.stamp)[..43] == TimeText(t.stamp) == LastLine(t.stamp)[..43]
    ensures ReadsAs(TimeText(t.stamp), t.stamp, 6, 6)
  {
    var st := t.stamp;
    YearWidth(st.year);
    hide Decimal, D, Fields, Seconds, ReadInt, ReadsAs;
    StampReads(st, 6, 6, 13);
  }

  // ------------------------------------------------------------------------- values

  /** Where the station is, in ten thousandths of a metre, when the three numbers fit. */
  lemma PositionReads(s: Station, first: Stamp)
    requires |Fixed(s.x, 4, 14)| == 14 && |Fixed(s.y, 4, 14)| == 14 && |Fixed(s.z, 4, 14)| == 14
    ensures var line := OpeningLine(s, first, 7);
      && |line| >= 42 && ReadFixed(line[..14], 4) == Some(s.x) && ReadFixed(line[14..28], 4) == Some(s.y)
      && ReadFixed(line[28..42], 4) == Some(s.z)
  {
    FixedReads(s.x, 4, 14);
    FixedReads(s.y, 4, 14);
    FixedReads(s.z, 4, 14);
    hide Fixed, ReadFixed;
    ThreeColumns(Fixed(s.x, 4, 14), Fixed(s.y, 4, 14), Fixed(s.z, 4, 14), "                  APPROX POSITION XYZ");
  }

  /** How high the antenna stands. */
  lemma HeightReads(s: Station, first: Stamp)
    requires |Fixed(s.deltaH, 4, 14)| == 14
    ensures var line := OpeningLine(s, first, 8);
      && |line| >= 42 && ReadFixed(line[..14], 4) == Some(s.deltaH) && ReadFixed(line[14..28], 4) == Some(0)
      && ReadFixed(line[28..42], 4) == Some(0)
  {
    FixedReads(s.deltaH, 4, 14);
    FixedReads(0, 4, 14);
    ZeroFits();
    hide Fixed, ReadFixed;
    ThreeColumns(Fixed(s.deltaH, 4, 14), Fixed(0, 4, 14), Fixed(0, 4, 14), "                  ANTENNA: DELTA H/E/N");
  }

  lemma ZeroFits()
    ensures |Fixed(0, 4, 14)| == 14
  {
    assert Whole(0, 4) == 0;
    assert |Decimal(0)| == 1;
  }

  lemma ThreeColumns(a: string, b: string, c: string, name: string)
    requires |a| == 14 && |b| == 14 && |c| == 14
    ensures var line := a + (b + c) + name;
      line[..14] == a && line[14..28] == b && line[28..42] == c && line[42..] == name
  {
  }

  /** The antenna's model and radome stand in columns 21 to 40, and the line's name in column 61. */
  lemma AntennaReads(s: Station)
    ensures var line := AntennaLine(s);
      && |line| == 77 && line[20..36] == PadRight(Cut(s.model, 16), 16) && line[36..40] == PadRight(Cut(s.radome, 4), 4)
      && line[40..60] == Repeat(' ', 20) && line[60..] == "ANT # / TYPE     "
  {
    var a, b := PadRight(Cut(s.model, 16), 16), PadRight(Cut(s.radome, 4), 4);
    var number := PadRight("0000", 20);
    assert PadRight("", 20) == Repeat(' ', 20);
    assert PadRight(a + b, 20) == a + b;
    hide PadRight, Cut;
    var name := "ANT # / TYPE     ";
    assert AntennaLine(s) == number + ((a + b) + (Repeat(' ', 20) + name));
    AntennaParts(number, a, b, Repeat(' ', 20), name);
  }

  lemma AntennaParts(number: string, a: string, b: string, blanks: string, name: string)
    requires |number| == 20 && |a| == 16 && |b| == 4 && |blanks| == 20
    ensures var line := number + ((a + b) + (blanks + name));
      line[20..36] == a && line[36..40] == b && line[40..60] == blanks && line[60..] == name
  {
  }

  /** The four values of a cell, in thousandths. */
  lemma CellReads(o: Obs, pref: int)
    requires CellFits(Cell(pref, Some(o)))
    ensures var t := CellText(Cell(pref, Some(o)));
      && |t| == 64 && ReadFixed(t[..14], 3) == Some(o.pseudorange) && ReadFixed(t[16..30], 3) == Some(o.carrierPhase)
      && ReadFixed(t[32..46], 3) == Some(o.doppler) && ReadFixed(t[48..62], 3) == Some(o.cn0)
  {
    hide *;
    CellValues(o, pref);
    FixedReads(o.pseudorange, 3, 14);
    FixedReads(o.carrierPhase, 3, 14);
    FixedReads(o.doppler, 3, 14);
    FixedReads(o.cn0, 3, 14);
  }
}
