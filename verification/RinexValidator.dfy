/** tools/validate_rinex.py, and why it accepts what the logger writes.

    The validator is modelled as it reads: lines, then a header that ends at the first line with the
    closing words in it, then epochs, each with a count and rows up to the next epoch. The proof
    follows it from the back of the file to the front: rows, an epoch, all epochs, the header's
    declarations, and at last the place where the header ends, which is the only point at which
    what the user entered for the antenna can matter. */
module RinexValidator {
  import opened Common
  import opened RinexText
  import opened RinexSat
  import opened GpsTime
  import opened RinexFile
  import opened RinexHeader
  import opened RinexPatch
  import opened RinexAntenna
  import opened RinexLog

  // ---------------------------------------------------------------------- the validator

  ghost predicate AnyContains(ls: seq<string>, t: string) {
    exists i :: 0 <= i < |ls| && Contains(ls[i], t)
  }

  /** The index of the line that ends the header, or the number of lines. */
  ghost function HeaderEnd(ls: seq<string>): (n: nat)
    ensures n <= |ls|
    decreases |ls|
  {
    if ls == [] then 0
    else if Contains(ls[0], END) then 0
    else 1 + HeaderEnd(ls[1..])
  }

  ghost function DeclaredIn(header: seq<string>): set<char> {
    set line, c | line in header && c in line && Declares(line, c) :: c
  }

  predicate IsEpochLine(line: string) {
    line != [] && line[0] == '>'
  }

  predicate Blank(line: string) {
    forall i | 0 <= i < |line| :: IsSpace(line[i])
  }

  /** What the walk through the body has found: `ok` is the absence of problems. */
  datatype Walk = Walk(ok: bool, seen: set<char>, epochs: nat)

  /** The rows up to the next epoch line: their number, whether all are legal, their
      constellations, and the lines behind them. */
  datatype Rows = Rows(count: nat, ok: bool, seen: set<char>, rest: seq<string>)

  function ReadRows(ls: seq<string>): (r: Rows)
    ensures |r.rest| <= |ls|
    decreases |ls|
  {
    if ls == [] || IsEpochLine(ls[0]) then Rows(0, true, {}, ls)
    else
      var r := ReadRows(ls[1..]);
      if Blank(ls[0]) then r
      else
        match ReadSatId(ls[0])
        case None => r.(count := r.count + 1, ok := false)
        case Some((c, prn)) =>
          r.(count := r.count + 1, ok := r.ok && 1 <= prn <= MaxPrn(c), seen := r.seen + {c})
  }

  function WalkBody(ls: seq<string>): (w: Walk)
    decreases |ls|
  {
    if ls == [] then Walk(true, {}, 0)
    else if !IsEpochLine(ls[0]) then WalkBody(ls[1..])
    else
      match ParseNat(LastWord(ls[0][1..]))
      case None =>
        var w := WalkBody(ls[1..]);
        w.(ok := false, epochs := w.epochs + 1)
      case Some(count) =>
        var r := ReadRows(ls[1..]);
        var w := WalkBody(r.rest);
        Walk(w.ok && r.ok && r.count == count, w.seen + r.seen, w.epochs + 1)
  }

  /** No problem is reported for the file. */
  ghost predicate Accepts(text: string) {
    var ls := Lines(text);
    var n := HeaderEnd(ls);
    n < |ls|
    && var header, w := ls[..n + 1], WalkBody(ls[n + 1..]);
      && AnyContains(header, FIRST) && AnyContains(header, INTERVAL)
      && w.ok && w.epochs > 0
      && DeclaredIn(header) == w.seen
  }

  // ------------------------------------------------------------------------- the body

  function Codes(rows: seq<Sat>): set<char> {
    set s | s in rows :: CodeOf(s.key.sys)
  }

  lemma RowReads(s: Sat, line: string)
    requires Legal(s) && line == RowLine(s)
    ensures !IsEpochLine(line) && !Blank(line)
    ensures var r := ReadSatId(line);
      r.Some? && r.value.0 == CodeOf(s.key.sys) && 1 <= r.value.1 <= MaxPrn(r.value.0)
  {
    SatIdReadsBack(s.key.sys, s.key.prn, CellsText(Declared(s)));
    hide CellsText, Declared, FormatSatId, FindSystem, CodeOf;
    assert line != [] && MaxPrn(line[0]) > 0;
  }

  lemma ReadOneRow(ls: seq<string>)
    requires ls != [] && !IsEpochLine(ls[0]) && !Blank(ls[0]) && ReadSatId(ls[0]).Some?
    requires 1 <= ReadSatId(ls[0]).value.1 <= MaxPrn(ReadSatId(ls[0]).value.0)
    ensures var r := ReadRows(ls[1..]);
      ReadRows(ls) == r.(count := r.count + 1, seen := r.seen + {ReadSatId(ls[0]).value.0})
  {
    hide Blank, ReadSatId, MaxPrn;
  }

  lemma ReadNoRow(rest: seq<string>)
    requires rest == [] || IsEpochLine(rest[0])
    ensures ReadRows(rest) == Rows(0, true, {}, rest)
  {
  }

  /** The rows of an epoch are counted and found legal. */
  lemma {:induction false} RowsRead(rows: seq<Sat>, rest: seq<string>)
    requires forall s | s in rows :: Legal(s)
    requires rest == [] || IsEpochLine(rest[0])
    ensures ReadRows(RowLines(rows) + rest) == Rows(|rows|, true, Codes(rows), rest)
    decreases |rows|
  {
    hide Legal, RowLine, MaxPrn, ReadSatId, Blank, IsEpochLine, ReadRows;
    if rows == [] {
      assert RowLines(rows) + rest == rest;
      ReadNoRow(rest);
    } else {
      var ls := RowLines(rows) + rest;
      RowsRead(rows[1..], rest);
      assert ls[0] == RowLine(rows[0]) && ls[1..] == RowLines(rows[1..]) + rest;
      RowReads(rows[0], ls[0]);
      ReadOneRow(ls);
      CodesSplit(rows);
      hide Codes, RowLines;
    }
  }

  lemma CodesSplit(rows: seq<Sat>)
    requires rows != []
    ensures Codes(rows) == Codes(rows[1..]) + {CodeOf(rows[0].key.sys)}
  {
    hide CodeOf;
    assert rows == [rows[0]] + rows[1..];
  }

  lemma DigitsAreNoSpace(n: nat)
    ensures forall i | 0 <= i < |Decimal(n)| :: !IsSpace(Decimal(n)[i])
  {
    var s := Decimal(n);
    hide Decimal;
    assert forall i | 0 <= i < |s| :: IsDigit(s[i]);
  }

  lemma {:induction false} WordReads(before: string, word: string)
    requires before != [] && IsSpace(before[|before| - 1])
    requires word != [] && forall i | 0 <= i < |word| :: !IsSpace(word[i])
    ensures ParseNat(LastWord(before + word)) == ParseNat(word)
  {
    hide ParseNat, LastWord;
    LastWordIs(before, word);
  }

  lemma ShortCount(head: string, digits: string, pad: string)
    requires digits != [] && forall i | 0 <= i < |digits| :: !IsSpace(digits[i])
    requires pad != [] && pad[|pad| - 1] == ' '
    ensures ParseNat(LastWord(head + ("  0" + (pad + digits)))) == ParseNat(digits)
  {
    hide ParseNat, LastWord;
    var before := head + ("  0" + pad);
    assert head + ("  0" + (pad + digits)) == before + digits;
    WordReads(before, digits);
  }

  lemma LongCount(head: string, digits: string)
    requires digits != [] && Digits(digits) && forall i | 0 <= i < |digits| :: !IsSpace(digits[i])
    ensures ParseNat(LastWord(head + ("  0" + digits))) == ParseNat(digits)
  {
    hide ParseNat, LastWord;
    var before, word := head + "  ", ['0'] + digits;
    assert head + ("  0" + digits) == before + word;
    WordReads(before, word);
    ParseZero(digits);
  }

  /** The count at the end of an epoch line reads back, although with a hundred satellites or
      more it runs into the zero before it. */
  lemma CountReads(head: string, n: nat)
    requires n < 1000
    ensures ParseNat(LastWord(head + ("  0" + D(n, 3)))) == Some(n)
  {
    var digits := Decimal(n);
    ParseDecimal(n);
    DigitsAreNoSpace(n);
    assert |digits| <= 3 by {
      assert Pow10(3) == 1000;
      DecimalWidth(n, 3);
    }
    hide Decimal, ParseNat, LastWord, IsSpace;
    if |digits| < 3 {
      ShortCount(head, digits, Repeat(' ', 3 - |digits|));
    } else {
      LongCount(head, digits);
    }
  }

  lemma EpochLineReads(e: Epoch)
    requires |e.rows| < 1000
    ensures IsEpochLine(EpochLine(e))
    ensures ParseNat(LastWord(EpochLine(e)[1..])) == Some(|e.rows|)
  {
    var time, count := EpochTime(e.time.stamp), "  0" + D(|e.rows|, 3);
    assert EpochLine(e) == "> " + (time + count);
    CountReads(" " + time, |e.rows|);
    hide *;
    AfterMark(time, count);
  }

  lemma AfterMark(time: string, count: string)
    ensures ("> " + (time + count))[1..] == (" " + time) + count
    ensures IsEpochLine("> " + (time + count))
  {
  }

  lemma WalkEpoch(ls: seq<string>, rest: seq<string>, count: nat, seen: set<char>)
    requires ls != [] && IsEpochLine(ls[0]) && ParseNat(LastWord(ls[0][1..])) == Some(count)
    requires ReadRows(ls[1..]) == Rows(count, true, seen, rest)
    ensures var w := WalkBody(rest);
      WalkBody(ls) == Walk(w.ok, w.seen + seen, w.epochs + 1)
  {
    hide ReadRows, ParseNat, LastWord, IsEpochLine;
  }

  /** An epoch at the front of the body. */
  lemma EpochWalks(e: Epoch, mask: set<nat>, rest: seq<string>)
    requires GoodEpoch(e, mask)
    requires rest == [] || IsEpochLine(rest[0])
    ensures IsEpochLine((EpochLines(e) + rest)[0])
    ensures var w := WalkBody(rest);
      WalkBody(EpochLines(e) + rest) == Walk(w.ok, w.seen + Codes(e.rows), w.epochs + 1)
  {
    hide Legal, EpochLine, RowLines, IsEpochLine, ParseNat, LastWord, ReadRows, WalkBody, Codes;
    var ls := EpochLines(e) + rest;
    assert ls[0] == EpochLine(e) && ls[1..] == RowLines(e.rows) + rest;
    EpochLineReads(e);
    RowsRead(e.rows, rest);
    WalkEpoch(ls, rest, |e.rows|, Codes(e.rows));
  }

  function AllCodes(epochs: seq<Epoch>): set<char> {
    set e, s | e in epochs && s in e.rows :: CodeOf(s.key.sys)
  }

  /** The same for all of them, from the last to the first. */
  lemma {:induction false} EpochsWalk(epochs: seq<Epoch>, mask: set<nat>, rest: seq<string>)
    requires forall e | e in epochs :: GoodEpoch(e, mask)
    requires rest == [] || IsEpochLine(rest[0])
    ensures var w := WalkBody(rest);
      WalkBody(Body(epochs) + rest) == Walk(w.ok, w.seen + AllCodes(epochs), w.epochs + |epochs|)
    decreases |epochs|
  {
    hide GoodEpoch, WalkBody, EpochLines, IsEpochLine, Codes;
    if epochs == [] {
      assert Body(epochs) + rest == rest;
      assert AllCodes(epochs) == {};
    } else {
      hide Body, AllCodes;
      var n := |epochs| - 1;
      var e := epochs[n];
      assert e in epochs && forall d | d in epochs[..n] :: d in epochs;
      BodySplit(epochs, rest);
      EpochWalks(e, mask, rest);
      EpochsWalk(epochs[..n], mask, EpochLines(e) + rest);
      AllCodesSplit(epochs);
    }
  }

  lemma {:induction false} BodySplit(epochs: seq<Epoch>, rest: seq<string>)
    requires epochs != []
    ensures var n := |epochs| - 1;
      Body(epochs) + rest == Body(epochs[..n]) + (EpochLines(epochs[n]) + rest)
  {
    hide EpochLines;
    var n := |epochs| - 1;
    ConcatAssoc(Body(epochs[..n]), EpochLines(epochs[n]), rest);
  }

  lemma AllCodesSplit(epochs: seq<Epoch>)
    requires epochs != []
    ensures AllCodes(epochs) == Codes(epochs[|epochs| - 1].rows) + AllCodes(epochs[..|epochs| - 1])
  {
    hide CodeOf;
    var n := |epochs| - 1;
    assert epochs == epochs[..n] + [epochs[n]];
  }

  function MaskCodes(mask: set<nat>): set<char> {
    set sys | sys in mask && FindSystem(sys).Some? :: CodeOf(sys)
  }

  /** The constellations with rows are those of the header's mask. */
  lemma CodesAreDeclared(doc: Doc)
    requires Sound(doc)
    ensures AllCodes(doc.epochs) == MaskCodes(doc.mask)
  {
    hide FindSystem, CodeOf, FormatSatId, Overdue;
    forall c | c in AllCodes(doc.epochs) ensures c in MaskCodes(doc.mask) {
      var e, s :| e in doc.epochs && s in e.rows && c == CodeOf(s.key.sys);
      assert GoodEpoch(e, doc.mask) && Legal(s);
    }
    forall c | c in MaskCodes(doc.mask) ensures c in AllCodes(doc.epochs) {
      var sys :| sys in doc.mask && c == CodeOf(sys);
      var s :| s in doc.epochs[0].rows && s.key.sys == sys;
      assert doc.epochs[0] in doc.epochs;
    }
  }

  lemma BodyWalks(doc: Doc)
    requires Sound(doc)
    ensures WalkBody(Body(doc.epochs)) == Walk(true, MaskCodes(doc.mask), |doc.epochs|)
  {
    hide Body, GoodEpoch, AllCodes, MaskCodes, Systems, Overdue;
    EpochsWalk(doc.epochs, doc.mask, []);
    ConcatEmpty(Body(doc.epochs));
    CodesAreDeclared(doc);
  }

  // ----------------------------------------------------------------------- the header

  lemma {:induction false} HeaderEndSkips(a: seq<string>, b: seq<string>)
    requires forall i | 0 <= i < |a| :: !Contains(a[i], END)
    ensures HeaderEnd(a + b) == |a| + HeaderEnd(b)
    decreases |a|
  {
    hide Contains;
    if a == [] {
      assert a + b == b;
    } else {
      assert (a + b)[1..] == a[1..] + b;
      HeaderEndSkips(a[1..], b);
    }
  }

  lemma DeclaredConcat(a: seq<string>, b: seq<string>)
    ensures DeclaredIn(a + b) == DeclaredIn(a) + DeclaredIn(b)
  {
    hide Declares;
  }

  lemma DeclaresOnly(line: string, cs: set<char>)
    requires forall c :: Declares(line, c) <==> c in cs
    ensures DeclaredIn([line]) == cs
  {
    forall c | c in cs ensures c in line && c in DeclaredIn([line]) {
      assert Declares(line, c) && line in [line];
    }
    hide Declares;
  }

  ghost predicate AllSilent(ls: seq<string>) {
    forall i | 0 <= i < |ls| :: Silent(ls[i])
  }

  lemma NoneDeclare(ls: seq<string>)
    requires forall i, c | 0 <= i < |ls| :: !Declares(ls[i], c)
    ensures DeclaredIn(ls) == {}
  {
    hide Declares;
    forall line, c | line in ls ensures !Declares(line, c) {
      var k :| 0 <= k < |ls| && ls[k] == line;
    }
  }

  lemma SilentDeclareNone(ls: seq<string>)
    requires AllSilent(ls)
    ensures DeclaredIn(ls) == {}
  {
    hide Contains, OneLine, Declares;
    NoneDeclare(ls);
  }

  /** The letters of the table from entry `i` on that are in the mask. */
  function CodesFrom(mask: set<nat>, i: nat): set<char>
    requires i <= |SYSTEMS|
    decreases |SYSTEMS| - i
  {
    if i == |SYSTEMS| then {}
    else (if SYSTEMS[i].sys in mask then {SYSTEMS[i].code} else {}) + CodesFrom(mask, i + 1)
  }

  lemma {:induction false} SysLinesDeclare(mask: set<nat>, i: nat)
    requires i <= |SYSTEMS|
    ensures DeclaredIn(SysLines(mask, i)) == CodesFrom(mask, i)
    ensures OneLiners(SysLines(mask, i))
    ensures NoneEnds(SysLines(mask, i))
    decreases |SYSTEMS| - i
  {
    hide SysLine, Declares, OneLine, Contains, DeclaredIn;
    if i == |SYSTEMS| {
      SilentDeclareNone([]);
    } else {
      SysLinesDeclare(mask, i + 1);
      SysLineDeclares(i);
      var line, more := SysLine(SYSTEMS[i]), SysLines(mask, i + 1);
      if SYSTEMS[i].sys in mask {
        DeclaresOnly(line, {SYSTEMS[i].code});
        DeclaredConcat([line], more);
      } else {
        ConcatEmpty(more);
      }
    }
  }

  lemma CodesFromStart(mask: set<nat>)
    ensures CodesFrom(mask, 0) == MaskCodes(mask)
  {
    forall c | c in MaskCodes(mask) ensures c in CodesFrom(mask, 0) {
      var sys :| sys in mask && FindSystem(sys).Some? && c == CodeOf(sys);
    }
    forall c | c in CodesFrom(mask, 0) ensures c in MaskCodes(mask) {
      CodesFromOne(mask, 0, c);
    }
  }

  lemma {:induction false} CodesFromOne(mask: set<nat>, i: nat, c: char)
    requires i <= |SYSTEMS| && c in CodesFrom(mask, i)
    ensures exists sys :: sys in mask && FindSystem(sys).Some? && c == CodeOf(sys)
    decreases |SYSTEMS| - i
  {
    if SYSTEMS[i].sys in mask && c == SYSTEMS[i].code {
      assert FindSystem(SYSTEMS[i].sys).Some? && CodeOf(SYSTEMS[i].sys) == c;
    } else {
      CodesFromOne(mask, i + 1, c);
    }
  }

  /** The opening lines before the antenna's and behind it. */
  function Front(s: Station, st: Stamp): seq<string> {
    Opening(s, st)[..6]
  }

  function Back(s: Station, st: Stamp): seq<string> {
    Opening(s, st)[7..]
  }

  lemma OpeningParts(s: Station, st: Stamp)
    ensures Opening(s, st) == Front(s, st) + ([AntennaLine(s)] + Back(s, st))
  {
    assert OpeningLine(s, st, 6) == AntennaLine(s) by {
      hide AntennaLine;
    }
    hide OpeningLine, AntennaLine;
    var ls := Opening(s, st);
    assert ls == ls[..6] + ([ls[6]] + ls[7..]);
  }

  lemma OpeningLineReads(s: Station, st: Stamp, k: nat)
    requires k < 9 && k != 6
    ensures Silent(OpeningLine(s, st, k)) && (k < 6 ==> !Contains(OpeningLine(s, st, k), INTERVAL))
  {
    hide *;
    if k < 6 {
      FirstSix(s, st, k);
    } else {
      PositionsAreSilent(s, st);
    }
  }

  lemma FrontReads(s: Station, st: Stamp)
    ensures AllSilent(Front(s, st)) && forall k | 0 <= k < |Front(s, st)| :: !Contains(Front(s, st)[k], INTERVAL)
  {
    hide OpeningLine, Silent, Contains;
    forall k | 0 <= k < 6
      ensures Silent(Front(s, st)[k]) && !Contains(Front(s, st)[k], INTERVAL)
    {
      OpeningLineReads(s, st, k);
    }
  }

  lemma BackReads(s: Station, st: Stamp)
    ensures AllSilent(Back(s, st))
  {
    hide OpeningLine, Silent, Contains;
    forall k | 0 <= k < 2 ensures Silent(Back(s, st)[k]) {
      OpeningLineReads(s, st, 7 + k);
    }
  }

  lemma SilentReads(ls: seq<string>)
    requires AllSilent(ls)
    ensures OneLiners(ls) && NoneEnds(ls) && DeclaredIn(ls) == {}
  {
    SilentDeclareNone(ls);
    hide Contains, OneLine, Declares;
  }

  ghost predicate NoneEnds(ls: seq<string>) {
    forall k | 0 <= k < |ls| :: !Contains(ls[k], END)
  }

  lemma NoneEndsConcat(a: seq<string>, b: seq<string>)
    requires NoneEnds(a) && NoneEnds(b)
    ensures NoneEnds(a + b)
  {
    hide Contains;
  }

  lemma OneLinersConcat(a: seq<string>, b: seq<string>)
    requires OneLiners(a) && OneLiners(b)
    ensures OneLiners(a + b)
  {
    hide OneLine;
  }

  lemma TimesRead(first: Stamp)
    ensures var ls := [IntervalLine(), FirstLine(first)];
      AllSilent(ls) && Contains(ls[0], INTERVAL) && Contains(ls[1], FIRST)
  {
    hide IntervalLine, FirstLine, Free, Silent;
    Interval();
    TimeLines(first);
    FreeIsSilent(IntervalLine(), 'F', 'F');
    FreeIsSilent(FirstLine(first), 'H', 'H');
    hide Contains;
  }

  /** The header lines between the antenna's and the one that is patched. */
  function Middle(s: Station, mask: set<nat>, first: Stamp): seq<string> {
    Back(s, first) + (SysLines(mask, 0) + [IntervalLine(), FirstLine(first)])
  }

  lemma MiddleReads(s: Station, mask: set<nat>, first: Stamp)
    ensures var ls := Middle(s, mask, first);
      && OneLiners(ls) && DeclaredIn(ls) == MaskCodes(mask) && NoneEnds(ls)
      && AnyContains(ls, INTERVAL) && AnyContains(ls, FIRST)
  {
    hide Back, SysLines, IntervalLine, FirstLine, Contains, OneLine, Silent, DeclaredIn, NoneEnds, OneLiners, MaskCodes;
    var back, sys, times := Back(s, first), SysLines(mask, 0), [IntervalLine(), FirstLine(first)];
    BackReads(s, first);
    SilentReads(back);
    TimesRead(first);
    SilentReads(times);
    SysLinesDeclare(mask, 0);
    CodesFromStart(mask);
    DeclaredConcat(sys, times);
    DeclaredConcat(back, sys + times);
    OneLinersConcat(sys, times);
    OneLinersConcat(back, sys + times);
    NoneEndsConcat(sys, times);
    NoneEndsConcat(back, sys + times);
    var ls := Middle(s, mask, first);
    var n := |back| + |sys|;
    assert ls[n] == times[0] && ls[n + 1] == times[1];
  }

  lemma RowIsOneLine(s: Sat)
    requires Legal(s)
    ensures OneLine(RowLine(s))
  {
    hide CellsText, Declared, IdOf;
    IdIsOneLine(s);
    CellsAreNumeric(Declared(s));
    NumericIsOneLine(CellsText(Declared(s)));
  }

  lemma IdIsOneLine(s: Sat)
    requires Legal(s)
    ensures OneLine(IdOf(s))
  {
    TableLetters(s.key.sys);
    hide FindSystem;
  }

  lemma TableLetters(sys: nat)
    ensures FindSystem(sys).Some? ==> !IsBreak(FindSystem(sys).value.code)
  {
  }

  lemma {:induction false} CellsAreNumeric(cells: seq<Cell>)
    ensures Numeric(CellsText(cells))
    decreases |cells|
  {
    hide CellText;
    if cells != [] {
      CellIsNumeric(cells[0]);
      CellsAreNumeric(cells[1..]);
      NumericConcat(CellText(cells[0]), CellsText(cells[1..]));
    }
  }

  lemma ValueIsNumeric(v: int)
    ensures Numeric(Value(v))
  {
    NumericFixed(v, 3, 14);
    hide Fixed;
    assert Numeric("  ");
    NumericConcat(Fixed(v, 3, 14), "  ");
  }

  lemma CellIsNumeric(c: Cell)
    ensures Numeric(CellText(c))
  {
    if c.obs.Some? {
      var o := c.obs.value;
      hide Value;
      ValueIsNumeric(o.pseudorange);
      ValueIsNumeric(o.carrierPhase);
      ValueIsNumeric(o.doppler);
      ValueIsNumeric(o.cn0);
      hide Numeric;
      NumericConcat(Value(o.doppler), Value(o.cn0));
      NumericConcat(Value(o.carrierPhase), Value(o.doppler) + Value(o.cn0));
      NumericConcat(Value(o.pseudorange), Value(o.carrierPhase) + (Value(o.doppler) + Value(o.cn0)));
    }
  }

  lemma EpochLineIsOneLine(e: Epoch)
    ensures OneLine(EpochLine(e))
  {
    var st := e.time.stamp;
    var time, count := EpochTime(st), D(|e.rows|, 3);
    NumericEpochTime(st);
    NumericInt(|e.rows|, 3);
    hide EpochTime, D;
    NumericIsOneLine(time);
    NumericIsOneLine(count);
    assert OneLine("> ") && OneLine("  0");
  }

  lemma NumericEpochTime(st: Stamp)
    ensures Numeric(EpochTime(st))
  {
    NumericInt(st.year, 4);
    NumericSeconds(st.second, 11);
    var ns := [st.month, st.day, st.hour, st.minute];
    NumericFields(ns, 3);
    hide D, Seconds, Numeric, Fields;
    NumericConcat(Fields(ns, 3), Seconds(st.second, 11));
    NumericConcat(D(st.year, 4), Fields(ns, 3) + Seconds(st.second, 11));
  }

  lemma {:induction false} RowsAreOneLiners(rows: seq<Sat>)
    requires forall s | s in rows :: Legal(s)
    ensures OneLiners(RowLines(rows))
    decreases |rows|
  {
    hide Legal, RowLine, OneLine;
    if rows != [] {
      RowIsOneLine(rows[0]);
      RowsAreOneLiners(rows[1..]);
      OneLinersConcat([RowLine(rows[0])], RowLines(rows[1..]));
    }
  }

  lemma {:induction false} BodyIsOneLiners(epochs: seq<Epoch>, mask: set<nat>)
    requires forall e | e in epochs :: GoodEpoch(e, mask)
    ensures OneLiners(Body(epochs))
    decreases |epochs|
  {
    hide GoodEpoch, EpochLines, OneLine;
    if epochs != [] {
      var n := |epochs| - 1;
      var e := epochs[n];
      assert e in epochs && forall d | d in epochs[..n] :: d in epochs;
      BodyIsOneLiners(epochs[..n], mask);
      EpochIsOneLiners(e, mask);
      OneLinersConcat(Body(epochs[..n]), EpochLines(e));
    }
  }

  lemma EpochIsOneLiners(e: Epoch, mask: set<nat>)
    requires GoodEpoch(e, mask)
    ensures OneLiners(EpochLines(e))
  {
    hide Legal, EpochLine, RowLines, OneLine;
    EpochLineIsOneLine(e);
    RowsAreOneLiners(e.rows);
    OneLinersConcat([EpochLine(e)], RowLines(e.rows));
  }

  // ------------------------------------------------------------------------ the theorem

  const CLOSING := "END OF HEADER    "

  /** The file from the patched line on: whatever patching has left, without the letters a reader
      looks for, then blanks, the closing words and the epochs. */
  ghost predicate Region(z: string, x: string, n: nat, epochs: seq<Epoch>) {
    && 'H' !in x && '#' !in x
    && z == x + (Repeat(' ', n) + (CLOSING + ([NEWLINE] + Unlines(Body(epochs)))))
  }

  lemma TailIs(epochs: seq<Epoch>)
    ensures Tail(epochs) == Repeat(' ', 60) + (CLOSING + ([NEWLINE] + Unlines(Body(epochs))))
  {
    var more := Unlines(Body(epochs));
    assert ([EndLine()] + Body(epochs))[1..] == Body(epochs);
    assert Tail(epochs) == EndLine() + ([NEWLINE] + more);
    hide Tail, Body, Unlines;
    ConcatAssoc(Repeat(' ', 60), CLOSING, [NEWLINE] + more);
  }

  lemma TimeLineIsFree(t: Time)
    ensures 'H' !in TimeLine(t) && '#' !in TimeLine(t)
  {
    TimeLines(t.stamp);
    hide LastLine;
  }

  /** A patch at the front of such a text leaves such a text. */
  lemma PatchRegion(x: string, n: nat, rest: string, line: string) returns (x': string, n': nat)
    requires |line| <= |x| + n
    requires 'H' !in x && '#' !in x && 'H' !in line && '#' !in line
    ensures |x'| + n' == |x| + n && 'H' !in x' && '#' !in x'
    ensures Overwrite(x + (Repeat(' ', n) + rest), 0, line) == x' + (Repeat(' ', n') + rest)
  {
    var z := x + (Repeat(' ', n) + rest);
    if |line| <= |x| {
      x', n' := line + x[|line|..], n;
      assert z[|line|..] == x[|line|..] + (Repeat(' ', n) + rest);
      ConcatAssoc(line, x[|line|..], Repeat(' ', n) + rest);
    } else {
      x', n' := line, |x| + n - |line|;
      assert z[|line|..] == Repeat(' ', n') + rest;
    }
  }

  lemma BodyGrows(epochs: seq<Epoch>, e: Epoch)
    ensures Unlines(Body(epochs + [e])) == Unlines(Body(epochs)) + Unlines(EpochLines(e))
  {
    assert (epochs + [e])[..|epochs|] == epochs;
    hide EpochLines, Unlines;
    UnlinesConcat(Body(epochs), EpochLines(e));
  }

  lemma {:induction false} PatchworkRegion(epochs: seq<Epoch>) returns (x: string, n: nat)
    requires epochs != []
    ensures Region(Patchwork(epochs), x, n, epochs) && |x| + n == |TimeLine(epochs[0].time)| + 60
    decreases |epochs|
  {
    var m := |epochs| - 1;
    var e := epochs[m];
    var line := TimeLine(e.time);
    assert epochs == epochs[..m] + [e];
    TimeLineIsFree(e.time);
    if m == 0 {
      x, n := line, 60;
      TailIs(epochs);
      hide TimeLine, Tail, Body, Unlines;
    } else {
      assert Patchwork(epochs) == Overwrite(Patchwork(epochs[..m]) + Unlines(EpochLines(e)), 0, line);
      x, n := PatchworkRegion(epochs[..m]);
      LineEnds(e.time);
      LineEnds(epochs[0].time);
      hide TimeLine, Patchwork, Overwrite, EpochLines, Body, Unlines;
      x, n := NextRegion(Patchwork(epochs[..m]), x, n, epochs[..m], e);
    }
  }

  lemma NextRegion(z: string, x: string, n: nat, epochs: seq<Epoch>, e: Epoch) returns (x': string, n': nat)
    requires Region(z, x, n, epochs) && |TimeLine(e.time)| <= |x| + n
    ensures |x'| + n' == |x| + n
    ensures Region(Overwrite(z + Unlines(EpochLines(e)), 0, TimeLine(e.time)), x', n', epochs + [e])
  {
    hide TimeLine, Overwrite, EpochLines, Body, Unlines;
    var text, body := Unlines(EpochLines(e)), Unlines(Body(epochs));
    TimeLineIsFree(e.time);
    BodyGrows(epochs, e);
    Regroup(x, Repeat(' ', n), CLOSING, body, text);
    x', n' := PatchRegion(x, n, CLOSING + ([NEWLINE] + (body + text)), TimeLine(e.time));
  }

  lemma Regroup(x: string, blanks: string, closing: string, body: string, text: string)
    ensures (x + (blanks + (closing + ([NEWLINE] + body)))) + text
      == x + (blanks + (closing + ([NEWLINE] + (body + text))))
  {
    ConcatAssoc([NEWLINE], body, text);
    ConcatAssoc(closing, [NEWLINE] + body, text);
    ConcatAssoc(blanks, closing + ([NEWLINE] + body), text);
    ConcatAssoc(x, blanks + (closing + ([NEWLINE] + body)), text);
  }

  /** The lines such a text is read as, up to the closing words: only the last ends the header and
      none declares anything. */
  lemma RegionReads(x: string, n: nat) returns (before: seq<string>, end: string)
    requires 'H' !in x && '#' !in x
    ensures Pieces((x + Repeat(' ', n)) + CLOSING, []) == before + [end]
    ensures NoneEnds(before) && Contains(end, END) && DeclaredIn(before + [end]) == {}
  {
    var u := x + Repeat(' ', n);
    var ps := Pieces(u, []);
    ClosingIs();
    LastPiece(u, CLOSING, []);
    before, end := ps[..|ps| - 1], ps[|ps| - 1] + CLOSING;
    PiecesWithout(u, [], 'H');
    PiecesWithout(u, [], '#');
    hide Contains, Pieces;
    forall k | 0 <= k < |before| ensures !Contains(before[k], END) {
      assert before[k] == ps[k];
      Lacks(before[k], END, 7);
    }
    ContainsAt(end, ps[|ps| - 1], END, "    ") by {
      ConcatAssoc(ps[|ps| - 1], END, "    ");
    }
    forall k, c | 0 <= k < |before + [end]| ensures !Declares((before + [end])[k], c) {
      assert '#' !in (before + [end])[k];
      Lacks((before + [end])[k], TYPES, 6);
    }
    NoneDeclare(before + [end]);
  }

  lemma ClosingIs()
    ensures CLOSING == END + "    " && OneLine(CLOSING) && '#' !in CLOSING && !EndsInReturn(CLOSING)
  {
    assert Free(CLOSING, '#', '#', '#');
  }

  lemma GoodEpochs(doc: Doc)
    requires Sound(doc)
    ensures doc.epochs != [] && forall e | e in doc.epochs :: GoodEpoch(e, doc.mask)
  {
    hide GoodEpoch, Overdue;
  }

  // ---------------------------------------------------------------- the file as it is read

  /** The lines of a file, in the five parts it is printed in. */
  lemma LinesInParts(front: seq<string>, ant: string, middle: seq<string>, closing: string, body: seq<string>)
    requires OneLiners(front) && OneLiners(middle) && OneLiners(body)
    requires !EndsInReturn(ant) && !EndsInReturn(closing)
    ensures Lines(Unlines(front) + (ant + ([NEWLINE] + (Unlines(middle) + (closing + ([NEWLINE] + Unlines(body)))))))
      == front + (Pieces(ant, []) + (middle + (Pieces(closing, []) + body)))
  {
    hide Unlines, LinesFrom, Pieces, OneLiners;
    var t4 := Unlines(body);
    var t3 := closing + ([NEWLINE] + t4);
    var t2 := Unlines(middle) + t3;
    var t1 := ant + ([NEWLINE] + t2);
    ReadLines(front, t1);
    ReadPieces(ant, t2, []);
    ReadLines(middle, t3);
    ReadPieces(closing, t4, []);
    ReadLines(body, []);
    ConcatEmpty(t4);
    NoLines();
    ConcatEmpty(body);
  }

  lemma NoLines()
    ensures LinesFrom([], []) == []
  {
  }

  /** A file, printed in five parts. */
  lemma FileInParts(doc: Doc, z: string, x: string, n: nat)
    requires doc.epochs != [] && Region(z, x, n, doc.epochs)
    ensures var first := doc.First().stamp;
      Head(doc) + z == Unlines(Front(doc.station, first)) + (AntennaLine(doc.station) + ([NEWLINE]
        + (Unlines(Middle(doc.station, doc.mask, first))
        + (((x + Repeat(' ', n)) + CLOSING) + ([NEWLINE] + Unlines(Body(doc.epochs)))))))
  {
    var first := doc.First().stamp;
    var front, back, sys := Front(doc.station, first), Back(doc.station, first), SysLines(doc.mask, 0);
    var ant, times := AntennaLine(doc.station), [IntervalLine(), FirstLine(first)];
    var middle := Middle(doc.station, doc.mask, first);
    assert Head(doc) == Unlines(Opening(doc.station, first) + (sys + times)) by {
      hide Opening, SysLines, IntervalLine, FirstLine, Unlines;
    }
    assert middle == back + (sys + times) by {
      hide Back, SysLines, IntervalLine, FirstLine;
    }
    hide *;
    OpeningParts(doc.station, first);
    RegionIs(z, x, n, doc.epochs);
    HeadInParts(front, ant, back, sys + times);
    Regroup2(Unlines(front), ant, Unlines(middle), x, Repeat(' ', n), [NEWLINE] + Unlines(Body(doc.epochs)));
  }

  lemma RegionIs(z: string, x: string, n: nat, epochs: seq<Epoch>)
    requires Region(z, x, n, epochs)
    ensures z == x + (Repeat(' ', n) + (CLOSING + ([NEWLINE] + Unlines(Body(epochs)))))
    ensures 'H' !in x && '#' !in x
  {
    hide Body, Unlines;
  }

  lemma HeadInParts(front: seq<string>, ant: string, back: seq<string>, more: seq<string>)
    ensures Unlines((front + ([ant] + back)) + more)
      == Unlines(front) + (ant + ([NEWLINE] + Unlines(back + more)))
  {
    ConcatAssoc(front, [ant] + back, more);
    ConcatAssoc([ant], back, more);
    UnlinesConcat(front, [ant] + (back + more));
    assert ([ant] + (back + more))[1..] == back + more;
  }

  lemma Regroup2(f: string, ant: string, m: string, x: string, blanks: string, rest: string)
    ensures (f + (ant + ([NEWLINE] + m))) + (x + (blanks + (CLOSING + rest)))
      == f + (ant + ([NEWLINE] + (m + (((x + blanks) + CLOSING) + rest))))
  {
    ConcatAssoc(x, blanks, CLOSING + rest);
    ConcatAssoc(x + blanks, CLOSING, rest);
    var t := x + (blanks + (CLOSING + rest));
    ConcatAssoc([NEWLINE], m, t);
    ConcatAssoc(ant, [NEWLINE] + m, t);
    ConcatAssoc(f, ant + ([NEWLINE] + m), t);
  }

  // ------------------------------------------------------------------- where the header ends

  ghost predicate Reads(ls: seq<string>, n: nat) {
    && n < |ls|
    && var header, w := ls[..n + 1], WalkBody(ls[n + 1..]);
      && AnyContains(header, FIRST) && AnyContains(header, INTERVAL)
      && w.ok && w.epochs > 0
      && DeclaredIn(header) == w.seen
  }

  lemma AcceptsIs(text: string, ls: seq<string>, n: nat)
    requires Lines(text) == ls && HeaderEnd(ls) == n
    ensures Accepts(text) == Reads(ls, n)
  {
  }

  /** A header ends at its first line with the closing words. */
  lemma EndsAt(a: seq<string>, end: string, b: seq<string>)
    requires NoneEnds(a) && Contains(end, END)
    ensures HeaderEnd(a + ([end] + b)) == |a|
    ensures Reads(a + ([end] + b), |a|) <==>
      var w := WalkBody(b);
      AnyContains(a + [end], FIRST) && AnyContains(a + [end], INTERVAL) && w.ok && w.epochs > 0
      && DeclaredIn(a + [end]) == w.seen
  {
    var ls := a + ([end] + b);
    assert ls[..|a| + 1] == a + [end] && ls[|a| + 1..] == b;
    assert HeaderEnd([end] + b) == 0 by {
      hide Contains;
    }
    hide Contains, DeclaredIn, WalkBody, AnyContains;
    HeaderEndSkips(a, [end] + b);
  }

  lemma AnyIn(a: seq<string>, b: seq<string>, c: seq<string>, t: string)
    requires AnyContains(b, t)
    ensures AnyContains(a + (b + c), t)
  {
    hide Contains;
    var i :| 0 <= i < |b| && Contains(b[i], t);
    assert (a + (b + c))[|a| + i] == b[i];
  }

  /** The first of some lines that end a header. */
  lemma {:induction false} FirstEnding(ps: seq<string>) returns (k: nat)
    requires !NoneEnds(ps)
    ensures k < |ps| && Contains(ps[k], END) && NoneEnds(ps[..k])
    decreases |ps|
  {
    hide Contains;
    if Contains(ps[0], END) {
      k := 0;
    } else {
      assert exists i :: 0 <= i < |ps| && Contains(ps[i], END);
      var i :| 0 <= i < |ps| && Contains(ps[i], END);
      assert ps[1..][i - 1] == ps[i];
      k := FirstEnding(ps[1..]);
      assert ps[..k + 1] == [ps[0]] + ps[1..][..k];
      k := k + 1;
    }
  }

  /** A header that ends among its first lines has no interval record. */
  lemma EarlyEndFails(f: seq<string>, ps: seq<string>, rest: seq<string>)
    requires NoneEnds(f) && !NoneEnds(ps)
    requires forall k | 0 <= k < |f| :: !Contains(f[k], INTERVAL)
    requires forall k | 0 <= k < |ps| :: !Contains(ps[k], INTERVAL)
    ensures var ls := f + (ps + rest); !Reads(ls, HeaderEnd(ls))
  {
    var k := FirstEnding(ps);
    var a, b := f + ps[..k], ps[k + 1..] + rest;
    assert f + (ps + rest) == a + ([ps[k]] + b);
    hide Contains, HeaderEnd, Reads, DeclaredIn, WalkBody;
    NoneEndsConcat(f, ps[..k]);
    EndsAt(a, ps[k], b);
    forall i | 0 <= i < |a + [ps[k]]| ensures !Contains((a + [ps[k]])[i], INTERVAL) {
    }
  }

  /** A header that ends where it should reads well exactly when its antenna's lines declare no
      constellation without rows. */
  lemma LateEndReads(f: seq<string>, ps: seq<string>, m: seq<string>, c: seq<string>, end: string, b: seq<string>)
    requires NoneEnds(f) && NoneEnds(ps) && NoneEnds(m) && NoneEnds(c) && Contains(end, END)
    requires DeclaredIn(f) == {} && DeclaredIn(c + [end]) == {}
    requires AnyContains(m, FIRST) && AnyContains(m, INTERVAL)
    requires WalkBody(b).ok && WalkBody(b).epochs > 0 && DeclaredIn(m) == WalkBody(b).seen
    ensures var ls := f + (ps + (m + ((c + [end]) + b)));
      Reads(ls, HeaderEnd(ls)) <==> DeclaredIn(ps) <= WalkBody(b).seen
  {
    hide Contains, HeaderEnd, Reads, DeclaredIn, WalkBody, AnyContains, NoneEnds;
    var a, h := (f + ps) + (m + c), c + [end];
    NoneEndsConcat(f, ps);
    NoneEndsConcat(m, c);
    NoneEndsConcat(f + ps, m + c);
    EndsAt(a, end, b);
    assert f + (ps + (m + (h + b))) == a + ([end] + b);
    assert a + [end] == (f + ps) + (m + h);
    AnyIn(f + ps, m, h, FIRST);
    AnyIn(f + ps, m, h, INTERVAL);
    DeclaredConcat(f, ps);
    DeclaredConcat(m, h);
    DeclaredConcat(f + ps, m + h);
  }
}
