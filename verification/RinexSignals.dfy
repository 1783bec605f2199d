/** Signals and their columns. */
module RinexSignals {
  import opened Common
  import opened RinexText
  import opened RinexSat
  import opened RinexFile
  import opened RinexColumns

  // The receiver names a signal by constellation and number. Which carrier that is and how it is
  // tracked, and how RINEX writes both (RINEX 3.03, tables 4 to 10), is said here without regard to
  // the logger; its columns and its choices are then compared with it.

  datatype Carrier = L1 | L2 | L5 | G1 | G2 | E1 | E5a | E5b | B1I | B1C | B2a | B2b | B3I

  /** The digit that stands for a carrier in an observation code. */
  function Digit(c: Carrier): char {
    match c
    case L1 => '1' case L2 => '2' case L5 => '5'
    case G1 => '1' case G2 => '2'
    case E1 => '1' case E5a => '5' case E5b => '7'
    case B1I => '2' case B1C => '1' case B2a => '5' case B2b => '7' case B3I => '6'
  }

  /** A signal: its carrier, and the letter for the way it is tracked. */
  datatype Signal = Signal(carrier: Carrier, tracking: char)

  /** The receiver's signals. */
  function Receives(sys: nat, sig: nat): Option<Signal> {
    match (sys, sig)
    case (0, 0) => Some(Signal(L1, 'C'))
    case (0, 16) => Some(Signal(L1, 'L'))
    case (0, 5) => Some(Signal(L2, 'W'))
    case (0, 9) => Some(Signal(L2, 'L'))
    case (0, 17) => Some(Signal(L2, 'S'))
    case (0, 14) => Some(Signal(L5, 'Q'))
    case (1, 0) => Some(Signal(G1, 'C'))
    case (1, 5) => Some(Signal(G2, 'C'))
    case (3, 2) => Some(Signal(E1, 'C'))
    case (3, 12) => Some(Signal(E5a, 'Q'))
    case (3, 17) => Some(Signal(E5b, 'Q'))
    case (4, 0) => Some(Signal(B1I, 'I'))
    case (4, 8) => Some(Signal(B1C, 'P'))
    case (4, 12) => Some(Signal(B2a, 'P'))
    case (4, 13) => Some(Signal(B2b, 'Q'))
    case (4, 21) => Some(Signal(B3I, 'I'))
    case _ => None
  }

  /** The k-th observation code of a constellation's band in the header: its kind, digit and letter. */
  function Code(sys: nat, band: nat, k: nat): string {
    var at, codes := 16 * band + 4 * k, ObsTypes(sys);
    if at + 3 <= |codes| then codes[at..at + 3] else []
  }

  predicate HasCode(sys: nat, band: nat, digit: char, tracking: char) {
    && Code(sys, band, 0) == ['C', digit, tracking] && Code(sys, band, 1) == ['L', digit, tracking]
    && Code(sys, band, 2) == ['D', digit, tracking] && Code(sys, band, 3) == ['S', digit, tracking]
  }

  /** The four codes of a band, printed. */
  function Codes(digit: char, letter: char): (codes: string)
    ensures |codes| == 15
  {
    ['C', digit, letter, ' ', 'L', digit, letter, ' ', 'D', digit, letter, ' ', 'S', digit, letter]
  }

  lemma CodesAre(digit: char, letter: char)
    ensures var codes := Codes(digit, letter);
      && codes[0..3] == ['C', digit, letter] && codes[4..7] == ['L', digit, letter]
      && codes[8..11] == ['D', digit, letter] && codes[12..15] == ['S', digit, letter]
  {
  }

  lemma BandCodes(sys: nat, band: nat, front: string, back: string, digit: char, letter: char)
    requires ObsTypes(sys) == front + (Codes(digit, letter) + back) && |front| == 16 * band
    ensures HasCode(sys, band, digit, letter)
  {
    hide ObsTypes, Codes;
    CodesAre(digit, letter);
    var codes := Codes(digit, letter);
    InMiddle(front, codes, back, 0, 3);
    InMiddle(front, codes, back, 4, 7);
    InMiddle(front, codes, back, 8, 11);
    InMiddle(front, codes, back, 12, 15);
  }

  lemma InMiddle(front: string, s: string, back: string, i: nat, k: nat)
    requires i <= k <= |s|
    ensures (front + (s + back))[|front| + i..|front| + k] == s[i..k]
  {
  }

  lemma FirstBand(sys: nat, digit: char, letter: char, rest: string)
    requires ObsTypes(sys) == Codes(digit, letter) + rest
    ensures HasCode(sys, 0, digit, letter)
  {
    hide ObsTypes, Codes;
    assert [] + (Codes(digit, letter) + rest) == Codes(digit, letter) + rest;
    BandCodes(sys, 0, [], rest, digit, letter);
  }

  lemma SecondBand(sys: nat, a: string, digit: char, letter: char, rest: string)
    requires |a| == 15 && ObsTypes(sys) == a + (" " + (Codes(digit, letter) + rest))
    ensures HasCode(sys, 1, digit, letter)
  {
    hide ObsTypes, Codes;
    ConcatAssoc(a, " ", Codes(digit, letter) + rest);
    BandCodes(sys, 1, a + " ", rest, digit, letter);
  }

  lemma TwoBands(sys: nat, digit: char, letter: char, digit': char, letter': char)
    requires ObsTypes(sys) == Codes(digit, letter) + (" " + Codes(digit', letter'))
    ensures HasCode(sys, 0, digit, letter) && HasCode(sys, 1, digit', letter')
  {
    hide ObsTypes, Codes;
    ConcatEmpty(Codes(digit', letter'));
    FirstBand(sys, digit, letter, " " + Codes(digit', letter'));
    SecondBand(sys, Codes(digit, letter), digit', letter', []);
  }

  lemma GpsBands()
    ensures HasCode(0, 0, '1', 'C') && HasCode(0, 1, '2', 'W') && HasCode(0, 2, '5', 'Q')
  {
    var a, b, c := Codes('1', 'C'), Codes('2', 'W'), Codes('5', 'Q');
    assert ObsTypes(0) == a + (" " + (b + (" " + c)));
    hide ObsTypes, Codes;
    FirstBand(0, '1', 'C', " " + (b + (" " + c)));
    SecondBand(0, a, '2', 'W', " " + c);
    var front := a + (" " + (b + " "));
    assert front + (c + []) == a + (" " + (b + (" " + c)));
    BandCodes(0, 2, front, [], '5', 'Q');
  }

  /** What the header declares: for each band pseudorange, phase, Doppler shift and signal strength
      of one carrier tracked one way. */
  lemma ColumnsAre(sys: nat)
    requires FindSystem(sys).Some?
    ensures sys == 0 ==> HasCode(sys, 0, '1', 'C') && HasCode(sys, 1, '2', 'W') && HasCode(sys, 2, '5', 'Q')
    ensures sys == 1 ==> HasCode(sys, 0, '1', 'C') && HasCode(sys, 1, '2', 'C')
    ensures sys == 3 ==> HasCode(sys, 0, '1', 'C') && HasCode(sys, 1, '5', 'Q')
    ensures sys == 4 ==> HasCode(sys, 0, '2', 'I') && HasCode(sys, 1, '6', 'I')
    ensures sys == 5 ==> HasCode(sys, 0, '1', 'C') && HasCode(sys, 1, '2', 'L')
    ensures Bands(FindSystem(sys).value) == if sys == 0 then 3 else 2
  {
    hide HasCode;
    GpsBands();
    if sys == 1 {
      TwoBands(1, '1', 'C', '2', 'C');
    } else if sys == 3 {
      TwoBands(3, '1', 'C', '5', 'Q');
    } else if sys == 4 {
      TwoBands(4, '2', 'I', '6', 'I');
    } else if sys == 5 {
      TwoBands(5, '1', 'C', '2', 'L');
    }
  }

  // ------------------------------------------------------------ signals in their columns

  /** The digit and the letter of a band's codes. */
  lemma OneCode(sys: nat, band: nat, digit: char, tracking: char, digit': char, tracking': char)
    requires HasCode(sys, band, digit, tracking) && HasCode(sys, band, digit', tracking')
    ensures digit == digit' && tracking == tracking'
  {
    var a, b := ['C', digit, tracking], ['C', digit', tracking'];
    assert a[1] == b[1] && a[2] == b[2];
  }

  /** The header's columns: which carrier and which way of tracking each band is for. */
  function Column(sys: nat, band: nat): Option<(char, char)> {
    match (sys, band)
    case (0, 0) => Some(('1', 'C'))
    case (0, 1) => Some(('2', 'W'))
    case (0, 2) => Some(('5', 'Q'))
    case (1, 0) => Some(('1', 'C'))
    case (1, 1) => Some(('2', 'C'))
    case (3, 0) => Some(('1', 'C'))
    case (3, 1) => Some(('5', 'Q'))
    case (4, 0) => Some(('2', 'I'))
    case (4, 1) => Some(('6', 'I'))
    case (5, 0) => Some(('1', 'C'))
    case (5, 1) => Some(('2', 'L'))
    case _ => None
  }

  lemma ColumnExists(sys: nat, band: nat)
    ensures Column(sys, band).Some? <==> FindSystem(sys).Some? && band < Bands(FindSystem(sys).value)
  {
  }

  lemma ColumnIs(sys: nat, band: nat)
    ensures Column(sys, band).Some? <==> FindSystem(sys).Some? && band < Bands(FindSystem(sys).value)
    ensures Column(sys, band).Some? ==> HasCode(sys, band, Column(sys, band).value.0, Column(sys, band).value.1)
  {
    ColumnExists(sys, band);
    hide FindSystem, HasCode, Bands;
    if Column(sys, band).Some? {
      ColumnsAre(sys);
    }
  }

  /** The header has a column for the carrier, and it is the band's. */
  ghost predicate HasColumn(sys: nat, band: nat, digit: char) {
    && FindSystem(sys).Some? && band < Bands(FindSystem(sys).value)
    && exists tracking :: HasCode(sys, band, digit, tracking)
  }

  lemma HasColumnIs(sys: nat, band: nat, digit: char)
    ensures HasColumn(sys, band, digit) <==> Column(sys, band).Some? && Column(sys, band).value.0 == digit
  {
    ColumnIs(sys, band);
    hide HasCode, FindSystem, Column, Bands;
    if HasColumn(sys, band, digit) {
      var t :| HasCode(sys, band, digit, t);
      var c := Column(sys, band).value;
      OneCode(sys, band, digit, t, c.0, c.1);
    }
  }

  /** A signal is kept in a band exactly if the band's column is for its carrier: never in another
      carrier's, and nowhere only if the header has no column for its carrier. */
  lemma SignalsInTheirColumns(sys: nat, sig: nat, band: nat)
    ensures SignalBand(sys, sig).Band? && SignalBand(sys, sig).band == band <==>
      Receives(sys, sig).Some? && HasColumn(sys, band, Digit(Receives(sys, sig).value.carrier))
  {
    if Receives(sys, sig).Some? {
      HasColumnIs(sys, band, Digit(Receives(sys, sig).value.carrier));
    }
    hide HasColumn;
  }

  /** A signal ranks ten exactly if it is tracked as its column says, and less otherwise. */
  lemma RankIs(sys: nat, sig: nat)
    requires SignalBand(sys, sig).Band?
    ensures Receives(sys, sig).Some? && Column(sys, SignalBand(sys, sig).band).Some?
    ensures SignalBand(sys, sig).pref <= 10
    ensures SignalBand(sys, sig).pref == 10 <==>
      Receives(sys, sig).value.tracking == Column(sys, SignalBand(sys, sig).band).value.1
  {
  }

  /** Of the signals of a band, the one tracked as the header says outranks all others. */
  lemma LabelledSignalWins(sys: nat, sig: nat, sig': nat, band: nat, digit: char)
    requires SignalBand(sys, sig).Band? && SignalBand(sys, sig).band == band
    requires SignalBand(sys, sig').Band? && SignalBand(sys, sig').band == band && sig' != sig
    requires Receives(sys, sig).Some? && HasCode(sys, band, digit, Receives(sys, sig).value.tracking)
    ensures SignalBand(sys, sig).pref > SignalBand(sys, sig').pref
  {
    RankIs(sys, sig);
    RankIs(sys, sig');
    BandsAreDeclared(sys, sig, sig');
    ColumnIs(sys, band);
    hide HasCode, SignalBand, Receives, Column;
    var c := Column(sys, band).value;
    OneCode(sys, band, digit, Receives(sys, sig).value.tracking, c.0, c.1);
  }

  // ------------------------------------------------------------------------ in the file

  /** The record's four values are read from the columns of a row from `at` on, the phase with the opposite
      sign: pseudorange, phase, Doppler shift and signal strength. */
  predicate ValuesAt(row: string, at: nat, r: Record) {
    && at + 64 <= |row|
    && var t := row[at..at + 64];
      && ReadFixed(t[..14], 3) == Some(r.pseudorange) && ReadFixed(t[16..30], 3) == Some(-r.adr)
      && ReadFixed(t[32..46], 3) == Some(r.doppler) && ReadFixed(t[48..62], 3) == Some(r.cn0)
  }

  /** A record of the satellite whose signal is of the carrier that the band's column is for. */
  ghost predicate Belongs(r: Record, key: SatKey, band: nat) {
    && r.prn != 0 && FormatSatId(r.sys, r.prn).Some? && KeyOf(r) == key
    && Receives(r.sys, r.sig).Some?
    && HasColumn(key.sys, band, Digit(Receives(r.sys, r.sig).value.carrier))
  }

  lemma BelongsIsFeeds(r: Record, key: SatKey, band: nat)
    ensures Belongs(r, key, band) <==> Feeds(r, key, band)
  {
    SignalsInTheirColumns(r.sys, r.sig, band);
    hide HasColumn, Receives, SignalBand, FormatSatId;
  }

  /** The columns of a row from `at` on hold the best record there is of the satellite and of the
      carrier that the header declares for the band: the highest ranking, the first of equals; or,
      if there is none, nothing. */
  ghost predicate HoldsCarrier(row: string, at: nat, rs: seq<Record>, key: SatKey, band: nat, best: nat) {
    if forall k | 0 <= k < |rs| :: !Belongs(rs[k], key, band) then
      at + 64 <= |row| && row[at..at + 64] == Repeat(' ', 64)
    else
      && best < |rs| && Belongs(rs[best], key, band) && ValuesAt(row, at, rs[best])
      && (forall k | 0 <= k < |rs| && Belongs(rs[k], key, band) :: Rank(rs[k]) <= Rank(rs[best]))
      && (forall k | 0 <= k < best && Belongs(rs[k], key, band) :: Rank(rs[k]) < Rank(rs[best]))
  }

  /** What the row of a merged satellite holds for each band that its constellation declares. */
  lemma RowHoldsItsCarriers(rs: seq<Record>, i: nat, band: nat) returns (best: nat)
    requires i < |Merged(rs)| && FindSystem(Merged(rs)[i].key.sys).Some?
    requires band < Bands(FindSystem(Merged(rs)[i].key.sys).value)
    requires forall c | c in Merged(rs)[i].cells :: CellFits(c)
    ensures HoldsCarrier(RowLine(Merged(rs)[i]), 3 + 64 * band, rs, Merged(rs)[i].key, band, best)
  {
    var s := Merged(rs)[i];
    TableIsLegal(FindSystem(s.key.sys).value);
    hide *;
    SatIsRow(rs, i, band);
    best := BestIsBest(rs, s.key, band);
    CellsFit(s);
    RowColumns(s, band);
    CellIs(RowLine(s), 3 + 64 * band, s.cells[band], rs, s.key, band, best);
  }

  lemma CellsFit(s: Sat)
    requires |s.cells| == 3 && forall c | c in s.cells :: CellFits(c)
    ensures forall k | 0 <= k < 3 :: CellFits(s.cells[k])
  {
    hide CellFits;
    assert s.cells[0] in s.cells && s.cells[1] in s.cells && s.cells[2] in s.cells;
  }

  lemma BestByCarrier(rs: seq<Record>, key: SatKey, band: nat, c: Cell, best: nat)
    requires IsBest(rs, key, band, c, best)
    ensures c == EMPTY <==> forall k | 0 <= k < |rs| :: !Belongs(rs[k], key, band)
    ensures c != EMPTY ==>
      && best < |rs| && Belongs(rs[best], key, band) && c.pref == Rank(rs[best])
      && (forall k | 0 <= k < |rs| && Belongs(rs[k], key, band) :: Rank(rs[k]) <= Rank(rs[best]))
      && (forall k | 0 <= k < best && Belongs(rs[k], key, band) :: Rank(rs[k]) < Rank(rs[best]))
  {
    hide Belongs, Feeds, Rank;
    forall k | 0 <= k < |rs| ensures Belongs(rs[k], key, band) <==> Feeds(rs[k], key, band) {
      BelongsIsFeeds(rs[k], key, band);
    }
  }

  lemma SatIsRow(rs: seq<Record>, i: nat, band: nat)
    requires i < |Merged(rs)| && band < 3
    ensures var s := Merged(rs)[i];
      && |s.cells| == 3 && s.cells[band] == Best(rs, s.key, band)
      && FormatSatId(s.key.sys, s.key.prn).Some?
  {
    hide Best, Keys, FormatSatId;
    var b := ListedIsLegal(rs, Keys(rs)[i]);
  }

  lemma CellIs(row: string, at: nat, c: Cell, rs: seq<Record>, key: SatKey, band: nat, best: nat)
    requires at + 64 <= |row| && row[at..at + 64] == CellText(c) && IsBest(rs, key, band, c, best) && CellFits(c)
    ensures HoldsCarrier(row, at, rs, key, band, best)
  {
    BestByCarrier(rs, key, band, c, best);
    hide Feeds, Rank, Belongs;
    if c != EMPTY {
      CellReads(c.obs.value, c.pref);
      hide CellText, ReadFixed, CellFits;
      assert c == Cell(c.pref, Some(c.obs.value));
    }
  }

  // ------------------------------------------------------------------------- satellites

  /** The satellite a receiver means by a constellation and a raw number: the numbers of GLONASS,
      BeiDou and QZSS may come from a common range that begins at 38, 141 and 193. */
  function Means(sys: nat, raw: nat): Option<(char, nat)> {
    if sys == 0 && 1 <= raw <= 32 then Some(('G', raw))
    else if sys == 1 && 1 <= raw <= 24 then Some(('R', raw))
    else if sys == 1 && 38 <= raw <= 61 then Some(('R', raw - 37))
    else if sys == 3 && 1 <= raw <= 36 then Some(('E', raw))
    else if sys == 4 && 1 <= raw <= 63 then Some(('C', raw))
    else if sys == 4 && 141 <= raw <= 203 then Some(('C', raw - 140))
    else if sys == 5 && 1 <= raw <= 10 then Some(('J', raw))
    else if sys == 5 && 193 <= raw <= 202 then Some(('J', raw - 192))
    else None
  }

  lemma SlotMeans(sys: nat, raw: nat)
    ensures FormatSatId(sys, raw).Some? <==> Means(sys, raw).Some?
    ensures Means(sys, raw).Some? ==>
      FindSystem(sys).Some? && Means(sys, raw) == Some((CodeOf(sys), Slot(FindSystem(sys).value, raw)))
  {
    hide DigitChar;
  }

  /** An identifier is written exactly for the satellites there are, and spells the one meant. */
  lemma SatelliteIsMeant(sys: nat, raw: nat, rest: string)
    ensures FormatSatId(sys, raw).Some? <==> Means(sys, raw).Some?
    ensures FormatSatId(sys, raw).Some? ==> ReadSatId(FormatSatId(sys, raw).value + rest) == Means(sys, raw)
  {
    SlotMeans(sys, raw);
    SatIdReadsBack(sys, raw, rest);
    hide *;
  }
}
