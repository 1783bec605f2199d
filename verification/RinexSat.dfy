/** Satellites and signals (main/rinex_satid.h, main/rinex_logger.cpp). */
module RinexSat {
  import opened Common
  import opened RinexText

  // The table and the identifiers of satellites, the bands of signals, and how the records of one
  // epoch are merged (RINEX 3.03, section 5 and appendix tables A2 and A3).

  datatype SystemDef = SystemDef(sys: nat, code: char, maxPrn: nat, offset: nat, threshold: nat, nobs: nat)

  const SYSTEMS: seq<SystemDef> := [
    SystemDef(0, 'G', 32, 0, 100000, 12),
    SystemDef(1, 'R', 24, 37, 38, 8),
    SystemDef(3, 'E', 36, 0, 100000, 8),
    SystemDef(4, 'C', 63, 140, 141, 8),
    SystemDef(5, 'J', 10, 192, 193, 8)]

  /** The table's last column: the observation codes, four for each band. */
  function ObsTypes(sys: nat): string {
    if sys == 0 then "C1C L1C D1C S1C" + (" " + ("C2W L2W D2W S2W" + (" " + "C5Q L5Q D5Q S5Q")))
    else if sys == 1 then "C1C L1C D1C S1C" + (" " + "C2C L2C D2C S2C")
    else if sys == 3 then "C1C L1C D1C S1C" + (" " + "C5Q L5Q D5Q S5Q")
    else if sys == 4 then "C2I L2I D2I S2I" + (" " + "C6I L6I D6I S6I")
    else "C1C L1C D1C S1C" + (" " + "C2L L2L D2L S2L")
  }

  /** find_system */
  function FindSystem(sys: nat): (d: Option<SystemDef>)
    ensures d.Some? ==> d.value in SYSTEMS && d.value.sys == sys
    ensures d.None? ==> forall e | e in SYSTEMS :: e.sys != sys
  {
    if sys == 0 then Some(SYSTEMS[0])
    else if sys == 1 then Some(SYSTEMS[1])
    else if sys == 3 then Some(SYSTEMS[2])
    else if sys == 4 then Some(SYSTEMS[3])
    else if sys == 5 then Some(SYSTEMS[4])
    else None
  }

  /** system_bands */
  function Bands(d: SystemDef): nat {
    d.nobs / 4
  }

  /** The satellite number within its constellation. */
  function Slot(d: SystemDef, raw: nat): int {
    if raw >= d.threshold then raw - d.offset else raw
  }

  /** format_sat_id */
  function FormatSatId(sys: nat, raw: nat): (id: Option<string>)
    ensures id.Some? ==> |id.value| == 3
  {
    match FindSystem(sys)
    case None => None
    case Some(d) =>
      var prn := Slot(d, raw);
      if prn < 1 || prn > d.maxPrn then None
      else Some([d.code, DigitChar(prn % 100 / 10), DigitChar(prn % 10)])
  }

  method FindSystemLoop(sys: nat) returns (d: Option<SystemDef>)
    ensures d == FindSystem(sys)
  {
    for i := 0 to |SYSTEMS|
      invariant forall k | 0 <= k < i :: SYSTEMS[k].sys != sys
    {
      if SYSTEMS[i].sys == sys {
        return Some(SYSTEMS[i]);
      }
    }
    return None;
  }

  function CodeOf(sys: nat): char {
    match FindSystem(sys)
    case None => '?'
    case Some(d) => d.code
  }

  /** The greatest satellite number a reader accepts for a constellation letter, 0 for none. */
  function MaxPrn(c: char): nat {
    if c == 'G' then 32 else if c == 'R' then 24 else if c == 'E' then 36
    else if c == 'C' then 63 else if c == 'J' then 10 else if c == 'S' then 99 else 0
  }

  /** What a reader takes an identifier apart into: a letter and two digits at the front. */
  function ReadSatId(row: string): (r: Option<(char, nat)>) {
    if |row| >= 3 && MaxPrn(row[0]) > 0 && IsDigit(row[1]) && IsDigit(row[2])
    then Some((row[0], 10 * (row[1] as int - '0' as int) + (row[2] as int - '0' as int)))
    else None
  }

  lemma TableIsLegal(d: SystemDef)
    requires d in SYSTEMS
    ensures MaxPrn(d.code) == d.maxPrn && 1 <= d.maxPrn < 100 && d.nobs == 4 * Bands(d) && 2 <= Bands(d) <= 3
  {
  }

  /** An identifier is written exactly for the satellite numbers of a known constellation, and
      reads back as that constellation and number, which is legal; whatever follows it. */
  lemma SatIdReadsBack(sys: nat, raw: nat, rest: string)
    ensures FormatSatId(sys, raw).Some? <==>
      FindSystem(sys).Some? && var d := FindSystem(sys).value; 1 <= Slot(d, raw) <= d.maxPrn
    ensures FormatSatId(sys, raw).Some? ==>
      && ReadSatId(FormatSatId(sys, raw).value + rest) == Some((CodeOf(sys), Slot(FindSystem(sys).value, raw)))
      && 1 <= Slot(FindSystem(sys).value, raw) <= MaxPrn(CodeOf(sys))
  {
    if FormatSatId(sys, raw).Some? {
      var d := FindSystem(sys).value;
      TableIsLegal(d);
      hide FindSystem, MaxPrn;
      var prn: nat := Slot(d, raw);
      assert prn % 100 == prn && prn == 10 * (prn / 10) + prn % 10;
    }
  }

  lemma CodesDiffer(sys: nat, sys': nat)
    requires FindSystem(sys).Some? && FindSystem(sys').Some?
    ensures CodeOf(sys) == CodeOf(sys') <==> sys == sys'
  {
  }

  /** Two records get the same identifier exactly when they mean the same satellite of the same
      constellation; raw numbers that differ by the constellation's offset do. */
  lemma SameSatId(sys: nat, raw: nat, sys': nat, raw': nat)
    requires FormatSatId(sys, raw).Some? && FormatSatId(sys', raw').Some?
    ensures FormatSatId(sys, raw) == FormatSatId(sys', raw') <==>
      sys == sys' && Slot(FindSystem(sys).value, raw) == Slot(FindSystem(sys').value, raw')
  {
    SatIdReadsBack(sys, raw, []);
    SatIdReadsBack(sys', raw', []);
    CodesDiffer(sys, sys');
    hide FindSystem, ReadSatId, Slot, CodeOf;
    ConcatEmpty(FormatSatId(sys, raw).value);
    ConcatEmpty(FormatSatId(sys', raw').value);
  }

  // ---------------------------------------------------------------- signals and their bands

  datatype Band = Band(band: nat, pref: nat) | Ignored

  /** signal_band */
  function SignalBand(sys: nat, sig: nat): Band {
    if sys == 0 then
      if sig == 0 then Band(0, 10)
      else if sig == 16 then Band(0, 5)
      else if sig == 5 then Band(1, 10)
      else if sig == 9 then Band(1, 6)
      else if sig == 17 then Band(1, 5)
      else if sig == 14 then Band(2, 10)
      else Ignored
    else if sys == 1 then
      if sig == 0 then Band(0, 10) else if sig == 5 then Band(1, 10) else Ignored
    else if sys == 3 then
      if sig == 2 then Band(0, 10) else if sig == 12 then Band(1, 10) else Ignored
    else if sys == 4 then
      if sig == 0 then Band(0, 10) else if sig == 21 then Band(1, 10) else Ignored
    else Ignored
  }

  /** Every signal that is kept has a column in the header, and no two signals of one
      constellation rank the same within a band. */
  lemma BandsAreDeclared(sys: nat, sig: nat, sig': nat)
    requires SignalBand(sys, sig).Band?
    ensures FindSystem(sys).Some? && SignalBand(sys, sig).band < Bands(FindSystem(sys).value)
    ensures SignalBand(sys, sig).pref > 0
    ensures SignalBand(sys, sig) == SignalBand(sys, sig') ==> sig == sig'
  {
  }

  /** One observation, in thousandths. */
  datatype Obs = Obs(pseudorange: int, carrierPhase: int, doppler: int, cn0: int)

  /** One record of a RANGEA message; `adr` has the sign the receiver gives it. */
  datatype Record = Record(prn: nat, pseudorange: int, adr: int, doppler: int, cn0: int, sys: nat, sig: nat)

  /** The observation kept for one band: nothing yet ranks -1. */
  datatype Cell = Cell(pref: int, obs: Option<Obs>)

  const EMPTY := Cell(-1, None)

  datatype SatKey = SatKey(sys: nat, prn: nat)
  datatype Sat = Sat(key: SatKey, cells: seq<Cell>)

  predicate Usable(r: Record) {
    r.prn != 0 && FormatSatId(r.sys, r.prn).Some? && SignalBand(r.sys, r.sig).Band?
  }

  function KeyOf(r: Record): SatKey {
    SatKey(r.sys, r.prn)
  }

  function ObsOf(r: Record): Obs {
    Obs(r.pseudorange, -r.adr, r.doppler, r.cn0)
  }

  predicate Feeds(r: Record, key: SatKey, band: nat) {
    Usable(r) && KeyOf(r) == key && SignalBand(r.sys, r.sig).band == band
  }

  function Better(c: Cell, r: Record): Cell
    requires SignalBand(r.sys, r.sig).Band?
  {
    var pref := SignalBand(r.sys, r.sig).pref;
    if pref > c.pref then Cell(pref, Some(ObsOf(r))) else c
  }

  /** The cell of a satellite and band after a list of records. */
  function Best(rs: seq<Record>, key: SatKey, band: nat): (c: Cell)
    decreases |rs|
  {
    if rs == [] then EMPTY
    else
      var c, r := Best(rs[..|rs| - 1], key, band), rs[|rs| - 1];
      if Feeds(r, key, band) then Better(c, r) else c
  }

  /** The satellites with a usable record, in the order of their first. */
  function Keys(rs: seq<Record>): (keys: seq<SatKey>)
    decreases |rs|
  {
    if rs == [] then []
    else
      var keys, r := Keys(rs[..|rs| - 1]), rs[|rs| - 1];
      if Usable(r) && KeyOf(r) !in keys then keys + [KeyOf(r)] else keys
  }

  function SatOf(rs: seq<Record>, key: SatKey): Sat {
    Sat(key, [Best(rs, key, 0), Best(rs, key, 1), Best(rs, key, 2)])
  }

  function Merged(rs: seq<Record>): (sats: seq<Sat>)
    ensures |sats| == |Keys(rs)|
  {
    seq(|Keys(rs)|, i requires 0 <= i < |Keys(rs)| => SatOf(rs, Keys(rs)[i]))
  }

  /** A cell holds the observation of the highest ranking record there is for its satellite and
      band, and of those the first; it is empty exactly when there is none. */
  lemma {:induction false} BestIsBest(rs: seq<Record>, key: SatKey, band: nat) returns (best: nat)
    ensures IsBest(rs, key, band, Best(rs, key, band), best)
    decreases |rs|
  {
    best := 0;
    if rs != [] {
      var n := |rs| - 1;
      var init, r := rs[..n], rs[n];
      best := BestIsBest(init, key, band);
      var c := Best(init, key, band);
      assert Best(rs, key, band) == if Feeds(r, key, band) then Better(c, r) else c;
      hide *;
      if !Feeds(r, key, band) {
        KeepBest(rs, key, band, c, best);
      } else {
        RankOf(r, key, band);
        BetterIs(c, r);
        if Rank(r) > c.pref {
          NewBest(rs, key, band, c, best);
          best := n;
        } else {
          KeepBest(rs, key, band, c, best);
        }
      }
    }
  }

  lemma BetterIs(c: Cell, r: Record)
    requires SignalBand(r.sys, r.sig).Band?
    ensures Better(c, r) == if Rank(r) > c.pref then Cell(Rank(r), Some(ObsOf(r))) else c
  {
  }

  lemma KeepBest(rs: seq<Record>, key: SatKey, band: nat, c: Cell, best: nat)
    requires rs != [] && IsBest(rs[..|rs| - 1], key, band, c, best)
    requires Feeds(rs[|rs| - 1], key, band) ==> 0 <= Rank(rs[|rs| - 1]) <= c.pref
    ensures IsBest(rs, key, band, c, best)
  {
    hide Feeds, Rank, ObsOf;
    assert forall i | 0 <= i < |rs| - 1 :: rs[i] == rs[..|rs| - 1][i];
  }

  lemma NewBest(rs: seq<Record>, key: SatKey, band: nat, c: Cell, best: nat)
    requires rs != [] && IsBest(rs[..|rs| - 1], key, band, c, best)
    requires Feeds(rs[|rs| - 1], key, band) && Rank(rs[|rs| - 1]) > c.pref && Rank(rs[|rs| - 1]) >= 0
    ensures IsBest(rs, key, band, Cell(Rank(rs[|rs| - 1]), Some(ObsOf(rs[|rs| - 1]))), |rs| - 1)
  {
    hide Feeds, Rank;
    assert forall i | 0 <= i < |rs| - 1 :: rs[i] == rs[..|rs| - 1][i];
  }

  lemma RankOf(r: Record, key: SatKey, band: nat)
    requires Feeds(r, key, band)
    ensures SignalBand(r.sys, r.sig) == Band(band, Rank(r)) && Rank(r) >= 0
  {
  }

  /** The rank of a usable record's signal within its band. */
  function Rank(r: Record): int {
    match SignalBand(r.sys, r.sig)
    case Band(_, pref) => pref
    case Ignored => -1
  }

  /** `c` is the observation of record `best`, its phase with the opposite sign: the highest
      ranking for the satellite and band and of those the first; or there is none. */
  predicate IsBest(rs: seq<Record>, key: SatKey, band: nat, c: Cell, best: nat) {
    if c == EMPTY then forall i | 0 <= i < |rs| :: !Feeds(rs[i], key, band)
    else
      && best < |rs| && Feeds(rs[best], key, band)
      && c.pref == Rank(rs[best]) && c.obs.Some?
      && c.obs.value.pseudorange == rs[best].pseudorange && c.obs.value.carrierPhase == -rs[best].adr
      && c.obs.value.doppler == rs[best].doppler && c.obs.value.cn0 == rs[best].cn0
      && (forall i | 0 <= i < |rs| && Feeds(rs[i], key, band) :: Rank(rs[i]) <= c.pref)
      && (forall i | 0 <= i < best && Feeds(rs[i], key, band) :: Rank(rs[i]) < c.pref)
  }

  /** A satellite is listed exactly when it has a usable record, and once. */
  lemma {:induction false} KeysAre(rs: seq<Record>, key: SatKey)
    ensures key in Keys(rs) <==> exists i :: 0 <= i < |rs| && Usable(rs[i]) && KeyOf(rs[i]) == key
    ensures |Keys(rs)| <= |rs|
    decreases |rs|
  {
    if rs != [] {
      hide Usable, KeyOf;
      var init := rs[..|rs| - 1];
      KeysAre(init, key);
      assert forall i | 0 <= i < |init| :: rs[i] == init[i];
    }
  }

  lemma {:induction false} KeysDiffer(rs: seq<Record>, i: nat, j: nat)
    requires i < j < |Keys(rs)|
    ensures Keys(rs)[i] != Keys(rs)[j]
    decreases |rs|
  {
    if rs != [] {
      hide Usable, KeyOf;
      if j < |Keys(rs[..|rs| - 1])| {
        KeysDiffer(rs[..|rs| - 1], i, j);
      }
    }
  }

  /** Every listed satellite belongs to a constellation of the table, has an identifier and an
      observation in some band of it. */
  lemma {:induction false} ListedIsLegal(rs: seq<Record>, key: SatKey) returns (band: nat)
    requires key in Keys(rs)
    ensures FindSystem(key.sys).Some? && FormatSatId(key.sys, key.prn).Some?
    ensures band < Bands(FindSystem(key.sys).value) <= 3 && Best(rs, key, band).obs.Some?
  {
    KeysAre(rs, key);
    var i :| 0 <= i < |rs| && Usable(rs[i]) && KeyOf(rs[i]) == key;
    BandsAreDeclared(rs[i].sys, rs[i].sig, rs[i].sig);
    TableIsLegal(FindSystem(key.sys).value);
    band := SignalBand(rs[i].sys, rs[i].sig).band;
    hide FindSystem, SignalBand, FormatSatId, Keys, Best;
    var best := BestIsBest(rs, key, band);
    assert Feeds(rs[i], key, band);
  }

  // --------------------------------------------------------------------------- the loop

  method MergeRecords(rs: seq<Record>) returns (sats: seq<Sat>)
    ensures sats == Merged(rs)
  {
    sats := [];
    for n := 0 to |rs|
      invariant sats == Merged(rs[..n])
    {
      assert rs[..n + 1][..n] == rs[..n];
      var r := rs[n];
      if r.prn == 0 || FormatSatId(r.sys, r.prn).None? {
        MergeSkips(rs[..n + 1]);
        continue;
      }
      var band := SignalBand(r.sys, r.sig);
      if band.Ignored? {
        MergeSkips(rs[..n + 1]);
        continue;
      }
      var at := FindSat(sats, KeyOf(r));
      MergeTakes(rs[..n + 1], at);
      if at == |sats| {
        sats := sats + [Sat(KeyOf(r), [EMPTY, EMPTY, EMPTY])];
      }
      sats := Put(sats, at, r);
    }
    assert rs[..|rs|] == rs;
  }

  method FindSat(sats: seq<Sat>, key: SatKey) returns (at: nat)
    ensures at <= |sats|
    ensures at < |sats| ==> sats[at].key == key
    ensures forall k | 0 <= k < at :: sats[k].key != key
  {
    at := 0;
    while at < |sats| && sats[at].key != key
      invariant at <= |sats|
      invariant forall k | 0 <= k < at :: sats[k].key != key
    {
      at := at + 1;
    }
  }

  /** The record's observation put into its satellite's row, unless a better one is there. */
  function Put(sats: seq<Sat>, at: nat, r: Record): (r': seq<Sat>)
    requires at < |sats| && Usable(r) && SignalBand(r.sys, r.sig).band < |sats[at].cells|
    ensures |r'| == |sats|
  {
    var band := SignalBand(r.sys, r.sig).band;
    var cells := sats[at].cells;
    sats[at := sats[at].(cells := cells[band := Better(cells[band], r)])]
  }

  lemma MergeSkips(rs: seq<Record>)
    requires rs != [] && !Usable(rs[|rs| - 1])
    ensures Merged(rs) == Merged(rs[..|rs| - 1])
  {
    hide Usable;
    var init := rs[..|rs| - 1];
    forall i | 0 <= i < |Keys(init)| ensures SatOf(rs, Keys(init)[i]) == SatOf(init, Keys(init)[i]) {
    }
  }

  lemma MergeTakes(rs: seq<Record>, at: nat)
    requires rs != [] && Usable(rs[|rs| - 1])
    requires var init, r := rs[..|rs| - 1], rs[|rs| - 1];
      && at <= |Merged(init)|
      && (at < |Merged(init)| ==> Merged(init)[at].key == KeyOf(r))
      && forall k | 0 <= k < at :: Merged(init)[k].key != KeyOf(r)
    ensures var init, r := rs[..|rs| - 1], rs[|rs| - 1];
      var sats := if at == |Merged(init)| then Merged(init) + [Sat(KeyOf(r), [EMPTY, EMPTY, EMPTY])] else Merged(init);
      && SignalBand(r.sys, r.sig).band < |sats[at].cells|
      && Merged(rs) == Put(sats, at, r)
  {
    var init, r := rs[..|rs| - 1], rs[|rs| - 1];
    var keys := Keys(init);
    BandsAreDeclared(r.sys, r.sig, r.sig);
    TableIsLegal(FindSystem(r.sys).value);
    hide Usable, SignalBand, FindSystem;
    if at == |keys| {
      assert KeyOf(r) !in keys by {
        assert forall k | 0 <= k < |keys| :: Merged(init)[k].key == keys[k];
      }
      NewKeyIsEmpty(init, KeyOf(r));
    } else {
      assert Merged(init)[at].key == keys[at];
    }
    assert Keys(rs) == if at == |keys| then keys + [KeyOf(r)] else keys;
    forall i | 0 <= i < |keys| && i != at ensures SatOf(rs, keys[i]) == SatOf(init, keys[i]) {
      if i < at {
        assert Merged(init)[i].key == keys[i];
      } else {
        KeysDiffer(init, at, i);
      }
    }
    RowOf(rs);
  }

  lemma NewKeyIsEmpty(rs: seq<Record>, key: SatKey)
    requires key !in Keys(rs)
    ensures SatOf(rs, key) == Sat(key, [EMPTY, EMPTY, EMPTY])
  {
    KeysAre(rs, key);
    hide Keys;
    forall band: nat ensures Best(rs, key, band) == EMPTY {
      var best := BestIsBest(rs, key, band);
    }
  }

  lemma RowOf(rs: seq<Record>)
    requires rs != [] && Usable(rs[|rs| - 1])
    requires SignalBand(rs[|rs| - 1].sys, rs[|rs| - 1].sig).band < 3
    ensures var init, r := rs[..|rs| - 1], rs[|rs| - 1];
      var before, band := SatOf(init, KeyOf(r)), SignalBand(r.sys, r.sig).band;
      SatOf(rs, KeyOf(r)) == before.(cells := before.cells[band := Better(before.cells[band], r)])
  {
    var init, r := rs[..|rs| - 1], rs[|rs| - 1];
    var key, band := KeyOf(r), SignalBand(r.sys, r.sig).band;
    hide Usable, SignalBand;
    forall b: nat ensures Best(rs, key, b) == if b == band then Better(Best(init, key, b), r) else Best(init, key, b) {
    }
    hide Best;
    assert SatOf(rs, key).cells == SatOf(init, key).cells[band := Better(Best(init, key, band), r)];
  }
}
