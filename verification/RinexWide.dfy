/** Runs in which a year outgrows its columns, and files the validator refuses. */
module RinexWide {
  import opened Common
  import opened RinexText
  import opened RinexSat
  import opened GpsTime
  import opened RinexFile
  import opened RinexPatch
  import opened RinexLog
  import opened RinexHeader
  import opened RinexAntenna
  import opened RinexValidator
  import opened RinexAccepted

  // One satellite is heard twice, first on 1 January of the year 1000000 and then on 1 January
  // 2000. The logger does not ask whether time goes on, so both epochs share a file.

  const FAR_WEEK := 52074187
  const NEAR_WEEK := 1042
  const TOW := 518400

  const RECORD := Record(1, 0, 0, 0, 0, 0, 0)

  function Hears(week: int): Message {
    Message(true, week, TOW as real, 1, [RECORD])
  }

  function Events(s: Station): seq<Event> {
    [Start(s), Heard(Hears(FAR_WEEK), true), Heard(Hears(NEAR_WEEK), true)]
  }

  function OneSat(): Sat {
    SatOf([RECORD], SatKey(0, 1))
  }

  /** Midnight on the first day of a period of 400 years. */
  lemma NewYear(week: int, period: int)
    requires 315964800 + week * WEEK + TOW == (10957 + 146097 * period) * DAY
    requires 0 <= period < 5_000_000
    ensures Calendar(week, TOW) == Date(2000 + 400 * period, 1, 1, 0, 0, 0)
  {
    assert YearAndDay(0, 2000 + 400 * period) == (2000 + 400 * period, 0);
    assert MonthAndDay(0, 2000 + 400 * period, 1) == (1, 1);
    hide YearAndDay, MonthAndDay;
    var s := 315964800 + week * WEEK + TOW;
    assert s / DAY - 10957 == 146097 * period && s % DAY == 0;
    assert (146097 * period) % 146097 == 0 && (146097 * period) / 146097 == period;
    assert CivilDay(week, TOW) == YearAndDay(0, 2000 + 400 * period);
  }

  lemma Dates()
    ensures Calendar(FAR_WEEK, TOW) == Date(1000000, 1, 1, 0, 0, 0)
    ensures Calendar(NEAR_WEEK, TOW) == Date(2000, 1, 1, 0, 0, 0)
  {
    hide Calendar;
    NewYear(FAR_WEEK, 2495);
    NewYear(NEAR_WEEK, 0);
  }

  lemma Widths(far: Time, near: Time)
    requires far.stamp.year == 1000000 && near.stamp.year == 2000
    ensures |TimeText(far.stamp)| > 43 && |TimeText(near.stamp)| == 43
  {
    hide TimeText;
    TimeWidth(far);
    TimeWidth(near);
  }

  lemma KeysOfOne()
    ensures Keys([RECORD]) == [SatKey(0, 1)]
  {
    assert Slot(SYSTEMS[0], 1) == 1;
    assert Usable(RECORD) && KeyOf(RECORD) == SatKey(0, 1);
    hide Usable, KeyOf;
    assert [RECORD][..0] == [];
  }

  lemma TimeIs(week: int)
    ensures TimeOf(Hears(week)) == At(week, TOW) && OnBoundary(TOW as real)
  {
    assert (TOW as real / 30.0 + 0.5).Floor == 17280;
    hide At;
  }

  lemma HearsOne(week: int)
    requires week > 0
    ensures SatsOf(Hears(week)) == [OneSat()]
  {
    TimeIs(week);
    KeysOfOne();
    hide Keys, SatOf, OnBoundary, TimeOf;
    assert Complete(Hears(week)) == [RECORD];
    assert Merged([RECORD]) == [OneSat()];
  }

  lemma OneIsChosen()
    ensures Chosen([OneSat()], Mask([OneSat()])) == [OneSat()]
  {
    HearsOne(NEAR_WEEK);
    SatsAreLegal(Hears(NEAR_WEEK));
    hide SatsOf, OneSat, Legal, Chosen, Mask;
    MaskIsAll([OneSat()]);
  }

  /** The document that the run leaves. */
  function WideDoc(s: Station): Doc {
    var row := [OneSat()];
    Doc(WithDefaults(s), Mask(row), [Epoch(At(FAR_WEEK, TOW), row), Epoch(At(NEAR_WEEK, TOW), row)])
  }

  lemma TwoEpochs(j: Journal)
    requires j.file.None?
    ensures var row, far, near := [OneSat()], At(FAR_WEEK, TOW), At(NEAR_WEEK, TOW);
      JProcess(JProcess(j, far, row, true), near, row, true)
      == j.(file := Some(Doc(j.station, Mask(row), [Epoch(far, row), Epoch(near, row)])))
  {
    OneIsChosen();
    var far, near := At(FAR_WEEK, TOW), At(NEAR_WEEK, TOW);
    assert Absolute(near) < Absolute(far);
    hide At, OneSat, Chosen, Mask, Absolute;
    assert !Overdue(far, near);
    hide Overdue;
    var row := [OneSat()];
    assert [Epoch(far, row)] + [Epoch(near, row)] == [Epoch(far, row), Epoch(near, row)];
  }

  lemma {:induction false} JRunThree(j: Journal, evs: seq<Event>)
    requires |evs| == 3
    ensures JRun(j, evs) == JNext(JNext(JNext(j, evs[0]), evs[1]), evs[2])
  {
    hide JNext;
    var j1, j2 := JNext(j, evs[0]), JNext(JNext(j, evs[0]), evs[1]);
    assert evs[1..][1..] == evs[2..] && evs[2..][1..] == [] && evs[2..][0] == evs[2];
    assert JRun(j, evs) == JRun(j1, evs[1..]) == JRun(j2, evs[2..]);
    assert JRun(j2, evs[2..]) == JRun(JNext(j2, evs[2]), []);
  }

  lemma WideRun(s: Station)
    ensures Docs(JRun(JOff(s), Events(s))) == [WideDoc(s)]
  {
    var j := JNext(JOff(s), Start(s));
    JRunThree(JOff(s), Events(s));
    HearsOne(FAR_WEEK);
    HearsOne(NEAR_WEEK);
    TimeIs(FAR_WEEK);
    TimeIs(NEAR_WEEK);
    TwoEpochs(j);
    hide JRun, SatsOf, TimeOf, Hears, OneSat, At, Mask, JProcess;
    assert j.active && j.file.None? && j.station == WithDefaults(s);
    ActiveStays(j, At(FAR_WEEK, TOW), [OneSat()]);
  }

  lemma ActiveStays(j: Journal, t: Time, sats: seq<Sat>)
    requires j.active
    ensures JProcess(j, t, sats, true).active
  {
    hide Overdue, Chosen, Mask;
  }

  lemma WideIsUnsteady(s: Station)
    ensures !Steady(WideDoc(s).epochs)
  {
    Dates();
    var far, near := At(FAR_WEEK, TOW), At(NEAR_WEEK, TOW);
    Widths(far, near);
    hide Calendar, TimeText, Mask, OneSat;
  }

  /** From power-on, for every station: a run of two messages leaves one file, and that file is not
      the rendering of its epochs. */
  lemma UnrenderedFileHappens(s: Station)
    ensures var files, docs := Files(Run(Off(s), Events(s))), Docs(JRun(JOff(s), Events(s)));
      && |files| == |docs| == 1 && docs[0] == WideDoc(s) && docs[0].epochs != []
      && files[0] != Render(docs[0])
  {
    WideRun(s);
    WideIsUnsteady(s);
    hide Run, JRun, Files, Docs, Events, Render, Steady, FileText, Sound, WideDoc;
    FilesAndDocs(s);
    EveryFileIsRendered(Events(s), s, 0);
  }

  lemma FilesAndDocs(s: Station)
    ensures |Files(Run(Off(s), Events(s)))| == |Docs(JRun(JOff(s), Events(s)))|
  {
    hide Run, JRun, Events;
    assert Refines(Off(s), JOff(s)) && JournalInv(JOff(s));
    RunRefines(Off(s), JOff(s), Events(s));
    hide FileText, Holds, JournalInv;
  }

  // ------------------------------------------------------------------ files that are refused

  /** The same run of a station whose antenna is no innocent one leaves a file that the validator
      refuses. */
  lemma RefusedFileHappens(s: Station)
    requires SpellsTypes(s) || SpellsEnd(s)
    ensures var files := Files(Run(Off(s), Events(s)));
      |files| == 1 && !Accepts(files[0])
  {
    WideRun(s);
    Named(s);
    hide Run, JRun, Files, Docs, Events, Accepts, FileText, Innocent, SpellsTypes, SpellsEnd;
    FilesAndDocs(s);
    EveryFileIsAccepted(Events(s), s, 0);
    if SpellsTypes(s) {
      SpoofedStation(WideDoc(s).station);
    } else {
      EndingStation(WideDoc(s).station);
    }
  }

  lemma Named(s: Station)
    requires SpellsTypes(s) || SpellsEnd(s)
    ensures WideDoc(s).station == s
  {
    hide OneSat, Mask, At;
    assert s.model != "" && s.radome != "" by {
      hide WithDefaults;
    }
  }
}
