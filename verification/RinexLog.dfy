/** The logger of main/rinex_logger.cpp over whole runs: which epochs go into which file. */
module RinexLog {
  import opened Common
  import opened RinexText
  import opened RinexSat
  import opened GpsTime
  import opened RinexFile
  import opened RinexPatch

  // The logger is given twice. Logger works on the bytes of files, as the program does, with its
  // patches and its positions; Journal only keeps which epochs belong to which file. Every run of
  // the first leaves the files of the same run of the second, so what is to be known about files
  // is proved about journals: what is in them, and how long they are.

  const EPOCH_INTERVAL := 30
  const SECONDS_PER_FILE := 3600
  const MAX_OBS := 120

  /** A RANGEA message, taken apart: `records` are the complete ones among the `numObs` announced. */
  datatype Message = Message(timeOk: bool, week: int, tow: real, numObs: int, records: seq<Record>)

  /** The multiple of thirty seconds a time of week is rounded to. */
  function Nearest(tow: real): int {
    (tow / 30.0 + 0.5).Floor * EPOCH_INTERVAL
  }

  predicate OnBoundary(tow: real) {
    -0.5 <= tow - Nearest(tow) as real <= 0.5
  }

  /** A message is an epoch exactly when it is within half a second of a multiple of thirty, and
      then it is rounded to that one. */
  lemma BoundaryIff(tow: real, k: int)
    ensures -0.5 <= tow - (k * 30) as real <= 0.5 <==> OnBoundary(tow) && Nearest(tow) == k * 30
  {
    var x, kr := tow / 30.0, k as real;
    var n := (x + 0.5).Floor;
    assert tow == 30.0 * x && (k * EPOCH_INTERVAL) as real == 30.0 * kr;
    assert n as real <= x + 0.5 < n as real + 1.0;
    if -0.5 <= tow - 30.0 * kr <= 0.5 {
      assert n == k;
    }
  }

  function Complete(m: Message): seq<Record>
    requires m.numObs >= 0
  {
    if |m.records| <= m.numObs then m.records else m.records[..m.numObs]
  }

  function TimeOf(m: Message): Time {
    At(m.week, Nearest(m.tow))
  }

  /** The satellites of an epoch, empty for a message that is not one. */
  function SatsOf(m: Message): seq<Sat> {
    if !m.timeOk || m.week <= 0 || !OnBoundary(m.tow) || m.numObs <= 0 || m.numObs > MAX_OBS then []
    else Merged(Complete(m))
  }

  /** A message makes an epoch exactly if its time is good and within half a second of a multiple of
      thirty, it announces from 1 to 120 observations, and one of those that are there can be kept. */
  lemma EpochIff(m: Message)
    ensures SatsOf(m) != [] <==>
      && m.timeOk && m.week >= 1
      && (exists k :: -0.5 <= m.tow - Boundary(k) <= 0.5)
      && 1 <= m.numObs <= 120
      && exists i | 0 <= i < |m.records| && i < m.numObs :: Usable(m.records[i])
  {
    Boundaries(m.tow);
    if m.timeOk && m.week > 0 && OnBoundary(m.tow) && 0 < m.numObs <= MAX_OBS {
      var rs := Complete(m);
      UsableMerges(rs);
      if i :| 0 <= i < |m.records| && i < m.numObs && Usable(m.records[i]) {
        assert Usable(rs[i]);
      }
      hide Merged, Usable;
    } else {
      hide Merged, Usable;
    }
  }

  function Boundary(k: int): real {
    (30 * k) as real
  }

  lemma Boundaries(tow: real)
    ensures OnBoundary(tow) <==> exists k :: -0.5 <= tow - Boundary(k) <= 0.5
  {
    if OnBoundary(tow) {
      assert -0.5 <= tow - Boundary(Nearest(tow) / 30) <= 0.5;
    }
    if k :| -0.5 <= tow - Boundary(k) <= 0.5 {
      BoundaryIff(tow, k);
    }
  }

  lemma {:induction false} UsableMerges(rs: seq<Record>)
    ensures Merged(rs) != [] <==> exists i | 0 <= i < |rs| :: Usable(rs[i])
    decreases |rs|
  {
    hide Usable;
    if rs != [] {
      UsableMerges(rs[..|rs| - 1]);
      if i :| 0 <= i < |rs| && Usable(rs[i]) {
        assert i < |rs| - 1 ==> Usable(rs[..|rs| - 1][i]);
      }
    }
  }

  predicate Overdue(first: Time, t: Time) {
    Absolute(t) - Absolute(first) >= SECONDS_PER_FILE
  }

  // -------------------------------------------------------------- the logger on bytes

  datatype Logger = Logger(station: Station, active: bool, file: Option<Open>, closed: seq<string>)

  datatype Event = Start(station: Station) | Stop | Heard(m: Message, canOpen: bool)

  function WithDefaults(s: Station): Station {
    s.(model := if s.model == "" then "HXCGPS500" else s.model,
       radome := if s.radome == "" then "NONE" else s.radome)
  }

  /** close_file */
  function Shut(l: Logger): Logger {
    match l.file
    case None => l
    case Some(o) => l.(file := None, closed := l.closed + [Closed(o)])
  }

  /** rotate_if_needed */
  function Rotated(l: Logger, t: Time): Logger {
    if l.file.Some? && Overdue(l.file.value.first, t) then Shut(l) else l
  }

  function Ready(l: Logger, t: Time, sats: seq<Sat>, canOpen: bool): Logger {
    if l.file.None? && canOpen then l.(file := Some(Opened(l.station, t, Mask(sats)))) else l
  }

  function Appended(l: Logger, t: Time, sats: seq<Sat>): Logger {
    if l.file.Some? && l.file.value.pos <= |l.file.value.bytes|
    then l.(file := Some(Written(l.file.value, t, sats))) else l
  }

  /** process_message, from where the satellites are known */
  function Process(l: Logger, t: Time, sats: seq<Sat>, canOpen: bool): Logger {
    if sats == [] then l else Appended(Ready(Rotated(l, t), t, sats, canOpen), t, sats)
  }

  function Next(l: Logger, ev: Event): Logger {
    match ev
    case Start(s) => if l.active then l else l.(station := WithDefaults(s), active := true)
    case Stop => if l.active then Shut(l).(active := false) else l
    case Heard(m, canOpen) => if l.active then Process(l, TimeOf(m), SatsOf(m), canOpen) else l
  }

  function Run(l: Logger, evs: seq<Event>): Logger
    decreases |evs|
  {
    if evs == [] then l else Run(Next(l, evs[0]), evs[1..])
  }

  // ---------------------------------------------------------- the logger on documents

  datatype Journal = Journal(station: Station, active: bool, file: Option<Doc>, closed: seq<Doc>)

  function JShut(j: Journal): Journal {
    match j.file
    case None => j
    case Some(doc) => j.(file := None, closed := j.closed + [doc])
  }

  function JRotated(j: Journal, t: Time): Journal {
    if j.file.Some? && j.file.value.epochs != [] && Overdue(j.file.value.First(), t) then JShut(j) else j
  }

  function JAppended(j: Journal, t: Time, sats: seq<Sat>, canOpen: bool): Journal {
    match j.file
    case None =>
      if canOpen then j.(file := Some(Doc(j.station, Mask(sats), [Epoch(t, Chosen(sats, Mask(sats)))]))) else j
    case Some(doc) =>
      var rows := Chosen(sats, doc.mask);
      if rows == [] then j else j.(file := Some(doc.(epochs := doc.epochs + [Epoch(t, rows)])))
  }

  function JProcess(j: Journal, t: Time, sats: seq<Sat>, canOpen: bool): Journal {
    if sats == [] then j else JAppended(JRotated(j, t), t, sats, canOpen)
  }

  function JNext(j: Journal, ev: Event): Journal {
    match ev
    case Start(s) => if j.active then j else j.(station := WithDefaults(s), active := true)
    case Stop => if j.active then JShut(j).(active := false) else j
    case Heard(m, canOpen) => if j.active then JProcess(j, TimeOf(m), SatsOf(m), canOpen) else j
  }

  function JRun(j: Journal, evs: seq<Event>): Journal
    decreases |evs|
  {
    if evs == [] then j else JRun(JNext(j, evs[0]), evs[1..])
  }

  // ------------------------------------------------------------------- the satellites

  predicate Legal(s: Sat) {
    FindSystem(s.key.sys).Some? && FormatSatId(s.key.sys, s.key.prn).Some? && |s.cells| == 3
  }

  lemma MergedAreLegal(rs: seq<Record>, s: Sat)
    requires s in Merged(rs)
    ensures Legal(s)
  {
    var i :| 0 <= i < |Merged(rs)| && Merged(rs)[i] == s;
    hide FindSystem, FormatSatId, Keys, Best;
    var band := ListedIsLegal(rs, Keys(rs)[i]);
  }

  lemma SatsAreLegal(m: Message)
    ensures forall s | s in SatsOf(m) :: Legal(s)
    ensures |SatsOf(m)| <= MAX_OBS
  {
    hide Legal, Merged, OnBoundary;
    if SatsOf(m) != [] {
      forall s | s in SatsOf(m) ensures Legal(s) {
        MergedAreLegal(Complete(m), s);
      }
      MergedCount(Complete(m));
    }
  }

  lemma MergedCount(rs: seq<Record>)
    ensures |Merged(rs)| <= |rs|
  {
    KeysAre(rs, SatKey(0, 0));
    hide Keys, SatOf;
  }

  lemma {:induction false} ChosenAre(sats: seq<Sat>, mask: set<nat>, s: Sat)
    ensures s in Chosen(sats, mask) <==>
      s in sats && s.key.sys in mask && FormatSatId(s.key.sys, s.key.prn).Some?
    decreases |sats|
  {
    hide FormatSatId;
    if sats != [] {
      var n := |sats| - 1;
      ChosenAre(sats[..n], mask, s);
      assert sats == sats[..n] + [sats[n]];
    }
  }

  lemma {:induction false} ChosenAll(sats: seq<Sat>, mask: set<nat>)
    requires forall s | s in sats :: Legal(s) && s.key.sys in mask
    ensures Chosen(sats, mask) == sats
    decreases |sats|
  {
    hide FormatSatId, FindSystem;
    if sats != [] {
      var n := |sats| - 1;
      assert sats[n] in sats;
      ChosenAll(sats[..n], mask);
      assert sats == sats[..n] + [sats[n]];
    }
  }

  lemma MaskIsAll(sats: seq<Sat>)
    requires forall s | s in sats :: Legal(s)
    ensures Mask(sats) == Systems(sats)
    ensures Chosen(sats, Mask(sats)) == sats
  {
    ChosenAll(sats, Mask(sats));
    hide FindSystem, FormatSatId, Chosen;
  }

  // ------------------------------------------------------------- what every file is like

  function Systems(rows: seq<Sat>): set<nat> {
    set s | s in rows :: s.key.sys
  }

  /** A multiple of thirty seconds, with its own calendar date. */
  predicate OnInterval(t: Time) {
    t.tow % EPOCH_INTERVAL == 0 && t == At(t.week, t.tow)
  }

  /** An epoch that can be written: some satellites, all of constellations the header declares. */
  predicate GoodEpoch(e: Epoch, mask: set<nat>) {
    && 1 <= |e.rows| <= MAX_OBS && OnInterval(e.time)
    && forall s | s in e.rows :: Legal(s) && s.key.sys in mask
  }

  /** The header declares the constellations of the first epoch, and every epoch is a good one
      less than an hour after it. */
  predicate Sound(doc: Doc) {
    && doc.epochs != []
    && doc.mask == Systems(doc.epochs[0].rows)
    && forall e | e in doc.epochs :: GoodEpoch(e, doc.mask) && !Overdue(doc.First(), e.time)
  }

  ghost predicate JournalInv(j: Journal) {
    && (j.file.Some? ==> j.active && Sound(j.file.value) && j.file.value.station == j.station)
    && forall doc | doc in j.closed :: Sound(doc)
  }

  lemma RotatedIsFresh(j: Journal, t: Time)
    requires JournalInv(j) && j.active
    ensures var k := JRotated(j, t);
      JournalInv(k) && k.active && (k.file.Some? ==> !Overdue(k.file.value.First(), t))
  {
    hide Sound;
    if j.file.Some? {
      assert j.file.value.epochs != [] by {
        SoundIsNotEmpty(j.file.value);
      }
    }
  }

  lemma SoundIsNotEmpty(doc: Doc)
    requires Sound(doc)
    ensures doc.epochs != []
  {
  }

  lemma SoundFirst(station: Station, e: Epoch)
    requires GoodEpoch(e, Systems(e.rows))
    ensures Sound(Doc(station, Systems(e.rows), [e]))
  {
    assert [e][0] == e && !Overdue(e.time, e.time);
    hide GoodEpoch, Overdue, Systems;
  }

  lemma GoodFirst(t: Time, sats: seq<Sat>)
    requires sats != [] && |sats| <= MAX_OBS && OnInterval(t)
    requires forall s | s in sats :: Legal(s)
    ensures GoodEpoch(Epoch(t, sats), Systems(sats))
  {
    hide Legal, OnInterval;
  }

  lemma FirstEpochIsSound(station: Station, t: Time, sats: seq<Sat>)
    requires sats != [] && |sats| <= MAX_OBS && OnInterval(t)
    requires forall s | s in sats :: Legal(s)
    ensures Sound(Doc(station, Mask(sats), [Epoch(t, Chosen(sats, Mask(sats)))]))
  {
    hide *;
    MaskIsAll(sats);
    GoodFirst(t, sats);
    SoundFirst(station, Epoch(t, sats));
  }

  lemma SoundAppend(doc: Doc, e: Epoch)
    requires Sound(doc) && GoodEpoch(e, doc.mask) && !Overdue(doc.First(), e.time)
    ensures Sound(doc.(epochs := doc.epochs + [e]))
  {
    hide GoodEpoch, Overdue;
    var doc' := doc.(epochs := doc.epochs + [e]);
    assert doc'.First() == doc.First() && doc'.epochs[0] == doc.epochs[0];
  }

  lemma GoodNext(t: Time, sats: seq<Sat>, mask: set<nat>)
    requires |sats| <= MAX_OBS && OnInterval(t)
    requires forall s | s in sats :: Legal(s)
    ensures var rows := Chosen(sats, mask); rows != [] ==> GoodEpoch(Epoch(t, rows), mask)
  {
    var rows := Chosen(sats, mask);
    hide Chosen, Legal, OnInterval;
    forall s | s in rows ensures s in sats && s.key.sys in mask {
      ChosenAre(sats, mask, s);
    }
  }

  lemma {:induction false} NextEpochIsSound(doc: Doc, t: Time, sats: seq<Sat>)
    requires Sound(doc) && |sats| <= MAX_OBS && OnInterval(t) && !Overdue(doc.First(), t)
    requires forall s | s in sats :: Legal(s)
    ensures var rows := Chosen(sats, doc.mask);
      rows != [] ==> Sound(doc.(epochs := doc.epochs + [Epoch(t, rows)]))
  {
    hide *;
    GoodNext(t, sats, doc.mask);
    var rows := Chosen(sats, doc.mask);
    if rows != [] {
      SoundAppend(doc, Epoch(t, rows));
    }
  }

  lemma AppendedIsSound(j: Journal, t: Time, sats: seq<Sat>, canOpen: bool)
    requires JournalInv(j) && j.active && (j.file.Some? ==> !Overdue(j.file.value.First(), t))
    requires sats != [] && |sats| <= MAX_OBS && OnInterval(t)
    requires forall s | s in sats :: Legal(s)
    ensures JournalInv(JAppended(j, t, sats, canOpen))
  {
    hide Sound, Overdue, Legal, Chosen, Mask;
    match j.file
    case None => FirstEpochIsSound(j.station, t, sats);
    case Some(doc) => NextEpochIsSound(doc, t, sats);
  }

  lemma TimesAreOnInterval(m: Message)
    ensures OnInterval(TimeOf(m))
  {
    hide Calendar;
  }

  lemma NextKeepsJournal(j: Journal, ev: Event)
    requires JournalInv(j)
    ensures JournalInv(JNext(j, ev))
  {
    hide Sound, SatsOf, TimeOf, OnInterval, Legal, JRotated, JAppended;
    if ev.Heard? && j.active && SatsOf(ev.m) != [] {
      SatsAreLegal(ev.m);
      TimesAreOnInterval(ev.m);
      RotatedIsFresh(j, TimeOf(ev.m));
      AppendedIsSound(JRotated(j, TimeOf(ev.m)), TimeOf(ev.m), SatsOf(ev.m), ev.canOpen);
    }
  }

  // ------------------------------------------------------------------ when a file ends

  /** What an epoch does to the file that is open: if it comes 3600 seconds or more after the file's
      first, the file ends before it and, if one can be opened, a new one begins with it; otherwise
      it is the file's next, if it has a row for it. */
  lemma EpochEndsFile(j: Journal, m: Message, canOpen: bool)
    requires JournalInv(j) && j.active && j.file.Some? && SatsOf(m) != []
    ensures j.file.value.epochs != []
    ensures var doc, t, j' := j.file.value, TimeOf(m), JNext(j, Heard(m, canOpen));
      if Absolute(t) - Absolute(doc.First()) >= 3600 then
        j'.closed == j.closed + [doc] && BeginsWith(j', t, SatsOf(m), canOpen)
      else
        j'.closed == j.closed && j'.file == Some(Longer(doc, t, SatsOf(m)))
  {
    SoundIsNotEmpty(j.file.value);
    hide Sound, SatsOf, TimeOf, Chosen, Mask, Legal, Absolute, JAppended;
    var t := TimeOf(m);
    if Absolute(t) - Absolute(j.file.value.First()) >= 3600 {
      assert JRotated(j, t).file.None?;
      Begins(JRotated(j, t), m, canOpen);
    } else {
      Lengthens(j, t, SatsOf(m), canOpen);
    }
  }

  /** The file with one more epoch, if it has a row for it. */
  function Longer(doc: Doc, t: Time, sats: seq<Sat>): Doc {
    var rows := Chosen(sats, doc.mask);
    if rows == [] then doc else doc.(epochs := doc.epochs + [Epoch(t, rows)])
  }

  /** A file that begins with all of an epoch, if one can be opened. */
  predicate BeginsWith(j: Journal, t: Time, sats: seq<Sat>, canOpen: bool) {
    j.file.Some? == canOpen
    && (canOpen ==> j.file.value.epochs == [Epoch(t, sats)] && j.file.value.station == j.station)
  }

  lemma Lengthens(j: Journal, t: Time, sats: seq<Sat>, canOpen: bool)
    requires j.file.Some?
    ensures JAppended(j, t, sats, canOpen).file == Some(Longer(j.file.value, t, sats))
    ensures JAppended(j, t, sats, canOpen).closed == j.closed
  {
    hide Chosen, Mask;
  }

  lemma Begins(j: Journal, m: Message, canOpen: bool)
    requires j.file.None? && SatsOf(m) != []
    ensures var k := JAppended(j, TimeOf(m), SatsOf(m), canOpen);
      k.closed == j.closed && BeginsWith(k, TimeOf(m), SatsOf(m), canOpen)
  {
    SatsAreLegal(m);
    hide SatsOf, TimeOf, Legal, Chosen, Mask;
    MaskIsAll(SatsOf(m));
  }

  /** An epoch for which no file is open begins one, if it can be opened. */
  lemma EpochBeginsFile(j: Journal, m: Message, canOpen: bool)
    requires j.active && j.file.None? && SatsOf(m) != []
    ensures var j' := JNext(j, Heard(m, canOpen));
      j'.closed == j.closed && BeginsWith(j', TimeOf(m), SatsOf(m), canOpen)
  {
    hide SatsOf, TimeOf, JAppended;
    Begins(j, m, canOpen);
  }

  /** Nothing else adds an epoch or ends a file, except stopping. */
  lemma OthersLeaveFiles(j: Journal, ev: Event)
    requires ev.Heard? ==> SatsOf(ev.m) == [] || !j.active
    ensures var j' := JNext(j, ev);
      && (!ev.Stop? || !j.active ==> j'.file == j.file && j'.closed == j.closed)
      && (ev.Stop? && j.active ==>
            j'.file.None? && j'.closed == j.closed + if j.file.Some? then [j.file.value] else [])
  {
    hide SatsOf, TimeOf;
  }

  // ----------------------------------------------------------- bytes refine documents

  /** Every closed file and the open one are those left for the journal's documents. */
  ghost predicate Refines(l: Logger, j: Journal) {
    && l.station == j.station && l.active == j.active
    && |l.closed| == |j.closed|
    && (forall i | 0 <= i < |l.closed| :: j.closed[i].epochs != [] && l.closed[i] == FileText(j.closed[i]))
    && l.file.Some? == j.file.Some?
    && (l.file.Some? ==> Holds(l.file.value, j.file.value))
  }

  lemma ShutRefines(l: Logger, j: Journal)
    requires Refines(l, j)
    ensures Refines(Shut(l), JShut(j))
  {
    hide FileText, Closed, Holds;
    if l.file.Some? {
      ClosedHolds(l.file.value, j.file.value);
      HoldsIsNotEmpty(l.file.value, j.file.value);
    }
  }

  lemma HoldsIsNotEmpty(o: Open, doc: Doc)
    requires Holds(o, doc)
    ensures doc.epochs != [] && o.first == doc.First() && o.mask == doc.mask && o.pos <= |o.bytes|
  {
  }

  lemma RotatedRefines(l: Logger, j: Journal, t: Time)
    requires Refines(l, j)
    ensures Refines(Rotated(l, t), JRotated(j, t))
  {
    hide FileText, Overdue, Holds;
    if l.file.Some? {
      HoldsIsNotEmpty(l.file.value, j.file.value);
      ShutRefines(l, j);
    }
  }

  lemma NewRefines(l: Logger, t: Time, sats: seq<Sat>)
    requires sats != [] && forall s | s in sats :: Legal(s)
    ensures var doc := Doc(l.station, Mask(sats), [Epoch(t, Chosen(sats, Mask(sats)))]);
      var o := Opened(l.station, t, Mask(sats));
      o.pos <= |o.bytes| && Holds(Written(o, t, sats), doc)
  {
    hide Holds, Legal, Opened, Written, Chosen, Mask;
    MaskIsAll(sats);
    OpenedHolds(l.station, t, sats);
  }

  lemma AppendedRefines(l: Logger, j: Journal, t: Time, sats: seq<Sat>, canOpen: bool)
    requires Refines(l, j)
    requires sats != [] && forall s | s in sats :: Legal(s)
    ensures Refines(Appended(Ready(l, t, sats, canOpen), t, sats), JAppended(j, t, sats, canOpen))
  {
    hide FileText, Holds, Legal, Opened, Written, Chosen, Mask;
    if l.file.Some? {
      var o, doc := l.file.value, j.file.value;
      HoldsIsNotEmpty(o, doc);
      WrittenHolds(o, doc, t, sats);
    } else if canOpen {
      NewRefines(l, t, sats);
    }
  }

  /** The event brings an epoch. */
  predicate IsEpoch(ev: Event) {
    ev.Heard? && SatsOf(ev.m) != []
  }

  lemma NextRefines(l: Logger, j: Journal, ev: Event)
    requires Refines(l, j)
    ensures Refines(Next(l, ev), JNext(j, ev))
  {
    ShutRefines(l, j);
    if ev.Heard? && l.active && SatsOf(ev.m) != [] {
      var t, sats := TimeOf(ev.m), SatsOf(ev.m);
      SatsAreLegal(ev.m);
      hide SatsOf, TimeOf, Legal, Refines, Rotated, JRotated, Ready, Appended, JAppended;
      RotatedRefines(l, j, t);
      AppendedRefines(Rotated(l, t), JRotated(j, t), t, sats, ev.canOpen);
      assert j.active by {
        RefinesActive(l, j);
      }
    } else {
      hide SatsOf, Holds, FileText, Shut, JShut;
    }
  }

  lemma RefinesActive(l: Logger, j: Journal)
    requires Refines(l, j)
    ensures l.active == j.active
  {
  }

  /** After any run, whatever was heard and whichever files could not be opened, every file is the
      one left for its epochs, patch by patch. */
  lemma {:induction false} RunRefines(l: Logger, j: Journal, evs: seq<Event>)
    requires Refines(l, j) && JournalInv(j)
    ensures Refines(Run(l, evs), JRun(j, evs)) && JournalInv(JRun(j, evs))
    decreases |evs|
  {
    hide Refines, JournalInv, Next, JNext;
    if evs != [] {
      NextRefines(l, j, evs[0]);
      NextKeepsJournal(j, evs[0]);
      RunRefines(Next(l, evs[0]), JNext(j, evs[0]), evs[1..]);
    }
  }

  /** Power-on. */
  function Off(station: Station): Logger {
    Logger(station, false, None, [])
  }

  function JOff(station: Station): Journal {
    Journal(station, false, None, [])
  }

  /** The files there are: the closed ones, and then the open one. */
  function Files(l: Logger): (texts: seq<string>)
    ensures |texts| == |l.closed| + if l.file.Some? then 1 else 0
  {
    l.closed + if l.file.Some? then [l.file.value.bytes] else []
  }

  function Docs(j: Journal): (docs: seq<Doc>)
    ensures |docs| == |j.closed| + if j.file.Some? then 1 else 0
  {
    j.closed + if j.file.Some? then [j.file.value] else []
  }

  lemma FilesAre(l: Logger, j: Journal, i: nat)
    requires Refines(l, j) && JournalInv(j) && i < |Files(l)|
    ensures |Docs(j)| == |Files(l)|
    ensures Docs(j)[i].epochs != [] && Files(l)[i] == FileText(Docs(j)[i]) && Sound(Docs(j)[i])
  {
    hide FileText, Sound;
    if i < |l.closed| {
      assert j.closed[i] in j.closed;
    }
  }

  /** In every run from power-on, for every file closed or still being written: it is byte for byte
      the rendering of its epochs, with the newest one's time in its header, if and only if the
      newest time is as wide as the first and none is wider; and its epochs are sound. */
  lemma EveryFileIsRendered(evs: seq<Event>, station: Station, i: nat)
    requires i < |Files(Run(Off(station), evs))|
    ensures var files, docs := Files(Run(Off(station), evs)), Docs(JRun(JOff(station), evs));
      && |docs| == |files| && docs[i].epochs != [] && Sound(docs[i])
      && files[i] == FileText(docs[i])
      && (files[i] == Render(docs[i]) <==> Steady(docs[i].epochs))
  {
    hide Run, JRun, Files, Docs, FileText, Render, Steady, Sound;
    assert Refines(Off(station), JOff(station)) && JournalInv(JOff(station));
    RunRefines(Off(station), JOff(station), evs);
    FilesAre(Run(Off(station), evs), JRun(JOff(station), evs), i);
    RenderedIff(Docs(JRun(JOff(station), evs))[i]);
  }

  // -------------------------------------------------------------- an hour for each file

  /** Epochs in strictly increasing order, none later than `newest`. */
  predicate InOrder(epochs: seq<Epoch>, newest: int) {
    && (forall i, k | 0 <= i < k < |epochs| :: Absolute(epochs[i].time) < Absolute(epochs[k].time))
    && forall e | e in epochs :: Absolute(e.time) <= newest
  }

  ghost predicate OrderInv(j: Journal, newest: int) {
    && (j.file.Some? ==> InOrder(j.file.value.epochs, newest))
    && forall doc | doc in j.closed :: InOrder(doc.epochs, newest)
  }

  /** An epoch is later than all before it. */
  predicate Later(ev: Event, newest: int) {
    IsEpoch(ev) ==> Absolute(TimeOf(ev.m)) > newest
  }

  function NewestAfter(ev: Event, newest: int): int {
    if IsEpoch(ev) then Absolute(TimeOf(ev.m)) else newest
  }

  predicate Increasing(evs: seq<Event>, newest: int)
    decreases |evs|
  {
    evs == [] || (Later(evs[0], newest) && Increasing(evs[1..], NewestAfter(evs[0], newest)))
  }

  lemma OrderLater(epochs: seq<Epoch>, newest: int, newer: int)
    requires InOrder(epochs, newest) && newest <= newer
    ensures InOrder(epochs, newer)
  {
    hide Absolute;
  }

  lemma OrderAppend(epochs: seq<Epoch>, newest: int, e: Epoch)
    requires InOrder(epochs, newest) && newest < Absolute(e.time)
    ensures InOrder(epochs + [e], Absolute(e.time))
  {
    hide Absolute;
  }

  lemma ProcessKeepsOrder(j: Journal, newest: int, t: Time, sats: seq<Sat>, canOpen: bool)
    requires OrderInv(j, newest) && Absolute(t) > newest
    ensures OrderInv(JProcess(j, t, sats, canOpen), Absolute(t))
  {
    hide InOrder, Absolute, Overdue, Chosen, Mask;
    var k := JRotated(j, t);
    forall doc | doc in j.closed || j.file == Some(doc) ensures InOrder(doc.epochs, Absolute(t)) {
      OrderLater(doc.epochs, newest, Absolute(t));
    }
    assert OrderInv(k, Absolute(t));
    if sats != [] {
      match k.file
      case None =>
        FirstInOrder(Epoch(t, Chosen(sats, Mask(sats))));
      case Some(doc) =>
        OrderAppend(doc.epochs, newest, Epoch(t, Chosen(sats, doc.mask)));
    }
  }

  lemma FirstInOrder(e: Epoch)
    ensures InOrder([e], Absolute(e.time))
  {
  }

  lemma NextKeepsOrder(j: Journal, newest: int, ev: Event)
    requires OrderInv(j, newest) && Later(ev, newest)
    ensures OrderInv(JNext(j, ev), NewestAfter(ev, newest))
  {
    hide InOrder, JRotated, JAppended, SatsOf, TimeOf, Absolute;
    if IsEpoch(ev) {
      var t := TimeOf(ev.m);
      ProcessKeepsOrder(j, newest, t, SatsOf(ev.m), ev.canOpen);
      forall doc | doc in j.closed || j.file == Some(doc) ensures InOrder(doc.epochs, Absolute(t)) {
        OrderLater(doc.epochs, newest, Absolute(t));
      }
    }
  }

  lemma {:induction false} RunKeepsOrder(j: Journal, evs: seq<Event>, newest: int) returns (newer: int)
    requires OrderInv(j, newest) && Increasing(evs, newest)
    ensures OrderInv(JRun(j, evs), newer)
    decreases |evs|
  {
    newer := newest;
    if evs != [] {
      var ev := evs[0];
      NextKeepsOrder(j, newest, ev);
      hide OrderInv, JNext;
      newer := RunKeepsOrder(JNext(j, ev), evs[1..], NewestAfter(ev, newest));
    }
  }

  /** In strictly increasing order, the k-th epoch of a file is at least k intervals after the
      first, so a file spans less than an hour and holds at most 120 epochs, whether or not the
      GPS week turns over in it. */
  lemma FileIsAnHour(doc: Doc, newest: int)
    requires Sound(doc) && InOrder(doc.epochs, newest)
    ensures 0 <= Absolute(doc.Last()) - Absolute(doc.First()) < 3600
    ensures |doc.epochs| <= 120
  {
    var n := |doc.epochs| - 1;
    assert doc.epochs[n] in doc.epochs;
    EpochSpacing(doc, newest, n);
  }

  lemma {:induction false} EpochSpacing(doc: Doc, newest: int, k: nat)
    requires Sound(doc) && InOrder(doc.epochs, newest) && k < |doc.epochs|
    ensures Absolute(doc.epochs[k].time) - Absolute(doc.First()) >= k * EPOCH_INTERVAL
  {
    if k > 0 {
      EpochSpacing(doc, newest, k - 1);
      assert doc.epochs[k - 1] in doc.epochs && doc.epochs[k] in doc.epochs;
      IntervalsApart(doc.epochs[k].time, doc.epochs[k - 1].time);
    }
  }

  lemma IntervalsApart(t: Time, u: Time)
    requires OnInterval(t) && OnInterval(u) && Absolute(u) < Absolute(t)
    ensures Absolute(t) - Absolute(u) >= EPOCH_INTERVAL
  {
    hide At;
    var a, b := t.tow / EPOCH_INTERVAL, u.tow / EPOCH_INTERVAL;
    assert t.tow == 30 * a && u.tow == 30 * b;
    assert Absolute(t) - Absolute(u) == 30 * (20160 * (t.week - u.week) + a - b);
  }

  /** From power-on, over any run of messages in strictly increasing order of time. */
  lemma {:induction false} FilesAreHours(j: Journal, evs: seq<Event>, newest: int, doc: Doc)
    requires j.file.None? && j.closed == [] && Increasing(evs, newest)
    requires doc in JRun(j, evs).closed || JRun(j, evs).file == Some(doc)
    ensures doc.epochs != [] && 0 <= Absolute(doc.Last()) - Absolute(doc.First()) < 3600
    ensures |doc.epochs| <= 120
  {
    assert OrderInv(j, newest) && JournalInv(j);
    var newer := RunKeepsOrder(j, evs, newest);
    JournalRun(j, evs);
    FileIsAnHour(doc, newer);
  }

  lemma {:induction false} JournalRun(j: Journal, evs: seq<Event>)
    requires JournalInv(j)
    ensures JournalInv(JRun(j, evs))
    decreases |evs|
  {
    hide JournalInv, JNext;
    if evs != [] {
      NextKeepsJournal(j, evs[0]);
      JournalRun(JNext(j, evs[0]), evs[1..]);
    }
  }
}
