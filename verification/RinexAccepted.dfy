/** Which files of the logger pass the repository's validator. */
module RinexAccepted {
  import opened Common
  import opened RinexText
  import opened RinexSat
  import opened GpsTime
  import opened RinexFile
  import opened RinexHeader
  import opened RinexPatch
  import opened RinexAntenna
  import opened RinexLog
  import opened RinexValidator

  /** The antenna's twenty columns neither spell the words that end a header nor, behind a line
      break in the first of them, the label that declares a constellation. */
  ghost predicate Innocent(t: string) {
    !Contains(t, END) && !Spoofs(t)
  }

  /** The lines read in place of the antenna's. */
  lemma AntennaReads(s: Station)
    ensures Contains(AntennaText(s), END) <==> !NoneEnds(AntennaPieces(s))
    ensures Contains(AntennaText(s), END) ==>
      forall k | 0 <= k < |AntennaPieces(s)| :: !Contains(AntennaPieces(s)[k], INTERVAL)
    ensures !Spoofs(AntennaText(s)) ==> DeclaredIn(AntennaPieces(s)) == {}
    ensures Spoofs(AntennaText(s)) ==> 'S' in DeclaredIn(AntennaPieces(s))
  {
    hide AntennaText, AntennaPieces, Contains, Declares, Spoofs;
    PiecesEnd(s);
    var ps := AntennaPieces(s);
    if Spoofs(AntennaText(s)) {
      SpoofDeclares(s);
      DeclaresIsIn(ps, 1, 'S');
    } else {
      forall k, c | 0 <= k < |ps| ensures !Declares(ps[k], c) {
        PieceDeclaresNone(s, k, c);
      }
      NoneDeclare(ps);
    }
  }

  lemma DeclaresIsIn(ls: seq<string>, k: nat, c: char)
    requires k < |ls| && Declares(ls[k], c)
    ensures c in DeclaredIn(ls)
  {
    assert ls[k] in ls && c in ls[k];
    hide Contains;
  }

  lemma NoSystemS(mask: set<nat>)
    ensures 'S' !in MaskCodes(mask)
  {
  }

  lemma AntennaLineEnds(s: Station)
    ensures !EndsInReturn(AntennaLine(s))
  {
    AntennaColumns(s);
    hide AntennaLine, AntennaText;
  }

  lemma ClosingEnds(u: string)
    ensures !EndsInReturn(u + CLOSING)
  {
  }

  /** A text in five parts is accepted exactly when its antenna is innocent. */
  lemma PartsAccepted(text: string, s: Station, f: seq<string>, m: seq<string>, c: seq<string>, end: string,
                      b: seq<string>)
    requires Lines(text) == f + (AntennaPieces(s) + (m + ((c + [end]) + b)))
    requires NoneEnds(f) && NoneEnds(m) && NoneEnds(c) && Contains(end, END)
    requires forall k | 0 <= k < |f| :: !Contains(f[k], INTERVAL)
    requires DeclaredIn(f) == {} && DeclaredIn(c + [end]) == {}
    requires AnyContains(m, FIRST) && AnyContains(m, INTERVAL)
    requires WalkBody(b).ok && WalkBody(b).epochs > 0 && DeclaredIn(m) == WalkBody(b).seen
    requires 'S' !in WalkBody(b).seen
    ensures Accepts(text) <==> Innocent(AntennaText(s))
  {
    hide AntennaText, AntennaPieces, Contains, Lines, HeaderEnd, Reads, Accepts, NoneEnds,
      DeclaredIn, WalkBody, Spoofs, AnyContains;
    var ls := Lines(text);
    AntennaReads(s);
    AcceptsIs(text, ls, HeaderEnd(ls));
    if Contains(AntennaText(s), END) {
      EarlyEndFails(f, AntennaPieces(s), m + ((c + [end]) + b));
    } else {
      LateEndReads(f, AntennaPieces(s), m, c, end, b);
    }
  }

  lemma RegionAccepted(doc: Doc, z: string, x: string, n: nat)
    requires Sound(doc) && doc.epochs != [] && Region(z, x, n, doc.epochs)
    ensures Accepts(Head(doc) + z) <==> Innocent(AntennaText(doc.station))
  {
    hide *;
    var s, first, body := doc.station, doc.First().stamp, Body(doc.epochs);
    var f, m, closing := Front(s, first), Middle(s, doc.mask, first), (x + Repeat(' ', n)) + CLOSING;
    RegionIs(z, x, n, doc.epochs);
    GoodEpochs(doc);
    FrontReads(s, first);
    SilentReads(f);
    MiddleReads(s, doc.mask, first);
    BodyIsOneLiners(doc.epochs, doc.mask);
    BodyWalks(doc);
    NoSystemS(doc.mask);
    AntennaLineEnds(s);
    ClosingEnds(x + Repeat(' ', n));
    FileInParts(doc, z, x, n);
    LinesInParts(f, AntennaLine(s), m, closing, body);
    var c, end := RegionReads(x, n);
    AntennaPiecesAre(s);
    PartsAccepted(Head(doc) + z, s, f, m, c, end, body);
  }

  lemma AntennaPiecesAre(s: Station)
    ensures AntennaPieces(s) == Pieces(AntennaLine(s), [])
  {
    hide Pieces, AntennaLine;
  }

  /** The repository's validator accepts the file the logger leaves, and the file rendered at once,
      exactly when the antenna's text is innocent: whatever else that text is, line breaks
      included, and whatever the years. */
  lemma AcceptedIff(doc: Doc)
    requires Sound(doc)
    ensures doc.epochs != []
    ensures Accepts(FileText(doc)) <==> Innocent(AntennaText(doc.station))
    ensures Accepts(Render(doc)) <==> Innocent(AntennaText(doc.station))
  {
    hide *;
    GoodEpochs(doc);
    FileTextIs(doc);
    RenderIs(doc);
    var x, n := PatchworkRegion(doc.epochs);
    RegionAccepted(doc, Patchwork(doc.epochs), x, n);
    RenderRegion(doc.epochs, doc.Last());
    RegionAccepted(doc, TimeLine(doc.Last()) + Tail(doc.epochs), TimeLine(doc.Last()), 60);
  }

  lemma RenderRegion(epochs: seq<Epoch>, t: Time)
    ensures Region(TimeLine(t) + Tail(epochs), TimeLine(t), 60, epochs)
  {
    TimeLineIsFree(t);
    TailIs(epochs);
    hide TimeLine, Tail, Body, Unlines;
  }

  /** A name that is a line break and the first fifteen characters of the label that declares a
      constellation, and a radome that is the rest. */
  predicate SpellsTypes(s: Station) {
    s.model == [NEWLINE] + "SYS / # / OBS T" && s.radome == "YPES"
  }

  /** A name that is the words that end a header. */
  predicate SpellsEnd(s: Station) {
    s.model == "END OF HEADER   " && s.radome == "NONE"
  }

  /** Two inputs that are not innocent: the first nowhere spells the end of a header, the second
      does. */
  lemma SpoofedStation(s: Station)
    requires SpellsTypes(s)
    ensures Spoofs(AntennaText(s)) && !Contains(AntennaText(s), END) && !Innocent(AntennaText(s))
  {
    ShortAntenna(s);
    LabelParts();
    var t, name, radome := AntennaText(s), "SYS / # / OBS T", "YPES";
    hide AntennaText;
    ConcatAssoc([NEWLINE], name, radome);
    assert t == [NEWLINE] + TYPES && t[1..] == TYPES;
    assert 'H' !in t;
    hide Spoofs;
    Lacks(t, END, 7);
  }

  lemma EndingStation(s: Station)
    requires SpellsEnd(s)
    ensures Contains(AntennaText(s), END) && !Innocent(AntennaText(s))
  {
    ShortAntenna(s);
    ContainsAt(AntennaText(s), "", END, "   " + "NONE");
  }

  lemma LabelParts()
    ensures TYPES == "SYS / # / OBS T" + "YPES" && |"SYS / # / OBS T"| == 15
    ensures 'H' !in TYPES
  {
    assert Free("SYS / # / OBS T", 'H', 'H', 'H') && Free("YPES", 'H', 'H', 'H');
  }

  lemma ShortAntenna(s: Station)
    requires |s.model| == 16 && |s.radome| == 4
    ensures AntennaText(s) == s.model + s.radome
  {
  }

  /** So the validator accepts no file of such stations. */
  lemma SpoofedFilesFail(doc: Doc)
    requires Sound(doc) && (SpellsTypes(doc.station) || SpellsEnd(doc.station))
    ensures doc.epochs != [] && !Accepts(FileText(doc)) && !Accepts(Render(doc))
  {
    if SpellsTypes(doc.station) {
      SpoofedStation(doc.station);
    } else {
      EndingStation(doc.station);
    }
    hide *;
    AcceptedIff(doc);
  }

  /** Over every run from power-on, for every file closed or still being written: the validator
      accepts it exactly when the antenna's text is innocent. */
  lemma EveryFileIsAccepted(evs: seq<Event>, station: Station, i: nat)
    requires i < |Files(Run(Off(station), evs))|
    ensures var files, docs := Files(Run(Off(station), evs)), Docs(JRun(JOff(station), evs));
      && |docs| == |files| && docs[i].epochs != [] && files[i] == FileText(docs[i])
      && (Accepts(files[i]) <==> Innocent(AntennaText(docs[i].station)))
  {
    hide *;
    EveryFileIsRendered(evs, station, i);
    AcceptedIff(Docs(JRun(JOff(station), evs))[i]);
  }
}
