/** The logger of main/rinex_logger.cpp as it works on its file, a stdio stream. */
module RinexLogger {
  import opened Common
  import opened RinexText
  import opened RinexSat
  import opened GpsTime
  import opened RinexFile
  import opened RinexLog

  /** A stream opened with "w+": writing goes to the position, wherever it was moved. */
  class Stream {
    var bytes: string
    var pos: nat

    ghost predicate Valid()
      reads this
    {
      pos <= |bytes|
    }

    constructor ()
      ensures Valid() && bytes == [] && pos == 0
    {
      bytes, pos := [], 0;
    }

    method Print(s: string)
      requires Valid()
      modifies this
      ensures Valid() && bytes == Overwrite(old(bytes), old(pos), s) && pos == old(pos) + |s|
    {
      bytes := Overwrite(bytes, pos, s);
      pos := pos + |s|;
    }

    method Seek(p: nat)
      requires Valid() && p <= |bytes|
      modifies this`pos
      ensures Valid() && pos == p
    {
      pos := p;
    }

    /** Lines printed one after the other. */
    method PrintLines(ls: seq<string>)
      requires Valid()
      modifies this
      ensures Valid() && pos == old(pos) + |Unlines(ls)| && bytes == Overwrite(old(bytes), old(pos), Unlines(ls))
    {
      hide Unlines, Overwrite;
      assert ls[0..] == ls;
      for i := 0 to |ls|
        invariant Valid() && pos + |Unlines(ls[i..])| == old(pos) + |Unlines(ls)|
        invariant Overwrite(bytes, pos, Unlines(ls[i..])) == Overwrite(old(bytes), old(pos), Unlines(ls))
      {
        UnlinesStep(ls, i);
        OverwriteTwice(bytes, pos, ls[i] + [NEWLINE], Unlines(ls[i + 1..]));
        Print(ls[i] + [NEWLINE]);
      }
      UnlinesNone();
      assert ls[|ls|..] == [];
      OverwriteNothing(bytes, pos);
    }
  }

  lemma OverwriteNothing(bytes: string, pos: nat)
    requires pos <= |bytes|
    ensures Overwrite(bytes, pos, []) == bytes
  {
  }

  /** Two writes in a row are one. */
  lemma OverwriteTwice(bytes: string, pos: nat, s: string, t: string)
    requires pos <= |bytes|
    ensures pos + |s| <= |Overwrite(bytes, pos, s)|
    ensures Overwrite(Overwrite(bytes, pos, s), pos + |s|, t) == Overwrite(bytes, pos, s + t)
  {
    var b := Overwrite(bytes, pos, s);
    assert b[..pos + |s|] == bytes[..pos] + s;
    assert (bytes[..pos] + s) + t == bytes[..pos] + (s + t);
    if pos + |s| + |t| <= |b| && pos + |s| <= |bytes| {
      assert b[pos + |s| + |t|..] == bytes[pos + |s| + |t|..];
    }
  }

  lemma UnlinesNone()
    ensures Unlines([]) == []
  {
  }

  lemma UnlinesStep(ls: seq<string>, i: nat)
    requires i < |ls|
    ensures Unlines(ls[i..]) == (ls[i] + [NEWLINE]) + Unlines(ls[i + 1..])
  {
    assert ls[i..][1..] == ls[i + 1..];
    ConcatAssoc(ls[i], [NEWLINE], Unlines(ls[i + 1..]));
  }

  class Rinex {
    var active: bool
    var station: Station
    var file: Stream?
    var first: Time
    var presentMask: set<nat>
    var lastObsPos: nat
    var lastObs: Time
    var epochs: nat
    /** What has been left on the card. */
    ghost var closed: seq<string>

    ghost predicate Valid()
      reads this, file
    {
      file != null ==> file.Valid() && lastObsPos <= |file.bytes|
    }

    ghost function OpenFile(): Open
      requires file != null
      reads this, file
    {
      Open(file.bytes, file.pos, first, presentMask, lastObsPos, lastObs, epochs)
    }

    ghost function Abstract(): Logger
      reads this, file
    {
      Logger(station, active, if file == null then None else Some(OpenFile()), closed)
    }

    constructor (s: Station)
      ensures Valid() && Abstract() == Logger(s, false, None, [])
    {
      active, station, file, closed := false, s, null, [];
      first, lastObs := At(0, 0), At(0, 0);
      presentMask, lastObsPos, epochs := {}, 0, 0;
    }

    method Start(s: Station)
      requires Valid()
      modifies this
      ensures Valid() && file == old(file) && Abstract() == Next(old(Abstract()), Event.Start(s))
    {
      if active {
        return;
      }
      station := WithDefaults(s);
      active := true;
    }

    method Stop()
      requires Valid()
      modifies this, file
      ensures Valid() && Abstract() == Next(old(Abstract()), Event.Stop)
      ensures active || file == old(file) || file == null
    {
      if !active {
        return;
      }
      active := false;
      CloseFile();
    }

    method CloseFile()
      requires Valid()
      modifies this`file, this`closed, file
      ensures Valid() && Abstract() == Shut(old(Abstract()))
      ensures file == null
    {
      hide LastLine, Overwrite;
      if file == null {
        return;
      }
      if lastObsPos > 0 {
        file.Seek(lastObsPos);
        file.Print(TimeLine(lastObs));
      }
      closed := closed + [file.bytes];
      file := null;
    }

    method RotateIfNeeded(t: Time)
      requires Valid()
      modifies this`file, this`closed, file
      ensures Valid() && Abstract() == Rotated(old(Abstract()), t)
      ensures file == null || file == old(file)
    {
      hide Shut;
      if file != null && Overdue(first, t) {
        CloseFile();
      }
    }

    /** Only the lines of the constellations in the mask. */
    method PrintSystems()
      requires Valid() && file != null && file.pos == |file.bytes|
      modifies file
      ensures Valid() && file.pos == |file.bytes| && file.bytes == old(file.bytes) + Unlines(SysLines(presentMask, 0))
    {
      hide Unlines, SysLine, Overwrite;
      for i := 0 to |SYSTEMS|
        invariant Valid() && file.pos == |file.bytes|
        invariant file.bytes + Unlines(SysLines(presentMask, i)) == old(file.bytes) + Unlines(SysLines(presentMask, 0))
      {
        SystemStep(file.bytes, presentMask, i);
        if SYSTEMS[i].sys in presentMask {
          OverwriteAtEnd(file.bytes, Unlines([SysLine(SYSTEMS[i])]));
          file.PrintLines([SysLine(SYSTEMS[i])]);
        }
      }
      UnlinesNone();
      ConcatEmpty(file.bytes);
    }

    method WriteHeader(t: Time)
      requires Valid() && file != null && file.bytes == [] && file.pos == 0
      modifies this`lastObsPos, file
      ensures Valid()
      ensures lastObsPos == |Unlines(Before(station, presentMask, t.stamp))|
      ensures file.bytes == Unlines(Before(station, presentMask, t.stamp)) + (TimeLine(t) + (EndLine() + [NEWLINE]))
      ensures file.pos == |file.bytes|
    {
      hide Opening, SysLines, IntervalLine, FirstLine, LastLine, EndLine, Unlines, Overwrite;
      var st := t.stamp;
      OverwriteAtEnd(file.bytes, Unlines(Opening(station, st)));
      file.PrintLines(Opening(station, st));
      PrintSystems();
      OverwriteAtEnd(file.bytes, Unlines([IntervalLine(), FirstLine(st)]));
      file.PrintLines([IntervalLine(), FirstLine(st)]);
      HeaderSoFar(station, presentMask, st);
      lastObsPos := file.pos;
      ghost var before := file.bytes;
      OverwriteAtEnd(before, TimeLine(t));
      file.Print(TimeLine(t));
      OverwriteAtEnd(file.bytes, EndLine() + [NEWLINE]);
      file.Print(EndLine() + [NEWLINE]);
      ConcatAssoc(before, TimeLine(t), EndLine() + [NEWLINE]);
    }

    method OpenNew(t: Time, canOpen: bool)
      requires Valid() && file == null
      modifies this`file, this`first, this`lastObsPos, this`lastObs, this`epochs
      ensures Valid()
      ensures if canOpen then
                file != null && fresh(file) && OpenFile() == Opened(station, t, presentMask)
              else
                file == null
    {
      if !canOpen {
        return;
      }
      file := new Stream();
      epochs := 0;
      first := t;
      lastObsPos := 0;
      lastObs := t;
      hide Before, TimeLine, EndLine, Unlines;
      WriteHeader(t);
    }

    method ChooseRows(sats: seq<Sat>) returns (rows: seq<Sat>)
      ensures rows == Chosen(sats, presentMask)
    {
      rows := [];
      for i := 0 to |sats|
        invariant rows == Chosen(sats[..i], presentMask)
      {
        hide FormatSatId;
        assert sats[..i + 1][..i] == sats[..i];
        var s := sats[i];
        if s.key.sys in presentMask && FormatSatId(s.key.sys, s.key.prn).Some? {
          rows := rows + [s];
        }
      }
      assert sats[..|sats|] == sats;
    }

    method WriteEpoch(t: Time, sats: seq<Sat>)
      requires Valid() && file != null
      modifies this`lastObs, this`epochs, file
      ensures Valid() && OpenFile() == Written(old(OpenFile()), t, sats)
    {
      hide Chosen, LastLine, Overwrite, EpochLine, RowLines, Unlines;
      var rows := ChooseRows(sats);
      if rows == [] {
        return;
      }
      var e := Epoch(t, rows);
      file.PrintLines([EpochLine(e)] + RowLines(rows));
      lastObs := t;
      if lastObsPos > 0 {
        var appendPos := file.pos;
        file.Seek(lastObsPos);
        file.Print(TimeLine(t));
        file.Seek(appendPos);
      }
      epochs := epochs + 1;
    }

    method ProcessMessage(m: Message, canOpen: bool)
      requires Valid()
      modifies this, file
      ensures Valid() && Abstract() == Next(old(Abstract()), Heard(m, canOpen))
      ensures file == null || file == old(file) || fresh(file)
    {
      hide OnBoundary, Nearest, Complete, Merged, Rotated, Mask, Opened, Written;
      if !active || !m.timeOk || m.week <= 0 || !OnBoundary(m.tow) || m.numObs <= 0 || m.numObs > MAX_OBS {
        return;
      }
      var t := At(m.week, Nearest(m.tow));
      var sats := MergeRecords(Complete(m));
      if sats == [] {
        return;
      }
      WriteSats(t, sats, canOpen);
    }

    /** process_message, from where the satellites are known */
    method WriteSats(t: Time, sats: seq<Sat>, canOpen: bool)
      requires Valid() && sats != []
      modifies this, file
      ensures Valid() && Abstract() == Process(old(Abstract()), t, sats, canOpen)
      ensures file == null || file == old(file) || fresh(file)
    {
      hide Rotated, Mask, Opened, Written;
      RotateIfNeeded(t);
      if file == null {
        presentMask := Mask(sats);
        OpenNew(t, canOpen);
      }
      if file != null {
        WriteEpoch(t, sats);
      }
    }
  }

  lemma SystemStep(bytes: string, mask: set<nat>, i: nat)
    requires i < |SYSTEMS|
    ensures bytes + Unlines(SysLines(mask, i)) ==
      (if SYSTEMS[i].sys in mask then bytes + Unlines([SysLine(SYSTEMS[i])]) else bytes)
      + Unlines(SysLines(mask, i + 1))
  {
    hide SysLine;
    var line, more := SysLine(SYSTEMS[i]), SysLines(mask, i + 1);
    if SYSTEMS[i].sys in mask {
      UnlinesConcat([line], more);
      ConcatAssoc(bytes, Unlines([line]), Unlines(more));
    } else {
      ConcatEmpty(more);
    }
  }

  lemma HeaderSoFar(s: Station, mask: set<nat>, st: Stamp)
    ensures Unlines(Before(s, mask, st)) ==
      (([] + Unlines(Opening(s, st))) + Unlines(SysLines(mask, 0))) + Unlines([IntervalLine(), FirstLine(st)])
  {
    hide Opening, SysLines, IntervalLine, FirstLine, Unlines;
    var o, m, t := Opening(s, st), SysLines(mask, 0), [IntervalLine(), FirstLine(st)];
    UnlinesConcat(o, m + t);
    UnlinesConcat(m, t);
    ConcatAssoc(Unlines(o), Unlines(m), Unlines(t));
    ConcatEmpty(Unlines(o));
  }
}
