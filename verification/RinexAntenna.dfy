/** The antenna's line of the header, which holds what a user entered. */
module RinexAntenna {
  import opened Common
  import opened RinexText
  import opened RinexFile
  import opened RinexSat
  import opened RinexHeader

  /** The characters of the antenna's line: four zeros, blanks, twenty columns of antenna,
      blanks, and the label. */
  lemma AntennaColumns(s: Station)
    ensures |AntennaText(s)| == 20 && |AntennaLine(s)| == 77
    ensures forall k | 0 <= k < 20 :: AntennaLine(s)[k] != 'E' && AntennaLine(s)[k] != 'I'
    ensures AntennaLine(s)[20..40] == AntennaText(s)
    ensures forall k | 40 <= k < 77 ::
      AntennaLine(s)[k] != 'R' && AntennaLine(s)[k] != 'L' && AntennaLine(s)[k] != 'S'
    ensures forall k | 0 <= k < 20 || 40 <= k < 77 :: !IsBreak(AntennaLine(s)[k])
    ensures AntennaLine(s)[0] == '0'
  {
    var t, name := AntennaText(s), "ANT # / TYPE     ";
    var a, c := PadRight("0000", 20), PadRight("", 20);
    AntennaWidth(s);
    AntennaPads();
    assert a[0] == '0';
    assert PadRight(t, 20) == t;
    assert AntennaLine(s) == a + (t + (c + name));
    hide *;
    Columns(a, t, c, name);
  }

  lemma AntennaWidth(s: Station)
    ensures |AntennaText(s)| == 20
  {
  }

  lemma AntennaPads()
    ensures |PadRight("0000", 20)| == 20 && |PadRight("", 20)| == 20 && |"ANT # / TYPE     "| == 17
    ensures Free(PadRight("0000", 20), 'E', 'I', 'I') && Free(PadRight("", 20), 'R', 'L', 'S')
    ensures Free("ANT # / TYPE     ", 'R', 'L', 'S')
  {
    var name := "ANT # / TYPE     ";
    assert Free(name, 'R', 'L', 'S') && |name| == 17;
    assert Free("0000", 'E', 'I', 'I') && Free("", 'R', 'L', 'S');
    FreePadRight("0000", 20, 'E', 'I', 'I');
    FreePadRight("", 20, 'R', 'L', 'S');
  }

  lemma Columns(a: string, t: string, c: string, name: string)
    requires |a| == 20 && |t| == 20 && |c| == 20 && |name| == 17
    requires Free(a, 'E', 'I', 'I') && Free(c, 'R', 'L', 'S') && Free(name, 'R', 'L', 'S')
    ensures var s := a + (t + (c + name));
      && |s| == 77 && s[20..40] == t
      && (forall k | 0 <= k < 20 :: s[k] != 'E' && s[k] != 'I')
      && (forall k | 40 <= k < 77 :: s[k] != 'R' && s[k] != 'L' && s[k] != 'S')
      && forall k | 0 <= k < 20 || 40 <= k < 77 :: !IsBreak(s[k])
  {
    var s := a + (t + (c + name));
    assert forall k | 0 <= k < 20 :: s[k] == a[k];
    FreeConcat(c, name, 'R', 'L', 'S');
    assert forall k | 40 <= k < 77 :: s[k] == (c + name)[k - 40];
  }

  lemma SubOfSub(s: string, a: nat, b: nat, i: nat, j: nat)
    requires a <= b <= |s| && i <= j <= b - a
    ensures s[a..b][i..j] == s[a + i..a + j]
  {
    var p, q := s[a..b][i..j], s[a + i..a + j];
    assert forall k | 0 <= k < j - i :: p[k] == s[a..b][i + k] == s[a + (i + k)] && q[k] == s[a + i + k];
    assert p == q;
  }

  /** The line contains the words exactly when the antenna's twenty columns do. */
  lemma AntennaEndsIff(s: Station)
    ensures Contains(AntennaLine(s), END) <==> Contains(AntennaText(s), END)
  {
    AntennaColumns(s);
    var line, t := AntennaLine(s), AntennaText(s);
    hide AntennaLine, AntennaText;
    if Contains(line, END) {
      var i :| OccursAt(line, END, i);
      assert line[i..i + 13][0] == 'E' && line[i..i + 13][12] == 'R';
      assert line[i + 12] == 'R' && line[i] == 'E';
      assert 20 <= i && i + 13 <= 40;
      SubOfSub(line, 20, 40, i - 20, i - 7);
      assert OccursAt(t, END, i - 20);
    }
    if Contains(t, END) {
      var i :| OccursAt(t, END, i);
      SubOfSub(line, 20, 40, i, i + 13);
      assert OccursAt(line, END, 20 + i);
    }
  }

  lemma EndAt(s: string, i: int)
    requires OccursAt(s, END, i)
    ensures forall k | i <= k < i + 13 :: s[k] != 'I'
    ensures s[i] == 'E' && s[i + 1] == 'N' && s[i + 12] == 'R'
  {
    var t := s[i..i + 13];
    assert t[0] == 'E' && t[1] == 'N' && t[12] == 'R';
    assert Free(t, 'I', 'I', 'I');
    assert forall k | i <= k < i + 13 :: s[k] == t[k - i];
  }

  lemma IntervalAt(s: string, j: int)
    requires OccursAt(s, INTERVAL, j)
    ensures s[j] == 'I' && s[j + 1] == 'N' && s[j + 2] == 'T' && s[j + 3] == 'E'
    ensures s[j + 4] == 'R' && s[j + 5] == 'V' && s[j + 6] == 'A' && s[j + 7] == 'L'
  {
    var t := s[j..j + 8];
    assert t[0] == 'I' && t[1] == 'N' && t[2] == 'T' && t[3] == 'E';
    assert t[4] == 'R' && t[5] == 'V' && t[6] == 'A' && t[7] == 'L';
  }

  lemma BothOccur(line: string, i: int, j: int)
    requires |line| == 77 && OccursAt(line, END, i)
    requires forall k | 0 <= k < 20 :: line[k] != 'E' && line[k] != 'I'
    requires forall k | 40 <= k < 77 :: line[k] != 'R' && line[k] != 'L'
    ensures !OccursAt(line, INTERVAL, j)
  {
    EndAt(line, i);
    if OccursAt(line, INTERVAL, j) {
      IntervalAt(line, j);
      assert false;
    }
  }

  /** There is no room in the twenty columns for both. */
  lemma NoRoomForInterval(s: Station)
    requires Contains(AntennaLine(s), END)
    ensures !Contains(AntennaLine(s), INTERVAL)
  {
    AntennaColumns(s);
    var line := AntennaLine(s);
    hide AntennaLine, AntennaText;
    var i :| OccursAt(line, END, i);
    forall j ensures !OccursAt(line, INTERVAL, j) {
      BothOccur(line, i, j);
    }
  }

  // ------------------------------------------------------------- the line as it is read

  /** A text that makes a header line of its own, and one that declares constellation S. */
  predicate Spoofs(t: string) {
    t != [] && IsBreak(t[0]) && t[1..] == TYPES
  }

  /** The lines a reader finds in place of the antenna's line. */
  function AntennaPieces(s: Station): seq<string> {
    Pieces(AntennaLine(s), [])
  }

  lemma ContainsPart(s: string, a: nat, b: nat, t: string)
    requires a <= b <= |s| && Contains(s[a..b], t)
    ensures Contains(s, t)
  {
    var i :| OccursAt(s[a..b], t, i);
    SubOfSub(s, a, b, i, i + |t|);
    assert OccursAt(s, t, a + i);
  }

  lemma PieceIsPart(s: string, k: nat, t: string)
    requires k < |Pieces(s, [])| && Contains(Pieces(s, [])[k], t)
    ensures Contains(s, t)
  {
    var a, b := PieceAt(s, [], k);
    hide Contains, Pieces;
    ConcatEmpty(s);
    ContainsPart(s, a, b, t);
  }

  /** A piece ends the header exactly when the antenna's columns spell the words, and then no piece
      is an interval record. */
  lemma PiecesEnd(s: Station)
    ensures Contains(AntennaText(s), END) <==>
      exists k :: 0 <= k < |AntennaPieces(s)| && Contains(AntennaPieces(s)[k], END)
    ensures Contains(AntennaText(s), END) ==>
      forall k | 0 <= k < |AntennaPieces(s)| :: !Contains(AntennaPieces(s)[k], INTERVAL)
  {
    var line, ps := AntennaLine(s), AntennaPieces(s);
    AntennaEndsIff(s);
    hide AntennaLine, AntennaText, Pieces;
    if Contains(line, END) {
      NoRoomForInterval(s);
      var i :| OccursAt(line, END, i);
      ConcatEmpty(line);
      EndIsPlain();
      var k := OccursInPiece(line, [], END, i);
      assert Contains(ps[k], END);
    }
    hide Contains;
    forall k | 0 <= k < |ps| && (Contains(ps[k], END) || Contains(ps[k], INTERVAL))
      ensures Contains(ps[k], END) ==> Contains(line, END)
      ensures Contains(ps[k], INTERVAL) ==> Contains(line, INTERVAL)
    {
      if Contains(ps[k], END) {
        PieceIsPart(line, k, END);
      }
      if Contains(ps[k], INTERVAL) {
        PieceIsPart(line, k, INTERVAL);
      }
    }
  }

  lemma EndIsPlain()
    ensures OneLine(END) && END != []
  {
    assert Free(END, 'x', 'x', 'x');
  }

  lemma TypesAt(s: string, i: int)
    requires OccursAt(s, TYPES, i)
    ensures s[i] == 'S' && s[i + 18] == 'S'
  {
    var t := s[i..i + 19];
    assert t[0] == 'S' && t[18] == 'S';
  }

  /** Where the phrase can stand in a part that is read as a line: the first line starts with a
      zero, and in any other it has to start at once, right behind a break in the first column. */
  lemma DeclaringPart(line: string, a: nat, b: nat, c: char)
    requires |line| == 77 && line[0] == '0' && a <= b <= 77 && Declares(line[a..b], c)
    requires forall k | 40 <= k < 77 :: line[k] != 'S'
    requires forall k | 0 <= k < 20 || 40 <= k < 77 :: !IsBreak(line[k])
    requires a > 0 ==> IsBreak(line[a - 1])
    ensures Spoofs(line[20..40])
  {
    var j :| OccursAt(line[a..b], TYPES, j);
    SubOfSub(line, a, b, j, j + 19);
    TypesAt(line, a + j);
    assert MaxPrn('0') == 0;
    hide MaxPrn;
    assert a == 21 && j == 0;
    SubOfSub(line, 20, 40, 1, 20);
    assert line[20..40][1..] == line[20..40][1..20];
  }

  /** No piece of an innocent text declares anything. */
  lemma PieceDeclaresNone(s: Station, k: nat, c: char)
    requires !Spoofs(AntennaText(s)) && k < |AntennaPieces(s)|
    ensures !Declares(AntennaPieces(s)[k], c)
  {
    hide AntennaLine, AntennaText, Pieces, Declares, Spoofs;
    AntennaColumns(s);
    var line := AntennaLine(s);
    var a, b := PieceAt(line, [], k);
    ConcatEmpty(line);
    if Declares(AntennaPieces(s)[k], c) {
      DeclaringPart(line, a, b, c);
    }
  }

  /** The pieces of a text that spoofs: the second declares constellation S. */
  lemma SpoofDeclares(s: Station)
    requires Spoofs(AntennaText(s))
    ensures |AntennaPieces(s)| == 2 && Declares(AntennaPieces(s)[1], 'S')
  {
    AntennaColumns(s);
    var line, t := AntennaLine(s), AntennaText(s);
    hide AntennaLine, AntennaText;
    var u, rest := line[..20], line[40..];
    assert t == [t[0]] + TYPES;
    assert line == u + (t + rest);
    assert line == u + ([t[0]] + (TYPES + rest));
    TypesArePlain();
    assert OneLine(TYPES + rest);
    BrokenOnce(u, t[0], TYPES + rest);
    ContainsAt(TYPES + rest, [], TYPES, rest) by {
      ConcatEmpty(TYPES);
    }
    assert MaxPrn('S') > 0;
  }

  lemma TypesArePlain()
    ensures OneLine(TYPES) && TYPES[0] == 'S'
  {
    assert Free(TYPES, 'x', 'x', 'x');
  }

  lemma BrokenOnce(u: string, c: char, w: string)
    requires OneLine(u) && IsBreak(c) && w != [] && OneLine(w)
    ensures Pieces(u + ([c] + w), []) == [u, w]
  {
    PrefixPiece(u, c, w, []);
    hide Pieces;
    OnePiece(w, []);
    ConcatEmpty(u);
    ConcatEmpty(w);
  }

  lemma {:induction false} PrefixPiece(u: string, c: char, w: string, line: string)
    requires OneLine(u) && IsBreak(c) && w != [] && w[0] != NEWLINE
    ensures Pieces(u + ([c] + w), line) == [line + u] + Pieces(w, [])
    decreases |u|
  {
    var s := u + ([c] + w);
    if u == [] {
      assert s == [c] + w && s[1..] == w;
      ConcatEmpty(line);
    } else {
      assert s[1..] == u[1..] + ([c] + w);
      PrefixPiece(u[1..], c, w, line + [u[0]]);
      assert (line + [u[0]]) + u[1..] == line + u;
    }
  }
}
