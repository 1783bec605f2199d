/** Text as printf lays it out and as a reader takes it apart again.

    Only the conversions the logger uses are here: integers padded with blanks or zeros, and numbers
    with a fixed count of decimals, which are given as integers in units of the last decimal, so
    that rounding is not part of the model. What is proved is what the readers need: which
    characters can occur, how wide a field is, and that a printed count is read back. */
module RinexText {
  import opened Common

  const NEWLINE: char := 10 as char
  const RETURN: char := 13 as char

  // ------------------------------------------------------------------------- printing

  function Repeat(c: char, n: nat): (s: string)
    ensures |s| == n && forall i | 0 <= i < n :: s[i] == c
  {
    seq(n, i => c)
  }

  /** %ws */
  function PadLeft(s: string, w: nat): (r: string)
    ensures |r| == if |s| < w then w else |s|
  {
    if |s| < w then Repeat(' ', w - |s|) + s else s
  }

  /** %-ws */
  function PadRight(s: string, w: nat): (r: string)
    ensures |r| == if |s| < w then w else |s|
  {
    if |s| < w then s + Repeat(' ', w - |s|) else s
  }

  /** %.ws */
  function Cut(s: string, w: nat): (r: string)
    ensures |r| <= w
  {
    if |s| <= w then s else s[..w]
  }

  predicate IsDigit(c: char) {
    '0' <= c <= '9'
  }

  predicate Digits(s: string) {
    forall i | 0 <= i < |s| :: IsDigit(s[i])
  }

  function DigitChar(d: nat): (c: char)
    requires d < 10
    ensures IsDigit(c)
  {
    ('0' as int + d) as char
  }

  function Decimal(n: nat): (s: string)
    ensures s != [] && Digits(s)
  {
    if n < 10 then [DigitChar(n)] else Decimal(n / 10) + [DigitChar(n % 10)]
  }

  /** %d */
  function Int(n: int): (s: string)
    ensures s != []
  {
    if n < 0 then ['-'] + Decimal(-n) else Decimal(n)
  }

  /** %wd */
  function D(n: int, w: nat): string {
    PadLeft(Int(n), w)
  }

  /** %0wd */
  function D0(n: int, w: nat): string {
    var digits := Decimal(if n < 0 then -n else n);
    var sign := if n < 0 then ['-'] else [];
    var size := |sign| + |digits|;
    sign + (if size < w then Repeat('0', w - size) else []) + digits
  }

  function Pow10(n: nat): (p: nat)
    ensures p > 0
  {
    if n == 0 then 1 else 10 * Pow10(n - 1)
  }

  /** The digits before and behind the decimal point. */
  function Whole(a: nat, places: nat): (n: nat) {
    if places == 0 then a else Whole(a / 10, places - 1)
  }

  function Fraction(a: nat, places: nat): (s: string)
    ensures |s| == places && Digits(s)
  {
    if places == 0 then [] else Fraction(a / 10, places - 1) + [DigitChar(a % 10)]
  }

  /** %.pf of a value given in units of the last decimal. */
  function Point(v: int, places: nat): string {
    var a := if v < 0 then -v else v;
    (if v < 0 then ['-'] else []) + Decimal(Whole(a, places)) + ['.'] + Fraction(a, places)
  }

  /** %w.pf */
  function Fixed(v: int, places: nat, w: nat): string {
    PadLeft(Point(v, places), w)
  }

  /** The characters numbers are laid out with. */
  predicate Numeric(s: string) {
    forall i | 0 <= i < |s| :: IsDigit(s[i]) || s[i] == ' ' || s[i] == '.' || s[i] == '-'
  }

  lemma NumericPad(s: string, w: nat)
    requires Numeric(s)
    ensures Numeric(PadLeft(s, w))
  {
  }

  lemma NumericConcat(a: string, b: string)
    requires Numeric(a) && Numeric(b)
    ensures Numeric(a + b)
  {
  }

  lemma NumericInt(n: int, w: nat)
    ensures Numeric(Int(n)) && Numeric(D(n, w)) && D(n, w) != []
  {
    hide Decimal;
    NumericPad(Int(n), w);
  }

  lemma NumericD0(n: int, w: nat)
    ensures Numeric(D0(n, w))
  {
    hide Decimal;
  }

  lemma NumericFixed(v: int, places: nat, w: nat)
    ensures Numeric(Fixed(v, places, w)) && Fixed(v, places, w) != []
  {
    var a := if v < 0 then -v else v;
    hide Decimal, Whole, Fraction;
    NumericPad(Point(v, places), w);
  }

  /** A number with no more than k digits. */
  lemma {:induction false} DecimalWidth(n: nat, k: nat)
    requires k > 0
    ensures |Decimal(n)| <= k <==> n < Pow10(k)
  {
    if k > 1 && n >= 10 {
      DecimalWidth(n / 10, k - 1);
    } else if k > 1 {
      assert Pow10(k) >= 10;
    } else {
      assert Pow10(1) == 10;
    }
  }

  // -------------------------------------------------------------------------- reading

  function ParseNat(s: string): (n: Option<nat>)
    decreases |s|
  {
    if s == [] || !IsDigit(s[|s| - 1]) then None
    else
      var low := s[|s| - 1] as int - '0' as int;
      if |s| == 1 then Some(low)
      else
        match ParseNat(s[..|s| - 1])
        case None => None
        case Some(high) => Some(10 * high + low)
  }

  lemma {:induction false} ParseDecimal(n: nat)
    ensures ParseNat(Decimal(n)) == Some(n)
  {
    if n >= 10 {
      ParseDecimal(n / 10);
      var s := Decimal(n);
      assert s[..|s| - 1] == Decimal(n / 10);
    }
  }

  /** A leading zero. */
  lemma {:induction false} ParseZero(s: string)
    requires s != [] && Digits(s)
    ensures ParseNat(['0'] + s) == ParseNat(s) && ParseNat(s).Some?
    decreases |s|
  {
    var t := ['0'] + s;
    assert t[|t| - 1] == s[|s| - 1];
    if |s| == 1 {
      assert t[..|t| - 1] == ['0'];
    } else {
      assert t[..|t| - 1] == ['0'] + s[..|s| - 1];
      ParseZero(s[..|s| - 1]);
    }
  }

  predicate IsSpace(c: char) {
    c == ' ' || 9 as char <= c <= RETURN
  }

  /** The last of the words of `s`, empty when there is none. */
  function LastWord(s: string): (w: string)
    decreases |s|
  {
    if s == [] then []
    else
      var init, c := s[..|s| - 1], s[|s| - 1];
      if IsSpace(c) then LastWord(init)
      else if init == [] || IsSpace(init[|init| - 1]) then [c]
      else LastWord(init) + [c]
  }

  lemma {:induction false} LastWordIs(before: string, word: string)
    requires word != [] && forall i | 0 <= i < |word| :: !IsSpace(word[i])
    requires before == [] || IsSpace(before[|before| - 1])
    ensures LastWord(before + word) == word
    decreases |word|
  {
    var s := before + word;
    var init := word[..|word| - 1];
    assert s[..|s| - 1] == before + init && s[|s| - 1] == word[|word| - 1];
    assert word == init + [word[|word| - 1]];
    if init != [] {
      LastWordIs(before, init);
    }
  }

  predicate OccursAt(s: string, t: string, i: int) {
    0 <= i <= |s| - |t| && s[i..i + |t|] == t
  }

  ghost predicate Contains(s: string, t: string) {
    exists i :: OccursAt(s, t, i)
  }

  /** A text without one of the needle's characters does not contain the needle. */
  lemma Lacks(s: string, t: string, k: nat)
    requires k < |t| && t[k] !in s
    ensures !Contains(s, t)
  {
    if Contains(s, t) {
      var i :| OccursAt(s, t, i);
      CharOccurs(s, t, i, k);
    }
  }

  lemma CharOccurs(s: string, t: string, i: int, k: nat)
    requires OccursAt(s, t, i) && k < |t|
    ensures t[k] in s
  {
    assert s[i..i + |t|][k] == s[i + k];
  }

  lemma ContainsAt(s: string, a: string, t: string, b: string)
    requires s == a + t + b
    ensures Contains(s, t)
  {
    assert OccursAt(s, t, |a|);
  }

  // ---------------------------------------------------------------------------- lines

  predicate IsBreak(c: char) {
    c == NEWLINE || c == RETURN
  }

  predicate OneLine(s: string) {
    forall i | 0 <= i < |s| :: !IsBreak(s[i])
  }

  predicate OneLiners(ls: seq<string>) {
    forall i | 0 <= i < |ls| :: OneLine(ls[i])
  }

  function Unlines(ls: seq<string>): (text: string) {
    if ls == [] then [] else ls[0] + ([NEWLINE] + Unlines(ls[1..]))
  }

  /** The lines of a text of which `line` is read so far. Both breaks end a line, and a return
      with a newline behind it is one break. */
  function LinesFrom(text: string, line: string): (ls: seq<string>)
    decreases |text|
  {
    if text == [] then if line == [] then [] else [line]
    else if text[0] == RETURN && |text| > 1 && text[1] == NEWLINE then [line] + LinesFrom(text[2..], [])
    else if IsBreak(text[0]) then [line] + LinesFrom(text[1..], [])
    else LinesFrom(text[1..], line + [text[0]])
  }

  function Lines(text: string): seq<string> {
    LinesFrom(text, [])
  }

  /** The lines a text is read as when it is printed as one line; `line` is read so far. */
  function Pieces(s: string, line: string): (ps: seq<string>)
    ensures ps != []
    decreases |s|
  {
    if s == [] then [line]
    else if s[0] == RETURN && |s| > 1 && s[1] == NEWLINE then [line] + Pieces(s[2..], [])
    else if IsBreak(s[0]) then [line] + Pieces(s[1..], [])
    else Pieces(s[1..], line + [s[0]])
  }

  predicate EndsInReturn(s: string) {
    s != [] && s[|s| - 1] == RETURN
  }

  /** A printed line is read as its pieces, whatever is in it and whatever follows. */
  lemma {:induction false} ReadPieces(s: string, rest: string, line: string)
    requires !EndsInReturn(s)
    ensures LinesFrom(s + ([NEWLINE] + rest), line) == Pieces(s, line) + LinesFrom(rest, [])
    decreases |s|
  {
    var text := s + ([NEWLINE] + rest);
    if s == [] {
      assert text == [NEWLINE] + rest && text[1..] == rest;
    } else {
      var n := if s[0] == RETURN && |s| > 1 && s[1] == NEWLINE then 2 else 1;
      assert text[n..] == s[n..] + ([NEWLINE] + rest);
      assert n == 1 && s[0] == RETURN ==> text[1] == s[1] != NEWLINE;
      var next := if IsBreak(s[0]) then [] else line + [s[0]];
      ReadPieces(s[n..], rest, next);
      if IsBreak(s[0]) {
        ConcatAssoc([line], Pieces(s[n..], []), LinesFrom(rest, []));
      }
    }
  }

  lemma {:induction false} OnePiece(s: string, line: string)
    requires OneLine(s)
    ensures Pieces(s, line) == [line + s]
    decreases |s|
  {
    if s == [] {
      ConcatEmpty(line);
    } else {
      OnePiece(s[1..], line + [s[0]]);
      assert (line + [s[0]]) + s[1..] == line + s;
    }
  }

  /** The lines of a printed list of lines without breaks are that list. */
  lemma {:induction false} ReadLines(ls: seq<string>, rest: string)
    requires OneLiners(ls)
    ensures LinesFrom(Unlines(ls) + rest, []) == ls + LinesFrom(rest, [])
    decreases |ls|
  {
    if ls == [] {
      ConcatEmpty(rest);
      ConcatEmpty(LinesFrom(rest, []));
    } else {
      var more := Unlines(ls[1..]) + rest;
      assert Unlines(ls) + rest == ls[0] + ([NEWLINE] + more) by {
        ConcatAssoc(ls[0], [NEWLINE] + Unlines(ls[1..]), rest);
        ConcatAssoc([NEWLINE], Unlines(ls[1..]), rest);
      }
      hide Unlines, LinesFrom, Pieces;
      ReadPieces(ls[0], more, []);
      OnePiece(ls[0], []);
      ConcatEmpty(ls[0]);
      ReadLines(ls[1..], rest);
      hide OneLine;
      assert ls == [ls[0]] + ls[1..];
      ConcatAssoc([ls[0]], ls[1..], LinesFrom(rest, []));
    }
  }

  /** A part of the text behind a break, in the whole text. */
  lemma Behind(line: string, s: string, n: nat, a: nat, b: nat)
    requires 1 <= n <= |s| && a <= b <= |s| - n
    ensures (line + s)[|line| + n + a..|line| + n + b] == s[n..][a..b]
    ensures (line + s)[|line| + n + a - 1] == s[n + a - 1]
  {
    var p, q := (line + s)[|line| + n + a..|line| + n + b], s[n..][a..b];
    assert forall i | 0 <= i < b - a :: p[i] == s[n + a + i] && q[i] == s[n + a + i];
    assert p == q;
  }

  /** How many characters the break in front takes. */
  function BreakWidth(s: string): (n: nat)
    requires s != []
    ensures 1 <= n <= |s|
  {
    if s[0] == RETURN && |s| > 1 && s[1] == NEWLINE then 2 else 1
  }

  lemma PiecesStep(s: string, line: string, k: nat)
    requires s != []
    ensures !IsBreak(s[0]) ==> Pieces(s, line) == Pieces(s[1..], line + [s[0]])
    ensures IsBreak(s[0]) ==> |Pieces(s, line)| == |Pieces(s[BreakWidth(s)..], [])| + 1
    ensures IsBreak(s[0]) ==> Pieces(s, line)[0] == line
    ensures IsBreak(s[0]) && 0 < k < |Pieces(s, line)| ==>
              Pieces(s, line)[k] == Pieces(s[BreakWidth(s)..], [])[k - 1]
  {
    PiecesUnfold(s, line);
    hide Pieces, BreakWidth, IsBreak;
  }

  lemma PiecesUnfold(s: string, line: string)
    requires s != []
    ensures Pieces(s, line) ==
      if IsBreak(s[0]) then [line] + Pieces(s[BreakWidth(s)..], []) else Pieces(s[1..], line + [s[0]])
  {
  }

  /** Each piece is a part of the text, and every piece but the first lies behind a break. */
  lemma {:induction false} PieceAt(s: string, line: string, k: nat) returns (a: nat, b: nat)
    requires k < |Pieces(s, line)|
    ensures a <= b <= |line + s| && Pieces(s, line)[k] == (line + s)[a..b]
    ensures k == 0 ==> a == 0
    ensures k > 0 ==> a > |line| && IsBreak((line + s)[a - 1])
    decreases |s|
  {
    if s == [] {
      a, b := 0, |line|;
      ConcatEmpty(line);
    } else {
      PiecesStep(s, line, k);
      hide Pieces, BreakWidth;
      if !IsBreak(s[0]) {
        a, b := PieceAt(s[1..], line + [s[0]], k);
        assert (line + [s[0]]) + s[1..] == line + s;
      } else if k == 0 {
        a, b := 0, |line|;
        assert (line + s)[..|line|] == line;
      } else {
        a, b := PieceBehind(s, line, k);
      }
    }
  }

  lemma {:induction false} PieceBehind(s: string, line: string, k: nat) returns (a: nat, b: nat)
    requires s != [] && IsBreak(s[0]) && 0 < k < |Pieces(s, line)|
    ensures a <= b <= |line + s| && Pieces(s, line)[k] == (line + s)[a..b]
    ensures a > |line| && IsBreak((line + s)[a - 1])
    decreases |s|, 0
  {
    PiecesStep(s, line, k);
    var n := BreakWidth(s);
    assert IsBreak(s[n - 1]);
    hide Pieces, BreakWidth, IsBreak;
    var c, d := PieceAt(s[n..], [], k - 1);
    Onwards(line, s, n, c, d);
    a, b := |line| + n + c, |line| + n + d;
  }

  /** A piece behind the break, which either starts there or has a break of its own in front. */
  lemma Onwards(line: string, s: string, n: nat, c: nat, d: nat)
    requires 1 <= n <= |s| && IsBreak(s[n - 1]) && c <= d <= |[] + s[n..]|
    requires c > 0 ==> IsBreak(([] + s[n..])[c - 1])
    ensures |line| + n + d <= |line + s|
    ensures (line + s)[|line| + n + c..|line| + n + d] == ([] + s[n..])[c..d]
    ensures IsBreak((line + s)[|line| + n + c - 1])
  {
    hide IsBreak;
    ConcatEmpty(s[n..]);
    Behind(line, s, n, c, d);
    assert c > 0 ==> s[n..][c - 1] == s[n + c - 1];
  }

  /** What occurs in a text and has no break in it occurs in one of the pieces. */
  lemma {:induction false} OccursInPiece(s: string, line: string, t: string, i: nat) returns (k: nat)
    requires t != [] && OneLine(t) && OccursAt(line + s, t, i)
    ensures k < |Pieces(s, line)| && Contains(Pieces(s, line)[k], t)
    decreases |s|
  {
    if s == [] {
      k := 0;
      ConcatEmpty(line);
    } else {
      if !IsBreak(s[0]) {
        assert (line + [s[0]]) + s[1..] == line + s;
        k := OccursInPiece(s[1..], line + [s[0]], t, i);
      } else if i + |t| <= |line| {
        k := 0;
        OccursInFront(line, s, t, i);
      } else {
        var n := BreakWidth(s);
        OccursBehind(line, s, t, i);
        k := OccursInPiece(s[n..], [], t, i - |line| - n);
        k := k + 1;
      }
      PiecesStep(s, line, k);
      hide Pieces, OccursAt, OneLine, BreakWidth;
    }
  }

  lemma OccursInFront(line: string, s: string, t: string, i: nat)
    requires OccursAt(line + s, t, i) && i + |t| <= |line|
    ensures OccursAt(line, t, i)
  {
    assert (line + s)[i..i + |t|] == line[i..i + |t|];
  }

  /** What does not end in front of the break lies behind it. */
  lemma OccursBehind(line: string, s: string, t: string, i: nat)
    requires s != [] && IsBreak(s[0]) && t != [] && OneLine(t) && OccursAt(line + s, t, i) && i + |t| > |line|
    ensures i >= |line| + BreakWidth(s)
    ensures OccursAt([] + s[BreakWidth(s)..], t, i - |line| - BreakWidth(s))
  {
    var n := BreakWidth(s);
    NotAcross(line + s, t, i, |line|);
    if n == 2 {
      NotAcross(line + s, t, i, |line| + 1);
    }
    var j := i - |line| - n;
    ConcatEmpty(s[n..]);
    hide OneLine, IsBreak, BreakWidth;
    Behind(line, s, n, j, j + |t|);
  }

  /** Nothing without a break occurs across one. */
  lemma NotAcross(s: string, t: string, i: nat, p: nat)
    requires OneLine(t) && OccursAt(s, t, i) && p < |s| && IsBreak(s[p])
    ensures p < i || p >= i + |t|
  {
    if i <= p < i + |t| {
      CharOfOccurrence(s, t, i, p);
    }
  }

  lemma CharOfOccurrence(s: string, t: string, i: nat, p: nat)
    requires OccursAt(s, t, i) && i <= p < i + |t|
    ensures s[p] == t[p - i]
  {
    assert s[i..i + |t|][p - i] == s[p];
  }

  /** What is not in a text is not in its pieces. */
  lemma {:induction false} PiecesWithout(s: string, line: string, c: char)
    requires c !in s && c !in line
    ensures forall k | 0 <= k < |Pieces(s, line)| :: c !in Pieces(s, line)[k]
    decreases |s|
  {
    if s == [] {
    } else if IsBreak(s[0]) {
      var n := if s[0] == RETURN && |s| > 1 && s[1] == NEWLINE then 2 else 1;
      PiecesWithout(s[n..], [], c);
    } else {
      PiecesWithout(s[1..], line + [s[0]], c);
    }
  }

  /** Text without a break goes to the last piece. */
  lemma {:induction false} LastPiece(u: string, v: string, line: string)
    requires OneLine(v)
    ensures var ps := Pieces(u, line);
      Pieces(u + v, line) == ps[..|ps| - 1] + [ps[|ps| - 1] + v]
    decreases |u|
  {
    if u == [] {
      assert u + v == v;
      OnePiece(v, line);
    } else if IsBreak(u[0]) {
      var n := if u[0] == RETURN && |u| > 1 && u[1] == NEWLINE then 2 else 1;
      assert (u + v)[n..] == u[n..] + v;
      assert n == 1 && u[0] == RETURN && |u + v| > 1 ==> (u + v)[1] != NEWLINE;
      LastPiece(u[n..], v, []);
      var qs := Pieces(u[n..], []);
      assert Pieces(u, line) == [line] + qs;
      assert ([line] + qs)[..|qs|] == [line] + qs[..|qs| - 1];
    } else {
      assert (u + v)[1..] == u[1..] + v;
      LastPiece(u[1..], v, line + [u[0]]);
    }
  }

  lemma {:induction false} UnlinesConcat(a: seq<string>, b: seq<string>)
    ensures Unlines(a + b) == Unlines(a) + Unlines(b)
    decreases |a|
  {
    if a == [] {
      assert a + b == b;
      ConcatEmpty(Unlines(b));
    } else {
      assert (a + b)[1..] == a[1..] + b;
      UnlinesConcat(a[1..], b);
      ConcatAssoc([NEWLINE], Unlines(a[1..]), Unlines(b));
      ConcatAssoc(a[0], [NEWLINE] + Unlines(a[1..]), Unlines(b));
    }
  }

  lemma UnlinesOne(l: string)
    ensures Unlines([l]) == l + [NEWLINE]
  {
    assert [l][1..] == [];
    ConcatEmpty([NEWLINE]);
  }

  lemma NumericIsOneLine(s: string)
    requires Numeric(s)
    ensures OneLine(s)
  {
  }
}
