/** Every way JSON has to write a string, read. */
module JsonText {
  import opened Common
  import opened Json

  // The printer of Json uses some of the spellings of section 7 of RFC 8259. Other programs use
  // others. Here the spellings are listed with what they denote, and the reader is shown to read
  // every string written with them, whoever wrote it.

  /** One character of a string as it is written: as it is, as a backslash and a letter, or as a
      backslash, u and four hexadecimal digits, each in either case. */
  datatype Spelling =
    | Plain(plain: char)
    | Short(letter: char)
    | Code(a: nat, b: nat, c: nat, d: nat, upper: seq<bool>)

  /** What may stand in a string: no quote, no backslash, no control character. */
  predicate Legal(u: Spelling) {
    match u
    case Plain(c) => c >= ' ' && c != '"' && c != '\\'
    case Short(letter) => Letter(letter).Some?
    case Code(a, b, c, d, upper) => a < 16 && b < 16 && c < 16 && d < 16 && |upper| == 4
  }

  function Letter(letter: char): Option<char> {
    match letter
    case '"' => Some('"') case '\\' => Some('\\') case '/' => Some('/')
    case 'b' => Some(8 as char) case 'f' => Some(12 as char) case 'n' => Some(10 as char)
    case 'r' => Some(13 as char) case 't' => Some(9 as char)
    case _ => None
  }

  function HexChar(digit: nat, upper: bool): char
    requires digit < 16
  {
    if digit < 10 then ['0', '1', '2', '3', '4', '5', '6', '7', '8', '9'][digit]
    else if upper then ['A', 'B', 'C', 'D', 'E', 'F'][digit - 10]
    else ['a', 'b', 'c', 'd', 'e', 'f'][digit - 10]
  }

  function Written(u: Spelling): (s: string)
    requires Legal(u)
    ensures s != []
  {
    match u
    case Plain(c) => [c]
    case Short(letter) => ['\\', letter]
    case Code(a, b, c, d, upper) =>
      ['\\', 'u', HexChar(a, upper[0]), HexChar(b, upper[1]), HexChar(c, upper[2]), HexChar(d, upper[3])]
  }

  /** The character meant. The reader knows only those of seven bits by their number. */
  function Meant(u: Spelling): Option<char>
    requires Legal(u)
  {
    match u
    case Plain(c) => Some(c)
    case Short(letter) => Letter(letter)
    case Code(a, b, c, d, _) =>
      var n := 0x1000 * a + 0x100 * b + 0x10 * c + d;
      if n <= 0x7F then Some(n as char) else None
  }

  predicate AllLegal(us: seq<Spelling>) {
    forall i | 0 <= i < |us| :: Legal(us[i])
  }

  function WrittenAll(us: seq<Spelling>): (s: string)
    requires AllLegal(us)
  {
    if us == [] then [] else Written(us[0]) + WrittenAll(us[1..])
  }

  predicate Readable(us: seq<Spelling>)
    requires AllLegal(us)
  {
    forall i | 0 <= i < |us| :: Meant(us[i]).Some?
  }

  function MeantAll(us: seq<Spelling>): (s: string)
    requires AllLegal(us) && Readable(us)
    ensures |s| == |us|
  {
    if us == [] then [] else [Meant(us[0]).value] + MeantAll(us[1..])
  }

  // -------------------------------------------------------------------------- one unit

  lemma HexDigitIs(digit: nat, upper: bool)
    requires digit < 16
    ensures HexDigit(HexChar(digit, upper)) == digit
    ensures HexChar(digit, upper) != '+' && HexChar(digit, upper) != '-' && !IsSpace(HexChar(digit, upper))
    ensures HexChar(digit, upper) != 'x' && HexChar(digit, upper) != 'X'
  {
  }

  lemma FourDigits(a: nat, b: nat, c: nat, d: nat, h: string)
    requires a < 16 && b < 16 && c < 16 && d < 16
    requires |h| == 4 && HexDigit(h[0]) == a && HexDigit(h[1]) == b && HexDigit(h[2]) == c && HexDigit(h[3]) == d
    ensures HexNumber(h) == Some(0x1000 * a + 0x100 * b + 0x10 * c + d)
  {
    hide HexDigit;
    assert h[..3][..2] == h[..2] && h[..2][..1] == h[..1];
    assert HexNumber(h[..1]) == Some(a);
    assert HexNumber(h[..2]) == Some(16 * a + b);
    assert HexNumber(h[..3]) == Some(16 * (16 * a + b) + c);
  }

  /** Four digits without a blank, a sign or an x among them are their number. */
  lemma PlainStrtol(h: string)
    requires |h| == 4 && !IsSpace(h[0]) && h[0] != '+' && h[0] != '-' && h[1] != 'x' && h[1] != 'X'
    ensures Strtol(h) == match HexNumber(h) case None => None case Some(n) => Some(n as int)
  {
    hide HexNumber;
  }

  lemma DigitsRead(a: nat, b: nat, c: nat, d: nat, upper: seq<bool>)
    requires a < 16 && b < 16 && c < 16 && d < 16 && |upper| == 4
    ensures Strtol([HexChar(a, upper[0]), HexChar(b, upper[1]), HexChar(c, upper[2]), HexChar(d, upper[3])])
      == Some(0x1000 * a + 0x100 * b + 0x10 * c + d)
  {
    hide HexNumber, HexDigit, HexChar, IsSpace, Strtol;
    HexDigitIs(a, upper[0]);
    HexDigitIs(b, upper[1]);
    HexDigitIs(c, upper[2]);
    HexDigitIs(d, upper[3]);
    var h := [HexChar(a, upper[0]), HexChar(b, upper[1]), HexChar(c, upper[2]), HexChar(d, upper[3])];
    FourDigits(a, b, c, d, h);
    PlainStrtol(h);
  }

  lemma UnitReads(u: Spelling, rest: string)
    requires Legal(u)
    ensures Written(u)[0] != '"'
    ensures var s := Written(u) + rest;
      match Meant(u)
      case Some(c) => FirstUnit(s) == Unit(c, |Written(u)|)
      case None => FirstUnit(s) == BadUnit
  {
    var s := Written(u) + rest;
    if u.Code? {
      DigitsRead(u.a, u.b, u.c, u.d, u.upper);
      assert s[2..6] == [HexChar(u.a, u.upper[0]), HexChar(u.b, u.upper[1]), HexChar(u.c, u.upper[2]),
                         HexChar(u.d, u.upper[3])];
      hide Strtol, HexChar;
    } else {
      hide Strtol;
    }
  }

  /** Nothing else is read, as long as four hexadecimal digits follow each backslash and u. */
  lemma OnlySpellings(s: string) returns (u: Spelling)
    requires s != [] && s[0] != '"' && FirstUnit(s).Unit?
    requires |s| >= 6 && s[..2] == ['\\', 'u'] ==> forall i | 2 <= i < 6 :: HexDigit(s[i]) >= 0
    ensures Legal(u) && Written(u) <= s
    ensures Meant(u) == Some(FirstUnit(s).c) && |Written(u)| == FirstUnit(s).size
  {
    if s[0] != '\\' {
      u := Plain(s[0]);
    } else if s[1] != 'u' {
      hide Strtol;
      u := Short(s[1]);
      assert Written(u) == s[..2];
    } else {
      u := Code(HexDigit(s[2]), HexDigit(s[3]), HexDigit(s[4]), HexDigit(s[5]),
                [IsUpper(s[2]), IsUpper(s[3]), IsUpper(s[4]), IsUpper(s[5])]);
      HexCharIs(s[2]);
      HexCharIs(s[3]);
      HexCharIs(s[4]);
      HexCharIs(s[5]);
      hide HexChar, HexDigit, Strtol;
      assert s == Written(u) + s[6..];
      UnitReads(u, s[6..]);
    }
  }

  predicate IsUpper(c: char) {
    'A' <= c <= 'F'
  }

  lemma HexCharIs(c: char)
    requires HexDigit(c) >= 0
    ensures HexChar(HexDigit(c), IsUpper(c)) == c
  {
  }

  /** Without that proviso it would not hold: strtol reads more than four digits of RFC 8259. */
  lemma LooseNumberIsRead()
    ensures FirstUnit(['\\', 'u', '0', 'x', '4', '1']) == Unit('A', 6)
    ensures FirstUnit(['\\', 'u', ' ', '+', '4', '1']) == Unit('A', 6)
  {
    var d := ['4', '1'];
    assert d[..1] == ['4'];
    assert HexNumber(d) == Some(0x41);
    var h := ['0', 'x', '4', '1'];
    assert h[2..] == d;
    var g := [' ', '+', '4', '1'];
    assert g[1..][1..] == d;
    assert ['\\', 'u', '0', 'x', '4', '1'][2..6] == h && ['\\', 'u', ' ', '+', '4', '1'][2..6] == g;
  }

  // ------------------------------------------------------------------------- a string

  /** The reader reads every string that JSON can write, whichever spelling is used for each of its
      characters, as the characters meant; it refuses it exactly if one of them is meant by a number
      above 0x7F or it is longer than 256 characters. */
  lemma {:induction false} ReadsEverySpelling(us: seq<Spelling>, text: string, rest: string)
    requires AllLegal(us) && |text| <= 256
    ensures ReadElement(WrittenAll(us) + (['"'] + rest), text)
      == if Readable(us) && |text| + |us| <= 256 then Closed(text + MeantAll(us), rest) else BadElement
    decreases |us|
  {
    var s := WrittenAll(us) + (['"'] + rest);
    if us == [] {
      assert s == ['"'] + rest && s[1..] == rest;
      ConcatEmpty(text);
    } else {
      var more := WrittenAll(us[1..]) + (['"'] + rest);
      ConcatAssoc(Written(us[0]), WrittenAll(us[1..]), ['"'] + rest);
      assert s == Written(us[0]) + more;
      UnitReads(us[0], more);
      ReadableSplits(us);
      hide Written, Meant, FirstUnit, Readable;
      if Meant(us[0]).Some? && |text| < 256 {
        var c := Meant(us[0]).value;
        ReadsEverySpelling(us[1..], text + [c], rest);
        assert s[|Written(us[0])|..] == more;
        if Readable(us) {
          ConcatAssoc(text, [c], MeantAll(us[1..]));
        }
      }
    }
  }

  lemma ReadableSplits(us: seq<Spelling>)
    requires us != [] && AllLegal(us)
    ensures AllLegal(us[1..]) && (Readable(us) <==> Meant(us[0]).Some? && Readable(us[1..]))
  {
    hide Meant, Legal;
    if Meant(us[0]).Some? && Readable(us[1..]) {
      forall i | 0 <= i < |us| ensures Meant(us[i]).Some? {
        if i > 0 {
          assert us[i] == us[1..][i - 1];
        }
      }
    }
  }

  // ------------------------------------------------------------------------ the printer

  /** How the printer spells a character. */
  function Spelled(c: char): Spelling {
    if c == '"' then Short('"') else if c == '\\' then Short('\\')
    else if c == 8 as char then Short('b') else if c == 12 as char then Short('f')
    else if c == 10 as char then Short('n') else if c == 13 as char then Short('r')
    else if c == 9 as char then Short('t') else Plain(c)
  }

  function SpelledAll(value: string): (us: seq<Spelling>)
    ensures |us| == |value|
  {
    seq(|value|, i requires 0 <= i < |value| => Spelled(value[i]))
  }

  lemma SpelledIs(c: char)
    ensures if Dropped(c) then EscapeChar(c) == []
            else Legal(Spelled(c)) && EscapeChar(c) == Written(Spelled(c)) && Meant(Spelled(c)) == Some(c)
  {
  }

  /** What the printer prints is JSON: each character it does not drop in a legal spelling of it. */
  lemma {:induction false} PrinterSpells(value: string)
    ensures AllLegal(SpelledAll(Kept(value))) && Escape(value) == WrittenAll(SpelledAll(Kept(value)))
    decreases |value|
  {
    if value != [] {
      var c, tail := value[0], value[1..];
      PrinterSpells(tail);
      SpelledIs(c);
      hide Spelled, EscapeChar, Written, Legal, Dropped;
      if !Dropped(c) {
        assert Kept(value) == [c] + Kept(tail);
        assert SpelledAll(Kept(value))[0] == Spelled(c) && SpelledAll(Kept(value))[1..] == SpelledAll(Kept(tail));
      } else {
        assert Kept(value) == Kept(tail);
      }
    }
  }
}
