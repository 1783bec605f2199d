/** Paths that may be deleted. */
module SdPath {
  import opened Common
  import opened SdCard
  import opened SdDelete

  // safe_path and check_deletable of main/sd_manager.cpp compare strings. Everything else here speaks
  // of paths as sequences of names. For a path spelled with one slash before each name, and perhaps
  // one at the end, the two decide the same.

  /** A name as a directory entry can have it. */
  predicate IsName(n: Name) {
    n != [] && '/' !in n
  }

  predicate AreNames(p: Path) {
    forall i | 0 <= i < |p| :: IsName(p[i])
  }

  function Spelled(p: Path): string {
    if p == [] then [] else ['/'] + (p[0] + Spelled(p[1..]))
  }

  predicate TwoDots(s: string) {
    exists i | 0 <= i < |s| - 1 :: s[i] == '.' && s[i + 1] == '.'
  }

  predicate BelowMount(s: string) {
    |s| >= 7 && s[..7] == "/sdcard" && (|s| == 7 || s[7] == '/')
  }

  /** safe_path */
  predicate SafeText(s: string) {
    BelowMount(s) && !TwoDots(s)
  }

  /** The copy in a buffer of 260, without a slash at its end. */
  function Normalized(s: string): (t: string)
    requires |s| >= 7
  {
    var t := if |s| <= 259 then s else s[..259];
    if |t| > 7 && t[|t| - 1] == '/' then t[..|t| - 1] else t
  }

  /** check_deletable */
  function GuardText(s: string): Guard {
    if !SafeText(s) then BadPath
    else
      var t := Normalized(s);
      if t == "/sdcard" then MountRoot
      else if t == "/sdcard/logs" || t == "/sdcard/rawdata" then ManagedDir
      else Allowed
  }

  predicate Starts(s: string) {
    s == [] || s[0] == '/'
  }

  lemma SpelledStarts(p: Path)
    ensures Starts(Spelled(p))
  {
  }

  lemma SameHead(a: Name, b: Name, s: string, t: string)
    requires '/' !in a && '/' !in b && Starts(s) && Starts(t)
    ensures a + s == b + t <==> a == b && s == t
  {
    var x, y := a + s, b + t;
    assert |a| < |b| ==> y[|a|] == b[|a|] && (s != [] ==> x[|a|] == s[0]);
    assert |b| < |a| ==> x[|b|] == a[|b|] && (t != [] ==> y[|b|] == t[0]);
    if x == y {
      SplitEqual(a, s, b, t);
    }
  }

  /** Different paths are spelled differently. */
  lemma {:induction false} SpelledOnce(p: Path, q: Path)
    requires AreNames(p) && AreNames(q)
    ensures Spelled(p) == Spelled(q) <==> p == q
    decreases |p|
  {
    if p != [] && q != [] {
      SpelledStarts(p[1..]);
      SpelledStarts(q[1..]);
      var x, y := p[0] + Spelled(p[1..]), q[0] + Spelled(q[1..]);
      assert Spelled(p)[1..] == x && Spelled(q)[1..] == y;
      SameHead(p[0], q[0], Spelled(p[1..]), Spelled(q[1..]));
      SpelledOnce(p[1..], q[1..]);
      assert p == [p[0]] + p[1..] && q == [q[0]] + q[1..];
    }
  }

  lemma {:induction false} NoSlashAtEnd(p: Path)
    requires AreNames(p) && p != []
    ensures var s := Spelled(p); |s| >= 2 && s[|s| - 1] != '/'
    decreases |p|
  {
    if |p| > 1 {
      NoSlashAtEnd(p[1..]);
    } else {
      assert p[1..] == [];
      assert Spelled(p) == ['/'] + (p[0] + []);
    }
  }

  /** Two dots never stand on two sides of a slash. */
  lemma DotsApart(a: string, s: string)
    requires Starts(s)
    ensures TwoDots(['/'] + (a + s)) <==> HasDots(a) || TwoDots(s)
  {
    var x := ['/'] + (a + s);
    if HasDots(a) {
      var i :| 0 <= i < |a| - 1 && a[i] == '.' && a[i + 1] == '.';
      assert x[i + 1] == '.' && x[i + 2] == '.';
    }
    if TwoDots(s) {
      var i :| 0 <= i < |s| - 1 && s[i] == '.' && s[i + 1] == '.';
      assert x[|a| + i + 1] == '.' && x[|a| + i + 2] == '.';
    }
    if TwoDots(x) {
      var i :| 0 <= i < |x| - 1 && x[i] == '.' && x[i + 1] == '.';
      if i < |a| {
        assert a[i - 1] == '.' && a[i] == '.';
      } else if i > |a| {
        assert s[i - |a| - 1] == '.' && s[i - |a|] == '.';
      } else {
        assert s[0] == '.';
      }
    }
  }

  lemma {:induction false} DotsIff(p: Path, end: string)
    requires Starts(end) && !TwoDots(end)
    ensures TwoDots(Spelled(p) + end) <==> exists i | 0 <= i < |p| :: HasDots(p[i])
    decreases |p|
  {
    hide TwoDots, HasDots;
    if p == [] {
      assert Spelled(p) + end == end;
    } else {
      var rest := Spelled(p[1..]) + end;
      SpelledStarts(p[1..]);
      DotsIff(p[1..], end);
      DotsApart(p[0], rest);
      assert Spelled(p) + end == ['/'] + (p[0] + rest);
      if i :| 0 <= i < |p| && HasDots(p[i]) {
        assert i > 0 ==> HasDots(p[1..][i - 1]);
      }
    }
  }

  /** The first name is told by the first seven characters and the one behind them. */
  lemma MountIff(a: Name, rest: string)
    requires '/' !in a && Starts(rest)
    ensures BelowMount(['/'] + (a + rest)) <==> a == "sdcard"
  {
    var s := ['/'] + (a + rest);
    var t := if |s| >= 7 then s[7..] else [];
    assert "/sdcard" == ['/'] + "sdcard";
    if BelowMount(s) {
      assert s[1..] == a + rest;
      assert s[..7][1..] == "sdcard";
      assert s[1..] == "sdcard" + t;
      SameHead(a, "sdcard", rest, t);
    }
    if a == "sdcard" {
      assert s[..7] == ['/'] + a;
    }
  }

  lemma Spellings()
    ensures Spelled(["sdcard"]) == "/sdcard"
    ensures Spelled(["sdcard", "logs"]) == "/sdcard/logs"
    ensures Spelled(["sdcard", "rawdata"]) == "/sdcard/rawdata"
  {
    assert ["sdcard"][1..] == [] && ["sdcard", "logs"][1..] == ["logs"] && ["logs"][1..] == [];
    assert ["sdcard", "rawdata"][1..] == ["rawdata"] && ["rawdata"][1..] == [];
    assert Spelled(["logs"]) == "/logs";
    assert Spelled(["rawdata"]) == "/rawdata";
  }

  lemma NormalizedIs(p: Path, end: string, q: Path)
    requires AreNames(p) && p != [] && (end == [] || end == ['/']) && |Spelled(p)| >= 7
    requires AreNames(q) && |Spelled(q)| < 100
    ensures Normalized(Spelled(p) + end) == Spelled(q) <==> p == q
  {
    var s := Spelled(p);
    NoSlashAtEnd(p);
    SpelledOnce(p, q);
    hide Spelled, AreNames;
    if |s| <= 258 {
      assert Normalized(s + end) == s by {
        assert (s + ['/'])[..|s|] == s;
        assert s + [] == s;
      }
    }
  }

  lemma SafeIff(p: Path, end: string)
    requires AreNames(p) && p != [] && (end == [] || end == ['/'])
    ensures SafeText(Spelled(p) + end) <==> SafePath(p)
  {
    SpelledStarts(p[1..]);
    var s, rest := Spelled(p) + end, Spelled(p[1..]) + end;
    assert s == ['/'] + (p[0] + rest);
    MountIff(p[0], rest);
    DotsIff(p, end);
    hide TwoDots, HasDots, Spelled, BelowMount;
  }

  /** The program's guards are those on names. */
  lemma GuardIsOnNames(p: Path, end: string)
    requires AreNames(p) && p != [] && (end == [] || end == ['/'])
    ensures GuardText(Spelled(p) + end) == CheckDeletable(p)
  {
    SafeIff(p, end);
    hide SafeText, Spelled, Normalized, HasDots;
    if SafePath(p) {
      Spellings();
      LongEnough(p);
      NormalizedIs(p, end, ["sdcard"]);
      NormalizedIs(p, end, ["sdcard", "logs"]);
      NormalizedIs(p, end, ["sdcard", "rawdata"]);
    }
  }

  lemma LongEnough(p: Path)
    requires p != [] && p[0] == "sdcard"
    ensures |Spelled(p)| >= 7
  {
  }
}
