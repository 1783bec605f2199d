/** The list of satellites in view. */
module Satellites {
  import opened Common

  // It is kept from GSV sentences (main/survey.cpp, parse_gsv). A receiver reports the satellites of each
  // constellation in a cycle of numbered sentences. The program collects a cycle in a small buffer and
  // then replaces the constellation's satellites in its list, in place.

  const MAX_SATELLITES := 64
  const MAX_GSV := 20

  datatype Info = Info(prn: nat, elevation: nat, azimuth: nat, snr: nat, system: int)

  const NO_INFO := Info(0, 0, 0, 0, 0)

  /** Four fields of a sentence, as numbers. */
  datatype Raw = Raw(prn: int, elevation: int, azimuth: int, snr: int)

  datatype Sentence = Sentence(system: int, count: int, number: int, records: seq<Raw>)

  function Clamp(v: int, high: nat): (r: nat)
    ensures r <= high
  {
    if v < 0 then 0 else if v > high then high else v
  }

  function InfoOf(r: Raw, system: int): Info {
    Info(Clamp(r.prn, 999), Clamp(r.elevation, 90), Clamp(r.azimuth, 359), Clamp(r.snr, 99), system)
  }

  function Cut(xs: seq<Info>, n: nat): (ys: seq<Info>)
    ensures |ys| <= n
  {
    if |xs| <= n then xs else xs[..n]
  }

  /** The satellites of the records that name one. */
  function Named(rs: seq<Raw>, system: int): (xs: seq<Info>)
    decreases |rs|
  {
    if rs == [] then []
    else
      Named(rs[..|rs| - 1], system) + if rs[|rs| - 1].prn == 0 then [] else [InfoOf(rs[|rs| - 1], system)]
  }

  function Others(xs: seq<Info>, system: int): (ys: seq<Info>)
    ensures |ys| <= |xs|
    decreases |xs|
  {
    if xs == [] then []
    else Others(xs[..|xs| - 1], system) + if xs[|xs| - 1].system == system then [] else [xs[|xs| - 1]]
  }

  /** The list, the satellites of the sentences since the last first one, and their system. */
  datatype State = State(list: seq<Info>, buffer: seq<Info>, system: int)

  function Replaced(list: seq<Info>, buffer: seq<Info>, system: int): seq<Info> {
    var others := Others(list, system);
    if |others| > MAX_SATELLITES then others else others + Cut(buffer, MAX_SATELLITES - |others|)
  }

  function Next(s: State, m: Sentence): State {
    if m.count < 1 || m.number < 1 then s
    else
      var before := if m.number == 1 || m.system != s.system then [] else s.buffer;
      var buffer := Cut(before + Named(m.records, m.system), MAX_GSV);
      State(if m.number == m.count then Replaced(s.list, buffer, m.system) else s.list, buffer, m.system)
  }

  function Run(s: State, ms: seq<Sentence>): State
    decreases |ms|
  {
    if ms == [] then s else Next(Run(s, ms[..|ms| - 1]), ms[|ms| - 1])
  }

  predicate Inv(s: State) {
    |s.list| <= MAX_SATELLITES && |s.buffer| <= MAX_GSV
  }

  lemma NextKeepsInv(s: State, m: Sentence)
    requires Inv(s)
    ensures Inv(Next(s, m))
  {
    hide Others, Named;
  }

  /** Sentence k of `n` about one system, the first not before the first. */
  predicate Cycle(ms: seq<Sentence>, system: int, n: int) {
    forall k | 0 <= k < |ms| :: ms[k].system == system && ms[k].count == n && ms[k].number == k + 1
  }

  function AllNamed(ms: seq<Sentence>): seq<Info>
    decreases |ms|
  {
    if ms == [] then []
    else AllNamed(ms[..|ms| - 1]) + Named(ms[|ms| - 1].records, ms[|ms| - 1].system)
  }

  lemma CutTwice(a: seq<Info>, b: seq<Info>, n: nat)
    ensures Cut(Cut(a, n) + b, n) == Cut(a + b, n)
  {
    if |a| > n {
      assert (a[..n] + b)[..n] == a[..n] == (a + b)[..n];
    }
  }

  /** The sentences of a cycle so far have left the list alone and filled the buffer. */
  lemma {:induction false} CycleFills(s: State, ms: seq<Sentence>, system: int, n: int)
    requires Cycle(ms, system, n) && 1 <= |ms| < n
    ensures Run(s, ms) == State(s.list, Cut(AllNamed(ms), MAX_GSV), system)
    decreases |ms|
  {
    hide Named, Cut;
    var k := |ms| - 1;
    if k == 0 {
      assert ms[..0] == [];
      ConcatEmpty(Named(ms[0].records, system));
    } else {
      CycleFills(s, ms[..k], system, n);
      CutTwice(AllNamed(ms[..k]), Named(ms[k].records, system), MAX_GSV);
    }
  }

  /** A whole cycle replaces the satellites of its system by the first twenty it names, as far
      as there is room, and keeps all others, in order; whatever was heard before. */
  lemma WholeCycle(s: State, ms: seq<Sentence>, system: int)
    requires ms != [] && Cycle(ms, system, |ms|)
    ensures Run(s, ms).list == Replaced(s.list, Cut(AllNamed(ms), MAX_GSV), system)
  {
    hide Named, Cut, Replaced;
    var k := |ms| - 1;
    if k == 0 {
      assert ms[..0] == [];
      ConcatEmpty(Named(ms[0].records, system));
    } else {
      CycleFills(s, ms[..k], system, |ms|);
      CutTwice(AllNamed(ms[..k]), Named(ms[k].records, system), MAX_GSV);
    }
  }

  /** What the replaced list holds, for any system. */
  lemma {:induction false} OthersOf(xs: seq<Info>, system: int, other: int)
    ensures Others(Others(xs, system), other) == Others(Others(xs, other), system)
    ensures forall x :: x in Others(xs, system) <==> x in xs && x.system != system
    decreases |xs|
  {
    if xs != [] {
      var init, x := xs[..|xs| - 1], xs[|xs| - 1];
      OthersOf(init, system, other);
      assert xs == init + [x];
      OthersAppend(init, x, system);
      OthersAppend(init, x, other);
      hide Others;
      OthersAppend(Others(init, system), x, other);
      OthersAppend(Others(init, other), x, system);
      ConcatEmpty(Others(init, system));
      ConcatEmpty(Others(init, other));
      ConcatEmpty(Others(Others(init, system), other));
    }
  }

  lemma OthersNext(xs: seq<Info>, i: nat, system: int)
    requires i < |xs|
    ensures Others(xs[..i + 1], system) == Others(xs[..i], system) + if xs[i].system == system then [] else [xs[i]]
  {
    hide Others;
    assert xs[..i + 1] == xs[..i] + [xs[i]];
    OthersAppend(xs[..i], xs[i], system);
  }

  lemma OthersAppend(xs: seq<Info>, x: Info, system: int)
    ensures Others(xs + [x], system) == Others(xs, system) + if x.system == system then [] else [x]
  {
    assert (xs + [x])[..|xs|] == xs;
  }

  lemma {:induction false} NamedConcat(a: seq<Raw>, b: seq<Raw>, system: int)
    ensures Named(a + b, system) == Named(a, system) + Named(b, system)
    decreases |b|
  {
    hide InfoOf;
    if b == [] {
      assert a + b == a;
    } else {
      var init, r := b[..|b| - 1], b[|b| - 1];
      assert (a + b)[..|a + b| - 1] == a + init;
      NamedConcat(a, init, system);
      ConcatAssoc(Named(a, system), Named(init, system), if r.prn == 0 then [] else [InfoOf(r, system)]);
    }
  }

  lemma {:induction false} OthersConcat(a: seq<Info>, b: seq<Info>, system: int)
    ensures Others(a + b, system) == Others(a, system) + Others(b, system)
    decreases |b|
  {
    if b == [] {
      assert a + b == a;
    } else {
      var init, x := b[..|b| - 1], b[|b| - 1];
      assert (a + b)[..|a + b| - 1] == a + init;
      OthersConcat(a, init, system);
      ConcatAssoc(Others(a, system), Others(init, system), if x.system == system then [] else [x]);
    }
  }

  /** The records become entries one by one: those whose numbers are in range as they are, those
      without a satellite number not at all. */
  lemma NamedOf(rs: seq<Raw>, r: Raw, system: int)
    ensures r.prn == 0 ==> Named(rs + [r], system) == Named(rs, system)
    ensures 1 <= r.prn <= 999 && 0 <= r.elevation <= 90 && 0 <= r.azimuth <= 359 && 0 <= r.snr <= 99 ==>
      Named(rs + [r], system)
      == Named(rs, system) + [Info(r.prn, r.elevation, r.azimuth, r.snr, system)]
    ensures r.prn != 0 ==> |Named(rs + [r], system)| == |Named(rs, system)| + 1
  {
    assert (rs + [r])[..|rs|] == rs;
    ConcatEmpty(Named(rs, system));
  }

  predicate InRange(x: Info) {
    x.prn <= 999 && x.elevation <= 90 && x.azimuth <= 359 && x.snr <= 99
  }

  predicate AllInRange(xs: seq<Info>) {
    forall i | 0 <= i < |xs| :: InRange(xs[i])
  }

  lemma {:induction false} NamedInRange(rs: seq<Raw>, system: int)
    ensures AllInRange(Named(rs, system))
    decreases |rs|
  {
    if rs != [] {
      NamedInRange(rs[..|rs| - 1], system);
    }
  }

  lemma {:induction false} OthersInRange(xs: seq<Info>, system: int)
    requires AllInRange(xs)
    ensures AllInRange(Others(xs, system))
    decreases |xs|
  {
    if xs != [] {
      OthersInRange(xs[..|xs| - 1], system);
    }
  }

  /** Whatever the sentences say, every entry fits its fields, and there are never more than 64. */
  lemma {:induction false} RunInRange(s: State, ms: seq<Sentence>)
    requires Inv(s) && AllInRange(s.list) && AllInRange(s.buffer)
    ensures var s' := Run(s, ms); AllInRange(s'.list) && AllInRange(s'.buffer) && |s'.list| <= 64 && |s'.buffer| <= 20
    decreases |ms|
  {
    if ms != [] {
      var before, m := Run(s, ms[..|ms| - 1]), ms[|ms| - 1];
      RunInRange(s, ms[..|ms| - 1]);
      NextKeepsInv(before, m);
      NamedInRange(m.records, m.system);
      OthersInRange(before.list, m.system);
      hide Named, Others, InRange, Next;
      NextInRange(before, m);
    }
  }

  lemma NextInRange(s: State, m: Sentence)
    requires AllInRange(s.list) && AllInRange(s.buffer)
    requires AllInRange(Named(m.records, m.system)) && AllInRange(Others(s.list, m.system))
    ensures AllInRange(Next(s, m).list) && AllInRange(Next(s, m).buffer)
  {
    hide Named, Others, InRange;
  }

  ghost predicate AllOf(xs: seq<Info>, system: int) {
    forall i | 0 <= i < |xs| :: xs[i].system == system
  }

  lemma {:induction false} NamedOfOne(rs: seq<Raw>, system: int)
    ensures AllOf(Named(rs, system), system)
    decreases |rs|
  {
    if rs != [] {
      NamedOfOne(rs[..|rs| - 1], system);
    }
  }

  /** Cycles that are broken off or mixed never mix systems in the buffer. */
  lemma {:induction false} BufferIsOfOne(s: State, ms: seq<Sentence>)
    requires AllOf(s.buffer, s.system)
    ensures AllOf(Run(s, ms).buffer, Run(s, ms).system)
    decreases |ms|
  {
    if ms != [] {
      var m := ms[|ms| - 1];
      BufferIsOfOne(s, ms[..|ms| - 1]);
      NamedOfOne(m.records, m.system);
      hide Named, Others;
    }
  }

  /** What a whole cycle leaves of the list: what there was of other systems, in order, and behind it
      the first twenty satellites named, or as many of them as 64 entries have room for. */
  lemma CycleLeaves(s: State, ms: seq<Sentence>, system: int)
    requires Inv(s) && ms != [] && Cycle(ms, system, |ms|)
    ensures var others, named := Others(s.list, system), AllNamed(ms);
      var list, room := Run(s, ms).list, 64 - |Others(s.list, system)|;
      && 0 <= room && |others| <= |list| && list[..|others|] == others
      && list[|others|..] <= named
      && |list| - |others| == (if |named| <= 20 && |named| <= room then |named| else if room <= 20 then room else 20)
  {
    WholeCycle(s, ms, system);
    hide Others, AllNamed, Run;
  }

  // ------------------------------------------------------------------------- the object

  class SatelliteList {
    const list: array<Info>
    var count: nat
    const buffer: array<Info>
    var gsvCount: nat
    var gsvSystem: int

    ghost predicate Valid()
      reads this
    {
      && list.Length == MAX_SATELLITES && buffer.Length == MAX_GSV && list != buffer
      && count <= MAX_SATELLITES && gsvCount <= MAX_GSV
    }

    ghost function Abstract(): State
      requires Valid()
      reads this, list, buffer
    {
      State(list[..count], buffer[..gsvCount], gsvSystem)
    }

    constructor ()
      ensures Valid() && Abstract() == State([], [], 0) && fresh(list) && fresh(buffer)
    {
      list := new Info[MAX_SATELLITES](_ => NO_INFO);
      buffer := new Info[MAX_GSV](_ => NO_INFO);
      count, gsvCount, gsvSystem := 0, 0, 0;
    }

    method Collect(m: Sentence)
      requires Valid()
      modifies this`gsvCount, buffer
      ensures Valid() && buffer[..gsvCount] == Cut(old(buffer[..gsvCount]) + Named(m.records, m.system), MAX_GSV)
    {
      hide InfoOf;
      ghost var before := buffer[..gsvCount];
      var i := 0;
      assert m.records[..0] == [];
      ConcatEmpty(before);
      while i < |m.records| && gsvCount < MAX_GSV
        invariant Valid() && 0 <= i <= |m.records|
        invariant buffer[..gsvCount] == before + Named(m.records[..i], m.system)
      {
        var r := m.records[i];
        NamedStep(before, m.records, i, m.system);
        if r.prn != 0 {
          buffer[gsvCount] := InfoOf(r, m.system);
          gsvCount := gsvCount + 1;
        }
        i := i + 1;
      }
      if i == |m.records| {
        assert m.records[..i] == m.records;
      } else {
        NamedPrefix(m.records, i, m.system);
        CutAtFull(before, Named(m.records[..i], m.system), Named(m.records, m.system));
      }
    }

    method DropSystem(system: int) returns (output: nat)
      requires Valid()
      modifies list
      ensures output <= count && list[..output] == Others(old(list[..count]), system)
    {
      ghost var was := list[..count];
      output := 0;
      for i := 0 to count
        invariant output <= i && list[..output] == Others(was[..i], system)
        invariant forall k | i <= k < count :: list[k] == was[k]
      {
        hide Others;
        OthersNext(was, i, system);
        if list[i].system != system {
          list[output] := list[i];
          output := output + 1;
        }
      }
      assert was[..count] == was;
    }

    method ParseGsv(m: Sentence)
      requires Valid()
      modifies this`count, this`gsvCount, this`gsvSystem, list, buffer
      ensures Valid() && Abstract() == Next(old(Abstract()), m)
    {
      hide Named, Others, Cut;
      if m.count < 1 || m.number < 1 {
        return;
      }
      if m.number == 1 || m.system != gsvSystem {
        gsvCount := 0;
        gsvSystem := m.system;
      }
      Collect(m);
      if m.number != m.count {
        return;
      }
      ReplaceSystem(m.system);
    }

    method ReplaceSystem(system: int)
      requires Valid()
      modifies this`count, list
      ensures Valid() && list[..count] == Replaced(old(list[..count]), buffer[..gsvCount], system)
    {
      hide Others;
      var output := DropSystem(system);
      ghost var others := list[..output];
      var i := 0;
      while i < gsvCount && output < MAX_SATELLITES
        invariant 0 <= i <= gsvCount && output == |others| + i <= MAX_SATELLITES
        invariant list[..output] == others + buffer[..i]
      {
        list[output] := buffer[i];
        output := output + 1;
        i := i + 1;
      }
      count := output;
      assert buffer[..gsvCount][..i] == buffer[..i];
    }
  }

  lemma NamedStep(before: seq<Info>, rs: seq<Raw>, i: nat, system: int)
    requires i < |rs|
    ensures before + Named(rs[..i + 1], system)
      == (before + Named(rs[..i], system)) + if rs[i].prn == 0 then [] else [InfoOf(rs[i], system)]
  {
    assert rs[..i + 1][..i] == rs[..i];
    ConcatEmpty(Named(rs[..i], system));
  }

  lemma {:induction false} NamedPrefix(rs: seq<Raw>, i: nat, system: int)
    requires i <= |rs|
    ensures Named(rs[..i], system) <= Named(rs, system)
    decreases |rs|
  {
    if i == |rs| {
      assert rs[..i] == rs;
    } else {
      NamedPrefix(rs[..|rs| - 1], i, system);
      assert rs[..|rs| - 1][..i] == rs[..i];
    }
  }

  lemma CutAtFull(a: seq<Info>, b: seq<Info>, c: seq<Info>)
    requires b <= c && |a + b| == MAX_GSV
    ensures Cut(a + c, MAX_GSV) == a + b
  {
  }
}
