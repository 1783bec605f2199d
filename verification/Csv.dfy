/** Comma-separated fields (main/survey.cpp, csv_field).

    The scan that finds field k is proved against the one definition of fields there is: what lies
    between the commas, no more and no less. Splitting and joining are inverse in both directions,
    and a text without a comma is one field, the empty text included. */
module Csv {
  import opened Common

  /** The fields of a text; a text without a comma is one field. */
  function Fields(value: string): (fs: seq<string>)
    ensures fs != []
    decreases |value|
  {
    if value == [] then [[]]
    else
      var fs := Fields(value[1..]);
      if value[0] == ',' then [[]] + fs else [[value[0]] + fs[0]] + fs[1..]
  }

  function Joined(fs: seq<string>): (value: string)
    requires fs != []
    decreases |fs|
  {
    if |fs| == 1 then fs[0] else fs[0] + ([','] + Joined(fs[1..]))
  }

  predicate NoComma(s: string) {
    ',' !in s
  }

  /** Fields are what lies between the commas: joined they are the text again. */
  lemma {:induction false} JoinedFields(value: string)
    ensures Joined(Fields(value)) == value
    ensures forall i | 0 <= i < |Fields(value)| :: NoComma(Fields(value)[i])
    decreases |value|
  {
    if value != [] {
      var c, fs := value[0], Fields(value[1..]);
      assert value == [c] + value[1..];
      assert Fields(value) == if c == ',' then [[]] + fs else [[c] + fs[0]] + fs[1..];
      JoinedFields(value[1..]);
      hide Fields;
      if c == ',' {
        JoinedEmpty(fs);
      } else {
        JoinedLonger(c, fs);
      }
    }
  }

  lemma JoinedEmpty(fs: seq<string>)
    requires fs != []
    ensures Joined([[]] + fs) == [','] + Joined(fs)
  {
    assert ([[]] + fs)[1..] == fs;
    ConcatEmpty([','] + Joined(fs));
  }

  lemma JoinedLonger(c: char, fs: seq<string>)
    requires fs != []
    ensures Joined([[c] + fs[0]] + fs[1..]) == [c] + Joined(fs)
  {
    if |fs| > 1 {
      assert ([[c] + fs[0]] + fs[1..])[1..] == fs[1..];
      ConcatAssoc([c], fs[0], [','] + Joined(fs[1..]));
    }
  }

  /** And any fields without commas are found again. */
  lemma {:induction false} FieldsJoined(fs: seq<string>)
    requires fs != [] && forall i | 0 <= i < |fs| :: NoComma(fs[i])
    ensures Fields(Joined(fs)) == fs
    decreases |fs|
  {
    if |fs| == 1 {
      OneField(fs[0]);
      assert fs == [fs[0]];
    } else {
      FieldsJoined(fs[1..]);
      FirstField(fs[0], Joined(fs[1..]));
      assert fs == [fs[0]] + fs[1..];
    }
  }

  lemma {:induction false} OneField(f: string)
    requires NoComma(f)
    ensures Fields(f) == [f]
    decreases |f|
  {
    if f != [] {
      OneField(f[1..]);
      assert [f[0]] + f[1..] == f;
    }
  }

  lemma {:induction false} FirstField(f: string, rest: string)
    requires NoComma(f)
    ensures Fields(f + ([','] + rest)) == [f] + Fields(rest)
    decreases |f|
  {
    var s := f + ([','] + rest);
    if f == [] {
      assert s == [','] + rest && s[1..] == rest;
    } else {
      assert s[1..] == f[1..] + ([','] + rest);
      FirstField(f[1..], rest);
      assert [f[0]] + f[1..] == f;
    }
  }

  /** value.find(',', start), or the length */
  method FindComma(value: string, start: nat) returns (end: nat)
    requires start <= |value|
    ensures start <= end <= |value| && NoComma(value[start..end])
    ensures end < |value| ==> value[end] == ','
  {
    end := start;
    while end < |value| && value[end] != ','
      invariant start <= end <= |value| && NoComma(value[start..end])
    {
      end := end + 1;
    }
  }

  lemma FieldsAt(value: string, start: nat, end: nat)
    requires start <= end <= |value| && NoComma(value[start..end])
    requires end < |value| ==> value[end] == ','
    ensures Fields(value[start..]) ==
      if end == |value| then [value[start..end]] else [value[start..end]] + Fields(value[end + 1..])
  {
    var f := value[start..end];
    if end == |value| {
      assert value[start..] == f;
      OneField(f);
    } else {
      assert value[start..] == f + ([','] + value[end + 1..]);
      FirstField(f, value[end + 1..]);
    }
  }

  /** From `start` on there are the fields of `value` from number `current` on. */
  ghost predicate Remaining(value: string, start: nat, current: nat) {
    && start <= |value| && current <= |Fields(value)|
    && Fields(value)[current..] == Fields(value[start..])
  }

  lemma RemainingStarts(value: string)
    ensures Remaining(value, 0, 0)
  {
    assert value[0..] == value;
  }

  lemma RemainingField(value: string, start: nat, current: nat, end: nat)
    requires Remaining(value, start, current) && start <= end <= |value| && NoComma(value[start..end])
    requires end < |value| ==> value[end] == ','
    ensures current < |Fields(value)| && Fields(value)[current] == value[start..end]
    ensures if end == |value| then current + 1 == |Fields(value)| else Remaining(value, end + 1, current + 1)
  {
    FieldsAt(value, start, end);
    hide Fields;
    var fs := Fields(value);
    assert fs[current..][0] == fs[current];
    assert fs[current..][1..] == fs[current + 1..];
  }

  method CsvField(value: string, index: nat) returns (found: bool, field: string)
    ensures found == (index < |Fields(value)|)
    ensures field == if found then Fields(value)[index] else []
  {
    hide *;
    var start, current := 0, 0;
    RemainingStarts(value);
    while true
      invariant 0 <= start <= |value| && 0 <= current <= index
      invariant Remaining(value, start, current)
      decreases |value| - start
    {
      var end := FindComma(value, start);
      RemainingField(value, start, current, end);
      if current == index {
        return true, value[start..end];
      }
      if end == |value| {
        return false, [];
      }
      start := end + 1;
      current := current + 1;
    }
  }
}
