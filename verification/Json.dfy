/** Strings as JSON, written and read back. */
module Json {
  import opened Common

  // json_escape and json_string_array of main/web_server.cpp (section 7 of RFC 8259). A char
  // stands for a byte.

  const MAX_ELEMS := 256
  const MAX_LEN := 256

  const BACKSPACE: char := 8 as char
  const TAB: char := 9 as char
  const LINE_FEED: char := 10 as char
  const FORM_FEED: char := 12 as char
  const RETURN: char := 13 as char

  // ------------------------------------------------------------------------- writing

  function EscapeChar(c: char): (s: string) {
    if c == '"' then ['\\', '"']
    else if c == '\\' then ['\\', '\\']
    else if c == BACKSPACE then ['\\', 'b']
    else if c == FORM_FEED then ['\\', 'f']
    else if c == LINE_FEED then ['\\', 'n']
    else if c == RETURN then ['\\', 'r']
    else if c == TAB then ['\\', 't']
    else if c >= ' ' then [c]
    else []
  }

  function Escape(value: string): (s: string) {
    if value == [] then [] else EscapeChar(value[0]) + Escape(value[1..])
  }

  /** The control characters that JSON can write only as \uXXXX, which the printer never does. */
  predicate Dropped(c: char) {
    c < ' ' && c != BACKSPACE && c != FORM_FEED && c != LINE_FEED && c != RETURN && c != TAB
  }

  function Kept(value: string): (s: string)
    ensures |s| <= |value|
  {
    if value == [] then []
    else (if Dropped(value[0]) then [] else [value[0]]) + Kept(value[1..])
  }

  /** json_escape */
  method EscapeString(value: string) returns (out: string)
    ensures out == Escape(value)
  {
    out := [];
    assert value[0..] == value;
    for i := 0 to |value|
      invariant out + Escape(value[i..]) == Escape(value)
    {
      hide EscapeChar;
      assert value[i..][1..] == value[i + 1..];
      ConcatAssoc(out, EscapeChar(value[i]), Escape(value[i + 1..]));
      out := out + EscapeChar(value[i]);
    }
    ConcatEmpty(out);
  }

  // ------------------------------------------------------------------------- reading

  /** The value of a hexadecimal digit, or -1. */
  function HexDigit(c: char): (v: int)
    ensures -1 <= v < 16
  {
    if '0' <= c <= '9' then c as int - '0' as int
    else if 'a' <= c <= 'f' then c as int - 'a' as int + 10
    else if 'A' <= c <= 'F' then c as int - 'A' as int + 10
    else -1
  }

  function HexNumber(h: string): (v: Option<nat>)
    requires h != []
    decreases |h|
  {
    var low := HexDigit(h[|h| - 1]);
    if low < 0 then None
    else if |h| == 1 then Some(low)
    else
      match HexNumber(h[..|h| - 1])
      case None => None
      case Some(high) => Some(16 * high + low)
  }

  predicate IsSpace(c: char) {
    c == ' ' || TAB <= c <= RETURN
  }

  /** strtol(h, &end, 16), when it uses up all of `h`: leading space, a sign and 0x are allowed. */
  function Strtol(h: string): (v: Option<int>)
    decreases |h|
  {
    if h == [] then None
    else if IsSpace(h[0]) then Strtol(h[1..])
    else
      var negative := h[0] == '-';
      var t := if h[0] == '+' || negative then h[1..] else h;
      var digits := if |t| >= 2 && t[0] == '0' && (t[1] == 'x' || t[1] == 'X') then t[2..] else t;
      if digits == [] then None
      else
        match HexNumber(digits)
        case None => None
        case Some(n) => Some(if negative then 0 - (n as int) else n as int)
  }

  /** What the character after a backslash stands for, 'u' aside. */
  function Unescape(e: char): (c: Option<char>) {
    if e == '"' || e == '\\' || e == '/' then Some(e)
    else if e == 'b' then Some(BACKSPACE)
    else if e == 'f' then Some(FORM_FEED)
    else if e == 'n' then Some(LINE_FEED)
    else if e == 'r' then Some(RETURN)
    else if e == 't' then Some(TAB)
    else None
  }

  datatype Unit = Unit(c: char, size: nat) | BadUnit

  /** The first character written by `s`, a non-empty text that does not start with a quote. */
  function FirstUnit(s: string): (u: Unit)
    requires s != []
    ensures u.Unit? ==> 1 <= u.size <= |s|
  {
    if s[0] == '\\' then
      if |s| < 2 then BadUnit
      else if s[1] == 'u' then
        if |s| < 6 then BadUnit
        else
          match Strtol(s[2..6])
          case None => BadUnit
          case Some(cp) => if 0 <= cp <= 0x7F then Unit(cp as char, 6) else BadUnit
      else
        match Unescape(s[1])
        case None => BadUnit
        case Some(c) => Unit(c, 2)
    else if s[0] < ' ' then BadUnit
    else Unit(s[0], 1)
  }

  datatype Element = Closed(text: string, rest: string) | BadElement

  /** The rest of an element of which `text` is read so far. */
  function ReadElement(s: string, text: string): (e: Element)
    ensures e.Closed? ==> |e.rest| < |s|
    decreases |s|
  {
    if s == [] then BadElement
    else if s[0] == '"' then Closed(text, s[1..])
    else
      var u := FirstUnit(s);
      if u.BadUnit? || |text| + 1 > MAX_LEN then BadElement
      else ReadElement(s[u.size..], text + [u.c])
  }

  predicate Skippable(c: char) {
    c == ' ' || c == TAB || c == LINE_FEED || c == RETURN || c == ','
  }

  function Skip(s: string): (t: string)
    ensures |t| <= |s|
  {
    if s != [] && Skippable(s[0]) then Skip(s[1..]) else s
  }

  datatype Outcome = Accepted(list: seq<string>) | Rejected

  /** The rest of an array of which `list` is read so far. */
  function ReadList(s: string, list: seq<string>): (r: Outcome)
    decreases |s|
  {
    if s == [] then Accepted(list)
    else
      var t := Skip(s);
      if t == [] then Rejected
      else if t[0] == ']' then Accepted(list)
      else if t[0] != '"' then Rejected
      else
        match ReadElement(t[1..], [])
        case BadElement => Rejected
        case Closed(text, rest) =>
          if |list| + 1 > MAX_ELEMS then Rejected else ReadList(rest, list + [text])
  }

  predicate OccursAt(s: string, needle: string, i: int) {
    0 <= i <= |s| - |needle| && s[i..i + |needle|] == needle
  }

  /** std::string::find */
  function Find(s: string, needle: string, from: nat): (r: Option<nat>)
    ensures r.Some? ==> from <= r.value && OccursAt(s, needle, r.value)
    ensures forall i | from <= i < if r.Some? then r.value else |s| + 1 :: !OccursAt(s, needle, i)
    decreases |s| - from
  {
    if from + |needle| > |s| then None
    else if OccursAt(s, needle, from) then Some(from)
    else Find(s, needle, from + 1)
  }

  function Needle(key: string): string {
    ['"'] + key + ['"']
  }

  /** json_string_array */
  function StringArray(body: string, key: string): Outcome {
    match Find(body, Needle(key), 0)
    case None => Accepted([])
    case Some(at) =>
      match Find(body, "[", at + |Needle(key)|)
      case None => Rejected
      case Some(open) => ReadList(body[open + 1..], [])
  }

  // ------------------------------------------------------------------ the reader's loops

  method SkipSeparators(body: string, start: nat) returns (pos: nat)
    requires start <= |body|
    ensures start <= pos <= |body| && body[pos..] == Skip(body[start..])
  {
    pos := start;
    while pos < |body| && Skippable(body[pos])
      invariant start <= pos <= |body|
      invariant Skip(body[pos..]) == Skip(body[start..])
    {
      assert body[pos..][1..] == body[pos + 1..];
      pos := pos + 1;
    }
  }

  method ReadUnit(body: string, start: nat) returns (ok: bool, c: char, pos: nat)
    requires start < |body| && body[start] != '"'
    ensures ok == FirstUnit(body[start..]).Unit?
    ensures ok ==> pos == start + FirstUnit(body[start..]).size && c == FirstUnit(body[start..]).c
    ensures pos <= |body|
  {
    ghost var s := body[start..];
    assert s[0] == body[start];
    c := body[start];
    pos := start + 1;
    if c == '\\' {
      if pos >= |body| {
        return false, c, pos;
      }
      var e := body[pos];
      assert s[1] == e;
      pos := pos + 1;
      if e == 'u' {
        if pos + 4 > |body| {
          return false, c, pos;
        }
        assert s[2..6] == body[pos..pos + 4];
        var cp := Strtol(body[pos..pos + 4]);
        if cp.None? || cp.value < 0 || cp.value > 0x7F {
          return false, c, pos;
        }
        return true, cp.value as char, pos + 4;
      }
      var plain := Unescape(e);
      return plain.Some?, if plain.Some? then plain.value else c, pos;
    }
    return c >= ' ', c, pos;
  }

  /** One turn of the loop below. */
  lemma ElementStep(s: string, text: string)
    requires s != []
    ensures s[0] == '"' ==> ReadElement(s, text) == Closed(text, s[1..])
    ensures s[0] != '"' ==>
      var u := FirstUnit(s);
      ReadElement(s, text) ==
        if u.BadUnit? || |text| + 1 > MAX_LEN then BadElement else ReadElement(s[u.size..], text + [u.c])
  {
    hide FirstUnit;
  }

  lemma ElementEnds(text: string)
    ensures ReadElement([], text) == BadElement
  {
  }

  method ReadString(body: string, start: nat) returns (ok: bool, elem: string, pos: nat)
    requires start <= |body|
    ensures start <= pos <= |body|
    ensures ReadElement(body[start..], []) == if ok then Closed(elem, body[pos..]) else BadElement
  {
    hide FirstUnit, ReadElement;
    elem := [];
    pos := start;
    while pos < |body|
      invariant start <= pos <= |body| && |elem| <= MAX_LEN
      invariant ReadElement(body[pos..], elem) == ReadElement(body[start..], [])
    {
      ghost var s := body[pos..];
      ElementStep(s, elem);
      assert s[0] == body[pos];
      if body[pos] == '"' {
        assert s[1..] == body[pos + 1..];
        return true, elem, pos + 1;
      }
      var good, c, next := ReadUnit(body, pos);
      if !good {
        return false, elem, pos;
      }
      assert s[next - pos..] == body[next..];
      pos := next;
      elem := elem + [c];
      if |elem| > MAX_LEN {
        return false, elem, pos;
      }
    }
    ElementEnds(elem);
    assert body[pos..] == [];
    return false, elem, pos;
  }

  method ReadStringArray(body: string, key: string) returns (out: seq<string>, rejected: bool)
    ensures rejected == StringArray(body, key).Rejected?
    ensures out == if rejected then [] else StringArray(body, key).list
  {
    StringArrayCases(body, key);
    hide *;
    var at := Find(body, Needle(key), 0);
    if at.None? {
      return [], false;
    }
    var open := Find(body, "[", at.value + |Needle(key)|);
    if open.None? {
      return [], true;
    }
    out, rejected := ReadElements(body, open.value + 1);
  }

  lemma {:induction false} StringArrayCases(body: string, key: string)
    ensures match Find(body, Needle(key), 0)
      case None => StringArray(body, key) == Accepted([])
      case Some(at) =>
        match Find(body, "[", at + |Needle(key)|)
        case None => StringArray(body, key) == Rejected
        case Some(open) => open + 1 <= |body| && StringArray(body, key) == ReadList(body[open + 1..], [])
  {
    hide Find, Needle, ReadList;
  }

  /** The elements, from the first character inside the array. */
  method ReadElements(body: string, start: nat) returns (out: seq<string>, rejected: bool)
    requires start <= |body|
    ensures rejected == ReadList(body[start..], []).Rejected?
    ensures out == if rejected then [] else ReadList(body[start..], []).list
  {
    out, rejected := [], false;
    var pos := start;
    hide ReadList, Skip, ReadElement;
    while pos < |body|
      invariant start <= pos <= |body|
      invariant ReadList(body[start..], []) == ReadList(body[pos..], out)
      decreases |body| - pos
    {
      var first := SkipSeparators(body, pos);
      StepAt(body, pos, first, out);
      if first >= |body| {
        return [], true;
      }
      if body[first] == ']' {
        return;
      }
      if body[first] != '"' {
        return [], true;
      }
      var closed, elem, next := ReadString(body, first + 1);
      if !closed {
        return [], true;
      }
      pos := next;
      if |out| + 1 > MAX_ELEMS {
        return [], true;
      }
      out := out + [elem];
    }
    ListStops(out);
    assert body[pos..] == [];
  }

  /** The same at a position of the text. */
  lemma StepAt(body: string, pos: nat, first: nat, list: seq<string>)
    requires pos < |body| && first <= |body| && body[first..] == Skip(body[pos..])
    ensures first == |body| || (body[first] != ']' && body[first] != '"') ==> ReadList(body[pos..], list) == Rejected
    ensures first < |body| && body[first] == ']' ==> ReadList(body[pos..], list) == Accepted(list)
    ensures first < |body| && body[first] == '"' ==>
      var e := ReadElement(body[first + 1..], []);
      ReadList(body[pos..], list) ==
        if e.BadElement? || |list| + 1 > MAX_ELEMS then Rejected else ReadList(e.rest, list + [e.text])
  {
    hide Skip, ReadElement, ReadList;
    ListStep(body[pos..], list);
    if first < |body| {
      assert body[first..][0] == body[first] && body[first..][1..] == body[first + 1..];
    }
  }

  lemma ListStops(list: seq<string>)
    ensures ReadList([], list) == Accepted(list)
  {
  }

  /** One turn of the loop. */
  lemma ListStep(s: string, list: seq<string>)
    requires s != []
    ensures var t := Skip(s);
      && (t == [] || (t[0] != ']' && t[0] != '"') ==> ReadList(s, list) == Rejected)
      && (t != [] && t[0] == ']' ==> ReadList(s, list) == Accepted(list))
      && (t != [] && t[0] == '"' ==>
            var e := ReadElement(t[1..], []);
            ReadList(s, list) ==
              if e.BadElement? || |list| + 1 > MAX_ELEMS then Rejected else ReadList(e.rest, list + [e.text]))
  {
    hide Skip, ReadElement;
  }

  // ------------------------------------------------------------- reading undoes writing

  /** One printed character is read back as itself, or was not printed at all. */
  lemma ReadEscapedChar(c: char, s: string, text: string)
    ensures var e := EscapeChar(c) + s;
      if Dropped(c) then e == s
      else
        && e != [] && e[0] != '"'
        && FirstUnit(e) == Unit(c, |EscapeChar(c)|) && e[|EscapeChar(c)|..] == s
  {
    if Dropped(c) {
      assert EscapeChar(c) + s == s;
    }
  }

  /** A printed string is read back without the characters the printer drops, and refused
      when more than 256 are left. */
  lemma {:induction false} ReadEscaped(x: string, text: string, rest: string)
    requires |text| <= MAX_LEN
    ensures ReadElement(Escape(x) + (['"'] + rest), text)
      == if |text| + |Kept(x)| <= MAX_LEN then Closed(text + Kept(x), rest) else BadElement
    decreases |x|
  {
    var tail := ['"'] + rest;
    if x == [] {
      ConcatEmpty(text);
      assert [] + tail == tail && tail[1..] == rest;
    } else {
      ConcatAssoc(EscapeChar(x[0]), Escape(x[1..]), tail);
      ReadEscapedChar(x[0], Escape(x[1..]) + tail, text);
      hide EscapeChar, FirstUnit;
      if Dropped(x[0]) {
        ReadEscaped(x[1..], text, rest);
        assert [] + Kept(x[1..]) == Kept(x[1..]);
      } else if |text| < MAX_LEN {
        ReadEscaped(x[1..], text + [x[0]], rest);
        ConcatAssoc(text, [x[0]], Kept(x[1..]));
      }
    }
  }

  /** An element of a printed array: what separates it from the one before, and its value. */
  datatype Item = Item(gap: string, text: string)

  /** Blanks, tabs, line ends and commas, in any number and order. */
  predicate Separates(gap: string) {
    forall i | 0 <= i < |gap| ::
      gap[i] == ' ' || gap[i] == '\t' || gap[i] == '\n' || gap[i] == '\r' || gap[i] == ','
  }

  predicate Separated(items: seq<Item>) {
    forall i | 0 <= i < |items| :: Separates(items[i].gap)
  }

  function Quoted(x: string, rest: string): string {
    ['"'] + (Escape(x) + (['"'] + rest))
  }

  /** The elements, quoted and separated, followed by `rest`. */
  function Printed(items: seq<Item>, rest: string): string {
    if items == [] then rest
    else items[0].gap + Quoted(items[0].text, Printed(items[1..], rest))
  }

  function Texts(items: seq<Item>): (texts: seq<string>)
    ensures |texts| == |items|
  {
    if items == [] then [] else [Kept(items[0].text)] + Texts(items[1..])
  }

  predicate AllShort(items: seq<Item>) {
    forall i | 0 <= i < |items| :: |Kept(items[i].text)| <= MAX_LEN
  }

  lemma {:induction false} SkipGap(gap: string, rest: string)
    requires Separates(gap)
    requires rest != [] && !Skippable(rest[0])
    ensures Skip(gap + rest) == rest
    decreases |gap|
  {
    if gap == [] {
      assert gap + rest == rest;
    } else {
      assert (gap + rest)[1..] == gap[1..] + rest;
      SkipGap(gap[1..], rest);
    }
  }

  /** Reading a printed array, whatever is in it and whatever follows it. */
  lemma {:induction false} ReadPrinted(items: seq<Item>, rest: string, list: seq<string>)
    requires Separated(items) && |list| <= MAX_ELEMS
    ensures ReadList(Printed(items, rest), list)
      == if AllShort(items) && |list| + |items| <= MAX_ELEMS
         then ReadList(rest, list + Texts(items)) else Rejected
    decreases |items|
  {
    if items == [] {
      ConcatEmpty(list);
    } else {
      var x, more := items[0].text, Printed(items[1..], rest);
      SkipGap(items[0].gap, Quoted(x, more));
      assert Quoted(x, more)[1..] == Escape(x) + (['"'] + more);
      ReadEscaped(x, [], more);
      ConcatEmpty(Kept(x));
      hide Escape, ReadElement, Skip, Kept;
      ShortSplit(items);
      if |Kept(x)| <= MAX_LEN && |list| < MAX_ELEMS {
        ReadPrinted(items[1..], rest, list + [Kept(x)]);
        ConcatAssoc(list, [Kept(x)], Texts(items[1..]));
      }
    }
  }

  lemma ShortSplit(items: seq<Item>)
    requires items != []
    ensures AllShort(items) <==> |Kept(items[0].text)| <= MAX_LEN && AllShort(items[1..])
  {
    hide Kept;
    if |Kept(items[0].text)| <= MAX_LEN && AllShort(items[1..]) {
      forall i | 0 <= i < |items| ensures |Kept(items[i].text)| <= MAX_LEN {
        if i > 0 {
          assert items[i] == items[1..][i - 1];
        }
      }
    }
  }

  /** A request body: the key, then a colon or the like, then the array. */
  function Body(prefix: string, key: string, mid: string, elements: string): string {
    prefix + (Needle(key) + (mid + (['['] + elements)))
  }

  /** Where a needle is found that its own first character does not precede. */
  lemma FindAt(s: string, from: nat, gap: string, needle: string, rest: string)
    requires from <= |s| && s[from..] == gap + (needle + rest)
    requires needle != [] && needle[0] !in gap
    ensures Find(s, needle, from) == Some(from + |gap|)
    ensures s[from + |gap| + |needle|..] == rest
  {
    hide Find;
    var at := from + |gap|;
    var t := s[from..];
    assert |s| == from + |gap| + |needle| + |rest|;
    assert t[|gap|..] == needle + rest;
    assert s[at..] == needle + rest;
    assert s[at..at + |needle|] == s[at..][..|needle|] == needle;
    assert OccursAt(s, needle, at);
    forall i | from <= i < at ensures !OccursAt(s, needle, i) {
      assert s[i] == t[i - from] == gap[i - from];
    }
    FindUnique(s, needle, from, at);
  }

  lemma FindUnique(s: string, needle: string, from: nat, at: nat)
    requires from <= at && OccursAt(s, needle, at)
    requires forall i | from <= i < at :: !OccursAt(s, needle, i)
    ensures Find(s, needle, from) == Some(at)
  {
    var r := Find(s, needle, from);
    hide Find;
  }

  /** The quoted key stands nowhere in front of where it is meant. */
  predicate Leads(prefix: string, key: string) {
    forall i | 0 <= i < |prefix| :: !OccursAt(prefix + Needle(key), Needle(key), i)
  }

  /** That is so exactly when the reader's search finds the key that is meant, whatever follows it. */
  lemma LeadsIff(prefix: string, key: string, mid: string, elements: string)
    ensures Leads(prefix, key) <==> Find(Body(prefix, key, mid, elements), Needle(key), 0) == Some(|prefix|)
  {
    var body, needle := Body(prefix, key, mid, elements), Needle(key);
    var rest := mid + (['['] + elements);
    ConcatAssoc(prefix, needle, rest);
    assert body == (prefix + needle) + rest;
    hide Body, Needle, Find;
    SameInFront(prefix + needle, rest, needle);
    assert (prefix + needle)[|prefix|..] == needle;
    assert OccursAt(prefix + needle, needle, |prefix|);
    hide OccursAt;
    var r := Find(body, needle, 0);
    if Leads(prefix, key) {
      FindUnique(body, needle, 0, |prefix|);
    }
  }

  lemma SameInFront(s: string, rest: string, needle: string)
    ensures forall i | 0 <= i <= |s| - |needle| :: OccursAt(s + rest, needle, i) <==> OccursAt(s, needle, i)
  {
    forall i | 0 <= i <= |s| - |needle| ensures OccursAt(s + rest, needle, i) <==> OccursAt(s, needle, i) {
      assert (s + rest)[i..i + |needle|] == s[i..i + |needle|];
    }
  }

  /** So when the array is the first member of its body. */
  lemma PlainLeads(prefix: string, key: string)
    requires '"' !in prefix
    ensures Leads(prefix, key)
  {
    forall i | 0 <= i < |prefix| ensures !OccursAt(prefix + Needle(key), Needle(key), i) {
      assert (prefix + Needle(key))[i] == prefix[i] != '"';
    }
  }

  /** The key and the bracket the reader looks for are the ones meant, whatever the key is, whatever
      members stand in front of it and whatever the array holds. */
  lemma FindBody(prefix: string, key: string, mid: string, elements: string)
    requires Leads(prefix, key) && '[' !in mid
    ensures StringArray(Body(prefix, key, mid, elements), key) == ReadList(elements, [])
  {
    hide *;
    var body := Body(prefix, key, mid, elements);
    LeadsIff(prefix, key, mid, elements);
    BodyBehindKey(prefix, key, mid, elements);
    FindAt(body, |prefix| + |Needle(key)|, mid, "[", elements);
    StringArrayAt(body, key, |prefix|, |prefix| + |Needle(key)| + |mid|);
  }

  lemma BodyBehindKey(prefix: string, key: string, mid: string, elements: string)
    ensures var body := Body(prefix, key, mid, elements);
      |prefix| + |Needle(key)| <= |body| && body[|prefix| + |Needle(key)|..] == mid + ("[" + elements)
  {
    hide Needle;
    var tail := mid + ("[" + elements);
    ConcatAssoc(prefix, Needle(key), tail);
    assert ((prefix + Needle(key)) + tail)[|prefix + Needle(key)|..] == tail;
  }

  lemma StringArrayAt(body: string, key: string, at: nat, open: nat)
    requires Find(body, Needle(key), 0) == Some(at)
    requires Find(body, "[", at + |Needle(key)|) == Some(open)
    ensures StringArray(body, key) == ReadList(body[open + 1..], [])
  {
    hide Find, Needle, ReadList;
  }

  /** What json_string_array makes of an array printed with json_escape: the strings without
      the characters the printer drops, or a refusal when one of them or the list is too long. */
  lemma {:induction false} ReadBack(prefix: string, key: string, mid: string, items: seq<Item>,
                                    gap: string, suffix: string)
    requires Leads(prefix, key) && '[' !in mid
    requires Separated(items) && Separates(gap)
    ensures StringArray(Body(prefix, key, mid, Printed(items, gap + ([']'] + suffix))), key)
      == if AllShort(items) && |items| <= MAX_ELEMS then Accepted(Texts(items)) else Rejected
  {
    var rest := gap + ([']'] + suffix);
    FindBody(prefix, key, mid, Printed(items, rest));
    hide StringArray, Body, Printed, Texts, AllShort, Leads;
    ReadPrinted(items, rest, []);
    ConcatEmpty(Texts(items));
    SkipGap(gap, [']'] + suffix);
  }

  /** The same for a body cut off right after an element: the missing bracket goes unnoticed. */
  lemma {:induction false} ReadBackUnterminated(prefix: string, key: string, mid: string, items: seq<Item>)
    requires Leads(prefix, key) && '[' !in mid && Separated(items)
    ensures StringArray(Body(prefix, key, mid, Printed(items, [])), key)
      == if AllShort(items) && |items| <= MAX_ELEMS then Accepted(Texts(items)) else Rejected
  {
    FindBody(prefix, key, mid, Printed(items, []));
    hide StringArray, Body, Printed, Texts, AllShort, Leads;
    ReadPrinted(items, [], []);
    ConcatEmpty(Texts(items));
  }

  lemma {:induction false} KeptIff(x: string)
    ensures Kept(x) == x <==> forall i | 0 <= i < |x| :: !Dropped(x[i])
  {
    if x != [] {
      var tail := x[1..];
      KeptIff(tail);
      assert x == [x[0]] + tail;
      if Dropped(x[0]) {
        assert |Kept(x)| < |x|;
      } else {
        SplitEqualIff(x[0], Kept(tail), tail);
        assert Kept(x) == [x[0]] + Kept(tail);
        if i: nat :| i < |tail| && Dropped(tail[i]) {
          assert x[i + 1] == tail[i];
        }
      }
    }
  }

  lemma SplitEqualIff(c: char, a: string, b: string)
    ensures [c] + a == [c] + b <==> a == b
  {
    if [c] + a == [c] + b {
      SplitEqual([c], a, [c], b);
    }
  }

  predicate Printable(items: seq<Item>) {
    forall i, k | 0 <= i < |items| && 0 <= k < |items[i].text| :: !Dropped(items[i].text[k])
  }

  lemma {:induction false} TextAt(items: seq<Item>, i: nat)
    requires i < |items|
    ensures Texts(items)[i] == Kept(items[i].text)
  {
    hide Kept;
    if i > 0 {
      TextAt(items[1..], i - 1);
    }
  }

  /** The reader undoes the printer, for every key and every list, exactly when there are at most
      256 strings of at most 256 characters in which there is no control character but
      backspace, tab, line feed, form feed and return. */
  lemma ReaderUndoesPrinter(prefix: string, key: string, mid: string, items: seq<Item>, gap: string, suffix: string)
    requires Leads(prefix, key) && '[' !in mid
    requires Separated(items) && Separates(gap)
    ensures var list := seq(|items|, i requires 0 <= i < |items| => items[i].text);
      StringArray(Body(prefix, key, mid, Printed(items, gap + ([']'] + suffix))), key) == Accepted(list)
      <==> |items| <= 256 && Printable(items) && forall i | 0 <= i < |items| :: |items[i].text| <= 256
  {
    ReadBack(prefix, key, mid, items, gap, suffix);
    hide *;
    var list := seq(|items|, i requires 0 <= i < |items| => items[i].text);
    ghost var r := StringArray(Body(prefix, key, mid, Printed(items, gap + ([']'] + suffix))), key);
    SameTextsIff(items, list);
    if Printable(items) {
      ShortIff(items);
    }
  }

  /** Anything else in the place of an element, or an end behind a separator, is refused. */
  lemma {:induction false} MalformedRefused(prefix: string, key: string, mid: string, items: seq<Item>,
                                            gap: string, rest: string)
    requires Leads(prefix, key) && '[' !in mid && Separated(items) && Separates(gap)
    requires if rest == [] then gap != []
             else rest[0] != ']' && rest[0] != '"' && !Separates([rest[0]])
    ensures StringArray(Body(prefix, key, mid, Printed(items, gap + rest)), key) == Rejected
  {
    FindBody(prefix, key, mid, Printed(items, gap + rest));
    NoElement(gap, rest, Texts(items));
    hide StringArray, Body, Printed, Texts, AllShort, Leads;
    ReadPrinted(items, gap + rest, []);
    ConcatEmpty(Texts(items));
  }

  lemma NoElement(gap: string, rest: string, list: seq<string>)
    requires Separates(gap)
    requires if rest == [] then gap != []
             else rest[0] != ']' && rest[0] != '"' && !Separates([rest[0]])
    ensures ReadList(gap + rest, list) == Rejected
  {
    if rest == [] {
      assert gap + rest == gap;
      SkipAll(gap);
    } else {
      SkipGap(gap, rest);
    }
  }

  lemma {:induction false} SkipAll(gap: string)
    requires Separates(gap)
    ensures Skip(gap) == []
  {
    if gap != [] {
      SkipAll(gap[1..]);
    }
  }

  /** A body without the key holds an empty list; a key without an array is refused. */
  lemma NoArray(body: string, key: string)
    ensures (forall i :: !OccursAt(body, ['"'] + key + ['"'], i)) ==> StringArray(body, key) == Accepted([])
    ensures '[' !in body && (exists i :: OccursAt(body, ['"'] + key + ['"'], i)) ==> StringArray(body, key) == Rejected
  {
    hide ReadList;
    var r := Find(body, Needle(key), 0);
    if r.Some? {
      var open := Find(body, "[", r.value + |Needle(key)|);
      if open.Some? {
        assert OccursAt(body, "[", open.value);
        assert body[open.value] == body[open.value..open.value + |"["|][0];
      }
    } else {
      assert forall i | 0 <= i <= |body| - |Needle(key)| :: !OccursAt(body, Needle(key), i);
    }
  }

  lemma ShortIff(items: seq<Item>)
    requires Printable(items)
    ensures AllShort(items) <==> forall i | 0 <= i < |items| :: |items[i].text| <= MAX_LEN
  {
    forall i | 0 <= i < |items| ensures Kept(items[i].text) == items[i].text {
      KeptIff(items[i].text);
    }
    hide Kept;
  }

  lemma SameTextsIff(items: seq<Item>, list: seq<string>)
    requires |list| == |items| && forall i | 0 <= i < |items| :: list[i] == items[i].text
    ensures Texts(items) == list <==> Printable(items)
  {
    forall i | 0 <= i < |items|
      ensures Texts(items)[i] == list[i] <==> forall k | 0 <= k < |items[i].text| :: !Dropped(items[i].text[k])
    {
      TextAt(items, i);
      KeptIff(items[i].text);
    }
    hide Texts, Kept, Dropped;
    if Printable(items) {
      assert forall i | 0 <= i < |items| :: Texts(items)[i] == list[i];
    }
  }
}
