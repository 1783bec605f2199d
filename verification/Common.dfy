/** Stock types and sequence facts used by several modules. */
module Common {
  datatype Option<+T> = None | Some(value: T)

  lemma ConcatAssoc<T>(a: seq<T>, b: seq<T>, c: seq<T>)
    ensures (a + b) + c == a + (b + c)
  {
  }

  lemma ConcatEmpty<T>(a: seq<T>)
    ensures a + [] == a && [] + a == a
  {
  }

  lemma SplitEqual<T>(p: seq<T>, q: seq<T>, p': seq<T>, q': seq<T>)
    requires |p| == |p'| && p + q == p' + q'
    ensures p == p' && q == q'
  {
    assert (p + q)[..|p|] == p && (p' + q')[..|p|] == p';
    assert (p + q)[|p|..] == q && (p' + q')[|p|..] == q';
  }
}
