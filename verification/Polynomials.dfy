/** Polynomials over GF(2), written as numbers. */
module Polynomials {
  import opened Bits

  // Bit k of a number is the coefficient of x^k. Sums are taken digit by digit without a carry, and
  // the remainder is defined by long division; nothing here knows how a CRC is computed.

  /** The sum: the exclusive or of two numbers. */
  function Plus(a: nat, b: nat): nat
    decreases a + b
  {
    if a == 0 && b == 0 then 0 else 2 * Plus(a / 2, b / 2) + (a + b) % 2
  }

  function Times(q: nat, g: nat): nat
    decreases q
  {
    if q == 0 then 0 else Plus(2 * Times(q / 2, g), if q % 2 == 1 then g else 0)
  }

  /** The generator of CRC-24Q: 1 + x + x^3 + x^4 + x^5 + x^6 + x^7 + x^10 + x^11 + x^14 + x^17 +
      x^18 + x^23 + x^24. */
  const CRC24Q := 0x1864CFB

  /** The remainder of `a` by the generator, by long division. */
  function Remainder(a: nat): (r: nat)
    decreases a
  {
    if a == 0 then 0
    else
      var r := 2 * Remainder(a / 2) + a % 2;
      if r >= 0x100_0000 then Plus(r, CRC24Q) else r
  }

  ghost predicate IsRemainder(a: nat, r: nat) {
    r < 0x100_0000 && exists q: nat :: a == Plus(Times(q, CRC24Q), r)
  }

  // ------------------------------------------------------------------------ sums

  lemma {:induction false} PlusZero(a: nat)
    ensures Plus(a, 0) == a && Plus(0, a) == a
    decreases a
  {
    if a > 0 {
      PlusZero(a / 2);
    }
  }

  lemma {:induction false} PlusSelf(a: nat)
    ensures Plus(a, a) == 0
    decreases a
  {
    if a > 0 {
      PlusSelf(a / 2);
    }
  }

  lemma {:induction false} PlusCommutes(a: nat, b: nat)
    ensures Plus(a, b) == Plus(b, a)
    decreases a + b
  {
    if a > 0 || b > 0 {
      PlusCommutes(a / 2, b / 2);
    }
  }

  lemma PlusParts(a: nat, b: nat)
    ensures Plus(a, b) / 2 == Plus(a / 2, b / 2) && Plus(a, b) % 2 == (a + b) % 2
  {
  }

  lemma HalvesAssociate(a: nat, b: nat, c: nat)
    requires Plus(Plus(a / 2, b / 2), c / 2) == Plus(a / 2, Plus(b / 2, c / 2))
    ensures Plus(Plus(a, b), c) / 2 == Plus(a, Plus(b, c)) / 2
  {
    PlusParts(a, b);
    PlusParts(b, c);
    PlusParts(Plus(a, b), c);
    PlusParts(a, Plus(b, c));
    hide Plus;
  }

  lemma LastAssociates(a: nat, b: nat, c: nat)
    ensures Plus(Plus(a, b), c) % 2 == Plus(a, Plus(b, c)) % 2
  {
    hide Plus;
    PlusParts(a, b);
    PlusParts(b, c);
    PlusParts(Plus(a, b), c);
    PlusParts(a, Plus(b, c));
    Parity(a, b, Plus(a, b), c);
    Parity(b, c, Plus(b, c), a);
  }

  lemma {:induction false} PlusAssociates(a: nat, b: nat, c: nat)
    ensures Plus(Plus(a, b), c) == Plus(a, Plus(b, c))
    decreases a + b + c
  {
    if a == b == c == 0 {
      PlusZero(0);
    } else {
      hide Plus;
      PlusAssociates(a / 2, b / 2, c / 2);
      HalvesAssociate(a, b, c);
      LastAssociates(a, b, c);
      SameParts(Plus(Plus(a, b), c), Plus(a, Plus(b, c)));
    }
  }

  lemma Parity(a: nat, b: nat, sum: nat, c: nat)
    requires sum % 2 == (a + b) % 2
    ensures (sum + c) % 2 == (c + sum) % 2 == (a + b + c) % 2
  {
  }

  lemma SameParts(a: nat, b: nat)
    requires a / 2 == b / 2 && a % 2 == b % 2
    ensures a == b
  {
  }

  lemma Doubled(a: nat, b: nat)
    ensures Plus(2 * a, 2 * b) == 2 * Plus(a, b)
  {
    PlusParts(2 * a, 2 * b);
    hide Plus;
    assert 2 * a / 2 == a && 2 * b / 2 == b && (2 * a + 2 * b) % 2 == 0;
  }

  lemma {:induction false} PlusIsZero(a: nat, b: nat)
    requires Plus(a, b) == 0
    ensures a == b
    decreases a + b
  {
    if a > 0 || b > 0 {
      PlusIsZero(a / 2, b / 2);
    }
  }

  /** (a + b) + (c + d) == (a + c) + (b + d) */
  lemma Exchange(a: nat, b: nat, c: nat, d: nat)
    ensures Plus(Plus(a, b), Plus(c, d)) == Plus(Plus(a, c), Plus(b, d))
  {
    hide Plus;
    PlusAssociates(a, b, Plus(c, d));
    PlusAssociates(b, c, d);
    PlusCommutes(b, c);
    PlusAssociates(c, b, d);
    PlusAssociates(a, c, Plus(b, d));
  }

  lemma Cancel(a: nat, b: nat, c: nat)
    requires Plus(a, b) == Plus(a, c)
    ensures b == c
  {
    hide Plus;
    PlusAssociates(a, a, b);
    PlusAssociates(a, a, c);
    PlusSelf(a);
    PlusZero(b);
    PlusZero(c);
  }

  // --------------------------------------------------------------------- degrees

  lemma {:induction false} PlusBound(a: nat, b: nat, n: nat)
    requires a < Pow2(n) && b < Pow2(n)
    ensures Plus(a, b) < Pow2(n)
    decreases n
  {
    if n > 0 {
      PlusBound(a / 2, b / 2, n - 1);
    }
  }

  /** A summand of lower degree leaves the degree. */
  lemma {:induction false} TopBit(a: nat, b: nat, n: nat)
    requires Pow2(n) <= a < Pow2(n + 1) && b < Pow2(n)
    ensures Pow2(n) <= Plus(a, b) < Pow2(n + 1)
    decreases n
  {
    if n > 0 {
      TopBit(a / 2, b / 2, n - 1);
    } else {
      PlusZero(a);
    }
  }

  lemma GeneratorDegree()
    ensures Pow2(24) == 0x100_0000 && Pow2(24) <= CRC24Q < Pow2(25)
  {
    assert Pow2(8) == 256;
    assert Pow2(16) == 65536;
  }

  lemma {:induction false} Pow2Grows(m: nat, n: nat)
    requires m <= n
    ensures Pow2(m) <= Pow2(n)
    decreases n
  {
    if m < n {
      Pow2Grows(m, n - 1);
    }
  }

  /** A product has the sum of the degrees. */
  lemma {:induction false} ProductDegree(q: nat, k: nat)
    requires Pow2(k) <= q < Pow2(k + 1)
    ensures Pow2(24 + k) <= Times(q, CRC24Q) < Pow2(25 + k)
    decreases k
  {
    GeneratorDegree();
    if k == 0 {
      assert q == 1 && Times(0, CRC24Q) == 0;
      PlusZero(CRC24Q);
    } else {
      TimesParts(q, CRC24Q);
      hide Times, Plus;
      ProductDegree(q / 2, k - 1);
      Pow2Grows(25, 24 + k);
      var t := 2 * Times(q / 2, CRC24Q);
      TopBit(t, CRC24Q, 24 + k);
      TopBit(t, 0, 24 + k);
    }
  }

  lemma {:induction false} HasDegree(q: nat) returns (k: nat)
    requires q > 0
    ensures Pow2(k) <= q < Pow2(k + 1)
    decreases q
  {
    k := 0;
    if q > 1 {
      k := HasDegree(q / 2);
      k := k + 1;
    }
  }

  lemma ProductIsLarge(q: nat)
    requires q > 0
    ensures Times(q, CRC24Q) >= 0x100_0000
  {
    hide Times;
    var k := HasDegree(q);
    ProductDegree(q, k);
    GeneratorDegree();
    Pow2Grows(24, 24 + k);
  }

  lemma {:induction false} Distributes(p: nat, q: nat, g: nat)
    ensures Times(Plus(p, q), g) == Plus(Times(p, g), Times(q, g))
    decreases p + q
  {
    hide Plus, Times;
    TimesZero(g);
    PlusZero(0);
    if p > 0 || q > 0 {
      Distributes(p / 2, q / 2, g);
      PlusParts(p, q);
      ParityOf(p, q);
      TimesParts(p, g);
      TimesParts(q, g);
      TimesParts(Plus(p, q), g);
      DistributesStep(p % 2, q % 2, Times(p / 2, g), Times(q / 2, g), g);
    }
  }

  lemma TimesZero(g: nat)
    ensures Times(0, g) == 0
  {
  }

  lemma ParityOf(p: nat, q: nat)
    ensures (p % 2 + q % 2) % 2 == (p + q) % 2
  {
  }

  lemma DistributesStep(i: nat, j: nat, a: nat, b: nat, g: nat)
    requires i < 2 && j < 2
    ensures Plus(2 * Plus(a, b), if (i + j) % 2 == 1 then g else 0)
      == Plus(Plus(2 * a, if i == 1 then g else 0), Plus(2 * b, if j == 1 then g else 0))
  {
    hide Plus;
    var u, v := if i == 1 then g else 0, if j == 1 then g else 0;
    Doubled(a, b);
    Exchange(2 * a, u, 2 * b, v);
    PlusSelf(g);
    PlusZero(g);
    PlusZero(0);
    assert Plus(u, v) == if (i + j) % 2 == 1 then g else 0;
  }

  lemma TimesParts(q: nat, g: nat)
    ensures Times(q, g) == Plus(2 * Times(q / 2, g), if q % 2 == 1 then g else 0)
  {
    PlusZero(0);
  }

  // ------------------------------------------------------------------- remainders

  /** There is at most one remainder. */
  lemma RemainderUnique(a: nat, r: nat, r': nat)
    requires IsRemainder(a, r) && IsRemainder(a, r')
    ensures r == r'
  {
    var q: nat :| a == Plus(Times(q, CRC24Q), r);
    var q': nat :| a == Plus(Times(q', CRC24Q), r');
    hide Plus, Times;
    var t, t' := Times(q, CRC24Q), Times(q', CRC24Q);
    Exchange(t, r, t', r');
    PlusSelf(a);
    PlusIsZero(Plus(t, t'), Plus(r, r'));
    Distributes(q, q', CRC24Q);
    GeneratorDegree();
    PlusBound(r, r', 24);
    if Plus(q, q') > 0 {
      ProductIsLarge(Plus(q, q'));
    }
    PlusIsZero(q, q');
    Cancel(t, r, r');
  }

  /** One step of a long division: the next digit is taken down, and the generator subtracted if the
      rest is as long as it. */
  lemma TakeDown(a: nat, r: nat, digit: nat)
    requires IsRemainder(a, r) && digit <= 1
    ensures var s := 2 * r + digit;
      IsRemainder(2 * a + digit, if s >= 0x100_0000 then Plus(s, CRC24Q) else s)
  {
    var q: nat :| a == Plus(Times(q, CRC24Q), r);
    hide Plus, Times;
    var s := 2 * r + digit;
    AppendDigit(Times(q, CRC24Q), r, digit);
    QuotientDigits(q);
    if s >= 0x100_0000 {
      PlusBelow(s);
      Subtracted(2 * Times(q, CRC24Q), s, CRC24Q);
    }
  }

  lemma QuotientDigits(q: nat)
    ensures Times(2 * q, CRC24Q) == 2 * Times(q, CRC24Q)
    ensures Times(2 * q + 1, CRC24Q) == Plus(2 * Times(q, CRC24Q), CRC24Q)
  {
    TimesParts(2 * q, CRC24Q);
    TimesParts(2 * q + 1, CRC24Q);
    PlusZero(2 * Times(q, CRC24Q));
    hide Plus, Times;
    assert 2 * q / 2 == q && (2 * q + 1) / 2 == q && 2 * q % 2 == 0 && (2 * q + 1) % 2 == 1;
  }

  lemma Subtracted(t: nat, s: nat, g: nat)
    ensures Plus(Plus(t, g), Plus(s, g)) == Plus(t, s)
  {
    hide Plus;
    Exchange(t, g, s, g);
    PlusSelf(g);
    PlusZero(Plus(t, s));
  }

  lemma AppendDigit(t: nat, r: nat, digit: nat)
    requires digit <= 1
    ensures Plus(2 * t, 2 * r + digit) == 2 * Plus(t, r) + digit
  {
    PlusParts(2 * t, 2 * r + digit);
    hide Plus;
    assert (2 * r + digit) / 2 == r && (2 * t + (2 * r + digit)) % 2 == digit;
  }

  /** Two polynomials of degree 24: the leading terms cancel. */
  lemma PlusBelow(s: nat)
    requires 0x100_0000 <= s < 0x200_0000
    ensures Plus(s, CRC24Q) < 0x100_0000
  {
    hide Plus;
    var top, low, low' := 0x100_0000, s - 0x100_0000, CRC24Q - 0x100_0000;
    GeneratorDegree();
    SplitTop(low, 24);
    SplitTop(low', 24);
    Exchange(top, low, top, low');
    PlusSelf(top);
    PlusZero(Plus(low, low'));
    PlusBound(low, low', 24);
  }

  lemma {:induction false} SplitTop(low: nat, n: nat)
    requires low < Pow2(n)
    ensures Plus(Pow2(n), low) == Pow2(n) + low
    decreases n
  {
    if n == 0 {
      PlusZero(1);
    } else {
      SplitTop(low / 2, n - 1);
      PlusParts(Pow2(n), low);
      hide Plus;
      SplitParts(Pow2(n - 1), low);
    }
  }

  lemma SplitParts(p: nat, low: nat)
    ensures 2 * p / 2 == p && (2 * p + low) / 2 == p + low / 2 && (2 * p + low) % 2 == low % 2
  {
  }

  /** Long division finds it. */
  lemma {:induction false} RemainderIs(a: nat)
    ensures IsRemainder(a, Remainder(a))
    decreases a
  {
    if a == 0 {
      PlusZero(0);
      assert 0 == Plus(Times(0, CRC24Q), 0);
    } else {
      RemainderIs(a / 2);
      hide Plus, Times, IsRemainder;
      TakeDown(a / 2, Remainder(a / 2), a % 2);
    }
  }
}
