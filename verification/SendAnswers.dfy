/** When a packet goes out. */
module SendAnswers {
  import opened SendLoop

  // The two loops count seconds, or tenths of one, in which the socket takes nothing. What that means
  // for a packet is told here without their counter: by the stretches of answers in which nothing is
  // written.

  /** An answer that ends the loop at once. A select that fails ends only the upstream loop. */
  predicate Fatal(a: Attempt, local: bool) {
    a == Failed || a == Wrote(0) || (!local && a == WouldBlock(SelectFailed))
  }

  /** An answer after waiting in vain. */
  predicate InVain(a: Attempt, local: bool) {
    a == WouldBlock(TimedOut) || (local && a == WouldBlock(SelectFailed))
  }

  predicate Writes(a: Attempt) {
    a.Wrote? && a.count > 0
  }

  function Written(script: seq<Attempt>): nat {
    if script == [] then 0 else (if script[0].Wrote? then script[0].count else 0) + Written(script[1..])
  }

  function Waits(script: seq<Attempt>, local: bool): nat {
    if script == [] then 0 else (if InVain(script[0], local) then 1 else 0) + Waits(script[1..], local)
  }

  predicate Quiet(script: seq<Attempt>) {
    forall i | 0 <= i < |script| :: !Writes(script[i])
  }

  /** No fatal answer, and nowhere `limit` waits in vain without a byte written in between. */
  ghost predicate Bearable(script: seq<Attempt>, local: bool, limit: nat) {
    && (forall i | 0 <= i < |script| :: !Fatal(script[i], local))
    && (forall i, j | 0 <= i <= j <= |script| :: Short(script, i, j, local, limit))
  }

  ghost predicate Short(script: seq<Attempt>, i: nat, j: nat, local: bool, limit: nat)
    requires i <= j <= |script|
  {
    Quiet(script[i..j]) ==> Waits(script[i..j], local) < limit
  }

  /** Nor at the beginning, when `stalls` waits have come before. */
  ghost predicate Begins(script: seq<Attempt>, local: bool, stalls: nat, limit: nat) {
    forall j | 0 <= j <= |script| :: Quiet(script[..j]) ==> stalls + Waits(script[..j], local) < limit
  }

  function EffectsOf(script: seq<Attempt>, local: bool): (e: seq<Effect>)
    ensures |e| == |script|
  {
    if local then LocalEffects(script) else UpstreamEffects(script)
  }

  lemma HeadOf(script: seq<Attempt>, j: nat, local: bool)
    requires 1 <= j <= |script|
    ensures script[..j][0] == script[0] && script[..j][1..] == script[1..][..j - 1]
    ensures Quiet(script[..j]) <==> !Writes(script[0]) && Quiet(script[1..][..j - 1])
    ensures Waits(script[..j], local)
      == (if InVain(script[0], local) then 1 else 0) + Waits(script[1..][..j - 1], local)
  {
    var s, t := script[..j], script[1..][..j - 1];
    assert s == [script[0]] + t;
    hide Writes, InVain;
  }

  lemma BeginsStep(script: seq<Attempt>, local: bool, stalls: nat, limit: nat)
    requires script != [] && stalls < limit
    ensures Begins(script, local, stalls, limit)
      <==> Writes(script[0])
           || (if InVain(script[0], local) then stalls + 1 < limit && Begins(script[1..], local, stalls + 1, limit)
               else Begins(script[1..], local, stalls, limit))
  {
    var rest := script[1..];
    var more := if InVain(script[0], local) then 1 else 0;
    assert script[..0] == [] && rest[..0] == [];
    hide Writes, InVain;
    if Begins(script, local, stalls, limit) && !Writes(script[0]) {
      forall j | 0 <= j <= |rest| ensures Quiet(rest[..j]) ==> stalls + more + Waits(rest[..j], local) < limit {
        HeadOf(script, j + 1, local);
      }
    }
    if Writes(script[0]) || (stalls + more < limit && Begins(rest, local, stalls + more, limit)) {
      forall j | 1 <= j <= |script| ensures Quiet(script[..j]) ==> stalls + Waits(script[..j], local) < limit {
        HeadOf(script, j, local);
      }
    }
  }

  /** Stretches of the whole are stretches of the tail and beginnings of the whole. */
  lemma Stretches(script: seq<Attempt>, local: bool, limit: nat)
    requires script != []
    ensures Bearable(script, local, limit)
      <==> !Fatal(script[0], local) && Bearable(script[1..], local, limit) && Begins(script, local, 0, limit)
  {
    hide Fatal, Quiet, Waits;
    var rest := script[1..];
    forall i, j | 0 <= i <= j <= |rest|
      ensures Short(rest, i, j, local, limit) <==> Short(script, i + 1, j + 1, local, limit)
    {
      assert rest[i..j] == script[i + 1..j + 1];
    }
    forall j | 0 <= j <= |script| ensures script[0..j] == script[..j] {
    }
    if Bearable(script, local, limit) {
      forall i | 0 <= i < |rest| ensures !Fatal(rest[i], local) {
        assert rest[i] == script[i + 1];
      }
      forall j | 0 <= j <= |script| ensures Quiet(script[..j]) ==> Waits(script[..j], local) < limit {
        assert Short(script, 0, j, local, limit);
      }
    }
    if !Fatal(script[0], local) && Bearable(rest, local, limit) && Begins(script, local, 0, limit) {
      forall i | 0 <= i < |script| ensures !Fatal(script[i], local) {
        if i > 0 {
          assert script[i] == rest[i - 1];
        }
      }
      forall i, j | 0 <= i <= j <= |script| ensures Short(script, i, j, local, limit) {
        if i > 0 {
          assert Short(rest, i - 1, j - 1, local, limit);
        }
      }
    }
  }

  lemma BearableBegins(script: seq<Attempt>, local: bool, limit: nat)
    requires Bearable(script, local, limit)
    ensures Begins(script, local, 0, limit)
  {
    hide Fatal, Quiet, Waits;
    forall j | 0 <= j <= |script| ensures Quiet(script[..j]) ==> Waits(script[..j], local) < limit {
      assert Short(script, 0, j, local, limit);
      assert script[0..j] == script[..j];
    }
  }

  lemma BeginsFewer(script: seq<Attempt>, local: bool, stalls: nat, limit: nat)
    requires Begins(script, local, stalls, limit)
    ensures Begins(script, local, 0, limit)
  {
  }

  lemma EffectOf(script: seq<Attempt>, local: bool)
    requires script != []
    ensures EffectsOf(script, local)[1..] == EffectsOf(script[1..], local)
    ensures var a, e := script[0], EffectsOf(script, local)[0];
      && (e.GiveUp? <==> Fatal(a, local)) && (e.Stall? <==> InVain(a, local)) && (e.Progress? <==> Writes(a))
      && (e.Progress? ==> e.count == a.count)
      && !(Fatal(a, local) && (InVain(a, local) || Writes(a))) && !(InVain(a, local) && Writes(a))
  {
  }

  /** The loop's counter tolerates exactly what is bearable. */
  lemma {:induction false} TolerableIff(script: seq<Attempt>, local: bool, stalls: nat, limit: nat)
    requires stalls < limit
    ensures Tolerable(EffectsOf(script, local), stalls, limit)
      <==> Bearable(script, local, limit) && Begins(script, local, stalls, limit)
    decreases |script|
  {
    if script == [] {
      Nothing(local, stalls, limit);
    } else {
      var rest := script[1..];
      EffectOf(script, local);
      hide EffectsOf, Begins, Bearable, Fatal, Writes, InVain;
      Stretches(script, local, limit);
      BeginsStep(script, local, stalls, limit);
      if Begins(script, local, stalls, limit) {
        BeginsFewer(script, local, stalls, limit);
      }
      if Bearable(rest, local, limit) {
        BearableBegins(rest, local, limit);
      }
      BeginsStep(script, local, 0, limit);
      TolerableIff(rest, local, 0, limit);
      TolerableIff(rest, local, stalls, limit);
      if stalls + 1 < limit {
        TolerableIff(rest, local, stalls + 1, limit);
      }
    }
  }

  lemma Nothing(local: bool, stalls: nat, limit: nat)
    requires stalls < limit
    ensures Bearable([], local, limit) && Begins([], local, stalls, limit)
    ensures Tolerable(EffectsOf([], local), stalls, limit)
  {
    var none: seq<Attempt> := [];
    assert none[0..0] == none && none[..0] == none;
  }

  lemma {:induction false} TotalIs(script: seq<Attempt>, local: bool)
    ensures Total(EffectsOf(script, local)) == Written(script)
    decreases |script|
  {
    if script != [] {
      EffectOf(script, local);
      TotalIs(script[1..], local);
      hide EffectsOf, Fatal, InVain;
    }
  }

  lemma Beginning(script: seq<Attempt>, local: bool, k: nat)
    requires k <= |script|
    ensures EffectsOf(script, local)[..k] == EffectsOf(script[..k], local)
  {
  }

  lemma BeginningIff(script: seq<Attempt>, local: bool, length: nat, limit: nat, k: nat)
    requires k <= |script| && limit > 0
    ensures Total(EffectsOf(script, local)[..k]) >= length && Tolerable(EffectsOf(script, local)[..k], 0, limit)
      <==> Written(script[..k]) >= length && Bearable(script[..k], local, limit)
  {
    hide *;
    Beginning(script, local, k);
    TotalIs(script[..k], local);
    TolerableIff(script[..k], local, 0, limit);
    if Bearable(script[..k], local, limit) {
      BearableBegins(script[..k], local, limit);
    }
  }

  lemma SentWholeIff(script: seq<Attempt>, local: bool, length: nat, limit: nat)
    requires limit > 0
    ensures Sent(EffectsOf(script, local), length, 0, 0, limit) == length
      <==> exists k | 0 <= k <= |script| :: Written(script[..k]) >= length && Bearable(script[..k], local, limit)
  {
    hide Sent, Total, Tolerable, EffectsOf, Bearable, Written;
    var effects := EffectsOf(script, local);
    SentAllIff(effects, length, 0, 0, limit);
    forall k | 0 <= k <= |script|
      ensures Total(effects[..k]) >= length && Tolerable(effects[..k], 0, limit)
        <==> Written(script[..k]) >= length && Bearable(script[..k], local, limit)
    {
      BeginningIff(script, local, length, limit, k);
    }
  }

  /** Upstream: a packet goes out whole exactly if answers without a failure write all of it before
      the socket has taken nothing in eight waits on end. */
  lemma UpstreamSendsIff(script: seq<Attempt>, length: nat)
    ensures Sent(UpstreamEffects(script), length, 0, 0, UPSTREAM_STALLS) == length
      <==> exists k | 0 <= k <= |script| :: Written(script[..k]) >= length && Bearable(script[..k], false, 8)
  {
    SentWholeIff(script, false, length, 8);
    hide Sent, UpstreamEffects, Bearable, Written;
  }

  /** Locally: the same with ten waits. */
  lemma LocalSendsIff(script: seq<Attempt>, length: nat)
    ensures Sent(LocalEffects(script), length, 0, 0, LOCAL_STALLS) == length
      <==> exists k | 0 <= k <= |script| :: Written(script[..k]) >= length && Bearable(script[..k], true, 10)
  {
    SentWholeIff(script, true, length, 10);
    hide Sent, LocalEffects, Bearable, Written;
  }
}
