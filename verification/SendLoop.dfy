/** The partial-write send loops of main/ntrip_push.cpp and main/local_caster.cpp. */
module SendLoop {
  // The network decides what each call of send and select answers; a script lists those
  // answers in order. A script that runs out stands for the moment at which the upstream
  // loop finds the sender suspended or stopping; the local loop makes no such test.

  datatype Select = Ready | SelectInterrupted | TimedOut | SelectFailed

  datatype Attempt =
    | Wrote(count: nat)
    | Interrupted
    | WouldBlock(select: Select)
    | Failed

  /** What an answer means to the loop. */
  datatype Effect = Progress(count: nat) | Again | Stall | GiveUp

  const UPSTREAM_STALLS := 8
  const LOCAL_STALLS := 10

  function UpstreamEffect(a: Attempt): Effect {
    match a
    case Wrote(n) => if n > 0 then Progress(n) else GiveUp
    case Interrupted => Again
    case WouldBlock(Ready) => Again
    case WouldBlock(SelectInterrupted) => Again
    case WouldBlock(TimedOut) => Stall
    case WouldBlock(SelectFailed) => GiveUp
    case Failed => GiveUp
  }

  /** The local caster counts a failing select as a stall. */
  function LocalEffect(a: Attempt): Effect {
    match a
    case Wrote(n) => if n > 0 then Progress(n) else GiveUp
    case Interrupted => Again
    case WouldBlock(Ready) => Again
    case WouldBlock(SelectInterrupted) => Again
    case WouldBlock(TimedOut) => Stall
    case WouldBlock(SelectFailed) => Stall
    case Failed => GiveUp
  }

  function UpstreamEffects(script: seq<Attempt>): (e: seq<Effect>)
    ensures |e| == |script|
  {
    seq(|script|, i requires 0 <= i < |script| => UpstreamEffect(script[i]))
  }

  function LocalEffects(script: seq<Attempt>): (e: seq<Effect>)
    ensures |e| == |script|
  {
    seq(|script|, i requires 0 <= i < |script| => LocalEffect(script[i]))
  }

  /** How many of `length` bytes have gone out when the loop ends. */
  function Sent(effects: seq<Effect>, length: nat, offset: nat, stalls: nat, limit: nat): (n: nat)
    requires offset <= length
    ensures offset <= n <= length
    decreases |effects|
  {
    if offset == length || effects == [] then
      offset
    else
      match effects[0]
      case Progress(n) =>
        var next := if offset + n <= length then offset + n else length;
        Sent(effects[1..], length, next, 0, limit)
      case Again => Sent(effects[1..], length, offset, stalls, limit)
      case Stall =>
        if stalls + 1 < limit then Sent(effects[1..], length, offset, stalls + 1, limit) else offset
      case GiveUp => offset
  }

  // ----------------------------------------------------- when the whole packet goes out

  /** The bytes that the answers report as written. */
  function Total(effects: seq<Effect>): nat
    decreases |effects|
  {
    if effects == [] then 0
    else (if effects[0].Progress? then effects[0].count else 0) + Total(effects[1..])
  }

  /** No fatal answer, and never `limit` stalls without progress in between, when `stalls`
      have been counted already. */
  ghost predicate Tolerable(effects: seq<Effect>, stalls: nat, limit: nat)
    decreases |effects|
  {
    effects == [] ||
    match effects[0]
    case Progress(n) => Tolerable(effects[1..], 0, limit)
    case Again => Tolerable(effects[1..], stalls, limit)
    case Stall => stalls + 1 < limit && Tolerable(effects[1..], stalls + 1, limit)
    case GiveUp => false
  }

  /** A send succeeds exactly when some tolerable beginning of the answers carries all the bytes. */
  lemma {:induction false} SentAllIff(effects: seq<Effect>, length: nat, offset: nat, stalls: nat, limit: nat)
    requires offset <= length
    ensures Sent(effects, length, offset, stalls, limit) == length
      <==> exists k | 0 <= k <= |effects| ::
             offset + Total(effects[..k]) >= length && Tolerable(effects[..k], stalls, limit)
    decreases |effects|
  {
    if offset == length {
      assert effects[..0] == [];
    } else if effects == [] {
      assert effects[..0] == [];
    } else {
      var next := match effects[0]
                  case Progress(n) => if offset + n <= length then offset + n else length
                  case _ => offset;
      var stalls' := match effects[0] case Progress(_) => 0 case Stall => stalls + 1 case _ => stalls;
      SentAllIff(effects[1..], length, next, stalls', limit);
      ShiftWitness(effects, length, offset, next, stalls, stalls', limit);
    }
  }

  lemma ShiftWitness(effects: seq<Effect>, length: nat, offset: nat, next: nat, stalls: nat, stalls': nat, limit: nat)
    requires effects != [] && offset < length
    requires next == match effects[0]
                     case Progress(n) => if offset + n <= length then offset + n else length
                     case _ => offset
    requires stalls' == match effects[0] case Progress(_) => 0 case Stall => stalls + 1 case _ => stalls
    ensures (exists k | 0 <= k <= |effects| ::
               offset + Total(effects[..k]) >= length && Tolerable(effects[..k], stalls, limit))
      <==> effects[0] != GiveUp && (effects[0] == Stall ==> stalls + 1 < limit)
           && exists k | 0 <= k <= |effects[1..]| ::
                next + Total(effects[1..][..k]) >= length && Tolerable(effects[1..][..k], stalls', limit)
  {
    forall k | 1 <= k <= |effects|
      ensures effects[..k][0] == effects[0] && effects[..k][1..] == effects[1..][..k - 1]
    {
    }
    if k :| 0 <= k <= |effects[1..]| &&
            next + Total(effects[1..][..k]) >= length && Tolerable(effects[1..][..k], stalls', limit) {
      if effects[0] != GiveUp && (effects[0] == Stall ==> stalls + 1 < limit) {
        assert effects[..k + 1][1..] == effects[1..][..k];
        assert offset + Total(effects[..k + 1]) >= length && Tolerable(effects[..k + 1], stalls, limit);
      }
    }
    if k :| 0 <= k <= |effects| &&
            offset + Total(effects[..k]) >= length && Tolerable(effects[..k], stalls, limit) {
      assert effects[..0] == [];
      assert k > 0;
      assert effects[..k][1..] == effects[1..][..k - 1];
      assert next + Total(effects[1..][..k - 1]) >= length && Tolerable(effects[1..][..k - 1], stalls', limit);
    }
  }

  // --------------------------------------------------------------------- the loops

  lemma DropFirst(effects: seq<Effect>, i: nat)
    requires i < |effects|
    ensures effects[i..] != [] && effects[i..][0] == effects[i] && effects[i..][1..] == effects[i + 1..]
  {
  }

  /** What one accepted write puts on the wire: the bytes behind `offset`, as many as were taken. */
  function Chunk<T>(data: seq<T>, offset: nat, next: nat): (chunk: seq<T>)
    requires offset <= next <= |data|
    ensures data[..offset] + chunk == data[..next]
  {
    data[offset..next]
  }

  /** NtripPushClient::send_all; `out` is what went out, write by write. */
  method SendAllUpstream<T>(data: seq<T>, script: seq<Attempt>) returns (ok: bool, offset: nat, ghost out: seq<T>)
    ensures offset <= |data| && out == data[..offset]
    ensures offset == Sent(UpstreamEffects(script), |data|, 0, 0, UPSTREAM_STALLS)
    ensures ok <==> offset == |data|
  {
    offset, out := 0, [];
    var stalledSeconds := 0;
    var i := 0;
    while offset < |data| && i < |script|
      invariant i <= |script| && offset <= |data| && out == data[..offset] && 0 <= stalledSeconds
      invariant Sent(UpstreamEffects(script)[i..], |data|, offset, stalledSeconds, UPSTREAM_STALLS)
                == Sent(UpstreamEffects(script), |data|, 0, 0, UPSTREAM_STALLS)
      decreases |script| - i
    {
      DropFirst(UpstreamEffects(script), i);
      var answer := script[i];
      i := i + 1;
      match answer {
        case Wrote(n) =>
          if n == 0 {
            return false, offset, out;
          }
          var next := if offset + n <= |data| then offset + n else |data|;
          out := out + Chunk(data, offset, next);
          offset := next;
          stalledSeconds := 0;
        case Interrupted =>
        case WouldBlock(select) =>
          match select {
            case Ready =>
            case SelectInterrupted =>
            case SelectFailed =>
              return false, offset, out;
            case TimedOut =>
              stalledSeconds := stalledSeconds + 1;
              if stalledSeconds >= UPSTREAM_STALLS {
                return false, offset, out;
              }
          }
        case Failed =>
          return false, offset, out;
      }
    }
    ok := offset == |data|;
  }

  /** The loop ends before the answers run out. */
  predicate Ends(effects: seq<Effect>, length: nat, offset: nat, stalls: nat, limit: nat)
    requires offset <= length
    decreases |effects|
  {
    offset == length ||
    (effects != [] &&
     match effects[0]
     case Progress(n) =>
       Ends(effects[1..], length, if offset + n <= length then offset + n else length, 0, limit)
     case Again => Ends(effects[1..], length, offset, stalls, limit)
     case Stall => stalls + 1 >= limit || Ends(effects[1..], length, offset, stalls + 1, limit)
     case GiveUp => true)
  }

  /** LocalCaster::send_all; `out` is what went out, write by write. */
  method SendAllLocal<T>(data: seq<T>, script: seq<Attempt>) returns (ok: bool, offset: nat, ghost out: seq<T>)
    requires Ends(LocalEffects(script), |data|, 0, 0, LOCAL_STALLS)
    ensures offset <= |data| && out == data[..offset]
    ensures offset == Sent(LocalEffects(script), |data|, 0, 0, LOCAL_STALLS)
    ensures ok <==> offset == |data|
  {
    offset, out := 0, [];
    var stalls := 0;
    var i := 0;
    while offset < |data|
      invariant i <= |script| && offset <= |data| && out == data[..offset] && 0 <= stalls
      invariant Sent(LocalEffects(script)[i..], |data|, offset, stalls, LOCAL_STALLS)
                == Sent(LocalEffects(script), |data|, 0, 0, LOCAL_STALLS)
      invariant Ends(LocalEffects(script)[i..], |data|, offset, stalls, LOCAL_STALLS)
      decreases |script| - i
    {
      DropFirst(LocalEffects(script), i);
      var answer := script[i];
      i := i + 1;
      if answer.Wrote? && answer.count > 0 {
        var next := if offset + answer.count <= |data| then offset + answer.count else |data|;
        out := out + Chunk(data, offset, next);
        offset := next;
        stalls := 0;
        continue;
      }
      if answer.Interrupted? {
        continue;
      }
      if answer.WouldBlock? {
        if answer.select.Ready? {
          continue;
        }
        if answer.select.SelectInterrupted? {
          continue;
        }
        stalls := stalls + 1;
        if stalls < LOCAL_STALLS {
          continue;
        }
      }
      return false, offset, out;
    }
    ok := true;
  }
}
