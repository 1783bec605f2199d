/** The local caster's batch. */
module Batch {
  import opened Bits
  import opened Common

  // Frames wait there for a time, whole (main/base_station.cpp).

  const MAX_BYTES := 1200
  const MAX_FRAMES := 12
  const BATCH_US := 200000

  /** A frame waiting in the batch, and when it was published. */
  datatype Held = Held(frame: seq<byte>, at: int)

  function Frames(held: seq<Held>): (frames: seq<seq<byte>>)
    ensures |frames| == |held|
  {
    seq(|held|, i requires 0 <= i < |held| => held[i].frame)
  }

  /** The concatenated bytes. */
  function Flatten(held: seq<Held>): (bytes: seq<byte>)
    decreases |held|
  {
    if held == [] then [] else Flatten(held[..|held| - 1]) + held[|held| - 1].frame
  }

  /** What waits, the deadline (0 when not armed), and everything handed on so far. */
  datatype State = State(held: seq<Held>, deadline: int, flushed: seq<seq<byte>>)

  const EMPTY := State([], 0, [])

  function Flush(s: State, deadline: int): State {
    State([], deadline, s.flushed + Frames(s.held))
  }

  /** publish_to_batch */
  function Publish(s: State, frame: seq<byte>, now: int, phase: int): State {
    var size := |Flatten(s.held)|;
    var full := (size > 0 && size + |frame| > MAX_BYTES) || |s.held| >= MAX_FRAMES;
    var s1 := if full then Flush(s, now + BATCH_US) else s;
    var s2 := s1.(held := s1.held + [Held(frame, now)],
                  deadline := if s1.deadline == 0 then now + phase + BATCH_US else s1.deadline);
    if now >= s2.deadline then Flush(s2, now + BATCH_US) else s2
  }

  /** flush_due_batch */
  function FlushDue(s: State, now: int): State {
    if |Flatten(s.held)| > 0 && s.deadline != 0 && now >= s.deadline then
      Flush(s, now + BATCH_US)
    else
      s
  }

  // ----------------------------------------------------------------- whole runs

  datatype Event = Published(frame: seq<byte>, now: int) | Polled(now: int)

  function Apply(s: State, e: Event): State {
    match e
    case Published(frame, now) => Publish(s, frame, now, 0)
    case Polled(now) => FlushDue(s, now)
  }

  function Run(events: seq<Event>): State
    decreases |events|
  {
    if events == [] then EMPTY else Apply(Run(events[..|events| - 1]), events[|events| - 1])
  }

  function PublishedIn(events: seq<Event>): seq<seq<byte>>
    decreases |events|
  {
    if events == [] then
      []
    else
      PublishedIn(events[..|events| - 1]) + PublishedBy(events[|events| - 1])
  }

  function PublishedBy(e: Event): seq<seq<byte>> {
    if e.Published? then [e.frame] else []
  }

  /** The clock is the timer since boot; frames are nonempty and fit the buffer. */
  ghost predicate Sound(events: seq<Event>) {
    && (forall i | 0 <= i < |events| :: 0 <= events[i].now)
    && (forall i, j | 0 <= i < j < |events| :: events[i].now <= events[j].now)
    && (forall i | 0 <= i < |events| && events[i].Published? :: 0 < |events[i].frame| <= MAX_BYTES)
  }

  function Clock(events: seq<Event>): int {
    if events == [] then 0 else events[|events| - 1].now
  }

  ghost predicate Bounded(held: seq<Held>) {
    && |Flatten(held)| <= MAX_BYTES
    && |held| <= MAX_FRAMES
    && (forall i | 0 <= i < |held| :: |held[i].frame| > 0)
  }

  /** The deadline is armed while frames wait, and comes within one period of each publication. */
  ghost predicate Armed(s: State, clock: int) {
    && 0 <= s.deadline <= clock + BATCH_US
    && (s.held != [] ==> s.deadline != 0)
    && (forall i | 0 <= i < |s.held| :: s.held[i].at <= clock && s.deadline <= s.held[i].at + BATCH_US)
  }

  /** Every waiting frame leaves within one period of its publication. */
  ghost predicate Timely(s: State, clock: int) {
    Armed(s, clock) && (s.held != [] ==> s.deadline > clock)
  }

  lemma FlattenPositive(held: seq<Held>)
    requires held != [] && |held[|held| - 1].frame| > 0
    ensures |Flatten(held)| > 0
  {
  }

  lemma FlattenSnoc(held: seq<Held>, h: Held)
    ensures Flatten(held + [h]) == Flatten(held) + h.frame
  {
    assert (held + [h])[..|held|] == held;
  }

  lemma FramesSnoc(held: seq<Held>, h: Held)
    ensures Frames(held + [h]) == Frames(held) + [h.frame]
  {
  }

  /** Nothing is lost, split, repeated or reordered. */
  lemma FlushConserves(s: State, deadline: int)
    ensures var s' := Flush(s, deadline);
            s'.flushed + Frames(s'.held) == s.flushed + Frames(s.held)
  {
    ConcatEmpty(s.flushed + Frames(s.held));
    assert Frames([]) == [];
  }

  lemma PublishConserves(s: State, frame: seq<byte>, now: int, phase: int)
    ensures var s' := Publish(s, frame, now, phase);
            s'.flushed + Frames(s'.held) == s.flushed + Frames(s.held) + [frame]
  {
    hide Flush, Flatten, Frames;
    FlushConserves(s, now + BATCH_US);
    var size := |Flatten(s.held)|;
    var full := (size > 0 && size + |frame| > MAX_BYTES) || |s.held| >= MAX_FRAMES;
    var s1 := if full then Flush(s, now + BATCH_US) else s;
    FramesSnoc(s1.held, Held(frame, now));
    ConcatAssoc(s1.flushed, Frames(s1.held), [frame]);
    var s2 := s1.(held := s1.held + [Held(frame, now)],
                  deadline := if s1.deadline == 0 then now + phase + BATCH_US else s1.deadline);
    FlushConserves(s2, now + BATCH_US);
  }

  lemma PublishBounded(s: State, frame: seq<byte>, now: int, phase: int)
    requires Bounded(s.held) && 0 < |frame| <= MAX_BYTES
    ensures Bounded(Publish(s, frame, now, phase).held)
  {
    FlattenSnoc(s.held, Held(frame, now));
    FlattenSnoc([], Held(frame, now));
    if s.held != [] {
      FlattenPositive(s.held);
    }
  }

  lemma PublishTimely(s: State, clock: int, frame: seq<byte>, now: int)
    requires Armed(s, clock) && 0 <= clock <= now
    ensures Timely(Publish(s, frame, now, 0), now)
  {
    hide Flatten, Frames;
  }

  lemma PollKeepsAll(s: State, clock: int, now: int)
    requires Bounded(s.held) && Armed(s, clock) && 0 <= clock <= now
    ensures var s' := FlushDue(s, now);
            && s'.flushed + Frames(s'.held) == s.flushed + Frames(s.held)
            && Bounded(s'.held) && Timely(s', now)
  {
    FlushConserves(s, now + BATCH_US);
    if s.held != [] {
      FlattenPositive(s.held);
    }
  }

  /** Conservation, capacity and freshness, after any run. */
  lemma {:induction false} RunInvariant(events: seq<Event>)
    requires Sound(events)
    ensures Run(events).flushed + Frames(Run(events).held) == PublishedIn(events)
    ensures Bounded(Run(events).held) && Timely(Run(events), Clock(events))
    ensures 0 <= Clock(events)
    decreases |events|
  {
    if events == [] {
      assert Frames([]) == [];
    } else {
      hide Publish, FlushDue, Flatten, Frames, Bounded, Armed;
      var init, last := events[..|events| - 1], events[|events| - 1];
      RunInvariant(init);
      assert Clock(init) <= last.now;
      var s := Run(init);
      if last.Published? {
        PublishConserves(s, last.frame, last.now, 0);
        PublishBounded(s, last.frame, last.now, 0);
        PublishTimely(s, Clock(init), last.frame, last.now);
      } else {
        PollKeepsAll(s, Clock(init), last.now);
        ConcatEmpty(s.flushed + Frames(s.held));
      }
    }
  }

  /** At the end of every call no waiting frame is 200 ms old. */
  lemma HeldFramesAreFresh(events: seq<Event>, i: nat)
    requires Sound(events) && i < |Run(events).held|
    ensures Clock(events) - Run(events).held[i].at < 200_000
  {
    RunInvariant(events);
  }

  // ------------------------------------------------------------------ when frames leave

  /** The moment frames last left, or, before any have, at which the first one came. */
  function Mark(events: seq<Event>): Option<int>
    decreases |events|
  {
    if events == [] then None
    else
      var init, last := events[..|events| - 1], events[|events| - 1];
      if |Run(events).flushed| > |Run(init).flushed| || (Mark(init).None? && last.Published?)
      then Some(last.now) else Mark(init)
  }

  /** 200 ms have passed since then. */
  predicate PeriodOver(events: seq<Event>, now: int) {
    Mark(events).Some? && now >= Mark(events).value + 200_000
  }

  function Bytes(held: seq<Held>): nat
    decreases |held|
  {
    if held == [] then 0 else Bytes(held[..|held| - 1]) + |held[|held| - 1].frame|
  }

  lemma {:induction false} BytesAre(held: seq<Held>)
    ensures |Flatten(held)| == Bytes(held)
    decreases |held|
  {
    if held != [] {
      BytesAre(held[..|held| - 1]);
    }
  }

  /** The deadline is the end of the period. */
  ghost predicate MarkInv(s: State, mark: Option<int>) {
    match mark
    case None => s.deadline == 0 && s.held == []
    case Some(at) => s.deadline == at + 200_000 && at >= 0
  }

  /** The frames that one event hands on. */
  function HandsOn(s: State, due: bool, e: Event): seq<seq<byte>> {
    match e
    case Polled(_) => if due then Frames(s.held) else []
    case Published(frame, _) =>
      if (s.held != [] && Bytes(s.held) + |frame| > 1200) || |s.held| >= 12 then Frames(s.held)
      else if due then Frames(s.held) + [frame]
      else []
  }

  lemma ApplyHandsOn(s: State, mark: Option<int>, e: Event)
    requires MarkInv(s, mark) && Bounded(s.held) && 0 <= e.now && (mark.Some? ==> mark.value <= e.now)
    requires e.Published? ==> 0 < |e.frame| <= MAX_BYTES
    ensures var due := mark.Some? && e.now >= mark.value + 200_000;
      var s' := Apply(s, e);
      && s'.flushed == s.flushed + HandsOn(s, due, e)
      && MarkInv(s', if |s'.flushed| > |s.flushed| || (mark.None? && e.Published?) then Some(e.now) else mark)
  {
    BytesAre(s.held);
    if s.held != [] {
      FlattenPositive(s.held);
    }
    ConcatEmpty(s.flushed);
    hide Flatten, Bytes, Bounded;
    if e.Published? {
      FramesSnoc(s.held, Held(e.frame, e.now));
      assert Frames([]) == [];
      FramesSnoc([], Held(e.frame, e.now));
    }
    hide Frames;
  }

  lemma {:induction false} MarkHolds(events: seq<Event>)
    requires Sound(events)
    ensures MarkInv(Run(events), Mark(events))
    ensures Mark(events).Some? ==> Mark(events).value <= Clock(events)
    decreases |events|
  {
    if events != [] {
      var init, last := events[..|events| - 1], events[|events| - 1];
      hide Apply, MarkInv, Bounded;
      MarkHolds(init);
      RunInvariant(init);
      ApplyHandsOn(Run(init), Mark(init), last);
    }
  }

  /** In every run a frame leaves as early as it must and no earlier: a poll hands on everything
      that waits if 200 ms have passed since frames last left (or the first one came), and nothing
      otherwise; a publication hands on what waits if there is no room behind it for the new frame,
      everything with the new frame if the 200 ms have passed, and nothing otherwise. */
  lemma {:induction false} LeavesWhenDue(events: seq<Event>, e: Event)
    requires Sound(events + [e])
    ensures Apply(Run(events), e).flushed == Run(events).flushed + HandsOn(Run(events), PeriodOver(events, e.now), e)
  {
    assert (events + [e])[..|events|] == events && (events + [e])[|events|] == e;
    assert Sound(events) by {
      assert forall i | 0 <= i < |events| :: (events + [e])[i] == events[i];
    }
    MarkHolds(events);
    RunInvariant(events);
    if events != [] {
      assert (events + [e])[|events| - 1] == events[|events| - 1];
    }
    hide Apply, HandsOn, MarkInv, Bounded, Run, Mark;
    ApplyHandsOn(Run(events), Mark(events), e);
  }

  // ---------------------------------------------------------------- the program

  /** The concatenation of `held` splits at frame `k` where the recorded ends say. */
  lemma {:induction false} FlattenSlice(held: seq<Held>, k: nat)
    requires k < |held|
    ensures |Flatten(held[..k])| <= |Flatten(held[..k + 1])| <= |Flatten(held)|
    ensures Flatten(held)[|Flatten(held[..k])|..|Flatten(held[..k + 1])|] == held[k].frame
    decreases |held|
  {
    assert held[..k + 1][..k] == held[..k];
    if k == |held| - 1 {
      assert held[..k + 1] == held;
    } else {
      var init := held[..|held| - 1];
      FlattenSlice(init, k);
      assert init[..k] == held[..k] && init[..k + 1] == held[..k + 1];
    }
  }

  class RtcmBatch {
    const data: array<byte>
    const frameEnds: array<int>
    var length: int
    var nextFlushUs: int
    var frameCount: int
    ghost var held: seq<Held>
    ghost var flushed: seq<seq<byte>>

    ghost predicate Valid()
      reads this, data, frameEnds
    {
      && data.Length == MAX_BYTES && frameEnds.Length == MAX_FRAMES
      && Bounded(held)
      && length == |Flatten(held)| && frameCount == |held|
      && data[..length] == Flatten(held)
      && (forall i | 0 <= i < frameCount :: frameEnds[i] == |Flatten(held[..i + 1])|)
    }

    ghost function Abs(): State
      reads this
    {
      State(held, nextFlushUs, flushed)
    }

    constructor ()
      ensures Valid() && fresh(data) && fresh(frameEnds) && Abs() == EMPTY
    {
      data := new byte[MAX_BYTES](_ => 0);
      frameEnds := new int[MAX_FRAMES](_ => 0);
      length := 0;
      nextFlushUs := 0;
      frameCount := 0;
      held := [];
      flushed := [];
    }

    /** reset_rtcm_state, the batch part: what waits is thrown away. */
    method Reset()
      requires Valid()
      modifies this
      ensures Valid() && Abs() == EMPTY.(flushed := old(flushed))
    {
      length := 0;
      frameCount := 0;
      nextFlushUs := 0;
      held := [];
    }

    /** flush_batch_frames: one call of the sender per frame. */
    method FlushFrames() returns (calls: seq<seq<byte>>)
      requires Valid()
      modifies this
      ensures Valid() && Abs() == Flush(old(Abs()), nextFlushUs)
      ensures nextFlushUs == old(nextFlushUs)
      ensures flushed == old(flushed) + calls
    {
      calls := [];
      var start := 0;
      for i := 0 to frameCount
        invariant unchanged(this) && unchanged(data) && unchanged(frameEnds)
        invariant start == |Flatten(held[..i])|
        invariant |calls| == i && forall k | 0 <= k < i :: calls[k] == held[k].frame
      {
        FlattenSlice(held, i);
        var end := frameEnds[i];
        calls := calls + [data[start..end]];
        assert data[start..end] == data[..length][start..end];
        start := end;
      }
      assert calls == Frames(held);
      flushed := flushed + calls;
      length := 0;
      frameCount := 0;
      held := [];
    }

    method PublishTo(frame: seq<byte>, now: int, phase: int) returns (calls: seq<seq<byte>>)
      requires Valid() && 0 < |frame| <= MAX_BYTES
      modifies this, data, frameEnds
      ensures Valid() && Abs() == Publish(old(Abs()), frame, now, phase)
      ensures flushed == old(flushed) + calls
    {
      hide Frames, Bounded, Flatten;
      calls := MakeRoom(|frame|, now);
      Append(frame, now);
      if nextFlushUs == 0 {
        nextFlushUs := now + phase + BATCH_US;
      }
      if now >= nextFlushUs {
        var more := FlushFrames();
        ConcatAssoc(old(flushed), calls, more);
        calls := calls + more;
        nextFlushUs := now + BATCH_US;
      }
    }

    /** The flush that goes before a frame for which there is no room. */
    method MakeRoom(size: nat, now: int) returns (calls: seq<seq<byte>>)
      requires Valid() && 0 < size <= MAX_BYTES
      modifies this
      ensures Valid() && |Flatten(held)| + size <= MAX_BYTES && |held| < MAX_FRAMES
      ensures Abs() ==
        if (|Flatten(old(held))| > 0 && |Flatten(old(held))| + size > MAX_BYTES) || |old(held)| >= MAX_FRAMES
        then Flush(old(Abs()), now + BATCH_US) else old(Abs())
      ensures flushed == old(flushed) + calls
    {
      hide Frames;
      calls := [];
      var bytesFull := length > 0 && length + size > data.Length;
      var framesFull := frameCount >= frameEnds.Length;
      if bytesFull || framesFull {
        calls := FlushFrames();
        nextFlushUs := now + BATCH_US;
      }
    }

    /** The memcpy and the frame end of publish_to_batch. */
    method Append(frame: seq<byte>, now: int)
      requires Valid() && 0 < |frame| && |Flatten(held)| + |frame| <= MAX_BYTES
      requires |held| < MAX_FRAMES
      modifies this, data, frameEnds
      ensures Valid()
      ensures Abs() == old(Abs()).(held := old(held) + [Held(frame, now)])
    {
      FlattenSnoc(held, Held(frame, now));
      forall k | 0 <= k < |frame| {
        data[length + k] := frame[k];
      }
      assert data[..length + |frame|] == old(data[..length]) + frame;
      length := length + |frame|;
      frameEnds[frameCount] := length;
      frameCount := frameCount + 1;
      held := held + [Held(frame, now)];
      forall i | 0 <= i < frameCount
        ensures frameEnds[i] == |Flatten(held[..i + 1])|
      {
        if i < frameCount - 1 {
          assert held[..i + 1] == old(held)[..i + 1];
        } else {
          assert held[..i + 1] == held;
        }
      }
    }

    method FlushIfDue(now: int) returns (calls: seq<seq<byte>>)
      requires Valid()
      modifies this
      ensures Valid() && Abs() == FlushDue(old(Abs()), now)
      ensures flushed == old(flushed) + calls
    {
      calls := [];
      if length > 0 && nextFlushUs != 0 && now >= nextFlushUs {
        calls := FlushFrames();
        nextFlushUs := now + BATCH_US;
      }
    }
  }
}
