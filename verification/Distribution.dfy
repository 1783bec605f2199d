/** The base station and its four senders together. */
module Distribution {
  import opened Bits
  import opened Common
  import Deframer
  import Batch
  import Mailbox
  import StreamGate
  import Station
  import GateReasons
  import StationTrace
  import SendLoop
  import CasterQueue
  import LocalCaster
  import NtripPush

  // This goes from the receiver's bytes to the sockets. A call of the station is one step. While it
  // goes on, the senders' tasks take any number of turns, are configured anew, and are pushed what
  // the call has to offer; whatever push answers, so that nothing said here depends on how calls
  // and tasks interleave.

  type Frame = seq<byte>

  datatype System = System(base: Station.Station, local: LocalCaster.Caster, up: seq<NtripPush.Client>)

  datatype Event = Event(call: Station.Event, local: seq<LocalCaster.Event>, up: seq<seq<NtripPush.Event>>)

  /** What the deframer accepts, and a sender builds. */
  predicate IsFrame(f: Frame) {
    Deframer.IsWhole(f) && Deframer.CrcMatches(f)
  }

  ghost predicate AllFrames(fs: seq<Frame>) {
    forall f | f in fs :: IsFrame(f)
  }

  ghost predicate AllIn(fs: seq<Frame>, pool: seq<Frame>) {
    forall f | f in fs :: f in pool
  }

  ghost predicate Inv(sys: System) {
    && Station.Inv(sys.base) && AllFrames(sys.base.parser.frames)
    && LocalCaster.Inv(sys.local)
    && |sys.up| == Mailbox.DESTINATIONS
    && forall d | 0 <= d < Mailbox.DESTINATIONS :: NtripPush.Inv(sys.up[d])
  }

  /** The calls that end in apply_stream_state. */
  predicate Applies(s: Station.Station, e: Station.Event)
    requires Station.Inv(s) && Station.Legal(e)
  {
    var g := s.gate;
    match e
    case Byte(_, _) => !g.hasRtcm && Station.Next(s, e).gate.hasRtcm
    case Poll(_, _) => false
    case Control(step, _) =>
      match step
      case RequestStartRaw => g.mode.Transmit? && !g.raw
      case RateWindow(bps) => bps >= StreamGate.MIN_OUTBOUND_BPS && !g.rateReady
      case SetNetwork(available) => g.networkAvailable != available
      case SetSuspended(_) => true
      case SetEnabled(_) => true
      case ApplyPersisted(_) => true
      case ReloadServices => true
      case _ => StreamGate.Transition(g, step)
  }

  /** The frames a call pushes to the local caster. */
  function ForLocal(s: Station.Station, e: Station.Event): seq<Frame>
    requires Station.Inv(s) && Station.Legal(e)
  {
    var before, after := s.batch.flushed, Station.Next(s, e).batch.flushed;
    if |before| <= |after| then after[|before|..] else []
  }

  /** The frames a call offers to an upstream sender. */
  function ForUpstream(s: Station.Station, e: Station.Event, d: nat): seq<Frame>
    requires Station.Inv(s) && Station.Legal(e) && d < Mailbox.DESTINATIONS
  {
    if e.Poll? && Station.Receiving(s.gate) && e.now >= s.mail.deadlines[d]
    then Mailbox.PendingFrames(s.mail.slots, d) else []
  }

  ghost predicate LocalLegal(events: seq<LocalCaster.Event>, offered: seq<Frame>) {
    forall i | 0 <= i < |events| ::
      LocalCaster.Legal(events[i]) && !events[i].Suspend? && (events[i].Pushed? ==> events[i].data in offered)
  }

  ghost predicate UpLegal(events: seq<NtripPush.Event>, offered: seq<Frame>) {
    forall i | 0 <= i < |events| ::
      !events[i].Suspend? && (events[i].Pushed? ==> events[i].data in offered)
  }

  ghost predicate Legal(sys: System, ev: Event)
    requires Inv(sys)
  {
    && Station.Legal(ev.call)
    && LocalLegal(ev.local, ForLocal(sys.base, ev.call))
    && |ev.up| == Mailbox.DESTINATIONS
    && forall d | 0 <= d < Mailbox.DESTINATIONS :: UpLegal(ev.up[d], ForUpstream(sys.base, ev.call, d))
  }

  /** The flags a sender finds after the call. */
  function LocalFlagged(c: LocalCaster.Caster, applies: bool, suspended: bool): LocalCaster.Caster {
    if applies then LocalCaster.SetSuspended(c, suspended) else c
  }

  function UpFlagged(c: NtripPush.Client, applies: bool, suspended: bool): NtripPush.Client {
    if applies then NtripPush.SetSuspended(c, suspended) else c
  }

  function LocalNext(sys: System, ev: Event): LocalCaster.Caster
    requires Inv(sys) && Legal(sys, ev)
  {
    var applies := Applies(sys.base, ev.call);
    LocalCaster.CallsKeepInv(sys.local, Station.Next(sys.base, ev.call).gate.local, []);
    LocalCaster.Run(LocalFlagged(sys.local, applies, Station.Next(sys.base, ev.call).gate.local), ev.local)
  }

  function UpNext(sys: System, ev: Event, d: nat): NtripPush.Client
    requires Inv(sys) && Legal(sys, ev) && d < Mailbox.DESTINATIONS
  {
    Station.StepKeepsInv(sys.base, ev.call);
    var applies := Applies(sys.base, ev.call);
    NtripPush.Run(UpFlagged(sys.up[d], applies, Station.Next(sys.base, ev.call).gate.upstream[d]), ev.up[d])
  }

  function Next(sys: System, ev: Event): (sys': System)
    requires Inv(sys) && Legal(sys, ev)
    ensures Inv(sys')
  {
    NextKeepsInv(sys, ev);
    Composed(sys, ev)
  }

  function Composed(sys: System, ev: Event): System
    requires Inv(sys) && Legal(sys, ev)
  {
    System(Station.Next(sys.base, ev.call), LocalNext(sys, ev),
           [UpNext(sys, ev, 0), UpNext(sys, ev, 1), UpNext(sys, ev, 2)])
  }

  ghost predicate LegalRun(sys: System, events: seq<Event>)
    requires Inv(sys)
    decreases |events|
  {
    events == [] || (Legal(sys, events[0]) && LegalRun(Next(sys, events[0]), events[1..]))
  }

  function Run(sys: System, events: seq<Event>): (sys': System)
    requires Inv(sys) && LegalRun(sys, events)
    ensures Inv(sys')
    decreases |events|
  {
    if events == [] then sys else Run(Next(sys, events[0]), events[1..])
  }

  // ------------------------------------------------------------------- every step keeps Inv

  /** What the deframer publishes next is a frame. */
  lemma FedFramesAreFrames(p: Deframer.Parser, b: byte)
    requires Deframer.IsPartial(p.buffer) && AllFrames(p.frames)
    ensures AllFrames(Deframer.FeedOne(p, b).frames)
  {
    hide Deframer.CrcMatches;
    assert AllFrames(p.frames);
    var grown := p.buffer + [b];
    if p.buffer != [] && |grown| >= 3 && |grown| >= Deframer.FrameLength(grown[1], grown[2]) {
      assert Deframer.IsWhole(grown);
    }
  }

  lemma StationFrames(s: Station.Station, e: Station.Event)
    requires Station.Inv(s) && Station.Legal(e) && AllFrames(s.parser.frames)
    ensures AllFrames(Station.Next(s, e).parser.frames)
    ensures Station.Inv(Station.Next(s, e))
  {
    Station.StepKeepsInv(s, e);
    if e.Byte? && Station.Receiving(s.gate) {
      FedFramesAreFrames(s.parser, e.value);
    }
    hide AllFrames, Deframer.FeedOne, Station.PublishFrame, Batch.FlushDue, Mailbox.Tick, StreamGate.Next,
      Mailbox.Inv, Station.HistoryIsPublished, Deframer.IsPartial, Batch.Bounded, StreamGate.Inv;
  }

  lemma CallIsLegal(sys: System, ev: Event)
    requires Inv(sys) && Legal(sys, ev)
    ensures Station.Legal(ev.call) && |ev.up| == Mailbox.DESTINATIONS
    ensures |Station.Next(sys.base, ev.call).gate.upstream| == Mailbox.DESTINATIONS
  {
    Station.StepKeepsInv(sys.base, ev.call);
    hide Station.Next, LocalCaster.Inv, NtripPush.Inv, AllFrames, LocalLegal, UpLegal, Station.NothingWaits,
      Mailbox.Inv, Station.HistoryIsPublished, Batch.Bounded;
  }

  lemma NextKeepsInv(sys: System, ev: Event)
    requires Inv(sys) && Legal(sys, ev)
    ensures Inv(Composed(sys, ev))
  {
    hide Station.Inv, Station.Next, LocalCaster.Inv, NtripPush.Inv, AllFrames, Legal;
    CallIsLegal(sys, ev);
    StationFrames(sys.base, ev.call);
    LocalNextInv(sys, ev);
    UpNextInv(sys, ev, 0);
    UpNextInv(sys, ev, 1);
    UpNextInv(sys, ev, 2);
  }

  lemma LocalNextInv(sys: System, ev: Event)
    requires Inv(sys) && Legal(sys, ev)
    ensures LocalCaster.Inv(LocalNext(sys, ev))
  {
  }

  lemma UpNextInv(sys: System, ev: Event, d: nat)
    requires Inv(sys) && Legal(sys, ev) && d < Mailbox.DESTINATIONS
    ensures NtripPush.Inv(UpNext(sys, ev, d))
  {
    hide NtripPush.Inv, Station.Inv, Station.Next, LocalCaster.Inv, AllFrames, Legal, Applies;
    CallIsLegal(sys, ev);
    var c := sys.up[d];
    NtripPush.CallsKeepInv(c, true, false, []);
    NtripPush.CallsKeepInv(c, false, false, []);
    var flag := Station.Next(sys.base, ev.call).gate.upstream[d];
    NtripPush.RunKeepsInv(UpFlagged(c, Applies(sys.base, ev.call), flag), ev.up[d]);
  }

  // ------------------------------------------------------------------- senders and a pool

  /** An upstream sender has sent nothing from the n-th packet on that is not in the pool, and will
      not before it has thrown its queue away or the queue, too, is of the pool. */
  ghost predicate UpFresh(c: NtripPush.Client, pool: seq<Frame>, n: nat) {
    && n <= |c.wire.dequeued| && AllIn(c.wire.dequeued[n..], pool)
    && (!c.reconnect ==> AllIn(c.queue, pool))
  }

  ghost predicate LocalFresh(c: LocalCaster.Caster, pool: seq<Frame>, n: nat) {
    && n <= |c.broadcasts| && AllIn(c.broadcasts[n..], pool)
    && (!c.resetClients ==> AllIn(c.queue, pool))
  }

  lemma TakesFresh(a: NtripPush.Client, b: NtripPush.Client, pool: seq<Frame>, n: nat)
    requires UpFresh(a, pool, n) && NtripPush.Takes(a, b) && !a.reconnect && !b.reconnect
    ensures UpFresh(b, pool, n)
  {
    if a.queue != [] && b.queue == a.queue[1..] {
      assert a.queue[0] in a.queue;
      if b.wire.dequeued == a.wire.dequeued + [a.queue[0]] {
        assert b.wire.dequeued[n..] == a.wire.dequeued[n..] + [a.queue[0]];
      }
    }
  }

  lemma UpTurnFresh(c: NtripPush.Client, e: NtripPush.Surroundings, pool: seq<Frame>, n: nat)
    requires UpFresh(c, pool, n)
    ensures UpFresh(NtripPush.Turn(c, e), pool, n)
  {
    hide NtripPush.ConnectAndServe, NtripPush.Slept, NtripPush.NewStreak, NtripPush.Takes;
    var c1 := NtripPush.Reconfigured(c);
    if !c.suspended && c.enabled {
      assert UpFresh(c1, pool, n) && !c1.reconnect;
      var c2 := c1.(resumedUs := 0);
      NtripPush.ServeTakes(c1, e);
      NtripPush.ServeTakes(c2, e);
      TakesFresh(c1, NtripPush.ConnectAndServe(c1, e), pool, n);
      TakesFresh(c2, NtripPush.ConnectAndServe(c2, e), pool, n);
    }
  }

  lemma UpPushFresh(c: NtripPush.Client, data: Frame, pool: seq<Frame>, n: nat)
    requires UpFresh(c, pool, n) && data in pool && |data| <= NtripPush.MAX_PACKET
    ensures UpFresh(NtripPush.Push(c, data), pool, n)
  {
  }

  ghost predicate Short(fs: seq<Frame>) {
    forall f | f in fs :: |f| <= NtripPush.MAX_PACKET
  }

  lemma {:induction false} UpRunFresh(c: NtripPush.Client, events: seq<NtripPush.Event>, offered: seq<Frame>,
                                      pool: seq<Frame>, n: nat)
    requires UpFresh(c, pool, n) && UpLegal(events, offered) && AllIn(offered, pool) && Short(offered)
    ensures UpFresh(NtripPush.Run(c, events), pool, n)
    decreases |events|
  {
    if events != [] {
      match events[0] {
        case Worker(e) => UpTurnFresh(c, e, pool, n);
        case Pushed(data) => UpPushFresh(c, data, pool, n);
        case _ =>
      }
      hide NtripPush.Turn, NtripPush.Push;
      UpRunFresh(NtripPush.Apply(c, events[0]), events[1..], offered, pool, n);
    }
  }

  lemma LocalServeFresh(c: LocalCaster.Caster, e: LocalCaster.Surroundings, pool: seq<Frame>, n: nat)
    requires LocalFresh(c, pool, n) && !c.resetClients && |c.slots| == |e.scripts|
    ensures LocalFresh(LocalCaster.AcceptAndServe(c, e), pool, n)
  {
    var c1 := LocalCaster.Accept(c, e.incoming);
    assert c1.queue == c.queue && c1.broadcasts == c.broadcasts && c1.resetClients == c.resetClients;
    hide LocalCaster.Accept, LocalCaster.OfferFirst;
    if c1.queue != [] {
      var p, rest := c1.queue[0], c1.(queue := c1.queue[1..]);
      CasterQueue.OffersKeepRest(rest, p, e.scripts, |e.scripts|);
      assert p in c1.queue;
      assert (c1.broadcasts + [p])[n..] == c1.broadcasts[n..] + [p];
    }
  }

  lemma LocalTurnFresh(c: LocalCaster.Caster, e: LocalCaster.Surroundings, pool: seq<Frame>, n: nat)
    requires LocalFresh(c, pool, n) && |c.slots| == |e.scripts|
    ensures LocalFresh(LocalCaster.Turn(c, e), pool, n)
  {
    CasterQueue.ClosingKeepsRest(c, |c.slots|);
    var c1 := LocalCaster.Reset(c);
    assert LocalFresh(c1, pool, n) && !c1.resetClients;
    hide LocalCaster.AcceptAndServe, LocalCaster.CloseFirst;
    LocalServeFresh(c1.(listening := true), e, pool, n);
    CasterQueue.ClosingKeepsRest(c1, |c1.slots|);
  }

  lemma LocalPushFresh(c: LocalCaster.Caster, data: Frame, pool: seq<Frame>, n: nat)
    requires LocalFresh(c, pool, n) && data in pool && |data| <= LocalCaster.MAX_PACKET
    ensures LocalFresh(LocalCaster.Push(c, data), pool, n)
  {
  }

  lemma LocalStepFresh(c: LocalCaster.Caster, event: LocalCaster.Event, events: seq<LocalCaster.Event>,
                       offered: seq<Frame>, pool: seq<Frame>, n: nat)
    requires LocalCaster.Inv(c) && LocalFresh(c, pool, n)
    requires LocalLegal([event] + events, offered) && AllIn(offered, pool) && Short(offered)
    ensures LocalLegal(events, offered)
    ensures LocalCaster.Legal(event) && LocalCaster.Inv(LocalCaster.Apply(c, event))
    ensures LocalFresh(LocalCaster.Apply(c, event), pool, n)
  {
    hide LocalFresh, LocalCaster.Turn, LocalCaster.Push, LocalCaster.Inv;
    assert ([event] + events)[0] == event;
    assert LocalLegal(events, offered) by {
      assert forall i | 0 <= i < |events| :: events[i] == ([event] + events)[i + 1];
    }
    LocalCaster.SlotsFit(c);
    LocalCaster.ApplyKeepsInv(c, event);
    match event {
      case Worker(e) => LocalTurnFresh(c, e, pool, n);
      case Pushed(data) => LocalPushFresh(c, data, pool, n);
      case Suspend(_) => assert false;
    }
  }

  lemma {:induction false} LocalRunFresh(c: LocalCaster.Caster, events: seq<LocalCaster.Event>, offered: seq<Frame>,
                                         pool: seq<Frame>, n: nat)
    requires LocalCaster.Inv(c) && LocalFresh(c, pool, n)
    requires LocalLegal(events, offered) && AllIn(offered, pool) && Short(offered)
    ensures LocalFresh(LocalCaster.Run(c, events), pool, n)
    decreases |events|
  {
    hide LocalFresh, LocalLegal, LocalCaster.Apply, LocalCaster.Inv, AllIn, Short;
    if events != [] {
      assert [events[0]] + events[1..] == events;
      LocalStepFresh(c, events[0], events[1..], offered, pool, n);
      LocalRunFresh(LocalCaster.Apply(c, events[0]), events[1..], offered, pool, n);
    }
  }

  // --------------------------------------------------------------- what the station hands out

  /** Nothing that waits in the station is older than frame number `since`. */
  ghost predicate BaseFresh(s: Station.Station, since: nat, taken: seq<nat>) {
    && since <= |s.parser.frames|
    && AllIn(Batch.Frames(s.batch.held), s.parser.frames[since..])
    && Station.NothingOlder(s.mail, since, taken)
  }

  lemma PublishParts(b: Batch.State, frame: Frame, now: int)
    ensures var b', all := Batch.Publish(b, frame, now, 0), Batch.Frames(b.held) + [frame];
      && |b.flushed| <= |b'.flushed|
      && AllIn(b'.flushed[|b.flushed|..], all) && AllIn(Batch.Frames(b'.held), all)
  {
    var b' := Batch.Publish(b, frame, now, 0);
    Batch.PublishConserves(b, frame, now, 0);
    FlushedGrows(b, frame, now);
    hide Batch.Publish, Batch.Frames;
    PartsOf(b.flushed, b'.flushed, Batch.Frames(b'.held), Batch.Frames(b.held), frame);
  }

  lemma FlushedGrows(b: Batch.State, frame: Frame, now: int)
    ensures b.flushed <= Batch.Publish(b, frame, now, 0).flushed
  {
    hide Batch.Frames, Batch.Flatten;
  }

  lemma PartsOf(before: seq<Frame>, after: seq<Frame>, held': seq<Frame>, held: seq<Frame>, f: Frame)
    requires before <= after && after + held' == before + held + [f]
    ensures AllIn(after[|before|..], held + [f]) && AllIn(held', held + [f])
  {
    assert after == before + after[|before|..];
    var rest := after[|before|..] + held';
    assert (before + held + [f])[|before|..] == held + [f];
    assert (after + held')[|before|..] == rest;
  }

  lemma PollParts(b: Batch.State, now: int)
    ensures var b' := Batch.FlushDue(b, now);
      && |b.flushed| <= |b'.flushed|
      && AllIn(b'.flushed[|b.flushed|..], Batch.Frames(b.held))
      && AllIn(Batch.Frames(b'.held), Batch.Frames(b.held))
  {
    hide Batch.Flatten;
  }

  /** `b` continues `a`. */
  predicate Continues(a: seq<Frame>, b: seq<Frame>) {
    |a| <= |b| && b[..|a|] == a
  }

  lemma PoolGrows(fs: seq<Frame>, a: seq<Frame>, b: seq<Frame>, since: nat)
    requires Continues(a, b) && since <= |a| && AllIn(fs, a[since..])
    ensures AllIn(fs, b[since..])
  {
    assert b[since..] == a[since..] + b[|a|..];
  }

  lemma ByteHandsRecent(s: Station.Station, b: byte, now: int, since: nat)
    requires Station.Inv(s) && Station.Receiving(s.gate) && since <= |s.parser.frames|
    requires AllIn(Batch.Frames(s.batch.held), s.parser.frames[since..])
    ensures var s' := Station.ReceiveByte(s, b, now);
      && Continues(s.parser.frames, s'.parser.frames)
      && AllIn(Batch.Frames(s'.batch.held), s'.parser.frames[since..])
      && |s.batch.flushed| <= |s'.batch.flushed|
      && AllIn(s'.batch.flushed[|s.batch.flushed|..], s'.parser.frames[since..])
  {
    hide Deframer.FeedOne, Batch.Publish, Batch.Frames, Mailbox.Publish, StreamGate.GotFrame, Mailbox.Inv,
      StreamGate.Inv, Station.HistoryIsPublished, Batch.Bounded;
    Station.FeedOneAdds(s.parser, b);
    var p := Deframer.FeedOne(s.parser, b);
    if |p.frames| > |s.parser.frames| {
      var f := p.frames[|p.frames| - 1];
      PublishParts(s.batch, f, now);
      assert p.frames[since..] == s.parser.frames[since..] + [f];
    }
  }

  lemma StepHandsRecent(s: Station.Station, e: Station.Event, since: nat, taken: seq<nat>)
    requires Station.Inv(s) && Station.Legal(e) && BaseFresh(s, since, taken)
    ensures var s' := Station.Next(s, e);
      && BaseFresh(s', since, taken) && Continues(s.parser.frames, s'.parser.frames)
      && AllIn(ForLocal(s, e), s'.parser.frames[since..])
  {
    SameHistory(s);
    Station.StepNothingOlder(s, e, since, taken);
    hide Station.ReceiveByte, Batch.FlushDue, Batch.Frames, Station.TickAll, Mailbox.Reset, StreamGate.Next,
      Station.NothingOlder, Station.Inv;
    match e {
      case Byte(b, now) =>
        if Station.Receiving(s.gate) {
          ByteHandsRecent(s, b, now, since);
        }
      case Poll(now, answers) => PollParts(s.batch, now);
      case Control(step, now) => NothingHeld();
    }
  }

  lemma NothingHeld()
    ensures Batch.Frames([]) == []
  {
  }

  lemma SameHistory(s: Station.Station)
    requires Station.Inv(s)
    ensures |s.mail.history| == |s.parser.frames|
  {
  }

  lemma {:induction false} PendingIn(slots: seq<Mailbox.Slot>, d: nat, f: Frame) returns (i: nat)
    requires f in Mailbox.PendingFrames(slots, d)
    ensures i < |slots| && slots[i].used && slots[i].data == f
    decreases |slots|
  {
    var n := |slots| - 1;
    if Mailbox.Pending(slots[n], d) && slots[n].data == f {
      i := n;
    } else {
      i := PendingIn(slots[..n], d, f);
    }
  }

  lemma SlotHoldsRecent(s: Station.Station, i: nat, since: nat, taken: seq<nat>)
    requires Station.Inv(s) && BaseFresh(s, since, taken) && i < |s.mail.slots| && s.mail.slots[i].used
    ensures s.mail.slots[i].data in s.parser.frames[since..]
  {
    var v := Mailbox.Newest(s.mail.history, s.mail.slots[i].number);
    assert Mailbox.HoldsNewest(s.mail.slots[i], s.mail.history);
    assert v >= since;
    hide Mailbox.Newest, Mailbox.Inv, StreamGate.Inv;
    assert s.mail.history[v].frame == s.parser.frames[v];
    assert s.parser.frames[since..][v - since] == s.parser.frames[v];
  }

  lemma OffersAreRecent(s: Station.Station, e: Station.Event, d: nat, since: nat, taken: seq<nat>)
    requires Station.Inv(s) && Station.Legal(e) && BaseFresh(s, since, taken) && d < Mailbox.DESTINATIONS
    ensures AllIn(ForUpstream(s, e, d), s.parser.frames[since..])
  {
    hide Mailbox.PendingFrames, Station.Inv;
    forall f | f in ForUpstream(s, e, d) ensures f in s.parser.frames[since..] {
      var i := PendingIn(s.mail.slots, d, f);
      SlotHoldsRecent(s, i, since, taken);
    }
  }

  // ------------------------------------------------------------------------ the whole system

  /** Since the station had completed `since` frames and each sender had sent as many as `local` and
      `up` say, nothing has gone out that is not one of the frames completed after them. */
  ghost predicate Fresh(sys: System, since: nat, taken: seq<nat>, local: nat, up: seq<nat>) {
    && BaseFresh(sys.base, since, taken)
    && LocalFresh(sys.local, sys.base.parser.frames[since..], local)
    && |up| == |sys.up|
    && forall d | 0 <= d < |up| :: UpFresh(sys.up[d], sys.base.parser.frames[since..], up[d])
  }

  lemma FramesAreShort(fs: seq<Frame>, frames: seq<Frame>, since: nat)
    requires AllFrames(frames) && since <= |frames| && AllIn(fs, frames[since..])
    ensures Short(fs)
  {
    forall f | f in fs ensures |f| <= 1029 {
      assert f in frames;
    }
  }

  lemma LocalNextFresh(sys: System, ev: Event, since: nat, taken: seq<nat>, local: nat)
    requires Inv(sys) && Legal(sys, ev)
    requires BaseFresh(sys.base, since, taken) && LocalFresh(sys.local, sys.base.parser.frames[since..], local)
    ensures var base := Station.Next(sys.base, ev.call);
      since <= |base.parser.frames| && LocalFresh(LocalNext(sys, ev), base.parser.frames[since..], local)
  {
    hide Station.Inv, Station.Next, NtripPush.Inv, AllFrames, Station.NothingOlder, LocalCaster.Inv;
    CallIsLegal(sys, ev);
    StepHandsRecent(sys.base, ev.call, since, taken);
    StationFrames(sys.base, ev.call);
    var base := Station.Next(sys.base, ev.call);
    var a, b := sys.base.parser.frames, base.parser.frames;
    PoolGrows(sys.local.broadcasts[local..], a, b, since);
    if !sys.local.resetClients {
      PoolGrows(sys.local.queue, a, b, since);
    }
    var offered := ForLocal(sys.base, ev.call);
    FramesAreShort(offered, b, since);
    LocalCaster.CallsKeepInv(sys.local, base.gate.local, []);
    var c := LocalFlagged(sys.local, Applies(sys.base, ev.call), base.gate.local);
    hide Applies, ForLocal;
    assert LocalFresh(c, b[since..], local);
    LocalRunFresh(c, ev.local, offered, b[since..], local);
  }

  lemma UpNextFresh(sys: System, ev: Event, d: nat, since: nat, taken: seq<nat>, up: nat)
    requires Inv(sys) && Legal(sys, ev) && d < Mailbox.DESTINATIONS
    requires BaseFresh(sys.base, since, taken) && UpFresh(sys.up[d], sys.base.parser.frames[since..], up)
    ensures var base := Station.Next(sys.base, ev.call);
      since <= |base.parser.frames| && UpFresh(UpNext(sys, ev, d), base.parser.frames[since..], up)
  {
    hide Station.Inv, Station.Next, NtripPush.Inv, AllFrames, Station.NothingOlder, LocalCaster.Inv;
    CallIsLegal(sys, ev);
    StepHandsRecent(sys.base, ev.call, since, taken);
    OffersAreRecent(sys.base, ev.call, d, since, taken);
    var base := Station.Next(sys.base, ev.call);
    var a, b := sys.base.parser.frames, base.parser.frames;
    PoolGrows(sys.up[d].wire.dequeued[up..], a, b, since);
    if !sys.up[d].reconnect {
      PoolGrows(sys.up[d].queue, a, b, since);
    }
    var offered := ForUpstream(sys.base, ev.call, d);
    FramesAreShort(offered, a, since);
    PoolGrows(offered, a, b, since);
    var c := UpFlagged(sys.up[d], Applies(sys.base, ev.call), base.gate.upstream[d]);
    hide Applies, ForUpstream;
    assert UpFresh(c, b[since..], up);
    UpRunFresh(c, ev.up[d], offered, b[since..], up);
  }

  lemma NextKeepsFresh(sys: System, ev: Event, since: nat, taken: seq<nat>, local: nat, up: seq<nat>)
    requires Inv(sys) && Legal(sys, ev) && Fresh(sys, since, taken, local, up)
    ensures Fresh(Next(sys, ev), since, taken, local, up)
  {
    hide Station.Next, Station.Inv, LocalCaster.Inv, NtripPush.Inv, AllFrames, Legal, BaseFresh, LocalFresh, UpFresh,
      LocalNext, UpNext;
    CallIsLegal(sys, ev);
    StepHandsRecent(sys.base, ev.call, since, taken);
    LocalNextFresh(sys, ev, since, taken, local);
    UpNextFresh(sys, ev, 0, since, taken, up[0]);
    UpNextFresh(sys, ev, 1, since, taken, up[1]);
    UpNextFresh(sys, ev, 2, since, taken, up[2]);
  }

  lemma {:induction false} RunKeepsFresh(sys: System, events: seq<Event>, since: nat, taken: seq<nat>,
                                         local: nat, up: seq<nat>)
    requires Inv(sys) && LegalRun(sys, events) && Fresh(sys, since, taken, local, up)
    ensures Fresh(Run(sys, events), since, taken, local, up)
    decreases |events|
  {
    hide Inv, Legal, Fresh, Next;
    if events != [] {
      NextKeepsFresh(sys, events[0], since, taken, local, up);
      RunKeepsFresh(Next(sys, events[0]), events[1..], since, taken, local, up);
    }
  }

  // ------------------------------------------------------- only frames, from power-on

  /** The start of the run loop: transmit from a stored position, or survey. */
  function Booted(streamsEnabled: bool, havePosition: bool, now: int): (sys: System)
    ensures Inv(sys)
  {
    BootedInv(streamsEnabled, havePosition, now);
    PowerOn(streamsEnabled, havePosition, now)
  }

  function PowerOn(streamsEnabled: bool, havePosition: bool, now: int): System {
    var base := StationTrace.BootedStation(streamsEnabled, havePosition, now);
    var c := NtripPush.SetSuspended(NtripPush.START, true);
    System(base, LocalCaster.SetSuspended(LocalCaster.START, true), [c, c, c])
  }

  lemma BootedInv(streamsEnabled: bool, havePosition: bool, now: int)
    ensures Inv(PowerOn(streamsEnabled, havePosition, now))
    ensures Fresh(PowerOn(streamsEnabled, havePosition, now), 0, [0, 0, 0], 0, [0, 0, 0])
  {
    BootedBase(streamsEnabled, havePosition, now);
    LocalCaster.StartInv();
    LocalCaster.CallsKeepInv(LocalCaster.START, true, []);
    NtripPush.StartInv();
    NtripPush.CallsKeepInv(NtripPush.START, true, false, []);
    hide Station.Inv, Station.Discard, LocalCaster.Inv, NtripPush.Inv, StreamGate.Next, BaseFresh, AllFrames;
  }

  lemma BootedBase(streamsEnabled: bool, havePosition: bool, now: int)
    ensures var s := PowerOn(streamsEnabled, havePosition, now).base;
      Station.Inv(s) && AllFrames(s.parser.frames) && BaseFresh(s, 0, [0, 0, 0])
  {
    Station.PowerUpInv();
    Station.BootKeepsInv(Station.POWER_UP_STATION, streamsEnabled, havePosition, now);
    NothingHeld();
    hide Station.Inv, StreamGate.Next;
  }

  /** What stands on the sockets of an upstream sender: on each, open or closed, the request and
      then whole frames; behind them, before a close, at most a strict beginning of a frame. */
  ghost predicate CarriesFrames(c: NtripPush.Client) {
    && NtripPush.SocketInv(NtripPush.SocketAfter(c.log), c.wire, c.socketOpen)
    && (c.socketOpen ==>
          c.wire.bytes == c.wire.request + NtripPush.Flatten(c.wire.packets) && AllFrames(c.wire.packets))
    && forall k | 0 <= k < |c.wire.finished| :: EndsInFrames(c.wire.finished[k], c.wire.dequeued)
  }

  ghost predicate EndsInFrames(k: NtripPush.Connection, dequeued: seq<Frame>) {
    NtripPush.CleanEnd(k, dequeued) && AllFrames(k.packets) && (k.cut == [] || IsFrame(k.cut))
  }

  /** And what an open client of the local caster, or one that is gone, has received: the greeting,
      whole frames, and, before a close, at most a strict beginning of a frame. */
  ghost predicate ServesFrames(c: LocalCaster.Caster) {
    && AllFrames(c.broadcasts)
    && (forall i | 0 <= i < |c.slots| :: LocalCaster.UpToDate(c.slots[i], c.broadcasts))
    && (forall i | 0 <= i < |c.gone| :: LocalCaster.LeftCleanly(c.gone[i], c.broadcasts))
  }

  lemma InOrderAreFrames(packets: seq<Frame>, from: nat, dequeued: seq<Frame>)
    requires NtripPush.InOrder(packets, from, dequeued) && AllFrames(dequeued)
    ensures AllFrames(packets)
  {
    hide IsFrame;
    forall f | f in packets ensures f in dequeued {
      assert f in dequeued[from..from + |packets|];
    }
  }

  lemma CleanEndInFrames(k: NtripPush.Connection, dequeued: seq<Frame>)
    requires NtripPush.CleanEnd(k, dequeued) && AllFrames(dequeued)
    ensures EndsInFrames(k, dequeued)
  {
    hide IsFrame, NtripPush.InOrder, NtripPush.Flatten;
    if NtripPush.InOrder(k.packets, k.from, dequeued) {
      InOrderAreFrames(k.packets, k.from, dequeued);
    }
    if NtripPush.InOrder(k.packets + [k.cut], k.from, dequeued) {
      InOrderAreFrames(k.packets + [k.cut], k.from, dequeued);
      assert k.cut in k.packets + [k.cut];
    }
  }

  lemma UpCarriesFrames(c: NtripPush.Client, frames: seq<Frame>)
    requires NtripPush.Inv(c) && AllIn(c.wire.dequeued, frames) && AllFrames(frames)
    ensures CarriesFrames(c)
  {
    hide IsFrame, NtripPush.CleanEnd, NtripPush.Flatten, NtripPush.SocketAfter, NtripPush.PaceInv, NtripPush.QueueInv,
      EndsInFrames;
    assert AllFrames(c.wire.dequeued);
    if c.socketOpen {
      InOrderAreFrames(c.wire.packets, c.wire.from, c.wire.dequeued);
    }
    forall k | 0 <= k < |c.wire.finished| ensures EndsInFrames(c.wire.finished[k], c.wire.dequeued) {
      CleanEndInFrames(c.wire.finished[k], c.wire.dequeued);
    }
  }

  lemma LocalServesFrames(c: LocalCaster.Caster, frames: seq<Frame>)
    requires LocalCaster.Inv(c) && AllIn(c.broadcasts, frames) && AllFrames(frames)
    ensures ServesFrames(c)
  {
    hide IsFrame, LocalCaster.UpToDate, LocalCaster.LeftCleanly;
  }

  /** In every run from power-on, whatever bytes arrive, whatever is asked of the station, and
      whatever the networks do: nothing but CRC-valid frames that the receiver sent goes out, each
      whole except for the one a connection dies in. */
  lemma OnlyFramesGoOut(streamsEnabled: bool, havePosition: bool, now: int, events: seq<Event>, d: nat)
    requires LegalRun(Booted(streamsEnabled, havePosition, now), events) && d < Mailbox.DESTINATIONS
    ensures var sys := Run(Booted(streamsEnabled, havePosition, now), events);
      && CarriesFrames(sys.up[d]) && AllIn(sys.up[d].wire.dequeued, sys.base.parser.frames)
      && ServesFrames(sys.local) && AllIn(sys.local.broadcasts, sys.base.parser.frames)
  {
    BootedInv(streamsEnabled, havePosition, now);
    var boot := Booted(streamsEnabled, havePosition, now);
    hide PowerOn, LegalRun, Run, IsFrame, Station.Inv, LocalCaster.Inv, NtripPush.Inv, BaseFresh,
      CarriesFrames, ServesFrames;
    RunKeepsFresh(boot, events, 0, [0, 0, 0], 0, [0, 0, 0]);
    var sys := Run(boot, events);
    var frames := sys.base.parser.frames;
    assert frames[0..] == frames && sys.local.broadcasts[0..] == sys.local.broadcasts;
    assert sys.up[d].wire.dequeued[0..] == sys.up[d].wire.dequeued;
    assert UpFresh(sys.up[d], frames[0..], [0, 0, 0][d]);
    UpCarriesFrames(sys.up[d], frames);
    LocalServesFrames(sys.local, frames);
  }

  // ------------------------------------------------------------ nothing old after a discard

  predicate IsDiscard(sys: System, ev: Event)
    requires Inv(sys)
  {
    ev.call.Control? && Station.Discards(sys.base.gate, ev.call.step)
  }

  lemma DiscardedBase(s: Station.Station, step: StreamGate.Step, now: int)
    requires Station.Inv(s) && Station.Legal(Station.Control(step, now)) && Station.Discards(s.gate, step)
    ensures var s' := Station.Next(s, Station.Control(step, now));
      && BaseFresh(s', |s.parser.frames|, Station.Counts(s.mail.handed))
      && s'.parser.frames == s.parser.frames && ForLocal(s, Station.Control(step, now)) == []
      && Applies(s, Station.Control(step, now)) && StreamGate.AllSuspended(s'.gate)
  {
    var e := Station.Control(step, now);
    Station.QuietUntilFrame(s, step, now, []);
    DiscardApplies(s, step, now);
    NothingHeld();
    hide Station.Inv, StreamGate.Next, StreamGate.AllSuspended, Applies, Station.Discards;
    var s' := Station.Next(s, e);
    assert Station.Run(s', []) == s';
  }

  lemma DiscardApplies(s: Station.Station, step: StreamGate.Step, now: int)
    requires Station.Inv(s) && Station.Legal(Station.Control(step, now)) && Station.Discards(s.gate, step)
    ensures Applies(s, Station.Control(step, now))
  {
    hide Station.Inv, Station.Next;
  }

  lemma DiscardedLocal(sys: System, ev: Event)
    requires Inv(sys) && Legal(sys, ev) && IsDiscard(sys, ev)
    ensures LocalFresh(LocalNext(sys, ev), sys.base.parser.frames[|sys.base.parser.frames|..], |sys.local.broadcasts|)
  {
    hide Station.Inv, Station.Next, NtripPush.Inv, AllFrames, LocalCaster.Inv, Applies, ForLocal;
    CallIsLegal(sys, ev);
    DiscardedBase(sys.base, ev.call.step, ev.call.now);
    LocalCaster.CallsKeepInv(sys.local, true, []);
    var c := LocalFlagged(sys.local, true, true);
    var frames := sys.base.parser.frames;
    assert c.broadcasts[|c.broadcasts|..] == [];
    LocalRunFresh(c, ev.local, [], frames[|frames|..], |c.broadcasts|);
  }

  lemma DiscardedUp(sys: System, ev: Event, d: nat)
    requires Inv(sys) && Legal(sys, ev) && IsDiscard(sys, ev) && d < Mailbox.DESTINATIONS
    ensures UpFresh(UpNext(sys, ev, d), sys.base.parser.frames[|sys.base.parser.frames|..], |sys.up[d].wire.dequeued|)
  {
    hide Station.Inv, Station.Next, NtripPush.Inv, AllFrames, LocalCaster.Inv, Applies;
    CallIsLegal(sys, ev);
    DiscardedBase(sys.base, ev.call.step, ev.call.now);
    var c := UpFlagged(sys.up[d], true, true);
    var frames := sys.base.parser.frames;
    assert c.wire.dequeued[|c.wire.dequeued|..] == [];
    UpRunFresh(c, ev.up[d], [], frames[|frames|..], |c.wire.dequeued|);
  }

  function Dequeued(sys: System): (counts: seq<nat>)
    ensures |counts| == |sys.up|
    ensures forall d | 0 <= d < |sys.up| :: counts[d] == |sys.up[d].wire.dequeued|
  {
    seq(|sys.up|, d requires 0 <= d < |sys.up| => |sys.up[d].wire.dequeued|)
  }

  lemma DiscardIsFresh(sys: System, ev: Event)
    requires Inv(sys) && Legal(sys, ev) && IsDiscard(sys, ev)
    ensures Fresh(Next(sys, ev), |sys.base.parser.frames|, Station.Counts(sys.base.mail.handed),
                  |sys.local.broadcasts|, Dequeued(sys))
  {
    hide Station.Next, Station.Inv, LocalCaster.Inv, NtripPush.Inv, AllFrames, BaseFresh, LocalFresh, UpFresh,
      LocalNext, UpNext, Applies, ForLocal;
    CallIsLegal(sys, ev);
    DiscardedBase(sys.base, ev.call.step, ev.call.now);
    DiscardedLocal(sys, ev);
    DiscardedUp(sys, ev, 0);
    DiscardedUp(sys, ev, 1);
    DiscardedUp(sys, ev, 2);
  }

  /** What any sender has taken up to send since `before` is a frame completed since. */
  ghost predicate AllRecent(before: System, after: System) {
    var n := |before.base.parser.frames|;
    && n <= |after.base.parser.frames|
    && |before.local.broadcasts| <= |after.local.broadcasts|
    && AllIn(after.local.broadcasts[|before.local.broadcasts|..], after.base.parser.frames[n..])
    && |before.up| == |after.up|
    && forall d | 0 <= d < |after.up| :: UpRecent(before.up[d], after.up[d], after.base.parser.frames[n..])
  }

  ghost predicate UpRecent(before: NtripPush.Client, after: NtripPush.Client, recent: seq<Frame>) {
    && |before.wire.dequeued| <= |after.wire.dequeued|
    && AllIn(after.wire.dequeued[|before.wire.dequeued|..], recent)
  }

  lemma FreshIsRecent(before: System, after: System)
    requires |before.up| == |after.up|
    requires Fresh(after, |before.base.parser.frames|, Station.Counts(before.base.mail.handed),
                   |before.local.broadcasts|, Dequeued(before))
    ensures AllRecent(before, after)
  {
    hide AllIn, Station.NothingOlder;
    var recent := after.base.parser.frames[|before.base.parser.frames|..];
    forall d | 0 <= d < |after.up| ensures UpRecent(before.up[d], after.up[d], recent) {
      assert UpFresh(after.up[d], recent, Dequeued(before)[d]);
    }
  }

  lemma ThreeSenders(sys: System)
    requires Inv(sys)
    ensures |sys.up| == Mailbox.DESTINATIONS
  {
  }

  /** After a mode change, a receiver reset, or the start or end of raw collection, everything that
      any sender takes up to send, upstream or local, is a frame completed after it, whatever was
      queued, held or half delivered then. */
  lemma NothingOldGoesOut(sys: System, ev: Event, events: seq<Event>)
    requires Inv(sys) && Legal(sys, ev) && IsDiscard(sys, ev) && LegalRun(Next(sys, ev), events)
    ensures AllRecent(sys, Run(Next(sys, ev), events))
  {
    hide *;
    DiscardIsFresh(sys, ev);
    RunKeepsFresh(Next(sys, ev), events, |sys.base.parser.frames|, Station.Counts(sys.base.mail.handed),
                  |sys.local.broadcasts|, Dequeued(sys));
    ThreeSenders(sys);
    ThreeSenders(Run(Next(sys, ev), events));
    FreshIsRecent(sys, Run(Next(sys, ev), events));
  }

  // --------------------------------------------------- the senders and the station's flags

  /** Every sender is suspended exactly as its flag says. */
  ghost predicate Obey(base: Station.Station, local: LocalCaster.Caster, up: seq<NtripPush.Client>) {
    && local.suspended == base.gate.local
    && |up| == |base.gate.upstream|
    && forall d | 0 <= d < |up| :: up[d].suspended == base.gate.upstream[d]
  }

  /** A call that does not end in apply_stream_state leaves the flags as they were. */
  lemma UnappliedSame(s: Station.Station, e: Station.Event)
    requires Station.Inv(s) && Station.Legal(e) && !Applies(s, e)
    ensures var g, g' := s.gate, Station.Next(s, e).gate;
      g'.local == g.local && g'.upstream == g.upstream
  {
    GateIsInv(s);
    hide Station.Inv, StreamGate.Inv, Deframer.FeedOne, Batch.Publish, Mailbox.Publish, Station.PollAll,
      Station.Discard, StreamGate.Applied;
    match e {
      case Byte(_, _) =>
      case Poll(_, _) =>
      case Control(step, _) => UnappliedControl(s.gate, step);
    }
  }

  lemma GateIsInv(s: Station.Station)
    requires Station.Inv(s)
    ensures StreamGate.Inv(s.gate) && |s.gate.upstream| == 3
  {
  }

  lemma UnappliedControl(g: StreamGate.Gate, step: StreamGate.Step)
    requires !step.Boot? && !step.FrameArrived? && !StreamGate.Transition(g, step)
    requires match step
             case RequestStartRaw => !g.mode.Transmit? || g.raw
             case RateWindow(bps) => bps < StreamGate.MIN_OUTBOUND_BPS || g.rateReady
             case SetNetwork(available) => g.networkAvailable == available
             case SetSuspended(_) => false
             case SetEnabled(_) => false
             case ApplyPersisted(_) => false
             case ReloadServices => false
             case _ => true
    ensures StreamGate.Next(g, step) == g
  {
    hide StreamGate.Applied;
  }

  lemma TurnKeepsSuspended(c: NtripPush.Client, e: NtripPush.Surroundings)
    ensures NtripPush.Turn(c, e).suspended == c.suspended
  {
    hide NtripPush.HandshakeSent, SendLoop.Sent, SendLoop.UpstreamEffects, NtripPush.Attempted, NtripPush.Failed,
      NtripPush.Slept, NtripPush.Healthy, NtripPush.NewStreak, NtripPush.Delivered, NtripPush.Ended, NtripPush.Opened,
      NtripPush.Refused;
  }

  lemma {:induction false} UpRunKeepsSuspended(c: NtripPush.Client, events: seq<NtripPush.Event>, offered: seq<Frame>)
    requires UpLegal(events, offered)
    ensures NtripPush.Run(c, events).suspended == c.suspended
    decreases |events|
  {
    if events != [] {
      if events[0].Worker? {
        TurnKeepsSuspended(c, events[0].e);
      }
      hide NtripPush.Turn;
      UpRunKeepsSuspended(NtripPush.Apply(c, events[0]), events[1..], offered);
    }
  }

  lemma LocalTurnKeepsSuspended(c: LocalCaster.Caster, e: LocalCaster.Surroundings)
    requires |c.slots| == |e.scripts|
    ensures LocalCaster.Turn(c, e).suspended == c.suspended
  {
    CasterQueue.ClosingKeepsRest(c, |c.slots|);
    var c1 := LocalCaster.Reset(c);
    var c2 := LocalCaster.Accept(c1.(listening := true), e.incoming);
    CasterQueue.ClosingKeepsRest(c1, |c1.slots|);
    assert c2.suspended == c1.suspended;
    hide LocalCaster.Accept, LocalCaster.OfferFirst, LocalCaster.CloseFirst;
    if c2.queue != [] {
      CasterQueue.OffersKeepRest(c2.(queue := c2.queue[1..]), c2.queue[0], e.scripts, |e.scripts|);
    }
  }

  lemma {:induction false} LocalRunKeepsSuspended(c: LocalCaster.Caster, events: seq<LocalCaster.Event>,
                                                  offered: seq<Frame>)
    requires LocalCaster.Inv(c) && LocalLegal(events, offered)
    ensures LocalCaster.Run(c, events).suspended == c.suspended
    decreases |events|
  {
    if events != [] {
      LocalCaster.SlotsFit(c);
      if events[0].Worker? {
        LocalTurnKeepsSuspended(c, events[0].e);
      }
      LocalCaster.ApplyKeepsInv(c, events[0]);
      hide LocalCaster.Turn, LocalCaster.Inv;
      LocalRunKeepsSuspended(LocalCaster.Apply(c, events[0]), events[1..], offered);
    }
  }

  lemma LocalObeys(sys: System, ev: Event)
    requires Inv(sys) && Legal(sys, ev) && sys.local.suspended == sys.base.gate.local
    ensures LocalNext(sys, ev).suspended == Station.Next(sys.base, ev.call).gate.local
  {
    hide Station.Inv, Station.Next, NtripPush.Inv, AllFrames, LocalCaster.Inv, Applies, ForLocal;
    CallIsLegal(sys, ev);
    if !Applies(sys.base, ev.call) {
      UnappliedSame(sys.base, ev.call);
    }
    LocalCaster.CallsKeepInv(sys.local, Station.Next(sys.base, ev.call).gate.local, []);
    var c := LocalFlagged(sys.local, Applies(sys.base, ev.call), Station.Next(sys.base, ev.call).gate.local);
    LocalRunKeepsSuspended(c, ev.local, ForLocal(sys.base, ev.call));
  }

  lemma UpFlagIs(sys: System, call: Station.Event, d: nat)
    requires Inv(sys) && Station.Legal(call) && d < Mailbox.DESTINATIONS
    requires |Station.Next(sys.base, call).gate.upstream| == 3
    requires |sys.base.gate.upstream| == 3 && sys.up[d].suspended == sys.base.gate.upstream[d]
    ensures var flag := Station.Next(sys.base, call).gate.upstream[d];
      UpFlagged(sys.up[d], Applies(sys.base, call), flag).suspended == flag
  {
    hide Station.Inv, Station.Next, NtripPush.Inv, AllFrames, LocalCaster.Inv, Applies;
    if !Applies(sys.base, call) {
      UnappliedSame(sys.base, call);
    }
  }

  lemma UpObeys(sys: System, ev: Event, d: nat)
    requires Inv(sys) && Legal(sys, ev) && d < Mailbox.DESTINATIONS
    requires |sys.base.gate.upstream| == 3 && sys.up[d].suspended == sys.base.gate.upstream[d]
    ensures |Station.Next(sys.base, ev.call).gate.upstream| == 3
    ensures UpNext(sys, ev, d).suspended == Station.Next(sys.base, ev.call).gate.upstream[d]
  {
    hide Station.Inv, Station.Next, NtripPush.Inv, AllFrames, LocalCaster.Inv, Applies, ForUpstream, UpFlagged,
      LocalLegal, UpLegal;
    CallIsLegal(sys, ev);
    UpFlagIs(sys, ev.call, d);
    var flag := Station.Next(sys.base, ev.call).gate.upstream[d];
    var c := UpFlagged(sys.up[d], Applies(sys.base, ev.call), flag);
    UpRunKeepsSuspended(c, ev.up[d], ForUpstream(sys.base, ev.call, d));
  }

  lemma NextObeys(sys: System, ev: Event)
    requires Inv(sys) && Legal(sys, ev) && Obey(sys.base, sys.local, sys.up)
    ensures Obey(Next(sys, ev).base, Next(sys, ev).local, Next(sys, ev).up)
  {
    hide Station.Next, Station.Inv, LocalCaster.Inv, NtripPush.Inv, AllFrames, Legal, LocalNext, UpNext;
    CallIsLegal(sys, ev);
    LocalObeys(sys, ev);
    UpObeys(sys, ev, 0);
    UpObeys(sys, ev, 1);
    UpObeys(sys, ev, 2);
  }

  function Calls(events: seq<Event>): (calls: seq<Station.Event>)
    ensures |calls| == |events| && forall i | 0 <= i < |events| :: calls[i] == events[i].call
  {
    seq(|events|, i requires 0 <= i < |events| => events[i].call)
  }

  /** The station goes through its own run, whatever the senders' tasks do, and they obey it. */
  lemma {:induction false} RunObeys(sys: System, events: seq<Event>)
    requires Inv(sys) && LegalRun(sys, events) && Obey(sys.base, sys.local, sys.up)
    ensures var sys' := Run(sys, events); Obey(sys'.base, sys'.local, sys'.up)
    ensures Station.AllLegal(Calls(events)) && Station.Inv(sys.base)
    ensures Run(sys, events).base == Station.Run(sys.base, Calls(events))
    decreases |events|
  {
    hide Station.Next, Legal, Obey, Next, LocalCaster.Inv, NtripPush.Inv, Station.Inv, AllFrames;
    if events != [] {
      NextObeys(sys, events[0]);
      NextBase(sys, events[0]);
      CallIsLegal(sys, events[0]);
      Station.StepKeepsInv(sys.base, events[0].call);
      RunObeys(Next(sys, events[0]), events[1..]);
      assert Calls(events)[1..] == Calls(events[1..]);
    }
  }

  lemma NextBase(sys: System, ev: Event)
    requires Inv(sys) && Legal(sys, ev)
    ensures Station.Legal(ev.call) && Next(sys, ev).base == Station.Next(sys.base, ev.call)
  {
    CallIsLegal(sys, ev);
    hide Station.Next, Station.Inv, LocalCaster.Inv, NtripPush.Inv, AllFrames, LocalNext, UpNext, Legal;
  }

  /** In every run from power-on, whatever tasks and networks do, each of the four senders is
      suspended if and only if the steps so far give one of the reasons for it. */
  lemma SuspendedForAReason(streamsEnabled: bool, havePosition: bool, now: int, events: seq<Event>)
    requires LegalRun(Booted(streamsEnabled, havePosition, now), events)
    ensures var base := StationTrace.BootedStation(streamsEnabled, havePosition, now);
      Station.Inv(base) && Station.AllLegal(Calls(events))
    ensures var sys := Run(Booted(streamsEnabled, havePosition, now), events);
      var steps := StationTrace.Steps(StationTrace.BootedStation(streamsEnabled, havePosition, now), Calls(events));
      var local := GateReasons.Held(steps) || !GateReasons.Enabled(streamsEnabled, steps)
                   || !GateReasons.Doing(havePosition, steps).Transmitting?
                   || !GateReasons.Heard(havePosition, steps);
      var upstream := local || !GateReasons.Online(steps) || !GateReasons.Fast(havePosition, steps);
      && sys.local.suspended == local
      && |sys.up| == 3 && forall d | 0 <= d < 3 :: sys.up[d].suspended == upstream
  {
    var boot := Booted(streamsEnabled, havePosition, now);
    BootObeys(streamsEnabled, havePosition, now);
    hide *;
    RunObeys(boot, events);
    StationTrace.StationFlags(streamsEnabled, havePosition, now, Calls(events));
    ObeyIs(Run(boot, events));
  }

  lemma ObeyIs(sys: System)
    requires Obey(sys.base, sys.local, sys.up)
    ensures sys.local.suspended == sys.base.gate.local && |sys.up| == |sys.base.gate.upstream|
    ensures forall d | 0 <= d < |sys.up| :: sys.up[d].suspended == sys.base.gate.upstream[d]
  {
  }

  lemma BootObeys(streamsEnabled: bool, havePosition: bool, now: int)
    ensures var boot := Booted(streamsEnabled, havePosition, now);
      && Obey(boot.base, boot.local, boot.up)
      && boot.base == StationTrace.BootedStation(streamsEnabled, havePosition, now)
  {
    hide Station.Discard;
  }
}
