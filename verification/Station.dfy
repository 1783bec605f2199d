/** The base station as a whole: deframer, local batch, mailbox and gate together. */
module Station {
  import opened Bits
  import opened Common
  import Deframer
  import FrameStream
  import Batch
  import Mailbox
  import opened StreamGate

  datatype Station = Station(gate: Gate, parser: Deframer.Parser, batch: Batch.State, mail: Mailbox.Mail)

  const POWER_UP_STATION := Station(POWER_UP, Deframer.START, Batch.EMPTY, Mailbox.FRESH)

  datatype Event =
    | Byte(value: byte, now: int)
    | Poll(now: int, answers: seq<seq<bool>>)
    | Control(step: Step, now: int)

  /** Steps that flush the data UART and throw away whatever was received so far. */
  predicate Discards(g: Gate, s: Step) {
    Transition(g, s) || (s.RequestStartRaw? && g.mode == Transmit && !g.raw)
  }

  /** reset_rtcm_parser and reset_rtcm_state */
  function Discard(s: Station, now: int): Station {
    s.(parser := s.parser.(buffer := []),
       batch := Batch.EMPTY.(flushed := s.batch.flushed),
       mail := Mailbox.Reset(s.mail, now))
  }

  predicate Receiving(g: Gate) {
    g.mode == Transmit && !g.raw
  }

  /** publish_rtcm_frame */
  function PublishFrame(s: Station, frame: seq<byte>, now: int): Station {
    s.(gate := GotFrame(s.gate),
       batch := Batch.Publish(s.batch, frame, now, 0),
       mail := Mailbox.Publish(s.mail, frame, Mailbox.MessageNumber(frame), now))
  }

  function ReceiveByte(s: Station, b: byte, now: int): Station
    requires Deframer.IsPartial(s.parser.buffer)
  {
    var p := Deframer.FeedOne(s.parser, b);
    var s' := s.(parser := p);
    if |p.frames| > |s.parser.frames| then PublishFrame(s', p.frames[|p.frames| - 1], now) else s'
  }

  /** flush_due_batch for the local caster, then flush_due_corrections. */
  function PollAll(s: Station, now: int, answers: seq<seq<bool>>): Station
    requires Mailbox.Shaped(s.mail) && LegalAnswers(answers)
  {
    s.(batch := Batch.FlushDue(s.batch, now), mail := TickAll(s.mail, now, answers))
  }

  /** flush_due_corrections */
  function TickAll(m: Mailbox.Mail, now: int, answers: seq<seq<bool>>): Mailbox.Mail
    requires Mailbox.Shaped(m) && LegalAnswers(answers)
  {
    Mailbox.Tick(Mailbox.Tick(Mailbox.Tick(m, 0, now, answers[0]), 1, now, answers[1]), 2, now, answers[2])
  }

  predicate LegalAnswers(answers: seq<seq<bool>>) {
    && |answers| == Mailbox.DESTINATIONS
    && (forall d | 0 <= d < Mailbox.DESTINATIONS :: |answers[d]| == Mailbox.MAX_SLOTS)
  }

  predicate Legal(e: Event) {
    match e
    case Byte(_, _) => true
    case Poll(_, answers) => LegalAnswers(answers)
    case Control(step, _) => !step.Boot? && !step.FrameArrived?
  }

  ghost predicate Inv(s: Station) {
    && StreamGate.Inv(s.gate)
    && Deframer.IsPartial(s.parser.buffer)
    && Mailbox.Inv(s.mail)
    && Batch.Bounded(s.batch.held)
    && HistoryIsPublished(s.mail.history, s.parser.frames)
    && (!s.gate.hasRtcm || !Receiving(s.gate) ==> NothingWaits(s))
  }

  /** No frame waits for any sender. */
  ghost predicate NothingWaits(s: Station) {
    s.batch.held == [] && forall i | 0 <= i < |s.mail.slots| :: !s.mail.slots[i].used
  }

  /** The mailbox has been offered exactly the frames that the deframer published. */
  ghost predicate HistoryIsPublished(history: seq<Mailbox.Message>, frames: seq<seq<byte>>) {
    && |history| == |frames|
    && forall i | 0 <= i < |frames| ::
         history[i] == Mailbox.Message(Mailbox.MessageNumber(frames[i]), frames[i])
  }

  function Next(s: Station, e: Event): Station
    requires Inv(s) && Legal(e)
  {
    match e
    case Byte(b, now) => if Receiving(s.gate) then ReceiveByte(s, b, now) else s
    case Poll(now, answers) => if Receiving(s.gate) then PollAll(s, now, answers) else s
    case Control(step, now) =>
      var s' := if Discards(s.gate, step) then Discard(s, now) else s;
      s'.(gate := StreamGate.Next(s.gate, step))
  }

  // ------------------------------------------------------------- every step keeps Inv

  lemma PublishedSnoc(history: seq<Mailbox.Message>, frames: seq<seq<byte>>, frame: seq<byte>)
    requires HistoryIsPublished(history, frames)
    ensures HistoryIsPublished(history + [Mailbox.Message(Mailbox.MessageNumber(frame), frame)],
                               frames + [frame])
  {
  }

  /** What one byte can add to the published frames. */
  lemma FeedOneAdds(p: Deframer.Parser, b: byte)
    requires Deframer.IsPartial(p.buffer)
    ensures var p' := Deframer.FeedOne(p, b);
            && Deframer.IsPartial(p'.buffer)
            && (p'.frames == p.frames
                || (|p'.frames| > 0 && p'.frames == p.frames + [p'.frames[|p'.frames| - 1]]
                    && 6 <= |p'.frames[|p'.frames| - 1]| <= 1029))
  {
    hide Deframer.CrcMatches;
  }

  lemma PublishKeepsInv(s: Station, before: seq<seq<byte>>, frame: seq<byte>, now: int)
    requires StreamGate.Inv(s.gate) && Receiving(s.gate)
    requires Deframer.IsPartial(s.parser.buffer)
    requires Mailbox.Inv(s.mail) && Batch.Bounded(s.batch.held)
    requires HistoryIsPublished(s.mail.history, before) && s.parser.frames == before + [frame]
    requires 0 < |frame| <= 1200
    ensures Inv(PublishFrame(s, frame, now))
  {
    hide Mailbox.Inv, Mailbox.MessageNumber, Deframer.IsPartial, Batch.Bounded, Batch.Publish, HistoryIsPublished;
    PublishedSnoc(s.mail.history, before, frame);
    NextKeepsInv(s.gate, FrameArrived);
    Batch.PublishBounded(s.batch, frame, now, 0);
    Mailbox.PublishKeepsInv(s.mail, frame, Mailbox.MessageNumber(frame), now);
  }

  lemma ByteKeepsInv(s: Station, b: byte, now: int)
    requires Inv(s) && Receiving(s.gate)
    ensures Inv(ReceiveByte(s, b, now))
  {
    FeedOneAdds(s.parser, b);
    var p := Deframer.FeedOne(s.parser, b);
    hide Deframer.FeedOne, Deframer.IsPartial, Mailbox.Inv, Batch.Bounded, HistoryIsPublished, StreamGate.Inv,
      PublishFrame;
    if p.frames != s.parser.frames {
      PublishKeepsInv(s.(parser := p), s.parser.frames, p.frames[|p.frames| - 1], now);
    }
  }

  lemma TickKeepsRest(m: Mailbox.Mail, dest: nat, now: int, taken: seq<bool>)
    requires Mailbox.Inv(m) && dest < Mailbox.DESTINATIONS && |taken| == Mailbox.MAX_SLOTS
    ensures var m' := Mailbox.Tick(m, dest, now, taken);
      && Mailbox.Inv(m') && m'.history == m.history
      && (forall i | 0 <= i < Mailbox.MAX_SLOTS ::
            m'.slots[i].used == m.slots[i].used && m'.slots[i].number == m.slots[i].number)
  {
    Mailbox.TickKeepsInv(m, dest, now, taken);
    Mailbox.OffersOnlyMark(m, dest, taken, Mailbox.MAX_SLOTS);
    hide Mailbox.Inv;
  }

  lemma PollKeepsInv(s: Station, now: int, answers: seq<seq<bool>>)
    requires Inv(s) && LegalAnswers(answers) && Receiving(s.gate)
    ensures Inv(PollAll(s, now, answers))
  {
    hide StreamGate.Inv, Deframer.IsPartial, HistoryIsPublished, Mailbox.Tick;
    var m0 := s.mail;
    var m1 := Mailbox.Tick(m0, 0, now, answers[0]);
    TickKeepsRest(m0, 0, now, answers[0]);
    var m2 := Mailbox.Tick(m1, 1, now, answers[1]);
    TickKeepsRest(m1, 1, now, answers[1]);
    TickKeepsRest(m2, 2, now, answers[2]);
    hide Mailbox.Inv;
  }

  lemma DiscardKeepsInv(s: Station, now: int)
    requires Inv(s)
    ensures Inv(Discard(s, now)) && NothingWaits(Discard(s, now))
  {
    Mailbox.ResetKeepsInv(s.mail, now);
    hide Mailbox.Inv, StreamGate.Inv, HistoryIsPublished;
  }

  lemma ControlKeepsInv(s: Station, step: Step, now: int)
    requires Inv(s) && Legal(Control(step, now))
    ensures Inv(Next(s, Control(step, now)))
  {
    NextKeepsInv(s.gate, step);
    GateOpensOnlyByDiscard(s.gate, step);
    DiscardKeepsInv(s, now);
    hide Mailbox.Inv, StreamGate.Inv, StreamGate.Next, Discards, HistoryIsPublished, Deframer.IsPartial, Batch.Bounded;
  }

  /** Without a discard the deframer goes on reading, or not reading, as before. */
  ghost predicate Unopened(g: Gate, g': Gate) {
    g'.hasRtcm == g.hasRtcm && Receiving(g') == Receiving(g)
  }

  lemma GateOpensOnlyByDiscard(g: Gate, step: Step)
    requires StreamGate.Inv(g) && !step.Boot? && !step.FrameArrived?
    ensures !Discards(g, step) ==> Unopened(g, StreamGate.Next(g, step))
  {
    hide *;
    if IsSwitch(step) || IsNews(step) {
      SettingOpensNothing(g, step);
    } else {
      RequestOpensByDiscard(g, step);
    }
  }

  lemma SettingOpensNothing(g: Gate, step: Step)
    requires (IsSwitch(step) || IsNews(step)) && !step.FrameArrived?
    ensures Unopened(g, StreamGate.Next(g, step))
  {
    hide StreamsSuspended, OutboundSuspended, Applied;
  }

  lemma RequestOpensByDiscard(g: Gate, step: Step)
    requires StreamGate.Inv(g) && !step.Boot? && !IsSwitch(step) && !IsNews(step)
    ensures !Discards(g, step) ==> Unopened(g, StreamGate.Next(g, step))
  {
    hide StreamsSuspended, OutboundSuspended, Applied, EnterSurvey, EnterTransmit;
  }

  lemma StepKeepsInv(s: Station, e: Event)
    requires Inv(s) && Legal(e)
    ensures Inv(Next(s, e))
  {
    hide Inv, ReceiveByte, PollAll;
    match e {
      case Byte(b, now) =>
        if Receiving(s.gate) {
          ByteKeepsInv(s, b, now);
        }
      case Poll(now, answers) =>
        if Receiving(s.gate) {
          PollKeepsInv(s, now, answers);
        }
      case Control(step, now) => ControlKeepsInv(s, step, now);
    }
  }

  /** A setting and a rate window touch the flags alone. */
  lemma SettingKeepsData(s: Station, step: Step, now: int)
    requires Inv(s) && (step.SetSuspended? || step.SetEnabled? || step.SetNetwork? || step.RateWindow?)
    ensures Next(s, Control(step, now)) == s.(gate := StreamGate.Next(s.gate, step))
    ensures Inv(Next(s, Control(step, now)))
  {
    StepKeepsInv(s, Control(step, now));
    hide Inv, StreamGate.Next;
  }

  // ------------------------------------------------------------------- whole runs

  ghost predicate AllLegal(events: seq<Event>) {
    forall i | 0 <= i < |events| :: Legal(events[i])
  }

  /** The station after `events`; every state on the way satisfies Inv. */
  function Run(s: Station, events: seq<Event>): (s': Station)
    requires Inv(s) && AllLegal(events)
    ensures Inv(s')
    decreases |events|
  {
    if events == [] then
      s
    else
      StepKeepsInv(s, events[0]);
      Run(Next(s, events[0]), events[1..])
  }

  lemma PowerUpInv()
    ensures Inv(POWER_UP_STATION)
  {
    Mailbox.FreshInv();
    StreamGate.PowerUpInv();
  }

  /** The start of the run loop: transmit from a stored position, or survey. */
  lemma BootKeepsInv(s: Station, streamsEnabled: bool, havePosition: bool, now: int)
    requires Inv(s) && !s.gate.raw
    ensures Inv(Discard(s, now).(gate := StreamGate.Next(s.gate, Boot(streamsEnabled, havePosition))))
  {
    DiscardKeepsInv(s, now);
    NextKeepsInv(s.gate, Boot(streamsEnabled, havePosition));
    hide Mailbox.Inv, HistoryIsPublished;
  }

  // ---------------------------------------------------------- no stale corrections

  /** Nothing that waits in the mailbox, and nothing taken beyond the first `taken[d]`
      versions, is older than version `since`. */
  ghost predicate NothingOlder(m: Mailbox.Mail, since: nat, taken: seq<nat>) {
    && |m.handed| == |taken|
    && (forall i | 0 <= i < |m.slots| && m.slots[i].used ::
          Mailbox.Newest(m.history, m.slots[i].number) >= since)
    && (forall d | 0 <= d < |taken| :: NewerFrom(m.handed[d], since, taken[d]))
  }

  ghost predicate NewerFrom(handed: seq<nat>, since: nat, taken: nat) {
    taken <= |handed| && forall j | taken <= j < |handed| :: handed[j] >= since
  }

  lemma PublishNothingOlder(m: Mailbox.Mail, since: nat, taken: seq<nat>, frame: seq<byte>, n: nat, now: int)
    requires NothingOlder(m, since, taken) && since <= |m.history|
    ensures NothingOlder(Mailbox.Publish(m, frame, n, now), since, taken)
  {
    hide Mailbox.Newest, Mailbox.Find, Mailbox.FindFree;
    var m' := Mailbox.Publish(m, frame, n, now);
    forall i | 0 <= i < |m'.slots| && m'.slots[i].used
      ensures Mailbox.Newest(m'.history, m'.slots[i].number) >= since
    {
      Mailbox.NewestSnoc(m.history, Mailbox.Message(n, frame), m'.slots[i].number);
    }
  }

  lemma {:induction false} OffersNothingOlder(m: Mailbox.Mail, since: nat, taken: seq<nat>,
                                              dest: nat, answers: seq<bool>, k: nat)
    requires Mailbox.Shaped(m) && dest < Mailbox.DESTINATIONS
    requires |answers| == Mailbox.MAX_SLOTS && k <= Mailbox.MAX_SLOTS
    requires NothingOlder(m, since, taken)
    ensures NothingOlder(Mailbox.Offers(m, dest, answers, k), since, taken)
    ensures Mailbox.Offers(m, dest, answers, k).history == m.history
    decreases k
  {
    hide Mailbox.Newest;
    if k > 0 {
      OffersNothingOlder(m, since, taken, dest, answers, k - 1);
      var m1 := Mailbox.Offers(m, dest, answers, k - 1);
      var m2 := Mailbox.Offer(m1, dest, k - 1, answers[k - 1]);
      assert forall i | 0 <= i < |m2.slots| ::
          m2.slots[i].used == m1.slots[i].used && m2.slots[i].number == m1.slots[i].number;
      assert forall d | 0 <= d < |taken| :: NewerFrom(m1.handed[d], since, taken[d]);
    }
  }

  lemma TickNothingOlder(m: Mailbox.Mail, since: nat, taken: seq<nat>, dest: nat, now: int, answers: seq<bool>)
    requires Mailbox.Shaped(m) && dest < Mailbox.DESTINATIONS && |answers| == Mailbox.MAX_SLOTS
    requires NothingOlder(m, since, taken)
    ensures NothingOlder(Mailbox.Tick(m, dest, now, answers), since, taken)
    ensures Mailbox.Tick(m, dest, now, answers).history == m.history
  {
    OffersNothingOlder(m, since, taken, dest, answers, Mailbox.MAX_SLOTS);
  }

  lemma StepNothingOlder(s: Station, e: Event, since: nat, taken: seq<nat>)
    requires Inv(s) && Legal(e)
    requires NothingOlder(s.mail, since, taken) && since <= |s.mail.history|
    ensures NothingOlder(Next(s, e).mail, since, taken)
    ensures since <= |Next(s, e).mail.history|
  {
    hide NothingOlder, Mailbox.Tick, Mailbox.Publish, StreamGate.Next, StreamGate.Inv, Deframer.FeedOne;
    match e {
      case Byte(b, now) =>
        var p := Deframer.FeedOne(s.parser, b);
        if |p.frames| > |s.parser.frames| {
          var f := p.frames[|p.frames| - 1];
          PublishNothingOlder(s.mail, since, taken, f, Mailbox.MessageNumber(f), now);
          PublishedHistory(s.mail, f, Mailbox.MessageNumber(f), now);
        }
      case Poll(now, answers) =>
        var m1 := Mailbox.Tick(s.mail, 0, now, answers[0]);
        TickNothingOlder(s.mail, since, taken, 0, now, answers[0]);
        TickNothingOlder(m1, since, taken, 1, now, answers[1]);
        TickNothingOlder(Mailbox.Tick(m1, 1, now, answers[1]), since, taken, 2, now, answers[2]);
      case Control(step, now) => ResetNothingOlder(s.mail, since, taken, now);
    }
  }

  lemma PublishedHistory(m: Mailbox.Mail, frame: seq<byte>, n: nat, now: int)
    ensures Mailbox.Publish(m, frame, n, now).history == m.history + [Mailbox.Message(n, frame)]
  {
    hide Mailbox.Find, Mailbox.FindFree;
  }

  lemma ResetNothingOlder(m: Mailbox.Mail, since: nat, taken: seq<nat>, now: int)
    requires NothingOlder(m, since, taken)
    ensures NothingOlder(Mailbox.Reset(m, now), since, taken)
  {
  }

  lemma {:induction false} RunNothingOlder(s: Station, events: seq<Event>, since: nat, taken: seq<nat>)
    requires Inv(s) && AllLegal(events)
    requires NothingOlder(s.mail, since, taken) && since <= |s.mail.history|
    ensures NothingOlder(Run(s, events).mail, since, taken)
    decreases |events|
  {
    hide NothingOlder, Next, Inv;
    if events != [] {
      StepKeepsInv(s, events[0]);
      StepNothingOlder(s, events[0], since, taken);
      RunNothingOlder(Next(s, events[0]), events[1..], since, taken);
    }
  }

  function Counts(handed: seq<seq<nat>>): (counts: seq<nat>)
    ensures |counts| == |handed|
    ensures forall d | 0 <= d < |handed| :: counts[d] == |handed[d]|
  {
    seq(|handed|, d requires 0 <= d < |handed| => |handed[d]|)
  }

  /** Corrections received before a mode change, a receiver reset or raw collection are never
      handed to an upstream caster after it, whatever happens from then on. */
  lemma {:induction false} NoStaleCorrections(s: Station, step: Step, now: int, events: seq<Event>, d: nat, j: nat)
    requires Inv(s) && Legal(Control(step, now)) && Discards(s.gate, step) && AllLegal(events)
    requires d < Mailbox.DESTINATIONS
    ensures Inv(Next(s, Control(step, now)))
    ensures var after := Run(Next(s, Control(step, now)), events).mail.handed[d];
            |s.mail.handed[d]| <= j < |after| ==> after[j] >= |s.mail.history|
  {
    var s1 := Next(s, Control(step, now));
    StepKeepsInv(s, Control(step, now));
    var counts := Counts(s.mail.handed);
    assert NothingOlder(s1.mail, |s.mail.history|, counts);
    hide Next;
    RunNothingOlder(s1, events, |s.mail.history|, counts);
    assert NewerFrom(Run(s1, events).mail.handed[d], |s.mail.history|, counts[d]);
  }

  // ------------------------------------------------- the quiet period, on the bytes

  lemma {:induction false} FramesOnlyGrow(s: Station, events: seq<Event>)
    requires Inv(s) && AllLegal(events)
    ensures |s.parser.frames| <= |Run(s, events).parser.frames|
    decreases |events|
  {
    hide Inv;
    if events != [] {
      StepKeepsInv(s, events[0]);
      StepFrames(s, events[0]);
      hide Next;
      FramesOnlyGrow(Next(s, events[0]), events[1..]);
    }
  }

  /** Frames are only added; without a new one no step but raw collection's end opens a shut gate. */
  lemma StepFrames(s: Station, e: Event)
    requires Inv(s) && Legal(e)
    ensures var s' := Next(s, e);
      && |s.parser.frames| <= |s'.parser.frames|
      && (|s'.parser.frames| == |s.parser.frames| ==> Shut(s.gate) ==> Shut(s'.gate))
  {
    hide Batch.Publish, Mailbox.Publish, Mailbox.Tick, Deframer.FeedOne, Deframer.IsPartial,
      Batch.Bounded, Mailbox.Inv, HistoryIsPublished, StreamGate.Next;
    match e {
      case Byte(b, now) => FeedOneAdds(s.parser, b);
      case Poll(now, answers) =>
      case Control(step, now) => StaysShut(s.gate, step);
    }
  }

  /** No frame since the last discard, or the receiver is read for raw data. */
  predicate Shut(g: Gate) {
    !g.hasRtcm || g.raw
  }

  lemma StaysShut(g: Gate, step: Step)
    requires !step.Boot? && !step.FrameArrived?
    ensures Shut(g) ==> Shut(StreamGate.Next(g, step))
  {
    hide Applied, EnterSurvey, EnterTransmit, EnterRaw, ExitRaw;
  }

  lemma {:induction false} ShutUntilFrame(s: Station, events: seq<Event>)
    requires Inv(s) && AllLegal(events) && Shut(s.gate)
    requires |Run(s, events).parser.frames| == |s.parser.frames|
    ensures Shut(Run(s, events).gate)
    decreases |events|
  {
    hide Inv, Shut;
    if events != [] {
      StepKeepsInv(s, events[0]);
      StepFrames(s, events[0]);
      hide Next;
      FramesOnlyGrow(Next(s, events[0]), events[1..]);
      ShutUntilFrame(Next(s, events[0]), events[1..]);
    }
  }

  /** From a mode change, a receiver reset or the start of raw collection on, all four senders
      stay suspended until the deframer completes a frame from the bytes received since,
      whatever bytes, polls and requests come meanwhile. */
  lemma {:induction false} QuietUntilFrame(s: Station, step: Step, now: int, events: seq<Event>)
    requires Inv(s) && Legal(Control(step, now)) && Discards(s.gate, step) && AllLegal(events)
    ensures var s1 := Next(s, Control(step, now));
      && Inv(s1) && s1.parser.buffer == [] && s1.parser.frames == s.parser.frames
      && (Run(s1, events).parser.frames == s.parser.frames ==> AllSuspended(Run(s1, events).gate))
  {
    var s1 := Next(s, Control(step, now));
    StepKeepsInv(s, Control(step, now));
    assert Shut(s1.gate);
    hide Next;
    if Run(s1, events).parser.frames == s.parser.frames {
      ShutUntilFrame(s1, events);
      hide Run, Mailbox.Inv, HistoryIsPublished;
    }
  }

  // --------------------------------------------------------- deadlines over whole runs

  /** The clock does not run backwards. */
  ghost predicate Forward(clock: int, events: seq<Event>) {
    && (forall i | 0 <= i < |events| :: clock <= events[i].now)
    && (forall i, j | 0 <= i < j < |events| :: events[i].now <= events[j].now)
  }

  function Clock(clock: int, events: seq<Event>): int {
    if events == [] then clock else events[|events| - 1].now
  }

  lemma StepArmed(s: Station, e: Event, clock: int)
    requires Inv(s) && Legal(e) && Batch.Armed(s.batch, clock) && 0 <= clock <= e.now
    ensures Batch.Armed(Next(s, e).batch, e.now)
    ensures e.Poll? ==> Batch.Timely(Next(s, e).batch, e.now)
  {
    hide Batch.Publish, Batch.FlushDue, Mailbox.Publish, Mailbox.Tick, Deframer.FeedOne, Deframer.IsPartial,
      Batch.Bounded, Mailbox.Inv, HistoryIsPublished, StreamGate.Inv, StreamGate.Next, GotFrame;
    match e {
      case Byte(b, now) =>
        var p := Deframer.FeedOne(s.parser, b);
        if |p.frames| > |s.parser.frames| {
          Batch.PublishTimely(s.batch, clock, p.frames[|p.frames| - 1], now);
        }
      case Poll(now, answers) => Batch.PollKeepsAll(s.batch, clock, now);
      case Control(step, now) =>
    }
  }

  lemma {:induction false} RunArmed(s: Station, events: seq<Event>, clock: int)
    requires Inv(s) && AllLegal(events)
    requires Batch.Armed(s.batch, clock) && 0 <= clock && Forward(clock, events)
    ensures Batch.Armed(Run(s, events).batch, Clock(clock, events)) && 0 <= Clock(clock, events)
    decreases |events|
  {
    hide Inv, Batch.Armed;
    if events != [] {
      StepKeepsInv(s, events[0]);
      StepArmed(s, events[0], clock);
      hide Next;
      RunArmed(Next(s, events[0]), events[1..], events[0].now);
    }
  }

  /** Whatever modes, resets and discards a run goes through, no frame that still waits for the
      local caster when a poll is over has waited for 200 ms. */
  lemma {:induction false} PolledFramesAreFresh(events: seq<Event>, now: int, answers: seq<seq<bool>>, i: nat)
    requires AllLegal(events) && LegalAnswers(answers) && Forward(0, events) && Clock(0, events) <= now
    ensures Inv(POWER_UP_STATION)
    ensures Inv(Run(POWER_UP_STATION, events))
    ensures var held := Next(Run(POWER_UP_STATION, events), Poll(now, answers)).batch.held;
            i < |held| ==> now - held[i].at < 200_000
  {
    PowerUpInv();
    RunArmed(POWER_UP_STATION, events, 0);
    StepArmed(Run(POWER_UP_STATION, events), Poll(now, answers), Clock(0, events));
    hide Next, Run, Inv;
  }

  // ------------------------------------------------------- the local stream, end to end

  predicate IsData(e: Event) {
    e.Byte? || e.Poll?
  }

  function BytesIn(events: seq<Event>): seq<byte>
    decreases |events|
  {
    if events == [] then
      []
    else
      (if events[0].Byte? then [events[0].value] else []) + BytesIn(events[1..])
  }

  /** Frames given to the local caster, then those about to be. */
  function LocalStream(s: Station): seq<seq<byte>> {
    s.batch.flushed + Batch.Frames(s.batch.held)
  }

  /** `b` extends `a` by exactly what the deframer published in between. */
  ghost predicate StreamFollows(a: Station, b: Station) {
    && |a.parser.frames| <= |b.parser.frames|
    && b.parser.frames[..|a.parser.frames|] == a.parser.frames
    && LocalStream(b) == LocalStream(a) + b.parser.frames[|a.parser.frames|..]
  }

  lemma DataStepFollows(s: Station, e: Event)
    requires Inv(s) && Legal(e) && IsData(e) && Receiving(s.gate)
    ensures var s' := Next(s, e);
      && StreamFollows(s, s') && Receiving(s'.gate)
      && s'.parser == Deframer.Feed(s.parser, if e.Byte? then [e.value] else [])
  {
    hide Batch.Publish, Batch.Frames, Batch.Flush, Batch.FlushDue, Mailbox.Publish, Mailbox.Tick,
      Deframer.FeedOne, Deframer.IsPartial, Batch.Flatten, Mailbox.Inv, StreamGate.Inv;
    match e {
      case Byte(b, now) =>
        FeedOneAdds(s.parser, b);
        var p := Deframer.FeedOne(s.parser, b);
        assert [b][1..] == [];
        if p.frames != s.parser.frames {
          var f := p.frames[|p.frames| - 1];
          Batch.PublishConserves(s.batch, f, now, 0);
          assert p.frames[|s.parser.frames|..] == [f];
        } else {
          assert p.frames[|s.parser.frames|..] == [];
          ConcatEmpty(LocalStream(s));
        }
      case Poll(now, answers) =>
        FlushDueConserves(s.batch, now);
        assert s.parser.frames[|s.parser.frames|..] == [];
        ConcatEmpty(LocalStream(s));
    }
  }

  lemma FlushDueConserves(b: Batch.State, now: int)
    ensures var b' := Batch.FlushDue(b, now);
            b'.flushed + Batch.Frames(b'.held) == b.flushed + Batch.Frames(b.held)
  {
    Batch.FlushConserves(b, now + Batch.BATCH_US);
  }

  lemma FollowsTransitive(a: Station, b: Station, c: Station)
    requires StreamFollows(a, b) && StreamFollows(b, c)
    ensures StreamFollows(a, c)
  {
    var n, k := |a.parser.frames|, |b.parser.frames|;
    hide LocalStream;
    assert c.parser.frames[n..] == b.parser.frames[n..] + c.parser.frames[k..];
    ConcatAssoc(LocalStream(a), b.parser.frames[n..], c.parser.frames[k..]);
  }

  lemma {:induction false} DataRunFollows(s: Station, events: seq<Event>)
    requires Inv(s) && Receiving(s.gate) && AllLegal(events)
    requires forall i | 0 <= i < |events| :: IsData(events[i])
    ensures StreamFollows(s, Run(s, events))
    ensures Run(s, events).parser == Deframer.Feed(s.parser, BytesIn(events))
    decreases |events|
  {
    hide Inv, Next, Deframer.FeedOne;
    if events == [] {
      assert s.parser.frames[|s.parser.frames|..] == [];
      ConcatEmpty(LocalStream(s));
    } else {
      StepKeepsInv(s, events[0]);
      DataStepFollows(s, events[0]);
      var s1 := Next(s, events[0]);
      DataRunFollows(s1, events[1..]);
      hide StreamFollows, Run;
      FollowsTransitive(s, s1, Run(s1, events[1..]));
      PartialOf(s);
      Deframer.FeedConcat(s.parser, if events[0].Byte? then [events[0].value] else [], BytesIn(events[1..]));
    }
  }

  lemma PartialOf(s: Station)
    requires Inv(s)
    ensures Deframer.IsPartial(s.parser.buffer)
  {
  }

  /** While the station transmits, what the local caster is given, together with what still
      waits, grows by exactly the CRC-valid captures of the byte stream, whole and in order,
      however the bytes are interleaved with polls and whatever the upstream casters answer. */
  lemma {:induction false} LocalStreamIsGoodCaptures(s: Station, events: seq<Event>,
                                                      spans: seq<FrameStream.Span>, pending: nat)
    requires Inv(s) && Receiving(s.gate) && s.parser.buffer == [] && AllLegal(events)
    requires forall i | 0 <= i < |events| :: IsData(events[i])
    requires FrameStream.Greedy(BytesIn(events), 0, spans, pending)
    ensures LocalStream(Run(s, events)) == LocalStream(s) + FrameStream.Good(BytesIn(events), spans)
  {
    hide Inv, Run, LocalStream, Deframer.Feed, FrameStream.Good;
    var data := BytesIn(events);
    DataRunFollows(s, events);
    FrameStream.FeedIsGreedy(s.parser, data, 0, spans, pending);
    assert data[0..] == data;
    var base, good := s.parser.frames, FrameStream.Good(data, spans);
    assert (base + good)[|base|..] == good;
  }
}
