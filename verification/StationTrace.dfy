/** The station's runs as runs of its gates and of its mailbox. */
module StationTrace {
  import Bits
  import opened Common
  import Deframer
  import Batch
  import Mailbox
  import StreamGate
  import GateReasons
  import opened Station

  // What is known of the gates over all steps, and of the mailbox over all publications, polls and
  // resets, is carried here to the station as a whole, from its bytes, polls and requests.

  /** The start of the run loop: transmit from a stored position, or survey. */
  function BootedStation(atBoot: bool, havePosition: bool, now: int): Station {
    Discard(POWER_UP_STATION, now)
      .(gate := StreamGate.Next(StreamGate.POWER_UP, StreamGate.Boot(atBoot, havePosition)))
  }

  lemma BootedInv(atBoot: bool, havePosition: bool, now: int)
    ensures Inv(BootedStation(atBoot, havePosition, now))
  {
    PowerUpInv();
    BootKeepsInv(POWER_UP_STATION, atBoot, havePosition, now);
  }

  /** The byte completes a frame. */
  predicate Completes(s: Station, e: Event)
    requires Inv(s)
  {
    e.Byte? && Receiving(s.gate) && |Deframer.FeedOne(s.parser, e.value).frames| > |s.parser.frames|
  }

  function FrameOf(s: Station, e: Event): seq<Bits.byte>
    requires Inv(s) && Completes(s, e)
  {
    var frames := Deframer.FeedOne(s.parser, e.value).frames;
    frames[|frames| - 1]
  }

  // ------------------------------------------------------------------------- the gates

  function StepsOf(s: Station, e: Event): seq<StreamGate.Step>
    requires Inv(s)
  {
    if e.Control? then [e.step] else if Completes(s, e) then [StreamGate.FrameArrived] else []
  }

  function Steps(s: Station, events: seq<Event>): seq<StreamGate.Step>
    requires Inv(s) && AllLegal(events)
    decreases |events|
  {
    if events == [] then []
    else
      StepKeepsInv(s, events[0]);
      StepsOf(s, events[0]) + Steps(Next(s, events[0]), events[1..])
  }

  lemma GateStep(s: Station, e: Event)
    requires Inv(s) && Legal(e)
    ensures Next(s, e).gate == StreamGate.Run(s.gate, StepsOf(s, e))
    ensures GateReasons.NoBoot(StepsOf(s, e))
  {
    hide StreamGate.Next, Batch.Publish, Mailbox.Publish, TickAll, Batch.FlushDue, Deframer.FeedOne, Inv;
    if e.Control? {
      RunOne(s.gate, e.step);
    } else if Completes(s, e) {
      RunOne(s.gate, StreamGate.FrameArrived);
      FrameStep(s.gate);
    } else {
      RunNone(s.gate);
    }
  }

  lemma RunOne(g: StreamGate.Gate, step: StreamGate.Step)
    ensures StreamGate.Run(g, [step]) == StreamGate.Next(g, step)
  {
    hide StreamGate.Next;
    assert [step][1..] == [];
  }

  lemma RunNone(g: StreamGate.Gate)
    ensures StreamGate.Run(g, []) == g
  {
  }

  lemma FrameStep(g: StreamGate.Gate)
    requires Receiving(g)
    ensures StreamGate.Next(g, StreamGate.FrameArrived) == StreamGate.GotFrame(g)
  {
    hide StreamGate.GotFrame;
  }

  lemma {:induction false} GateConcat(g: StreamGate.Gate, a: seq<StreamGate.Step>, b: seq<StreamGate.Step>)
    ensures StreamGate.Run(g, a + b) == StreamGate.Run(StreamGate.Run(g, a), b)
    decreases |a|
  {
    hide StreamGate.Next;
    if a == [] {
      assert a + b == b;
    } else {
      assert (a + b)[1..] == a[1..] + b;
      GateConcat(StreamGate.Next(g, a[0]), a[1..], b);
    }
  }

  lemma {:induction false} GateFollows(s: Station, events: seq<Event>)
    requires Inv(s) && AllLegal(events)
    ensures Run(s, events).gate == StreamGate.Run(s.gate, Steps(s, events))
    ensures GateReasons.NoBoot(Steps(s, events))
    decreases |events|
  {
    if events == [] {
      RunNone(s.gate);
    } else {
      hide Inv, Next, StepsOf;
      StepKeepsInv(s, events[0]);
      GateStep(s, events[0]);
      GateFollows(Next(s, events[0]), events[1..]);
      GateConcat(s.gate, StepsOf(s, events[0]), Steps(Next(s, events[0]), events[1..]));
    }
  }

  /** In every run of the station from its start, on its bytes, polls and requests, the four
      senders' flags are exactly the reasons found by looking back. */
  lemma StationFlags(atBoot: bool, havePosition: bool, now: int, events: seq<Event>)
    requires AllLegal(events)
    ensures Inv(BootedStation(atBoot, havePosition, now))
    ensures var s := BootedStation(atBoot, havePosition, now);
      var g, steps := Run(s, events).gate, Steps(s, events);
      var local := GateReasons.Held(steps) || !GateReasons.Enabled(atBoot, steps)
                   || !GateReasons.Doing(havePosition, steps).Transmitting?
                   || !GateReasons.Heard(havePosition, steps);
      var upstream := local || !GateReasons.Online(steps) || !GateReasons.Fast(havePosition, steps);
      g.local == local && g.upstream == [upstream, upstream, upstream]
  {
    BootedInv(atBoot, havePosition, now);
    var s := BootedStation(atBoot, havePosition, now);
    GateFollows(s, events);
    var steps := Steps(s, events);
    hide Run, Inv, StreamGate.Next, GateReasons.Held, GateReasons.Enabled, GateReasons.Doing, GateReasons.Heard,
      GateReasons.Online, GateReasons.Fast, Discard;
    GateReasons.FlagsAreReasons(atBoot, havePosition, steps);
  }

  // ----------------------------------------------------------------------- the mailbox

  function MailOf(s: Station, e: Event): seq<Mailbox.Event>
    requires Inv(s) && Legal(e)
  {
    match e
    case Byte(_, now) => if Completes(s, e) then [Mailbox.Published(FrameOf(s, e), now)] else []
    case Poll(now, answers) =>
      if Receiving(s.gate) then
        [Mailbox.Polled(0, now, answers[0]), Mailbox.Polled(1, now, answers[1]), Mailbox.Polled(2, now, answers[2])]
      else []
    case Control(step, now) => if Discards(s.gate, step) then [Mailbox.Restarted(now)] else []
  }

  function MailEvents(s: Station, events: seq<Event>): seq<Mailbox.Event>
    requires Inv(s) && AllLegal(events)
    decreases |events|
  {
    if events == [] then []
    else
      StepKeepsInv(s, events[0]);
      MailOf(s, events[0]) + MailEvents(Next(s, events[0]), events[1..])
  }

  /** The mailbox is the one that the events so far leave. */
  ghost predicate MailIs(m: Mailbox.Mail, trace: seq<Mailbox.Event>) {
    Mailbox.AllLegal(trace) && m == Mailbox.Run(trace)
  }

  lemma MailNext(m: Mailbox.Mail, trace: seq<Mailbox.Event>, e: Mailbox.Event)
    requires MailIs(m, trace) && Mailbox.Legal(e)
    ensures Mailbox.Shaped(m) && MailIs(Mailbox.Apply(m, e), trace + [e])
  {
    var longer := trace + [e];
    assert longer[..|longer| - 1] == trace && longer[|longer| - 1] == e;
    hide Mailbox.Apply;
  }

  lemma MailStep(s: Station, e: Event, trace: seq<Mailbox.Event>)
    requires Inv(s) && Legal(e) && MailIs(s.mail, trace)
    ensures MailIs(Next(s, e).mail, trace + MailOf(s, e))
  {
    hide MailIs, StreamGate.Next, Batch.Publish, Batch.FlushDue, Mailbox.Publish, Mailbox.Tick, Mailbox.Reset,
      Deframer.FeedOne, Discards;
    ConcatEmpty(trace);
    match e {
      case Byte(b, now) =>
        if Completes(s, e) {
          FeedOneAdds(s.parser, b);
          MailNext(s.mail, trace, Mailbox.Published(FrameOf(s, e), now));
        }
      case Poll(now, answers) =>
        if Receiving(s.gate) {
          PolledThree(s.mail, trace, now, answers);
        }
      case Control(step, now) =>
        MailNext(s.mail, trace, Mailbox.Restarted(now));
    }
    hide Inv;
  }

  lemma PolledThree(m: Mailbox.Mail, trace: seq<Mailbox.Event>, now: int, answers: seq<seq<bool>>)
    requires MailIs(m, trace) && LegalAnswers(answers)
    ensures Mailbox.Shaped(m)
    ensures MailIs(TickAll(m, now, answers),
                   trace + [Mailbox.Polled(0, now, answers[0]), Mailbox.Polled(1, now, answers[1]),
                            Mailbox.Polled(2, now, answers[2])])
  {
    hide MailIs, Mailbox.Tick;
    var e0 := Mailbox.Polled(0, now, answers[0]);
    var e1 := Mailbox.Polled(1, now, answers[1]);
    var e2 := Mailbox.Polled(2, now, answers[2]);
    MailNext(m, trace, e0);
    MailNext(Mailbox.Apply(m, e0), trace + [e0], e1);
    MailNext(Mailbox.Apply(Mailbox.Apply(m, e0), e1), trace + [e0] + [e1], e2);
    assert trace + [e0] + [e1] + [e2] == trace + [e0, e1, e2];
  }

  lemma {:induction false} MailFollows(s: Station, events: seq<Event>, trace: seq<Mailbox.Event>)
    requires Inv(s) && AllLegal(events) && MailIs(s.mail, trace)
    ensures MailIs(Run(s, events).mail, trace + MailEvents(s, events))
    decreases |events|
  {
    hide MailIs, Inv, Next, MailOf;
    if events == [] {
      ConcatEmpty(trace);
    } else {
      StepKeepsInv(s, events[0]);
      MailStep(s, events[0], trace);
      MailFollows(Next(s, events[0]), events[1..], trace + MailOf(s, events[0]));
      ConcatAssoc(trace, MailOf(s, events[0]), MailEvents(Next(s, events[0]), events[1..]));
    }
  }

  /** What the mailbox has been through since the start. */
  function Trace(atBoot: bool, havePosition: bool, now: int, events: seq<Event>): seq<Mailbox.Event>
    requires AllLegal(events)
  {
    BootedInv(atBoot, havePosition, now);
    [Mailbox.Restarted(now)] + MailEvents(BootedStation(atBoot, havePosition, now), events)
  }

  lemma BootedMail(atBoot: bool, havePosition: bool, now: int)
    ensures MailIs(BootedStation(atBoot, havePosition, now).mail, [Mailbox.Restarted(now)])
  {
    var e := Mailbox.Restarted(now);
    assert Mailbox.Run([]) == Mailbox.FRESH;
    MailNext(Mailbox.FRESH, [], e);
    assert [] + [e] == [e];
    hide StreamGate.Next;
  }

  lemma StationMail(atBoot: bool, havePosition: bool, now: int, events: seq<Event>)
    requires AllLegal(events)
    ensures Inv(BootedStation(atBoot, havePosition, now))
    ensures MailIs(Run(BootedStation(atBoot, havePosition, now), events).mail,
                   Trace(atBoot, havePosition, now, events))
  {
    BootedInv(atBoot, havePosition, now);
    BootedMail(atBoot, havePosition, now);
    hide MailIs, BootedStation, Inv;
    MailFollows(BootedStation(atBoot, havePosition, now), events, [Mailbox.Restarted(now)]);
  }

  // ----------------------------------------------------------------------- the cadence

  /** For destination `d` the two mailboxes are the same. */
  ghost predicate SameFor(d: nat, m: Mailbox.Mail, m': Mailbox.Mail) {
    && Mailbox.Shaped(m) && Mailbox.Shaped(m') && d < Mailbox.DESTINATIONS
    && m'.history == m.history && m'.handed[d] == m.handed[d] && m'.deadlines[d] == m.deadlines[d]
    && (forall i | 0 <= i < Mailbox.MAX_SLOTS ::
          && m'.slots[i].used == m.slots[i].used && m'.slots[i].number == m.slots[i].number
          && (d in m'.slots[i].sent <==> d in m.slots[i].sent))
  }

  /** What a poll at `now` does for destination `d` and slot `i`, which is due at `due`. */
  ghost predicate Serves(d: nat, i: nat, due: int, now: int, takes: bool, m: Mailbox.Mail, m': Mailbox.Mail)
    requires Mailbox.Shaped(m) && Mailbox.Shaped(m') && d < Mailbox.DESTINATIONS && i < Mailbox.MAX_SLOTS
  {
    var newest := Mailbox.Newest(m.history, m.slots[i].number);
    if now < due then SameFor(d, m, m')
    else
      m.slots[i].used && d !in m.slots[i].sent ==>
        && newest !in m.handed[d]
        && (takes ==> d in m'.slots[i].sent && newest in m'.handed[d])
        && (!takes ==> d !in m'.slots[i].sent)
  }

  lemma OthersOffers(m: Mailbox.Mail, dest: nat, d: nat, taken: seq<bool>)
    requires Mailbox.Inv(m) && dest < Mailbox.DESTINATIONS && d < Mailbox.DESTINATIONS && d != dest
    requires |taken| == Mailbox.MAX_SLOTS
    ensures Mailbox.Shaped(m) && SameFor(d, m, Mailbox.Offers(m, dest, taken, Mailbox.MAX_SLOTS))
  {
    assert Mailbox.Shaped(m);
    hide Mailbox.Inv, Mailbox.Offers, Mailbox.Pending;
    Mailbox.OffersOnlyMark(m, dest, taken, Mailbox.MAX_SLOTS);
  }

  lemma OthersTick(m: Mailbox.Mail, dest: nat, d: nat, now: int, taken: seq<bool>)
    requires Mailbox.Inv(m) && dest < Mailbox.DESTINATIONS && d < Mailbox.DESTINATIONS && d != dest
    requires |taken| == Mailbox.MAX_SLOTS
    ensures Mailbox.Shaped(m) && SameFor(d, m, Mailbox.Tick(m, dest, now, taken))
    ensures Mailbox.Inv(Mailbox.Tick(m, dest, now, taken))
  {
    hide Mailbox.Inv, Mailbox.Offers;
    OthersOffers(m, dest, d, taken);
    SameAsIs(d, m);
    Mailbox.TickKeepsInv(m, dest, now, taken);
  }

  lemma OwnTick(trace: seq<Mailbox.Event>, m: Mailbox.Mail, d: nat, i: nat, now: int, taken: seq<bool>)
    requires MailIs(m, trace) && Mailbox.Inv(m) && d < Mailbox.DESTINATIONS && i < Mailbox.MAX_SLOTS
    requires |taken| == Mailbox.MAX_SLOTS
    ensures Serves(d, i, m.deadlines[d], now, taken[i], m, Mailbox.Tick(m, d, now, taken))
    ensures m.deadlines[d] == Mailbox.DueAt(trace, d)
  {
    Mailbox.PollsOnTime(trace, d, now, taken, i);
    Mailbox.DeadlineIsDueAt(trace, d);
    Mailbox.NotMarkedNotTaken(m, d, i);
    hide Mailbox.Inv, Mailbox.Run, Mailbox.Tick, Mailbox.DueAt;
    assert now < m.deadlines[d] ==> Mailbox.Tick(m, d, now, taken) == m;
  }

  lemma SameServes(d: nat, i: nat, due: int, now: int, takes: bool, m: Mailbox.Mail, m1: Mailbox.Mail,
                   m2: Mailbox.Mail, m': Mailbox.Mail)
    requires SameFor(d, m, m1) && SameFor(d, m2, m') && i < Mailbox.MAX_SLOTS && Mailbox.Shaped(m2)
    requires Serves(d, i, due, now, takes, m1, m2)
    ensures Serves(d, i, due, now, takes, m, m')
  {
  }

  lemma SameTwice(d: nat, m: Mailbox.Mail, m1: Mailbox.Mail, m2: Mailbox.Mail)
    requires SameFor(d, m, m1) && SameFor(d, m1, m2)
    ensures SameFor(d, m, m2)
  {
  }

  lemma SameAsIs(d: nat, m: Mailbox.Mail)
    requires Mailbox.Shaped(m) && d < Mailbox.DESTINATIONS
    ensures SameFor(d, m, m)
  {
  }

  /** A mailbox that a run has left, which is therefore in order. */
  ghost predicate Left(m: Mailbox.Mail, trace: seq<Mailbox.Event>) {
    MailIs(m, trace) && Mailbox.Inv(m) && Mailbox.Shaped(m)
  }

  lemma LeftNext(m: Mailbox.Mail, trace: seq<Mailbox.Event>, dest: nat, now: int, taken: seq<bool>)
    requires MailIs(m, trace) && dest < Mailbox.DESTINATIONS && |taken| == Mailbox.MAX_SLOTS
    ensures Left(m, trace)
    ensures Left(Mailbox.Tick(m, dest, now, taken), trace + [Mailbox.Polled(dest, now, taken)])
  {
    Mailbox.RunKeepsInv(trace);
    MailNext(m, trace, Mailbox.Polled(dest, now, taken));
    Mailbox.TickKeepsInv(m, dest, now, taken);
    hide Mailbox.Tick, Mailbox.Run;
  }

  /** The three ticks of a poll, one after another. */
  lemma ThreeTicks(trace: seq<Mailbox.Event>, m: Mailbox.Mail, now: int, answers: seq<seq<bool>>)
      returns (m1: Mailbox.Mail, m2: Mailbox.Mail)
    requires MailIs(m, trace) && LegalAnswers(answers)
    ensures Left(m, trace) && m1 == Mailbox.Tick(m, 0, now, answers[0])
    ensures var e0, e1 := Mailbox.Polled(0, now, answers[0]), Mailbox.Polled(1, now, answers[1]);
      Left(m1, trace + [e0]) && Left(m2, trace + [e0] + [e1])
    ensures m2 == Mailbox.Tick(m1, 1, now, answers[1])
    ensures Mailbox.Shaped(m2) && Mailbox.Tick(m2, 2, now, answers[2]) == TickAll(m, now, answers)
  {
    hide Mailbox.Tick, Mailbox.Inv, MailIs;
    var e0, e1 := Mailbox.Polled(0, now, answers[0]), Mailbox.Polled(1, now, answers[1]);
    LeftNext(m, trace, 0, now, answers[0]);
    m1 := Mailbox.Tick(m, 0, now, answers[0]);
    LeftNext(m1, trace + [e0], 1, now, answers[1]);
    m2 := Mailbox.Tick(m1, 1, now, answers[1]);
  }

  lemma PollServes(trace: seq<Mailbox.Event>, m: Mailbox.Mail, d: nat, i: nat, now: int, answers: seq<seq<bool>>)
    requires MailIs(m, trace) && LegalAnswers(answers) && d < Mailbox.DESTINATIONS && i < Mailbox.MAX_SLOTS
    ensures Mailbox.Shaped(m) && Mailbox.Shaped(TickAll(m, now, answers))
    ensures Serves(d, i, Mailbox.DueAt(trace, d), now, answers[d][i], m, TickAll(m, now, answers))
  {
    hide Mailbox.Tick, SameFor, Serves, Mailbox.DueAt, Mailbox.Inv, MailIs, TickAll;
    var m1, m2 := ThreeTicks(trace, m, now, answers);
    var m3 := Mailbox.Tick(m2, 2, now, answers[2]);
    var e0, e1 := Mailbox.Polled(0, now, answers[0]), Mailbox.Polled(1, now, answers[1]);
    if d == 0 {
      SameAsIs(0, m);
      OwnTick(trace, m, 0, i, now, answers[0]);
      OthersTick(m1, 1, 0, now, answers[1]);
      OthersTick(m2, 2, 0, now, answers[2]);
      SameTwice(0, m1, m2, m3);
      SameServes(0, i, Mailbox.DueAt(trace, 0), now, answers[0][i], m, m, m1, m3);
    } else if d == 1 {
      OthersTick(m, 0, 1, now, answers[0]);
      OwnTick(trace + [e0], m1, 1, i, now, answers[1]);
      OthersTick(m2, 2, 1, now, answers[2]);
      OtherPoll(trace, e0, 1);
      SameServes(1, i, Mailbox.DueAt(trace, 1), now, answers[1][i], m, m1, m2, m3);
    } else {
      SameAsIs(2, m3);
      OthersTick(m, 0, 2, now, answers[0]);
      OthersTick(m1, 1, 2, now, answers[1]);
      SameTwice(2, m, m1, m2);
      OwnTick(trace + [e0] + [e1], m2, 2, i, now, answers[2]);
      OtherPoll(trace, e0, 2);
      OtherPoll(trace + [e0], e1, 2);
      SameServes(2, i, Mailbox.DueAt(trace, 2), now, answers[2][i], m, m2, m3, m3);
    }
  }

  lemma OtherPoll(trace: seq<Mailbox.Event>, e: Mailbox.Event, d: nat)
    requires e.Polled? && e.dest != d
    ensures Mailbox.DueAt(trace + [e], d) == Mailbox.DueAt(trace, d)
  {
    var longer := trace + [e];
    assert longer[..|longer| - 1] == trace && longer[|longer| - 1] == e;
  }

  /** The same for the station: a poll at `now`, in any run from the start, hands destination `d`
      every newest frame that it has not got and takes, if 200 ms have passed since the last poll
      that did so (or 200 ms and its share of the stagger since the last discard), and otherwise
      leaves everything about it as it was. */
  lemma StationPollsOnTime(atBoot: bool, havePosition: bool, at: int, events: seq<Event>, d: nat, i: nat,
                           now: int, answers: seq<seq<bool>>)
    requires AllLegal(events) && LegalAnswers(answers) && d < Mailbox.DESTINATIONS && i < Mailbox.MAX_SLOTS
    ensures Inv(BootedStation(atBoot, havePosition, at))
    ensures var s := Run(BootedStation(atBoot, havePosition, at), events);
      var s' := Next(s, Poll(now, answers));
      Receiving(s.gate) ==>
        && Mailbox.Shaped(s.mail) && Mailbox.Shaped(s'.mail)
        && Serves(d, i, Mailbox.DueAt(Trace(atBoot, havePosition, at, events), d), now, answers[d][i],
                  s.mail, s'.mail)
  {
    StationMail(atBoot, havePosition, at, events);
    var s := Run(BootedStation(atBoot, havePosition, at), events);
    hide BootedStation, Run, Trace, Serves, TickAll, Inv, MailIs, Mailbox.DueAt;
    if Receiving(s.gate) {
      PollServes(Trace(atBoot, havePosition, at, events), s.mail, d, i, now, answers);
    }
  }
}
