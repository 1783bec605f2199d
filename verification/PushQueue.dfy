/** An upstream client's queue. */
module PushQueue {
  import opened Bits
  import opened Common
  import opened NtripPush

  // A bystander keeps books over a whole run: the packets push accepted, in that order; the numbers
  // of those the worker took; how many found the queue full; and how many were in it when the
  // worker threw it away. The queue's contents and its counter are told by these books.

  datatype Books = Books(entered: seq<Packet>, taken: seq<nat>, foundFull: nat, thrownAway: nat)

  const EMPTY := Books([], [], 0, 0)

  /** The first 1200 bytes. */
  function Beginning(data: seq<byte>): Packet {
    if |data| <= 1200 then data else data[..1200]
  }

  /** The books after one event, which took the client from `c` to `c'`. */
  function Booked(b: Books, c: Client, event: Event, c': Client): Books {
    match event
    case Pushed(data) =>
      if data != [] && !c.suspended && c.connected then
        b.(entered := b.entered + [Beginning(data)], foundFull := b.foundFull + if |c.queue| == 8 then 1 else 0)
      else b
    case Worker(_) =>
      if c.suspended || !c.enabled || c.reconnect then b.(thrownAway := b.thrownAway + |c.queue|)
      else if |c'.wire.dequeued| > |c.wire.dequeued| && |c.queue| <= |b.entered|
      then b.(taken := b.taken + [|b.entered| - |c.queue|])
      else b
    case _ => b
  }

  function Kept(events: seq<Event>): Books
    decreases |events|
  {
    if events == [] then EMPTY
    else
      var init := events[..|events| - 1];
      Booked(Kept(init), Run(START, init), events[|events| - 1], Run(START, events))
  }

  /** The queue is the newest of what entered. */
  ghost predicate Newest(queue: seq<Packet>, entered: seq<Packet>) {
    |queue| <= |entered| && queue == entered[|entered| - |queue|..]
  }

  /** What was taken is older, in order and each once. */
  ghost predicate AreTaken(taken: seq<nat>, entered: seq<Packet>, queue: seq<Packet>, dequeued: seq<Packet>) {
    && |taken| == |dequeued|
    && (forall i | 0 <= i < |taken| :: taken[i] < |entered| - |queue| && entered[taken[i]] == dequeued[i])
    && (forall i, j | 0 <= i < j < |taken| :: taken[i] < taken[j])
  }

  /** And every packet that entered was taken, lost, thrown away or is still there. */
  ghost predicate Balanced(c: Client, b: Books) {
    && |c.queue| <= 8 && Newest(c.queue, b.entered)
    && AreTaken(b.taken, b.entered, c.queue, c.wire.dequeued)
    && c.droppedBatches == b.foundFull
    && |b.entered| == |b.taken| + b.foundFull + b.thrownAway + |c.queue|
  }

  lemma NewestGrows(queue: seq<Packet>, entered: seq<Packet>, p: Packet)
    requires Newest(queue, entered)
    ensures Newest(queue + [p], entered + [p])
    ensures queue != [] ==> Newest(queue[1..] + [p], entered + [p])
  {
  }

  lemma TakenStay(taken: seq<nat>, entered: seq<Packet>, queue: seq<Packet>, dequeued: seq<Packet>, p: Packet)
    requires AreTaken(taken, entered, queue, dequeued)
    ensures AreTaken(taken, entered + [p], queue + [p], dequeued)
    ensures queue != [] ==> AreTaken(taken, entered + [p], queue[1..] + [p], dequeued)
  {
  }

  lemma PushBalances(c: Client, data: seq<byte>, b: Books)
    requires Balanced(c, b)
    ensures Balanced(Push(c, data), Booked(b, c, Pushed(data), Push(c, data)))
  {
    assert Truncated(data) == Beginning(data);
    hide Truncated, Beginning, Newest, AreTaken;
    NewestGrows(c.queue, b.entered, Truncated(data));
    TakenStay(b.taken, b.entered, c.queue, c.wire.dequeued, Truncated(data));
  }

  /** One packet taken from the front. */
  lemma FrontTaken(b: Books, queue: seq<Packet>, dequeued: seq<Packet>)
    requires Newest(queue, b.entered) && AreTaken(b.taken, b.entered, queue, dequeued) && queue != []
    ensures Newest(queue[1..], b.entered) && Newest([], b.entered)
    ensures AreTaken(b.taken + [|b.entered| - |queue|], b.entered, queue[1..], dequeued + [queue[0]])
  {
  }

  lemma NoneTaken(b: Books, queue: seq<Packet>, dequeued: seq<Packet>)
    requires Newest(queue, b.entered) && AreTaken(b.taken, b.entered, queue, dequeued)
    ensures Newest([], b.entered) && AreTaken(b.taken, b.entered, [], dequeued) && |queue| <= |b.entered|
  {
  }

  lemma TurnBalances(c: Client, e: Surroundings, b: Books)
    requires Balanced(c, b)
    ensures Balanced(Turn(c, e), Booked(b, c, Worker(e), Turn(c, e)))
  {
    hide Turn, Newest, AreTaken;
    TurnTakes(c, e);
    NoneTaken(b, c.queue, c.wire.dequeued);
    if c.queue != [] {
      FrontTaken(b, c.queue, c.wire.dequeued);
    }
  }

  lemma EventBalances(c: Client, event: Event, b: Books)
    requires Balanced(c, b)
    ensures Balanced(Apply(c, event), Booked(b, c, event, Apply(c, event)))
  {
    match event {
      case Worker(e) =>
        hide Turn, Balanced, Booked;
        TurnBalances(c, e, b);
      case Pushed(data) =>
        hide Push, Balanced, Booked;
        PushBalances(c, data, b);
      case _ =>
        hide Newest, AreTaken;
    }
  }

  lemma RunSnoc(c: Client, events: seq<Event>, last: Event)
    ensures Run(c, events + [last]) == Apply(Run(c, events), last)
  {
    hide Apply;
    RunConcat(c, events, [last]);
    assert [last][1..] == [];
  }

  /** In every run of turns and calls, whatever the network does: the queue holds the newest of the
      packets push accepted; what the worker takes it takes from the front, in order and each once;
      a packet is lost, and counted, exactly when push finds eight in the queue, and it is the
      oldest of them; all others are taken, or thrown away with the whole queue. */
  lemma {:induction false} QueueHoldsNewest(events: seq<Event>)
    ensures Balanced(Run(START, events), Kept(events))
    decreases |events|
  {
    if events != [] {
      hide Balanced, Apply, Run, Booked;
      var n := |events| - 1;
      QueueHoldsNewest(events[..n]);
      assert events == events[..n] + [events[n]];
      RunSnoc(START, events[..n], events[n]);
      EventBalances(Run(START, events[..n]), events[n], Kept(events[..n]));
    }
  }

  // ---------------------------------------------------------------- what a turn must do

  /** A client that runs, has a connection and nothing else to see to. */
  predicate Ready(c: Client, e: Surroundings) {
    && !c.suspended && c.enabled && !c.reconnect && c.socketOpen
    && Staggered(c, e)
  }

  /** Its share of the time after a resume is over. */
  predicate Staggered(c: Client, e: Surroundings) {
    c.resumedUs <= 0 || e.staggerMs == 0 || c.pace.clockUs - c.resumedUs >= e.staggerMs * 1000
  }

  /** Packets have gone out since five seconds, this one included. */
  predicate FiveHealthySeconds(c: Client, e: Surroundings) {
    c.pace.healthySinceUs != 0 && c.pace.clockUs + e.sendUs - c.pace.healthySinceUs >= 5_000_000
  }

  /** Its turn takes the oldest packet and sends it: whole, over the same connection, if the socket's
      answers carry all of it, and otherwise the beginning that they carry, after which the
      connection is closed and the failure counted. */
  lemma ReadyClientSends(c: Client, e: Surroundings)
    requires Ready(c, e) && c.queue != []
    ensures var c' := Turn(c, e);
      var p, sent := c.queue[0], SendLoop.Sent(SendLoop.UpstreamEffects(e.answers), |c.queue[0]|, 0, 0, 8);
      && c'.queue == c.queue[1..] && c'.wire.dequeued == c.wire.dequeued + [p]
      && (sent == |p| ==>
            && c'.socketOpen && c'.pace.failures == (if FiveHealthySeconds(c, e) then 0 else c.pace.failures)
            && c'.wire.bytes == c.wire.bytes + p && c'.wire.packets == c.wire.packets + [p])
      && (sent < |p| ==>
            && !c'.socketOpen && !c'.connected && c'.pace.failures == c.pace.failures + 1
            && |c'.wire.finished| == |c.wire.finished| + 1
            && c'.wire.finished[|c.wire.finished|].bytes == c.wire.bytes + p[..sent])
  {
    hide SendLoop.Sent, SendLoop.UpstreamEffects, RetryDelayMs;
  }

  /** A client that runs and has no connection attempts one, and has one afterwards exactly if the
      socket opens, the whole request goes out and the caster accepts it. */
  lemma IdleClientConnects(c: Client, e: Surroundings)
    requires !c.suspended && c.enabled && !c.reconnect && !c.socketOpen && c.queue == []
    requires Staggered(c, e)
    ensures var c' := Turn(c, e);
      && c'.pace.attempts == c.pace.attempts + [c.pace.clockUs]
      && (c'.socketOpen <==>
            e.opens && e.accepted
            && SendLoop.Sent(SendLoop.UpstreamEffects(e.handshake), |e.request|, 0, 0, 8) == |e.request|)
      && (c'.socketOpen ==> c'.connected && c'.wire.bytes == e.request)
      && (!c'.socketOpen ==> c'.pace.failures == c.pace.failures + 1)
  {
    hide SendLoop.Sent, SendLoop.UpstreamEffects, RetryDelayMs;
  }

  /** Neither runs nor connects: suspended or switched off, or waiting its share after a resume. */
  lemma OtherwiseStill(c: Client, e: Surroundings)
    requires c.suspended || !c.enabled
             || (!c.reconnect && !Staggered(c, e))
    ensures var c' := Turn(c, e);
      && c'.wire.dequeued == c.wire.dequeued && c'.pace.attempts <= c.pace.attempts && !c'.connected
      && c'.pace.clockUs == c.pace.clockUs + 250_000 + e.sleepUs
      && (c.suspended || !c.enabled ==> !c'.socketOpen && c'.queue == [])
  {
    hide ConnectAndServe;
  }

  /** A suspended client, one that is switched off and one with a new configuration close the
      connection they have, as it is; the last one then starts afresh: nothing of the queue goes out,
      and no failure counts any more when it attempts its next connection. */
  lemma ClosesFirst(c: Client, e: Surroundings)
    requires c.suspended || !c.enabled || c.reconnect
    ensures var c', n := Turn(c, e), |c.wire.finished|;
      && (c.socketOpen ==> |c'.wire.finished| > n && c'.wire.finished[n].bytes == c.wire.bytes)
      && c'.queue == [] && c'.wire.dequeued == c.wire.dequeued
      && (c.suspended || !c.enabled ==> c'.pace.failures == 0 && c'.pace.attempts == [])
      && (!c.suspended && c.enabled ==>
            && !c'.reconnect
            && (Staggered(c, e) ==> c'.pace.attempts == [c.pace.clockUs] && c'.pace.failures <= 1)
            && (!Staggered(c, e) ==> c'.pace.attempts == [] && !c'.socketOpen))
  {
    if !c.suspended && c.enabled {
      hide SendLoop.Sent, SendLoop.UpstreamEffects, RetryDelayMs, StaggerAndServe;
      StartsAfresh(Reconfigured(c), e);
    }
  }

  lemma StartsAfresh(c: Client, e: Surroundings)
    requires !c.socketOpen && c.queue == [] && c.pace.attempts == [] && c.pace.failures == 0
    ensures var c' := StaggerAndServe(c, e);
      && c.wire.finished <= c'.wire.finished && c'.queue == [] && c'.wire.dequeued == c.wire.dequeued
      && c'.reconnect == c.reconnect
      && (Staggered(c, e) ==> c'.pace.attempts == [c.pace.clockUs] && c'.pace.failures <= 1)
      && (!Staggered(c, e) ==> c'.pace.attempts == [] && !c'.socketOpen)
  {
    ConnectsOnce(c, e);
    ConnectsOnce(c.(resumedUs := 0), e);
    hide ConnectAndServe;
  }

  lemma ConnectsOnce(c: Client, e: Surroundings)
    requires !c.socketOpen && c.queue == []
    ensures var c' := ConnectAndServe(c, e);
      && c.wire.finished <= c'.wire.finished && c'.queue == [] && c'.wire.dequeued == c.wire.dequeued
      && c'.reconnect == c.reconnect
      && c'.pace.attempts == c.pace.attempts + [c.pace.clockUs] && c'.pace.failures <= c.pace.failures + 1
  {
    hide SendLoop.Sent, SendLoop.UpstreamEffects, RetryDelayMs;
  }
}
