/** The local caster's queue. */
module CasterQueue {
  import opened Bits
  import opened Common
  import opened LocalCaster
  import SendLoop

  // As for the upstream clients, a bystander keeps books over a whole run. Here it is the new packet
  // that is lost when the queue is full.

  /** The packets that came in while the caster ran and there was room, in that order; the numbers
      of those broadcast; and how many were in the queue when it was thrown away. */
  datatype Books = Books(entered: seq<Packet>, taken: seq<nat>, thrownAway: nat)

  const EMPTY := Books([], [], 0)

  /** The first 1200 bytes. */
  function Beginning(data: seq<byte>): (p: Packet) {
    if |data| <= 1200 then data else data[..1200]
  }

  function Booked(b: Books, c: Caster, event: Event, c': Caster): Books {
    match event
    case Pushed(data) =>
      if data != [] && !c.suspended && |c.queue| < 16 then b.(entered := b.entered + [Beginning(data)]) else b
    case Worker(_) =>
      if c.suspended || c.resetClients then b.(thrownAway := b.thrownAway + |c.queue|)
      else if |c'.broadcasts| > |c.broadcasts| && |c.queue| <= |b.entered|
      then b.(taken := b.taken + [|b.entered| - |c.queue|])
      else b
    case Suspend(_) => b
  }

  ghost predicate AllLegal(events: seq<Event>) {
    forall i | 0 <= i < |events| :: Legal(events[i])
  }

  function RunFromStart(events: seq<Event>): (c: Caster)
    requires AllLegal(events)
    ensures Inv(c)
    decreases |events|
  {
    StartInv();
    if events == [] then START
    else
      var last := events[|events| - 1];
      var c := RunFromStart(events[..|events| - 1]);
      ApplyKeepsInv(c, last);
      Apply(c, last)
  }

  function Kept(events: seq<Event>): Books
    requires AllLegal(events)
    decreases |events|
  {
    if events == [] then EMPTY
    else
      var init := events[..|events| - 1];
      Booked(Kept(init), RunFromStart(init), events[|events| - 1], RunFromStart(events))
  }

  lemma {:induction false} SameRun(c: Caster, events: seq<Event>, last: Event)
    requires Inv(c) && AllLegal(events) && Legal(last)
    ensures AllLegal(events + [last])
    ensures Inv(Run(c, events)) && Run(c, events + [last]) == Apply(Run(c, events), last)
    decreases |events|
  {
    hide Inv, Apply;
    if events == [] {
      assert events + [last] == [last] && [last][1..] == [];
    } else {
      ApplyKeepsInv(c, events[0]);
      SameRun(Apply(c, events[0]), events[1..], last);
      assert (events + [last])[1..] == events[1..] + [last];
    }
  }

  /** The run is the one the other properties of the caster speak of. */
  lemma {:induction false} RunsAgree(events: seq<Event>)
    requires AllLegal(events)
    ensures Inv(START) && RunFromStart(events) == Run(START, events)
    decreases |events|
  {
    hide Inv, Apply;
    StartInv();
    if events != [] {
      var n := |events| - 1;
      RunsAgree(events[..n]);
      SameRun(START, events[..n], events[n]);
      assert events[..n] + [events[n]] == events;
    }
  }

  // ------------------------------------------------------------------------- one turn

  /** All that closing or serving the clients leaves alone. */
  ghost predicate SameRest(c: Caster, c': Caster) {
    && c'.queue == c.queue && c'.broadcasts == c.broadcasts && c'.resetClients == c.resetClients
    && c'.suspended == c.suspended && c'.listening == c.listening && |c'.slots| == |c.slots|
  }

  lemma {:induction false} ClosingKeepsRest(c: Caster, k: nat)
    requires k <= |c.slots|
    ensures SameRest(c, CloseFirst(c, k))
    decreases k
  {
    if k > 0 {
      ClosingKeepsRest(c, k - 1);
    }
  }

  lemma {:induction false} OffersKeepRest(c: Caster, p: Packet, scripts: seq<seq<SendLoop.Attempt>>, k: nat)
    requires |c.slots| == |scripts| && k <= |scripts|
    ensures SameRest(c, OfferFirst(c, p, scripts, k))
    decreases k
  {
    hide SendLoop.Sent, SendLoop.LocalEffects;
    if k > 0 {
      OffersKeepRest(c, p, scripts, k - 1);
    }
  }

  /** The socket takes all of the data. */
  predicate TakesAll(script: seq<SendLoop.Attempt>, data: seq<byte>) {
    SendLoop.Sent(SendLoop.LocalEffects(script), |data|, 0, 0, 10) == |data|
  }

  /** Each client is served on its own: it has the whole packet, or its slot is free. */
  ghost predicate Served(before: Slot, after: Slot, p: Packet, script: seq<SendLoop.Attempt>) {
    if before.Open? && TakesAll(script, p) then after == before.(bytes := before.bytes + p) else after.Free?
  }

  lemma {:induction false} OffersServe(c: Caster, p: Packet, scripts: seq<seq<SendLoop.Attempt>>, k: nat, i: nat)
    requires |c.slots| == |scripts| && k <= |scripts| && i < |scripts|
    ensures var c' := OfferFirst(c, p, scripts, k);
      if i < k then Served(c.slots[i], c'.slots[i], p, scripts[i]) else c'.slots[i] == c.slots[i]
    decreases k
  {
    hide SendLoop.Sent, SendLoop.LocalEffects;
    if k > 0 {
      OffersServe(c, p, scripts, k - 1, i);
    }
  }

  lemma AcceptKeepsRest(c: Caster, incoming: Incoming)
    ensures SameRest(c, Accept(c, incoming))
  {
    hide SendLoop.Sent, SendLoop.LocalEffects, FirstFree, GREETING;
  }

  /** The caller asks for the stream, takes the whole greeting, and there is a slot free: it has the
      first one. Otherwise nobody joins. */
  lemma CallerJoins(c: Caster, incoming: Incoming, i: nat)
    requires i < |c.slots|
    ensures var joins := incoming.Caller? && incoming.wantsStream && TakesAll(incoming.script, GREETING);
      Accept(c, incoming).slots[i]
      == if joins && c.slots[i].Free? && (forall j | 0 <= j < i :: c.slots[j].Open?)
         then Open(incoming.ipv4, |c.broadcasts|, GREETING) else c.slots[i]
  {
    hide SendLoop.Sent, SendLoop.LocalEffects, GREETING;
    var r := FirstFree(c.slots);
    hide FirstFree;
    if r.Some? && i > r.value {
      assert c.slots[r.value].Free?;
    }
  }

  lemma GreetingIs()
    ensures |GREETING| == 14
    ensures forall i | 0 <= i < 14 :: GREETING[i] as int == "ICY 200 OK\r\n\r\n"[i] as int
  {
  }

  /** A caster that runs, with its listener open or opening. */
  predicate Serving(c: Caster, e: Surroundings) {
    !c.suspended && !c.resetClients && (c.listening || e.listener.Opens?)
  }

  /** Its turn takes the oldest packet, and every client, the one that has just joined included, has
      it whole afterwards or is gone. */
  lemma TurnServes(c: Caster, e: Surroundings, i: nat)
    requires Serving(c, e) && |c.slots| == |e.scripts| && i < |c.slots|
    ensures var c', joined := Turn(c, e), Accept(c, e.incoming);
      && |c'.slots| == |joined.slots| == |c.slots|
      && (c.queue != [] ==>
            && c'.queue == c.queue[1..] && c'.broadcasts == c.broadcasts + [c.queue[0]]
            && Served(joined.slots[i], c'.slots[i], c.queue[0], e.scripts[i]))
      && (c.queue == [] ==> c'.queue == [] && c'.broadcasts == c.broadcasts && c'.slots[i] == joined.slots[i])
  {
    hide SendLoop.Sent, SendLoop.LocalEffects, OfferFirst, Served;
    var c0 := c.(listening := true);
    AcceptKeepsRest(c0, e.incoming);
    AcceptKeepsRest(c, e.incoming);
    var c1 := Accept(c0, e.incoming);
    assert c1.slots == Accept(c, e.incoming).slots;
    hide Accept;
    if c1.queue != [] {
      var p, rest := c1.queue[0], c1.(queue := c1.queue[1..]);
      OffersKeepRest(rest, p, e.scripts, |e.scripts|);
      OffersServe(rest, p, e.scripts, |e.scripts|, i);
    }
  }

  /** Any other turn broadcasts nothing; a suspended caster or one that has to drop its clients throws
      the queue away. */
  lemma OtherTurns(c: Caster, e: Surroundings)
    requires !Serving(c, e) && |c.slots| == |e.scripts|
    ensures Turn(c, e).broadcasts == c.broadcasts
    ensures Turn(c, e).queue == if c.suspended || c.resetClients then [] else c.queue
  {
    ClosingKeepsRest(c, |c.slots|);
    var c1 := Reset(c);
    hide CloseFirst;
    if !c.suspended {
      ClosingKeepsRest(c1, |c1.slots|);
      AcceptKeepsRest(c1.(listening := true), e.incoming);
      hide Accept, Broadcast;
    }
  }

  // ------------------------------------------------------------------------- whole runs

  /** The queue is the newest of what entered. */
  ghost predicate Newest(queue: seq<Packet>, entered: seq<Packet>) {
    |queue| <= |entered| && queue == entered[|entered| - |queue|..]
  }

  /** What was broadcast is older, in order and each once. */
  ghost predicate AreTaken(taken: seq<nat>, entered: seq<Packet>, queue: seq<Packet>, broadcasts: seq<Packet>) {
    && |taken| == |broadcasts|
    && (forall i | 0 <= i < |taken| :: taken[i] < |entered| - |queue| && entered[taken[i]] == broadcasts[i])
    && (forall i, j | 0 <= i < j < |taken| :: taken[i] < taken[j])
  }

  /** And every packet that entered was broadcast, thrown away or is still there. */
  ghost predicate Balanced(c: Caster, b: Books) {
    && |c.queue| <= 16 && Newest(c.queue, b.entered)
    && AreTaken(b.taken, b.entered, c.queue, c.broadcasts)
    && |b.entered| == |b.taken| + b.thrownAway + |c.queue|
  }

  lemma PushBalances(c: Caster, data: seq<byte>, b: Books)
    requires Balanced(c, b)
    ensures Balanced(Push(c, data), Booked(b, c, Pushed(data), Push(c, data)))
  {
  }

  /** One packet taken from the front. */
  lemma FrontTaken(b: Books, queue: seq<Packet>, broadcasts: seq<Packet>)
    requires Newest(queue, b.entered) && AreTaken(b.taken, b.entered, queue, broadcasts) && queue != []
    ensures Newest(queue[1..], b.entered) && Newest([], b.entered)
    ensures AreTaken(b.taken + [|b.entered| - |queue|], b.entered, queue[1..], broadcasts + [queue[0]])
  {
  }

  lemma NoneTaken(b: Books, queue: seq<Packet>, broadcasts: seq<Packet>)
    requires Newest(queue, b.entered) && AreTaken(b.taken, b.entered, queue, broadcasts)
    ensures Newest([], b.entered) && AreTaken(b.taken, b.entered, [], broadcasts) && |queue| <= |b.entered|
  {
  }

  /** What a turn does to the queue and to what was broadcast. */
  ghost predicate Takes(c: Caster, c': Caster) {
    if c.suspended || c.resetClients then c'.queue == [] && c'.broadcasts == c.broadcasts
    else
      || (c'.queue == c.queue && c'.broadcasts == c.broadcasts)
      || (c.queue != [] && c'.queue == c.queue[1..] && c'.broadcasts == c.broadcasts + [c.queue[0]])
  }

  lemma TurnTakes(c: Caster, e: Surroundings)
    requires |c.slots| == |e.scripts| && |c.slots| > 0
    ensures Takes(c, Turn(c, e))
  {
    hide Turn, Accept, Served;
    if Serving(c, e) {
      TurnServes(c, e, 0);
    } else {
      OtherTurns(c, e);
    }
  }

  lemma TakingBalances(c: Caster, e: Surroundings, c': Caster, b: Books)
    requires Takes(c, c') && Balanced(c, b)
    ensures Balanced(c', Booked(b, c, Worker(e), c'))
  {
    hide Newest, AreTaken;
    NoneTaken(b, c.queue, c.broadcasts);
    if c.queue != [] {
      FrontTaken(b, c.queue, c.broadcasts);
    }
  }

  lemma TurnBalances(c: Caster, e: Surroundings, b: Books)
    requires Inv(c) && |e.scripts| == MAX_CLIENTS && Balanced(c, b)
    ensures Balanced(Turn(c, e), Booked(b, c, Worker(e), Turn(c, e)))
  {
    SlotsFit(c);
    hide *;
    TurnTakes(c, e);
    TakingBalances(c, e, Turn(c, e), b);
  }

  lemma EventBalances(c: Caster, event: Event, b: Books)
    requires Inv(c) && Legal(event) && Balanced(c, b)
    ensures Balanced(Apply(c, event), Booked(b, c, event, Apply(c, event)))
  {
    hide Inv, Turn, Push, Balanced, Booked;
    match event {
      case Worker(e) => TurnBalances(c, e, b);
      case Pushed(data) => PushBalances(c, data, b);
      case Suspend(v) => SwitchBalances(c, v, b);
    }
  }

  lemma SwitchBalances(c: Caster, v: bool, b: Books)
    requires Balanced(c, b)
    ensures Balanced(SetSuspended(c, v), Booked(b, c, Suspend(v), SetSuspended(c, v)))
  {
  }

  lemma {:induction false} BooksBalance(events: seq<Event>)
    requires AllLegal(events)
    ensures Balanced(RunFromStart(events), Kept(events))
    decreases |events|
  {
    if events == [] {
    } else {
      hide Balanced, Apply, Booked, Inv;
      var n := |events| - 1;
      BooksBalance(events[..n]);
      EventBalances(RunFromStart(events[..n]), events[n], Kept(events[..n]));
    }
  }

  /** In every run of turns and calls, whatever the clients do: a packet enters exactly if the caster
      runs and there are fewer than sixteen waiting; those broadcast are taken from the front, in
      order and each once; and the others wait, or were thrown away with the whole queue. */
  lemma QueueKeepsOrder(events: seq<Event>)
    requires AllLegal(events)
    ensures Inv(START) && Balanced(Run(START, events), Kept(events))
  {
    hide *;
    RunsAgree(events);
    BooksBalance(events);
  }
}
