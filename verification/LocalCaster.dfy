/** The caster for clients on the local network, main/local_caster.cpp. */
module LocalCaster {
  import opened Bits
  import opened Common
  import opened SendLoop

  const MAX_CLIENTS := 8
  const QUEUE_DEPTH := 16
  const MAX_PACKET := 1200

  type Packet = seq<byte>

  /** A client's slot: its address (0 when unknown), the number of packets that had been
      broadcast when it joined, and the bytes written to it since. */
  datatype Slot = Free | Open(ipv4: nat, joined: nat, bytes: seq<byte>)

  /** A client that is gone: what it had received, and the packet it was dropped in, if any. */
  datatype Gone = Gone(joined: nat, left: nat, bytes: seq<byte>, cut: Packet)

  datatype Caster = Caster(
    suspended: bool,
    resetClients: bool,
    listening: bool,
    slots: seq<Slot>,
    queue: seq<Packet>,
    // seen by a bystander
    broadcasts: seq<Packet>,
    gone: seq<Gone>)

  const START := Caster(true, false, false, AllFree(MAX_CLIENTS), [], [], [])

  function AllFree(n: nat): (slots: seq<Slot>)
    ensures |slots| == n && forall i | 0 <= i < n :: slots[i].Free?
  {
    seq(n, _ => Free)
  }

  function Flatten(packets: seq<Packet>): seq<byte>
    decreases |packets|
  {
    if packets == [] then [] else Flatten(packets[..|packets| - 1]) + packets[|packets| - 1]
  }

  // -------------------------------------------------------------------- operations

  function SetSuspended(c: Caster, suspended: bool): Caster {
    c.(suspended := suspended, resetClients := suspended || c.resetClients)
  }

  /** push: when the queue is full the new packet is the one that is lost. */
  function Push(c: Caster, data: seq<byte>): Caster {
    if data == [] || c.suspended || |c.queue| >= QUEUE_DEPTH then
      c
    else
      c.(queue := c.queue + [if |data| <= MAX_PACKET then data else data[..MAX_PACKET]])
  }

  function CloseSlot(c: Caster, i: nat, cut: Packet, sent: nat): Caster
    requires i < |c.slots| && sent <= |cut|
  {
    var s := c.slots[i];
    if s.Free? then c
    else c.(slots := c.slots[i := Free],
            gone := c.gone + [Gone(s.joined, |c.broadcasts|, s.bytes + cut[..sent], cut)])
  }

  /** The first `k` turns of close_clients. */
  function CloseFirst(c: Caster, k: nat): (c': Caster)
    requires k <= |c.slots|
    ensures |c'.slots| == |c.slots|
    decreases k
  {
    if k == 0 then c else CloseSlot(CloseFirst(c, k - 1), k - 1, [], 0)
  }

  function CloseClients(c: Caster): Caster {
    CloseFirst(c, |c.slots|)
  }

  /** One turn of the loop in broadcast; the packet counts as broadcast when the loop is done. */
  function Offer(c: Caster, i: nat, p: Packet, script: seq<Attempt>): Caster
    requires i < |c.slots|
  {
    var s := c.slots[i];
    var sent := Sent(LocalEffects(script), |p|, 0, 0, LOCAL_STALLS);
    if s.Free? then c
    else if sent == |p| then c.(slots := c.slots[i := s.(bytes := s.bytes + p)])
    else CloseSlot(c, i, p, sent)
  }

  function OfferFirst(c: Caster, p: Packet, scripts: seq<seq<Attempt>>, k: nat): (c': Caster)
    requires |c.slots| == |scripts| && k <= |scripts|
    ensures |c'.slots| == |c.slots|
    decreases k
  {
    if k == 0 then c else Offer(OfferFirst(c, p, scripts, k - 1), k - 1, p, scripts[k - 1])
  }

  function Broadcast(c: Caster, p: Packet, scripts: seq<seq<Attempt>>): Caster
    requires |c.slots| == |scripts|
  {
    var c' := OfferFirst(c, p, scripts, |scripts|);
    c'.(broadcasts := c.broadcasts + [p])
  }

  function FirstFree(slots: seq<Slot>): (r: Option<nat>)
    ensures r.Some? ==> r.value < |slots| && slots[r.value].Free?
    ensures r.Some? ==> forall i | 0 <= i < r.value :: slots[i].Open?
    ensures r.None? ==> forall i | 0 <= i < |slots| :: slots[i].Open?
    decreases |slots|
  {
    if slots == [] then
      None
    else
      match FirstFree(slots[..|slots| - 1])
      case Some(i) => Some(i)
      case None => if slots[|slots| - 1].Free? then Some(|slots| - 1) else None
  }

  /** "ICY 200 OK" and two line ends. */
  const GREETING: seq<byte> := [73, 67, 89, 32, 50, 48, 48, 32, 79, 75, 13, 10, 13, 10]

  /** accept_client: what came in, and whether it asked for the mount point. */
  datatype Incoming = Nobody | Caller(ipv4: nat, wantsStream: bool, script: seq<Attempt>)

  function Accept(c: Caster, incoming: Incoming): Caster {
    match incoming
    case Nobody => c
    case Caller(ipv4, wantsStream, script) =>
      if !wantsStream then
        c
      else
        match FirstFree(c.slots)
        case None => c
        case Some(i) =>
          if Sent(LocalEffects(script), |GREETING|, 0, 0, LOCAL_STALLS) < |GREETING| then c
          else c.(slots := c.slots[i := Open(ipv4, |c.broadcasts|, GREETING)])
  }

  /** How open_listener ends: a failing bind or listen closes everything, a failing socket does not. */
  datatype Listener = Opens | NoSocket | BindFails

  /** What the surroundings do during one turn of the run loop. */
  datatype Surroundings = Surroundings(listener: Listener, incoming: Incoming, scripts: seq<seq<Attempt>>)

  function Reset(c: Caster): Caster {
    if c.resetClients then CloseClients(c).(queue := [], resetClients := false) else c
  }

  function AcceptAndServe(c: Caster, e: Surroundings): Caster
    requires |c.slots| == |e.scripts|
  {
    var c1 := Accept(c, e.incoming);
    if c1.queue == [] then c1
    else Broadcast(c1.(queue := c1.queue[1..]), c1.queue[0], e.scripts)
  }

  function Turn(c: Caster, e: Surroundings): Caster
    requires |c.slots| == |e.scripts|
  {
    if c.suspended then
      CloseClients(c).(queue := [], listening := false)
    else
      Listen(Reset(c), e)
  }

  /** The part of a turn behind the reset. */
  function Listen(c: Caster, e: Surroundings): Caster
    requires |c.slots| == |e.scripts|
  {
    if c.listening || e.listener.Opens? then AcceptAndServe(c.(listening := true), e)
    else if e.listener.BindFails? then CloseClients(c)
    else c
  }

  // -------------------------------------------------------------------- what holds

  /** The client has received the greeting and every packet broadcast since it joined. */
  ghost predicate UpToDate(s: Slot, broadcasts: seq<Packet>) {
    s.Open? ==> s.joined <= |broadcasts| && s.bytes == GREETING + Flatten(broadcasts[s.joined..])
  }

  /** A client that left had received the greeting, every packet broadcast while it was there,
      and at most a strict beginning of the packet it was dropped in. */
  ghost predicate LeftCleanly(g: Gone, broadcasts: seq<Packet>) {
    && g.joined <= g.left <= |broadcasts|
    && var whole := GREETING + Flatten(broadcasts[g.joined..g.left]);
       && |g.bytes| >= |whole| && g.bytes[..|whole|] == whole
       && (if g.cut == [] then |g.bytes| == |whole|
           else |g.bytes| - |whole| < |g.cut| && g.bytes[|whole|..] == g.cut[..|g.bytes| - |whole|]
                && g.left < |broadcasts| && broadcasts[g.left] == g.cut)
  }

  ghost predicate Inv(c: Caster) {
    && |c.slots| == MAX_CLIENTS
    && |c.queue| <= QUEUE_DEPTH
    && (forall i | 0 <= i < |c.queue| :: 0 < |c.queue[i]| <= MAX_PACKET)
    && (forall i | 0 <= i < MAX_CLIENTS :: UpToDate(c.slots[i], c.broadcasts))
    && (forall i | 0 <= i < |c.gone| :: LeftCleanly(c.gone[i], c.broadcasts))
  }

  lemma FlattenSnoc(packets: seq<Packet>, p: Packet)
    ensures Flatten(packets + [p]) == Flatten(packets) + p
  {
    assert (packets + [p])[..|packets|] == packets;
  }

  lemma StillLeftCleanly(g: Gone, broadcasts: seq<Packet>, p: Packet)
    requires LeftCleanly(g, broadcasts)
    ensures LeftCleanly(g, broadcasts + [p])
  {
    assert (broadcasts + [p])[g.joined..g.left] == broadcasts[g.joined..g.left];
    hide Flatten;
  }

  lemma StaysUpToDate(s: Slot, broadcasts: seq<Packet>, p: Packet)
    requires s.Open? && UpToDate(s, broadcasts)
    ensures UpToDate(s.(bytes := s.bytes + p), broadcasts + [p])
  {
    assert (broadcasts + [p])[s.joined..] == broadcasts[s.joined..] + [p];
    FlattenSnoc(broadcasts[s.joined..], p);
    ConcatAssoc(GREETING, Flatten(broadcasts[s.joined..]), p);
    hide Flatten;
  }

  /** Leaving between two packets, or in the middle of the packet being broadcast. */
  lemma LeavesCleanly(s: Slot, broadcasts: seq<Packet>, p: Packet, sent: nat)
    requires s.Open? && UpToDate(s, broadcasts) && sent < |p|
    ensures LeftCleanly(Gone(s.joined, |broadcasts|, s.bytes + p[..sent], p), broadcasts + [p])
    ensures LeftCleanly(Gone(s.joined, |broadcasts|, s.bytes + [][..0], []), broadcasts)
  {
    assert (broadcasts + [p])[s.joined..|broadcasts|] == broadcasts[s.joined..];
    assert broadcasts[s.joined..|broadcasts|] == broadcasts[s.joined..];
    hide Flatten;
    assert (s.bytes + p[..sent])[..|s.bytes|] == s.bytes;
    assert (s.bytes + p[..sent])[|s.bytes|..] == p[..sent];
    ConcatEmpty(s.bytes);
    assert s.bytes[..|s.bytes|] == s.bytes;
  }

  lemma CloseSlotKeepsInv(c: Caster, i: nat)
    requires Inv(c) && i < MAX_CLIENTS
    ensures Inv(CloseSlot(c, i, [], 0))
  {
    if c.slots[i].Open? {
      assert UpToDate(c.slots[i], c.broadcasts);
      LeavesCleanly(c.slots[i], c.broadcasts, [0], 0);
    }
    hide LeftCleanly, UpToDate;
  }

  lemma {:induction false} CloseFirstKeepsInv(c: Caster, k: nat)
    requires Inv(c) && k <= MAX_CLIENTS
    ensures Inv(CloseFirst(c, k))
    ensures forall i | 0 <= i < k :: CloseFirst(c, k).slots[i].Free?
    decreases k
  {
    hide Inv;
    if k > 0 {
      CloseFirstKeepsInv(c, k - 1);
      SlotCount(c);
      SlotCount(CloseFirst(c, k - 1));
      CloseSlotKeepsInv(CloseFirst(c, k - 1), k - 1);
    }
  }

  lemma SlotCount(c: Caster)
    requires Inv(c)
    ensures |c.slots| == MAX_CLIENTS
  {
  }

  /** In the middle of a broadcast: the first `k` clients have the packet, the others do not. */
  ghost predicate Midway(c: Caster, p: Packet, k: nat) {
    && |c.slots| == MAX_CLIENTS
    && (forall i | 0 <= i < k && i < MAX_CLIENTS :: UpToDate(c.slots[i], c.broadcasts + [p]))
    && (forall i | k <= i < MAX_CLIENTS :: UpToDate(c.slots[i], c.broadcasts))
    && (forall i | 0 <= i < |c.gone| :: LeftCleanly(c.gone[i], c.broadcasts + [p]))
  }

  lemma OfferKeepsMidway(c: Caster, p: Packet, k: nat, script: seq<Attempt>)
    requires Midway(c, p, k) && k < MAX_CLIENTS && p != []
    ensures Midway(Offer(c, k, p, script), p, k + 1)
    ensures Offer(c, k, p, script).broadcasts == c.broadcasts
  {
    var s := c.slots[k];
    var sent := Sent(LocalEffects(script), |p|, 0, 0, LOCAL_STALLS);
    assert UpToDate(s, c.broadcasts);
    if s.Open? {
      StaysUpToDate(s, c.broadcasts, p);
      if sent < |p| {
        LeavesCleanly(s, c.broadcasts, p, sent);
      }
    }
    hide LeftCleanly, UpToDate, Sent, LocalEffects;
  }

  lemma {:induction false} OfferFirstMidway(c: Caster, p: Packet, scripts: seq<seq<Attempt>>, k: nat)
    requires Inv(c) && |scripts| == MAX_CLIENTS && k <= MAX_CLIENTS && p != []
    ensures Midway(OfferFirst(c, p, scripts, k), p, k)
    ensures OfferFirst(c, p, scripts, k).broadcasts == c.broadcasts
    ensures OfferFirst(c, p, scripts, k).queue == c.queue
    decreases k
  {
    if k == 0 {
      forall i | 0 <= i < |c.gone|
        ensures LeftCleanly(c.gone[i], c.broadcasts + [p])
      {
        StillLeftCleanly(c.gone[i], c.broadcasts, p);
      }
      hide LeftCleanly, UpToDate;
    } else {
      OfferFirstMidway(c, p, scripts, k - 1);
      OfferKeepsMidway(OfferFirst(c, p, scripts, k - 1), p, k - 1, scripts[k - 1]);
      hide Midway, Sent, LocalEffects;
    }
  }

  lemma BroadcastKeepsInv(c: Caster, p: Packet, scripts: seq<seq<Attempt>>)
    requires Inv(c) && |scripts| == MAX_CLIENTS && p != []
    ensures Inv(Broadcast(c, p, scripts))
  {
    OfferFirstMidway(c, p, scripts, MAX_CLIENTS);
    hide LeftCleanly, UpToDate, OfferFirst;
  }

  lemma AcceptKeepsInv(c: Caster, incoming: Incoming)
    requires Inv(c)
    ensures Inv(Accept(c, incoming))
  {
    assert c.broadcasts[|c.broadcasts|..] == [];
    assert Flatten([]) == [];
    ConcatEmpty(GREETING);
    hide LeftCleanly, Flatten, Sent, LocalEffects;
  }

  lemma AcceptAndServeKeepsInv(c: Caster, e: Surroundings)
    requires Inv(c) && |e.scripts| == MAX_CLIENTS
    ensures Inv(AcceptAndServe(c, e))
  {
    hide UpToDate, LeftCleanly, Broadcast, Accept;
    var c1 := Accept(c, e.incoming);
    AcceptKeepsInv(c, e.incoming);
    if c1.queue != [] {
      BroadcastKeepsInv(c1.(queue := c1.queue[1..]), c1.queue[0], e.scripts);
    }
  }

  lemma CloseKeepsInv(c: Caster)
    requires Inv(c)
    ensures Inv(CloseClients(c)) && Inv(CloseClients(c).(queue := [], listening := false))
    ensures Inv(Reset(c)) && Inv(Reset(c).(listening := true))
  {
    CloseFirstKeepsInv(c, MAX_CLIENTS);
    hide UpToDate, LeftCleanly, CloseFirst;
  }

  lemma SlotsFit(c: Caster)
    requires Inv(c)
    ensures |c.slots| == MAX_CLIENTS
  {
  }

  lemma ListenKeepsInv(c: Caster, e: Surroundings)
    requires Inv(c) && Inv(c.(listening := true)) && |e.scripts| == MAX_CLIENTS
    ensures Inv(Listen(c, e))
  {
    hide Inv, CloseClients, AcceptAndServe;
    CloseKeepsInv(c);
    AcceptAndServeKeepsInv(c.(listening := true), e);
  }

  lemma TurnKeepsInv(c: Caster, e: Surroundings)
    requires Inv(c) && |e.scripts| == MAX_CLIENTS
    ensures Inv(Turn(c, e))
  {
    hide Inv, CloseClients, AcceptAndServe, Reset, Listen;
    SlotsFit(c);
    CloseKeepsInv(c);
    if !c.suspended {
      SlotsFit(Reset(c));
      ListenKeepsInv(Reset(c), e);
    }
  }

  lemma CallsKeepInv(c: Caster, suspended: bool, data: seq<byte>)
    requires Inv(c)
    ensures Inv(SetSuspended(c, suspended)) && Inv(Push(c, data))
  {
    hide UpToDate, LeftCleanly;
  }

  /** A suspended caster, after its next turn, has no client and no packet, and does not listen. */
  lemma SuspendedTurnClears(c: Caster, e: Surroundings, i: nat)
    requires Inv(c) && c.suspended && |e.scripts| == MAX_CLIENTS && i < MAX_CLIENTS
    ensures var c' := Turn(c, e); c'.slots[i].Free? && c'.queue == [] && !c'.listening
  {
    CloseFirstKeepsInv(c, MAX_CLIENTS);
    hide UpToDate, LeftCleanly, CloseFirst;
  }

  datatype Event =
    | Worker(e: Surroundings)
    | Suspend(suspended: bool)
    | Pushed(data: seq<byte>)

  ghost predicate Legal(event: Event) {
    event.Worker? ==> |event.e.scripts| == MAX_CLIENTS
  }

  function Apply(c: Caster, event: Event): Caster
    requires Inv(c) && Legal(event)
  {
    match event
    case Worker(e) => Turn(c, e)
    case Suspend(suspended) => SetSuspended(c, suspended)
    case Pushed(data) => Push(c, data)
  }

  lemma ApplyKeepsInv(c: Caster, event: Event)
    requires Inv(c) && Legal(event)
    ensures Inv(Apply(c, event))
  {
    hide Inv, Turn, SetSuspended, Push;
    match event {
      case Worker(e) => TurnKeepsInv(c, e);
      case Suspend(b) => CallsKeepInv(c, b, []);
      case Pushed(data) => CallsKeepInv(c, false, data);
    }
  }

  function Run(c: Caster, events: seq<Event>): (c': Caster)
    requires Inv(c) && forall i | 0 <= i < |events| :: Legal(events[i])
    ensures Inv(c')
    decreases |events|
  {
    if events == [] then c
    else
      ApplyKeepsInv(c, events[0]);
      Run(Apply(c, events[0]), events[1..])
  }

  lemma StartInv()
    ensures Inv(START)
  {
  }

  /** At any moment of any run, an open client has received the greeting and exactly the packets
      broadcast since it joined; a client that left had all it was there for, plus at most a
      strict beginning of the packet that failed. */
  lemma ClientsAreUpToDate(events: seq<Event>, i: nat, j: nat)
    requires forall k | 0 <= k < |events| :: Legal(events[k])
    ensures Inv(START)
    ensures var c := Run(START, events);
      && (i < MAX_CLIENTS ==> i < |c.slots| && UpToDate(c.slots[i], c.broadcasts))
      && (j < |c.gone| ==> LeftCleanly(c.gone[j], c.broadcasts))
  {
    StartInv();
    hide UpToDate, LeftCleanly, Apply;
  }
}
