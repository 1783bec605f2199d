/** An upstream caster client, main/ntrip_push.cpp. */
module NtripPush {
  import opened Bits
  import opened Common
  import opened SendLoop

  const QUEUE_DEPTH := 8
  const MAX_PACKET := 1200
  const MAX_RETRY_MS := 120000
  const LONG_BACKOFF_THRESHOLD := 8
  const LONG_BACKOFF_MS := 600000
  const LONG_BACKOFF_JITTER_MS := 120000
  const HEALTHY_STREAK_US := 5000000

  type Packet = seq<byte>

  /** retry_delay_ms; `random` is the random word drawn. */
  function RetryDelayMs(failures: nat, random: nat): (ms: nat)
    ensures LeastDelayMs(failures) <= ms < LeastDelayMs(failures) + if failures < 8 then 5000 else 120_000
  {
    if failures >= LONG_BACKOFF_THRESHOLD then
      LONG_BACKOFF_MS + random % LONG_BACKOFF_JITTER_MS
    else
      var capped := if failures < 1 then 1 else if failures > 4 then 4 else failures;
      var shifted := if capped == 1 then 10000 else if capped == 2 then 20000
                     else if capped == 3 then 40000 else 80000;
      var base := if shifted < MAX_RETRY_MS then shifted else MAX_RETRY_MS;
      var jittered := base + random % 5000;
      if jittered < MAX_RETRY_MS then jittered else MAX_RETRY_MS
  }

  /** The delay without its random part. */
  function LeastDelayMs(failures: nat): nat {
    if failures >= 8 then 600000
    else if failures >= 4 then 80000
    else if failures == 3 then 40000
    else if failures == 2 then 20000
    else 10000
  }

  /** A finished connection: what was written, what should have been, and where its packets
      stand in the order of dequeuing. `cut` is the packet it died in, if it died in one. */
  datatype Connection = Connection(bytes: seq<byte>, request: seq<byte>, packets: seq<Packet>,
                                   cut: Packet, from: nat)

  /** The open connection, and everything that ever went out. */
  datatype Wire = Wire(request: seq<byte>, bytes: seq<byte>, packets: seq<Packet>, from: nat,
                       dequeued: seq<Packet>, finished: seq<Connection>)

  /** What happens to the socket, call by call. */
  datatype SocketEvent = SocketOpened | SocketWrote(bytes: seq<byte>) | SocketClosed

  /** The failure count, the start of the healthy streak, the clock, and the times of the
      connect attempts of the current failure streak. */
  datatype Pace = Pace(failures: nat, healthySinceUs: int, clockUs: int, attempts: seq<int>)

  datatype Client = Client(
    suspended: bool,
    enabled: bool,
    reconnect: bool,
    connected: bool,
    socketOpen: bool,
    resumedUs: int,
    queue: seq<Packet>,
    droppedBatches: nat,
    wire: Wire,
    log: seq<SocketEvent>,
    pace: Pace)

  // ---------------------------------------------------------------- other tasks' calls

  function SetSuspended(c: Client, suspended: bool): Client {
    if suspended then
      c.(suspended := true, resumedUs := 0, reconnect := true)
    else if c.suspended then
      c.(suspended := false, resumedUs := c.pace.clockUs)
    else
      c
  }

  function Configure(c: Client, enabled: bool): Client {
    c.(enabled := enabled, reconnect := true)
  }

  function Truncated(data: seq<byte>): Packet {
    if |data| <= MAX_PACKET then data else data[..MAX_PACKET]
  }

  predicate Accepts(c: Client, data: seq<byte>) {
    data != [] && !c.suspended && c.connected
  }

  /** push, when nothing else touches the queue meanwhile. */
  function Push(c: Client, data: seq<byte>): Client {
    if !Accepts(c, data) then
      c
    else if |c.queue| < QUEUE_DEPTH then
      c.(queue := c.queue + [Truncated(data)])
    else
      c.(queue := c.queue[1..] + [Truncated(data)], droppedBatches := c.droppedBatches + 1)
  }

  // ---------------------------------------------------------------- the worker's turn

  /** What the surroundings do during one turn of the run loop. Times are in microseconds. */
  datatype Surroundings = Surroundings(
    staggerMs: nat,
    opens: bool,
    request: seq<byte>,
    handshake: seq<Attempt>,
    accepted: bool,
    connectUs: nat,
    answers: seq<Attempt>,
    sendUs: nat,
    random: nat,
    sleepUs: nat)

  /** The connection ends after `written` bytes of `cut`. */
  function Ended(w: Wire, cut: Packet, written: nat): Wire
    requires written <= |cut|
  {
    w.(bytes := [], packets := [], request := [],
       finished := w.finished + [Connection(w.bytes + cut[..written], w.request, w.packets, cut, w.from)])
  }

  /** A connection that never got beyond its request. */
  function Refused(w: Wire, request: seq<byte>, sent: nat): Wire
    requires sent <= |request|
  {
    w.(finished := w.finished + [Connection(request[..sent], request, [], [], |w.dequeued|)])
  }

  function Opened(w: Wire, request: seq<byte>): Wire {
    w.(request := request, bytes := request, packets := [], from := |w.dequeued|)
  }

  function Delivered(w: Wire, p: Packet): Wire {
    w.(bytes := w.bytes + p, packets := w.packets + [p], dequeued := w.dequeued + [p])
  }

  function Attempted(p: Pace, connectUs: nat): Pace {
    p.(attempts := p.attempts + [p.clockUs], clockUs := p.clockUs + connectUs)
  }

  function Slept(p: Pace, us: nat): Pace {
    p.(clockUs := p.clockUs + us)
  }

  /** A counted failure and the sleep after it. */
  function Failed(p: Pace, random: nat, sleepUs: nat): Pace {
    p.(failures := p.failures + 1, healthySinceUs := 0,
       clockUs := p.clockUs + RetryDelayMs(p.failures + 1, random) * 1000 + sleepUs)
  }

  function NewStreak(p: Pace): Pace {
    p.(failures := 0, healthySinceUs := 0, attempts := [])
  }

  /** A packet has gone out: the streak is over once five seconds have been healthy. */
  function Healthy(p: Pace): Pace {
    var since := if p.healthySinceUs == 0 then p.clockUs else p.healthySinceUs;
    var p1 := p.(healthySinceUs := since);
    if p.clockUs - since >= HEALTHY_STREAK_US then
      p1.(failures := 0,
          attempts := if p.attempts == [] then [] else [p.attempts[|p.attempts| - 1]])
    else
      p1
  }

  /** close_socket */
  function Close(c: Client): Client {
    if c.socketOpen then
      c.(connected := false, socketOpen := false, wire := Ended(c.wire, [], 0),
         log := c.log + [SocketClosed])
    else
      c.(connected := false)
  }

  /** How many bytes of the request go out. */
  function HandshakeSent(e: Surroundings): (sent: nat)
    ensures sent <= |e.request|
  {
    Sent(UpstreamEffects(e.handshake), |e.request|, 0, 0, UPSTREAM_STALLS)
  }

  function HandshakeDone(c: Client, e: Surroundings): Client {
    c.(socketOpen := true, connected := true, wire := Opened(c.wire, e.request),
       log := c.log + [SocketOpened] + [SocketWrote(e.request)])
  }

  function HandshakeLost(c: Client, e: Surroundings): Client {
    c.(wire := Refused(c.wire, e.request, HandshakeSent(e)),
       log := c.log + [SocketOpened] + [SocketWrote(e.request[..HandshakeSent(e)])] + [SocketClosed])
  }

  /** connect_caster and what the loop does with its answer. */
  function Connect(c: Client, e: Surroundings): Client {
    var c1 := c.(connected := false, pace := Attempted(c.pace, e.connectUs));
    var failed := Failed(c1.pace, e.random, e.sleepUs);
    if !e.opens then
      c1.(pace := failed)
    else if HandshakeSent(e) < |e.request| || !e.accepted then
      HandshakeLost(c1, e).(pace := failed)
    else
      HandshakeDone(c1, e)
  }

  /** `sent` bytes of the packet just dequeued have gone out. */
  function AfterSend(c: Client, p: Packet, sent: nat, e: Surroundings): Client
    requires sent <= |p|
  {
    if sent == |p| then
      c.(wire := Delivered(c.wire, p), log := c.log + [SocketWrote(p)], pace := Healthy(c.pace))
    else
      c.(connected := false, socketOpen := false,
         wire := Ended(c.wire, p, sent).(dequeued := c.wire.dequeued + [p]),
         log := c.log + [SocketWrote(p[..sent])] + [SocketClosed],
         pace := Failed(c.pace, e.random, e.sleepUs))
  }

  /** The packet part of the loop. */
  function Serve(c: Client, e: Surroundings): Client {
    var c1 := c.(pace := Slept(c.pace, e.sendUs));
    if c.queue == [] then
      c1
    else
      var p := c.queue[0];
      var sent := Sent(UpstreamEffects(e.answers), |p|, 0, 0, UPSTREAM_STALLS);
      AfterSend(c1.(queue := c.queue[1..]), p, sent, e)
  }

  /** A new configuration, or a suspension, closes the connection and forgets the streak. */
  function Reconfigured(c: Client): Client {
    if c.reconnect then
      Close(c).(queue := [], reconnect := false, pace := NewStreak(c.pace))
    else
      c
  }

  function ConnectAndServe(c: Client, e: Surroundings): Client {
    if c.socketOpen then
      Serve(c, e)
    else
      var c1 := Connect(c, e);
      if c1.socketOpen then Serve(c1, e) else c1
  }

  /** The wait after a resume, which keeps the clients from connecting all at once. */
  function StaggerAndServe(c: Client, e: Surroundings): Client {
    if c.resumedUs <= 0 || e.staggerMs == 0 then
      ConnectAndServe(c, e)
    else if c.pace.clockUs - c.resumedUs < e.staggerMs * 1000 then
      c.(connected := false, pace := Slept(c.pace, 250000 + e.sleepUs))
    else
      ConnectAndServe(c.(resumedUs := 0), e)
  }

  /** One turn of the run loop. */
  function Turn(c: Client, e: Surroundings): Client {
    if c.suspended || !c.enabled then
      Close(c).(queue := [], pace := Slept(NewStreak(c.pace), 250000 + e.sleepUs))
    else
      StaggerAndServe(Reconfigured(c), e)
  }

  // -------------------------------------------------------------------- what holds

  function Flatten(packets: seq<Packet>): seq<byte>
    decreases |packets|
  {
    if packets == [] then [] else Flatten(packets[..|packets| - 1]) + packets[|packets| - 1]
  }

  /** The packets of a connection are consecutive in the order of dequeuing. */
  ghost predicate InOrder(packets: seq<Packet>, from: nat, dequeued: seq<Packet>) {
    from + |packets| <= |dequeued| && dequeued[from..from + |packets|] == packets
  }

  /** Either the request was cut short and nothing else was written; or the request went out,
      then whole packets in dequeue order, then at most a strict beginning of the next one. */
  ghost predicate CleanEnd(k: Connection, dequeued: seq<Packet>) {
    || (k.packets == [] && k.cut == [] && |k.bytes| < |k.request| && k.bytes == k.request[..|k.bytes|])
    || (&& InOrder(k.packets, k.from, dequeued)
        && |k.bytes| >= |k.request| + |Flatten(k.packets)|
        && k.bytes[..|k.request| + |Flatten(k.packets)|] == k.request + Flatten(k.packets)
        && var tail := k.bytes[|k.request| + |Flatten(k.packets)|..];
           if k.cut == [] then tail == []
           else && |tail| < |k.cut| && tail == k.cut[..|tail|]
                && InOrder(k.packets + [k.cut], k.from, dequeued))
  }

  /** The bytes on an open connection are the request and every packet dequeued since; the
      finished ones ended cleanly. */
  ghost predicate WireInv(w: Wire, open: bool) {
    && (open ==>
          && w.bytes == w.request + Flatten(w.packets)
          && InOrder(w.packets, w.from, w.dequeued)
          && w.from + |w.packets| == |w.dequeued|)
    && (forall i | 0 <= i < |w.finished| :: CleanEnd(w.finished[i], w.dequeued))
  }

  /** What the calls amount to: the socket's state, the bytes since it was opened, the bytes of
      every socket that was closed; `sound` while every write and every closing found the
      socket open and every opening found it closed. */
  datatype Socket = Socket(open: bool, bytes: seq<byte>, done: seq<seq<byte>>, sound: bool)

  function SocketAfter(log: seq<SocketEvent>): Socket
    decreases |log|
  {
    if log == [] then
      Socket(false, [], [], true)
    else
      OneCall(SocketAfter(log[..|log| - 1]), log[|log| - 1])
  }

  function OneCall(s: Socket, call: SocketEvent): Socket {
    match call
    case SocketOpened => s.(open := true, bytes := [], sound := s.sound && !s.open)
    case SocketWrote(b) => s.(bytes := s.bytes + b, sound := s.sound && s.open)
    case SocketClosed =>
      s.(open := false, bytes := [], done := s.done + [s.bytes], sound := s.sound && s.open)
  }

  /** The calls put on the sockets, one after another, the bytes of the connections. */
  ghost predicate SocketInv(s: Socket, w: Wire, open: bool) {
    && s.sound && s.open == open
    && (open ==> s.bytes == w.bytes)
    && |s.done| == |w.finished|
    && (forall i | 0 <= i < |s.done| :: s.done[i] == w.finished[i].bytes)
  }

  /** In one failure streak every attempt but an open one has been counted as a failure, and
      the pause after the k-th attempt was at least the k-th delay. */
  ghost predicate PaceInv(p: Pace, open: bool) {
    && |p.attempts| == p.failures + (if open then 1 else 0)
    && (forall i | 0 < i < |p.attempts| ::
          p.attempts[i] - p.attempts[i - 1] >= LeastDelayMs(i) * 1000)
    && (p.attempts != [] ==>
          p.clockUs >= p.attempts[|p.attempts| - 1]
                       + if open then 0 else LeastDelayMs(|p.attempts|) * 1000)
  }

  ghost predicate QueueInv(queue: seq<Packet>) {
    && |queue| <= QUEUE_DEPTH
    && (forall i | 0 <= i < |queue| :: 0 < |queue[i]| <= MAX_PACKET)
  }

  ghost predicate Inv(c: Client) {
    && QueueInv(c.queue)
    && (c.connected ==> c.socketOpen)
    && WireInv(c.wire, c.socketOpen)
    && SocketInv(SocketAfter(c.log), c.wire, c.socketOpen)
    && PaceInv(c.pace, c.socketOpen)
  }

  lemma SocketAfterCall(log: seq<SocketEvent>, call: SocketEvent)
    ensures SocketAfter(log + [call]) == OneCall(SocketAfter(log), call)
  {
    assert (log + [call])[..|log|] == log;
  }

  lemma ClosedSocketInv(log: seq<SocketEvent>, w: Wire)
    requires SocketInv(SocketAfter(log), w, true)
    ensures SocketInv(SocketAfter(log + [SocketClosed]), Ended(w, [], 0), false)
  {
    ConcatEmpty(w.bytes);
    SocketAfterCall(log, SocketClosed);
    hide SocketAfter;
  }

  lemma CutSocketInv(log: seq<SocketEvent>, w: Wire, p: Packet, written: nat)
    requires SocketInv(SocketAfter(log), w, true) && written <= |p|
    ensures SocketInv(SocketAfter(log + [SocketWrote(p[..written])] + [SocketClosed]),
                      Ended(w, p, written).(dequeued := w.dequeued + [p]), false)
  {
    SocketAfterCall(log, SocketWrote(p[..written]));
    SocketAfterCall(log + [SocketWrote(p[..written])], SocketClosed);
    hide SocketAfter;
  }

  lemma RefusedSocketInv(log: seq<SocketEvent>, w: Wire, request: seq<byte>, sent: nat)
    requires SocketInv(SocketAfter(log), w, false) && sent <= |request|
    ensures SocketInv(SocketAfter(log + [SocketOpened] + [SocketWrote(request[..sent])] + [SocketClosed]),
                      Refused(w, request, sent), false)
  {
    var sentBytes := request[..sent];
    SocketAfterCall(log, SocketOpened);
    SocketAfterCall(log + [SocketOpened], SocketWrote(sentBytes));
    SocketAfterCall(log + [SocketOpened] + [SocketWrote(sentBytes)], SocketClosed);
    hide SocketAfter;
    assert [] + sentBytes == sentBytes;
  }

  lemma OpenedSocketInv(log: seq<SocketEvent>, w: Wire, request: seq<byte>)
    requires SocketInv(SocketAfter(log), w, false)
    ensures SocketInv(SocketAfter(log + [SocketOpened] + [SocketWrote(request)]), Opened(w, request), true)
  {
    SocketAfterCall(log, SocketOpened);
    SocketAfterCall(log + [SocketOpened], SocketWrote(request));
    hide SocketAfter;
    assert [] + request == request;
  }

  lemma DeliveredSocketInv(log: seq<SocketEvent>, w: Wire, p: Packet)
    requires SocketInv(SocketAfter(log), w, true)
    ensures SocketInv(SocketAfter(log + [SocketWrote(p)]), Delivered(w, p), true)
  {
    SocketAfterCall(log, SocketWrote(p));
    hide SocketAfter;
  }

  lemma InOrderGrows(packets: seq<Packet>, from: nat, dequeued: seq<Packet>, p: Packet)
    requires InOrder(packets, from, dequeued)
    ensures InOrder(packets, from, dequeued + [p])
    ensures from + |packets| == |dequeued| ==> InOrder(packets + [p], from, dequeued + [p])
  {
    assert (dequeued + [p])[from..from + |packets|] == dequeued[from..from + |packets|];
    if from + |packets| == |dequeued| {
      assert (dequeued + [p])[from..] == dequeued[from..] + [p];
    }
  }

  lemma CleanEndGrows(k: Connection, dequeued: seq<Packet>, p: Packet)
    requires CleanEnd(k, dequeued)
    ensures CleanEnd(k, dequeued + [p])
  {
    hide Flatten;
    if InOrder(k.packets, k.from, dequeued) {
      InOrderGrows(k.packets, k.from, dequeued, p);
    }
    if InOrder(k.packets + [k.cut], k.from, dequeued) {
      InOrderGrows(k.packets + [k.cut], k.from, dequeued, p);
    }
    hide InOrder;
  }

  lemma FlattenSnoc(packets: seq<Packet>, p: Packet)
    ensures Flatten(packets + [p]) == Flatten(packets) + p
  {
    assert (packets + [p])[..|packets|] == packets;
  }

  /** Closing at a packet boundary. */
  lemma EndedBetweenPackets(w: Wire)
    requires WireInv(w, true)
    ensures WireInv(Ended(w, [], 0), false)
  {
    hide Flatten, InOrder;
    var k := Connection(w.bytes + [], w.request, w.packets, [], w.from);
    ConcatEmpty(w.bytes);
    assert w.bytes[..|w.bytes|] == w.bytes && w.bytes[|w.bytes|..] == [];
    assert CleanEnd(k, w.dequeued);
    hide CleanEnd;
  }

  lemma FinishedGrows(w: Wire, p: Packet)
    requires forall i | 0 <= i < |w.finished| :: CleanEnd(w.finished[i], w.dequeued)
    ensures forall i | 0 <= i < |w.finished| :: CleanEnd(w.finished[i], w.dequeued + [p])
  {
    forall i | 0 <= i < |w.finished|
      ensures CleanEnd(w.finished[i], w.dequeued + [p])
    {
      CleanEndGrows(w.finished[i], w.dequeued, p);
    }
  }

  /** Closing in the middle of the packet just dequeued. */
  lemma EndedInPacket(w: Wire, p: Packet, written: nat)
    requires WireInv(w, true) && written < |p|
    ensures WireInv(Ended(w, p, written).(dequeued := w.dequeued + [p]), false)
  {
    FinishedGrows(w, p);
    InOrderGrows(w.packets, w.from, w.dequeued, p);
    hide Flatten, InOrder;
    var k := Connection(w.bytes + p[..written], w.request, w.packets, p, w.from);
    assert k.bytes[..|w.bytes|] == w.bytes;
    assert k.bytes[|w.bytes|..] == p[..written];
    assert CleanEnd(k, w.dequeued + [p]);
    hide CleanEnd;
  }

  lemma DeliveredKeepsInv(w: Wire, p: Packet)
    requires WireInv(w, true)
    ensures WireInv(Delivered(w, p), true)
  {
    FinishedGrows(w, p);
    InOrderGrows(w.packets, w.from, w.dequeued, p);
    FlattenSnoc(w.packets, p);
    ConcatAssoc(w.request, Flatten(w.packets), p);
    hide Flatten, InOrder, CleanEnd;
  }

  lemma OpenedKeepsInv(w: Wire, request: seq<byte>)
    requires WireInv(w, false)
    ensures WireInv(Opened(w, request), true)
  {
    assert Flatten([]) == [];
    ConcatEmpty(request);
    assert InOrder([], |w.dequeued|, w.dequeued);
    hide Flatten, InOrder, CleanEnd;
  }

  lemma RefusedKeepsInv(w: Wire, request: seq<byte>, sent: nat)
    requires WireInv(w, false) && sent <= |request|
    ensures WireInv(Refused(w, request, sent), false)
  {
    assert Flatten([]) == [];
    ConcatEmpty(request);
    assert InOrder([], |w.dequeued|, w.dequeued);
    var k := Connection(request[..sent], request, [], [], |w.dequeued|);
    assert k.bytes[..sent] == k.bytes && k.bytes[sent..] == [];
    assert CleanEnd(k, w.dequeued);
    hide CleanEnd, InOrder, Flatten;
  }

  lemma FailedKeepsInv(p: Pace, random: nat, sleepUs: nat)
    requires PaceInv(p, true)
    ensures PaceInv(Failed(p, random, sleepUs), false)
  {
    hide LeastDelayMs;
  }

  lemma AttemptedKeepsInv(p: Pace, connectUs: nat)
    requires PaceInv(p, false)
    ensures PaceInv(Attempted(p, connectUs), true)
  {
    hide LeastDelayMs;
  }

  lemma OtherPacesKeepInv(p: Pace, open: bool, us: nat)
    requires PaceInv(p, open)
    ensures PaceInv(Slept(p, us), open) && PaceInv(NewStreak(p), false)
    ensures open ==> PaceInv(Healthy(p), true)
  {
    hide LeastDelayMs;
  }

  lemma CloseKeepsInv(c: Client)
    requires Inv(c)
    ensures WireInv(Close(c).wire, false)
    ensures SocketInv(SocketAfter(Close(c).log), Close(c).wire, false)
  {
    if c.socketOpen {
      EndedBetweenPackets(c.wire);
      ClosedSocketInv(c.log, c.wire);
    }
    hide CleanEnd, InOrder, Flatten, SocketAfter, SocketInv, PaceInv, QueueInv;
  }

  lemma ConnectKeepsInv(c: Client, e: Surroundings)
    requires Inv(c) && !c.socketOpen
    ensures Inv(Connect(c, e))
  {
    AttemptedKeepsInv(c.pace, e.connectUs);
    FailedKeepsInv(Attempted(c.pace, e.connectUs), e.random, e.sleepUs);
    OpenedKeepsInv(c.wire, e.request);
    RefusedKeepsInv(c.wire, e.request, HandshakeSent(e));
    OpenedSocketInv(c.log, c.wire, e.request);
    RefusedSocketInv(c.log, c.wire, e.request, HandshakeSent(e));
    hide SocketAfter, SocketInv, HandshakeSent, WireInv, PaceInv, QueueInv, Opened, Refused, Failed, Attempted;
  }

  lemma AfterSendKeepsInv(c: Client, p: Packet, sent: nat, e: Surroundings)
    requires Inv(c) && c.socketOpen && sent <= |p|
    ensures Inv(AfterSend(c, p, sent, e))
  {
    OtherPacesKeepInv(c.pace, true, 0);
    FailedKeepsInv(c.pace, e.random, e.sleepUs);
    if sent == |p| {
      DeliveredKeepsInv(c.wire, p);
      DeliveredSocketInv(c.log, c.wire, p);
    } else {
      EndedInPacket(c.wire, p, sent);
      CutSocketInv(c.log, c.wire, p, sent);
    }
    hide SocketAfter, SocketInv, WireInv, PaceInv, QueueInv, Delivered, Ended, Failed, Healthy;
  }

  lemma ServeKeepsInv(c: Client, e: Surroundings)
    requires Inv(c) && c.socketOpen
    ensures Inv(Serve(c, e))
  {
    hide Sent, UpstreamEffects, AfterSend, SocketAfter, SocketInv, WireInv, PaceInv, Slept;
    OtherPacesKeepInv(c.pace, true, e.sendUs);
    var c1 := c.(pace := Slept(c.pace, e.sendUs));
    if c.queue != [] {
      var p := c.queue[0];
      var sent := Sent(UpstreamEffects(e.answers), |p|, 0, 0, UPSTREAM_STALLS);
      AfterSendKeepsInv(c1.(queue := c.queue[1..]), p, sent, e);
    }
  }

  lemma ConnectAndServeKeepsInv(c: Client, e: Surroundings)
    requires Inv(c)
    ensures Inv(ConnectAndServe(c, e))
  {
    hide Inv, Connect, Serve;
    if c.socketOpen {
      ServeKeepsInv(c, e);
    } else {
      ConnectKeepsInv(c, e);
      if Connect(c, e).socketOpen {
        ServeKeepsInv(Connect(c, e), e);
      }
    }
  }

  lemma ReconfiguredKeepsInv(c: Client)
    requires Inv(c)
    ensures Inv(Reconfigured(c))
  {
    CloseKeepsInv(c);
    OtherPacesKeepInv(c.pace, c.socketOpen, 0);
    hide WireInv, SocketAfter, SocketInv, PaceInv, Ended, NewStreak;
  }

  lemma SleptKeepsInv(c: Client, us: nat)
    requires Inv(c)
    ensures Inv(c.(connected := false, pace := Slept(c.pace, us)))
    ensures Inv(c.(resumedUs := 0))
    ensures Inv(Close(c).(queue := [], pace := Slept(NewStreak(c.pace), us)))
  {
    CloseKeepsInv(c);
    OtherPacesKeepInv(c.pace, c.socketOpen, us);
    OtherPacesKeepInv(NewStreak(c.pace), false, us);
    hide WireInv, SocketAfter, SocketInv, PaceInv, Ended, NewStreak, Slept;
  }

  /** Every turn of the run loop keeps the invariant. */
  lemma TurnKeepsInv(c: Client, e: Surroundings)
    requires Inv(c)
    ensures Inv(Turn(c, e))
  {
    hide Inv, ConnectAndServe, Reconfigured, Close, Slept, NewStreak;
    if c.suspended || !c.enabled {
      SleptKeepsInv(c, 250000 + e.sleepUs);
    } else {
      var c1 := Reconfigured(c);
      ReconfiguredKeepsInv(c);
      SleptKeepsInv(c1, 250000 + e.sleepUs);
      ConnectAndServeKeepsInv(c1, e);
      ConnectAndServeKeepsInv(c1.(resumedUs := 0), e);
    }
  }

  lemma CallsKeepInv(c: Client, suspended: bool, enabled: bool, data: seq<byte>)
    requires Inv(c)
    ensures Inv(SetSuspended(c, suspended)) && Inv(Configure(c, enabled)) && Inv(Push(c, data))
  {
    hide WireInv, SocketAfter, SocketInv, PaceInv;
  }

  // ------------------------------------------------------------------- whole runs

  datatype Event =
    | Worker(e: Surroundings)
    | Suspend(suspended: bool)
    | Configuring(enabled: bool)
    | Pushed(data: seq<byte>)

  function Apply(c: Client, event: Event): Client {
    match event
    case Worker(e) => Turn(c, e)
    case Suspend(suspended) => SetSuspended(c, suspended)
    case Configuring(enabled) => Configure(c, enabled)
    case Pushed(data) => Push(c, data)
  }

  function Run(c: Client, events: seq<Event>): Client
    decreases |events|
  {
    if events == [] then c else Run(Apply(c, events[0]), events[1..])
  }

  const START := Client(true, false, false, false, false, 0, [], 0,
                        Wire([], [], [], 0, [], []), [], Pace(0, 0, 0, []))

  lemma StartInv()
    ensures Inv(START)
  {
  }

  lemma {:induction false} RunKeepsInv(c: Client, events: seq<Event>)
    requires Inv(c)
    ensures Inv(Run(c, events))
    decreases |events|
  {
    hide Inv, Turn, SetSuspended, Configure, Push;
    if events != [] {
      match events[0] {
        case Worker(e) => TurnKeepsInv(c, e);
        case Suspend(b) => CallsKeepInv(c, b, false, []);
        case Configuring(b) => CallsKeepInv(c, false, b, []);
        case Pushed(data) => CallsKeepInv(c, false, false, data);
      }
      RunKeepsInv(Apply(c, events[0]), events[1..]);
    }
  }

  /** In any run, every finished connection carried the request and then whole packets in the
      order of dequeuing, except for a strict beginning of the piece it died in. */
  lemma ConnectionsEndCleanly(events: seq<Event>, i: nat)
    requires i < |Run(START, events).wire.finished|
    ensures CleanEnd(Run(START, events).wire.finished[i], Run(START, events).wire.dequeued)
  {
    hide CleanEnd, Turn;
    StartInv();
    RunKeepsInv(START, events);
  }

  /** In any run, no call writes to or closes a socket that is not open, none is opened over
      another, and the calls put exactly the recorded connections on the sockets, in order. */
  lemma SocketsCarryConnections(events: seq<Event>)
    ensures var c := Run(START, events);
      var s := SocketAfter(c.log);
      && s.sound && s.open == c.socketOpen
      && (c.socketOpen ==> s.bytes == c.wire.request + Flatten(c.wire.packets))
      && |s.done| == |c.wire.finished|
      && forall i | 0 <= i < |s.done| :: s.done[i] == c.wire.finished[i].bytes
  {
    hide CleanEnd, Turn, SocketAfter, Flatten;
    StartInv();
    RunKeepsInv(START, events);
  }

  /** Nothing is added to the bytes of a socket once it has been closed. */
  ghost predicate Extends(a: seq<SocketEvent>, b: seq<SocketEvent>) {
    |a| <= |b| && b[..|a|] == a
  }

  lemma {:induction false} DoneStaysDone(a: seq<SocketEvent>, b: seq<SocketEvent>)
    requires Extends(a, b)
    ensures |SocketAfter(a).done| <= |SocketAfter(b).done|
    ensures SocketAfter(b).done[..|SocketAfter(a).done|] == SocketAfter(a).done
    ensures SocketAfter(b).sound ==> SocketAfter(a).sound
    decreases |b|
  {
    if |a| == |b| {
      assert a == b;
    } else {
      var shorter := b[..|b| - 1];
      assert shorter[..|a|] == a;
      DoneStaysDone(a, shorter);
    }
  }

  lemma ServeExtends(c: Client, e: Surroundings)
    ensures Extends(c.log, Serve(c, e).log)
  {
    hide Sent, UpstreamEffects, Slept, Failed, Healthy, Ended, Delivered;
  }

  lemma ConnectAndServeExtends(c: Client, e: Surroundings)
    ensures Extends(c.log, ConnectAndServe(c, e).log)
  {
    hide Serve, Sent, UpstreamEffects, Attempted, Failed, Opened, Refused;
    var c1 := if c.socketOpen then c else Connect(c, e);
    ServeExtends(c1, e);
  }

  lemma TurnExtends(c: Client, e: Surroundings)
    ensures Extends(c.log, Turn(c, e).log)
  {
    hide ConnectAndServe, Slept, NewStreak;
    var c1 := Reconfigured(c);
    ConnectAndServeExtends(c1, e);
    ConnectAndServeExtends(c1.(resumedUs := 0), e);
  }

  lemma {:induction false} RunExtends(c: Client, events: seq<Event>)
    ensures Extends(c.log, Run(c, events).log)
    decreases |events|
  {
    hide Turn;
    if events != [] {
      if events[0].Worker? {
        TurnExtends(c, events[0].e);
      }
      RunExtends(Apply(c, events[0]), events[1..]);
    }
  }

  lemma {:induction false} RunConcat(c: Client, before: seq<Event>, after: seq<Event>)
    ensures Run(c, before + after) == Run(Run(c, before), after)
    decreases |before|
  {
    if before == [] {
      assert before + after == after;
    } else {
      assert (before + after)[1..] == before[1..] + after;
      RunConcat(Apply(c, before[0]), before[1..], after);
    }
  }

  /** However a run goes on, the connections finished so far keep the bytes they have. */
  lemma ClosedStaysClosed(before: seq<Event>, after: seq<Event>, i: nat)
    requires i < |Run(START, before).wire.finished|
    ensures i < |Run(START, before + after).wire.finished|
    ensures Run(START, before + after).wire.finished[i].bytes == Run(START, before).wire.finished[i].bytes
  {
    hide Run, SocketAfter, Flatten;
    SocketsCarryConnections(before);
    SocketsCarryConnections(before + after);
    RunConcat(START, before, after);
    RunExtends(Run(START, before), after);
    DoneStaysDone(Run(START, before).log, Run(START, before + after).log);
  }

  // ------------------------------------------------------------ what a turn does

  /** What a turn takes from the queue. */
  ghost predicate Takes(a: Client, b: Client) {
    if a.queue == [] then b.queue == [] && b.wire.dequeued == a.wire.dequeued
    else
      || (b.queue == a.queue && b.wire.dequeued == a.wire.dequeued)
      || (b.queue == a.queue[1..] && b.wire.dequeued == a.wire.dequeued + [a.queue[0]])
  }

  lemma ServeTakes(c: Client, e: Surroundings)
    ensures Takes(c, ConnectAndServe(c, e))
    ensures ConnectAndServe(c, e).reconnect == c.reconnect
  {
    hide HandshakeSent, Sent, UpstreamEffects, Attempted,
      Failed, Slept, Healthy;
  }

  lemma TurnTakes(c: Client, e: Surroundings)
    ensures var c' := Turn(c, e);
      && c'.droppedBatches == c.droppedBatches
      && if c.suspended || !c.enabled || c.reconnect then c'.queue == [] && c'.wire.dequeued == c.wire.dequeued
         else Takes(c, c')
  {
    hide ConnectAndServe, Slept, NewStreak, Takes;
    var c1 := Reconfigured(c);
    ServeTakes(c1, e);
    ServeTakes(c1.(resumedUs := 0), e);
    TakesFields(c1, c1.(resumedUs := 0), ConnectAndServe(c1.(resumedUs := 0), e));
    TakesFields(c1, c1, c1.(connected := false, pace := Slept(c1.pace, 250000 + e.sleepUs)));
    TakesNothing(c1, ConnectAndServe(c1, e));
    TakesNothing(c1.(resumedUs := 0), ConnectAndServe(c1.(resumedUs := 0), e));
    ServeKeepsCount(c1, e);
    ServeKeepsCount(c1.(resumedUs := 0), e);
  }

  lemma TakesFields(a: Client, a': Client, b: Client)
    requires a.queue == a'.queue && a.wire == a'.wire
    ensures Takes(a', b) ==> Takes(a, b)
    ensures b.queue == a.queue && b.wire == a.wire ==> Takes(a, b)
  {
  }

  lemma TakesNothing(a: Client, b: Client)
    requires Takes(a, b)
    ensures a.queue == [] ==> b.queue == [] && b.wire.dequeued == a.wire.dequeued
  {
  }

  lemma ServeKeepsCount(c: Client, e: Surroundings)
    ensures ConnectAndServe(c, e).droppedBatches == c.droppedBatches
  {
    hide HandshakeSent, Sent, UpstreamEffects, Attempted, Failed, Slept, Healthy, Delivered, Ended, Opened, Refused;
  }

  // ------------------------------------------------------------------- the retry bound

  /** Seconds that `n` attempts of one failure streak span at the very least. */
  function LeastSpanMs(n: nat): nat
    decreases n
  {
    if n <= 1 then 0 else LeastSpanMs(n - 1) + LeastDelayMs(n - 1)
  }

  lemma {:induction false} LeastSpanFormula(n: nat)
    requires n >= 8
    ensures LeastSpanMs(n) == 390000 + 600000 * (n - 8)
    decreases n
  {
    if n == 8 {
      assert LeastSpanMs(4) == 70000;
      assert LeastSpanMs(6) == 230000;
    } else {
      LeastSpanFormula(n - 1);
    }
  }

  lemma {:induction false} SpanFrom(p: Pace, open: bool, k: nat)
    requires PaceInv(p, open) && 1 <= k <= |p.attempts|
    ensures p.attempts[k - 1] - p.attempts[0] >= LeastSpanMs(k) * 1000
    decreases k
  {
    hide LeastDelayMs;
    if k > 1 {
      SpanFrom(p, open, k - 1);
      assert p.attempts[k - 1] - p.attempts[k - 2] >= LeastDelayMs(k - 1) * 1000;
    }
  }

  /** At any moment of any run, the n >= 8 attempts of the current failure streak span at least
      390 + 600 (n - 8) seconds, whatever random delays were drawn; and all of them but an open
      one have been counted as failures. */
  lemma RetriesAreRare(events: seq<Event>)
    ensures var c := Run(START, events);
      var n := |c.pace.attempts|;
      && n == c.pace.failures + (if c.socketOpen then 1 else 0)
      && (n >= 8 ==>
            c.pace.attempts[n - 1] - c.pace.attempts[0] >= (390 + 600 * (n - 8)) * 1000000)
  {
    hide Turn;
    StartInv();
    RunKeepsInv(START, events);
    var c := Run(START, events);
    var n := |c.pace.attempts|;
    if n >= 8 {
      LeastSpanFormula(n);
      SpanFrom(c.pace, c.socketOpen, n);
    }
  }
}
