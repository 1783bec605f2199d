/** push and the worker of main/ntrip_push.cpp on one bounded queue, interleaved freely. */
module SendQueue {
  import opened Bits

  // The queue operations are atomic, as FreeRTOS makes them, but push performs up to three of
  // them, and the worker may receive or reset the queue between any two.

  const QUEUE_DEPTH := 8

  type Packet = seq<byte>

  /** Where push stands: not running; about to drop the oldest packet after finding the queue
      full; about to count the drop; about to send again. */
  datatype Pc = Idle | Full(packet: Packet) | Dropped(packet: Packet) | Counted(packet: Packet)

  /** The queue and the drop counter, with what a bystander saw: every packet that ever entered
      the queue, the positions the worker received, the packets push threw away, the drops
      counted for nothing because the worker had emptied the queue, and any failing second send. */
  datatype State = State(
    pc: Pc,
    queue: seq<Packet>,
    droppedBatches: nat,
    entered: seq<Packet>,
    received: seq<nat>,
    discarded: nat,
    idleDrops: nat,
    secondSendFailed: bool)

  function Start(): State {
    State(Idle, [], 0, [], [], 0, 0, false)
  }

  datatype Step = PushStep(packet: Packet) | WorkerReceive | WorkerReset

  /** One queue operation. `packet` matters only when push begins. */
  function Next(s: State, step: Step): State {
    match step
    case WorkerReceive =>
      if s.queue == [] then s
      else s.(queue := s.queue[1..], received := s.received + [Position(s)])
    case WorkerReset => s.(queue := [])
    case PushStep(p) =>
      match s.pc
      case Idle =>
        if |s.queue| < QUEUE_DEPTH then s.(queue := s.queue + [p], entered := s.entered + [p])
        else s.(pc := Full(p))
      case Full(p) =>
        if s.queue == [] then s.(pc := Dropped(p), idleDrops := s.idleDrops + 1)
        else s.(pc := Dropped(p), queue := s.queue[1..], discarded := s.discarded + 1)
      case Dropped(p) => s.(pc := Counted(p), droppedBatches := s.droppedBatches + 1)
      case Counted(p) =>
        if |s.queue| < QUEUE_DEPTH then
          s.(pc := Idle, queue := s.queue + [p], entered := s.entered + [p])
        else
          s.(pc := Idle, secondSendFailed := true)
  }

  /** The position in `entered` of the oldest packet in the queue. */
  function Position(s: State): nat {
    if |s.queue| <= |s.entered| then |s.entered| - |s.queue| else 0
  }

  /** The queue is the newest part of what entered it. */
  ghost predicate IsTail(queue: seq<Packet>, entered: seq<Packet>) {
    |queue| <= |entered| && queue == entered[|entered| - |queue|..]
  }

  /** Positions in increasing order, all before `bound`. */
  ghost predicate Increasing(received: seq<nat>, bound: nat) {
    && (forall i | 0 <= i < |received| :: received[i] < bound)
    && (forall i, j | 0 <= i < j < |received| :: received[i] < received[j])
  }

  ghost predicate Inv(s: State) {
    && |s.queue| <= QUEUE_DEPTH
    && IsTail(s.queue, s.entered)
    && (s.pc.Dropped? || s.pc.Counted? ==> |s.queue| < QUEUE_DEPTH)
    && !s.secondSendFailed
    && s.droppedBatches + (if s.pc.Dropped? then 1 else 0) == s.discarded + s.idleDrops
    && Increasing(s.received, Position(s))
  }

  lemma StartInv()
    ensures Inv(Start())
  {
  }

  lemma TailShrinks(queue: seq<Packet>, entered: seq<Packet>)
    requires IsTail(queue, entered)
    ensures queue != [] ==> IsTail(queue[1..], entered)
    ensures IsTail([], entered)
  {
  }

  lemma TailGrows(queue: seq<Packet>, entered: seq<Packet>, p: Packet)
    requires IsTail(queue, entered)
    ensures IsTail(queue + [p], entered + [p])
  {
  }

  lemma TailFits(s: State)
    requires Inv(s)
    ensures |s.queue| <= |s.entered|
  {
  }

  lemma WorkerKeepsInv(s: State)
    requires Inv(s)
    ensures Inv(Next(s, WorkerReceive)) && Inv(Next(s, WorkerReset))
  {
    hide IsTail;
    TailShrinks(s.queue, s.entered);
    TailFits(s);
  }

  lemma PushKeepsInv(s: State, p: Packet)
    requires Inv(s)
    ensures Inv(Next(s, PushStep(p)))
  {
    hide IsTail;
    TailShrinks(s.queue, s.entered);
    TailGrows(s.queue, s.entered, if s.pc.Counted? then s.pc.packet else p);
    TailFits(s);
  }

  lemma NextKeepsInv(s: State, step: Step)
    requires Inv(s)
    ensures Inv(Next(s, step))
  {
    hide *;
    WorkerKeepsInv(s);
    if step.PushStep? {
      PushKeepsInv(s, step.packet);
    }
  }

  function Run(s: State, steps: seq<Step>): State
    decreases |steps|
  {
    if steps == [] then s else Run(Next(s, steps[0]), steps[1..])
  }

  lemma {:induction false} RunKeepsInv(s: State, steps: seq<Step>)
    requires Inv(s)
    ensures Inv(Run(s, steps))
    decreases |steps|
  {
    hide Inv, Next;
    if steps != [] {
      NextKeepsInv(s, steps[0]);
      RunKeepsInv(Next(s, steps[0]), steps[1..]);
    }
  }

  ghost predicate Promised(s: State) {
    && |s.queue| <= QUEUE_DEPTH && IsTail(s.queue, s.entered)
    && Increasing(s.received, |s.entered|)
    && !s.secondSendFailed
    && (!s.pc.Dropped? ==> s.droppedBatches >= s.discarded)
    && (!s.pc.Dropped? ==> (s.droppedBatches == s.discarded <==> s.idleDrops == 0))
  }

  lemma InvPromises(s: State)
    requires Inv(s)
    ensures Promised(s)
  {
  }

  /** Under every interleaving: the queue is the newest at most eight packets that entered it,
      without a gap; the worker receives packets in the order in which they entered, none of
      them twice; the second send of push never fails; and the drop counter, once push is
      done, is at least the number of packets thrown away, and exactly that number unless the
      worker emptied the queue between two operations of one push. */
  lemma AnyInterleaving(steps: seq<Step>)
    ensures Promised(Run(Start(), steps))
  {
    hide *;
    StartInv();
    RunKeepsInv(Start(), steps);
    InvPromises(Run(Start(), steps));
  }
}
