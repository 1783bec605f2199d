/** The suspend handshake of src/ntrip_caster.h, step by step. */
module CasterSuspend {
  // The worker and the caller of suspendAndWait, resume and update interleave freely;
  // each reads or writes one flag, or performs one queue or socket operation, at a time.

  const QUEUE_DEPTH := 12

  /** What the worker does next. */
  datatype WorkerPc =
    | ReadRequest | StopAll | ResetQueue | SetAck | AwaitResume | ClearAck
    | ReadReset | StopForReset | ResetForReset | ClearReset
    | AcceptClient | Receive | Write

  /** Where the caller stands: between calls; about to send in update; polling in
      suspendAndWait; about to read the flag it returns; or back with true and not yet resumed. */
  datatype CallerPc = Free | Sending | Polling | Returning | Assured

  datatype State = State(
    requested: bool,
    ack: bool,
    resetClients: bool,
    queue: nat,
    clients: nat,
    worker: WorkerPc,
    caller: CallerPc,
    // seen by a bystander: accepts and writes so far
    activity: nat)

  const START := State(false, false, false, 0, 0, ReadRequest, Free, 0)

  datatype Step =
    | Worker(joins: bool)
    | RequestSuspend | SuspendAndWait | Poll(timedOut: bool) | Return | Resume | Update | Send

  /** The worker is past emptying the queue and has not yet withdrawn its acknowledgement. */
  predicate PastReset(pc: WorkerPc) {
    pc.SetAck? || pc.AwaitResume? || pc.ClearAck?
  }

  function WorkerStep(s: State, joins: bool): State {
    match s.worker
    case ReadRequest => s.(worker := if s.requested then StopAll else ReadReset)
    case StopAll => s.(clients := 0, worker := ResetQueue)
    case ResetQueue => s.(queue := 0, worker := SetAck)
    case SetAck => s.(ack := true, worker := AwaitResume)
    case AwaitResume => s.(worker := if s.requested then AwaitResume else ClearAck)
    case ClearAck => s.(ack := false, worker := ReadRequest)
    case ReadReset => s.(worker := if s.resetClients then StopForReset else AcceptClient)
    case StopForReset => s.(clients := 0, worker := ResetForReset)
    case ResetForReset => s.(queue := 0, worker := ClearReset)
    case ClearReset => s.(resetClients := false, worker := AcceptClient)
    case AcceptClient =>
      if joins then s.(clients := s.clients + 1, activity := s.activity + 1, worker := Receive)
      else s.(worker := Receive)
    case Receive =>
      if s.queue == 0 then s.(worker := ReadRequest)
      else s.(queue := s.queue - 1, worker := Write)
    case Write => s.(activity := s.activity + 1, worker := ReadRequest)
  }

  function Next(s: State, step: Step): State {
    match step
    case Worker(joins) => WorkerStep(s, joins)
    case RequestSuspend => if s.caller.Free? || s.caller.Assured? then s.(requested := true) else s
    case SuspendAndWait =>
      if s.caller.Free? || s.caller.Assured? then s.(requested := true, caller := Polling) else s
    case Poll(timedOut) => if s.caller.Polling? && (s.ack || timedOut) then s.(caller := Returning) else s
    case Return => if s.caller.Returning? then s.(caller := if s.ack then Assured else Free) else s
    case Resume => if s.caller.Free? || s.caller.Assured? then s.(requested := false, caller := Free) else s
    case Update =>
      if s.caller.Free? && !s.requested && !s.ack then s.(caller := Sending) else s
    case Send =>
      if !s.caller.Sending? then s
      else if s.queue < QUEUE_DEPTH then
        s.(queue := s.queue + 1, caller := Free)
      else
        s.(resetClients := true, caller := Free)
  }

  function Run(s: State, steps: seq<Step>): State
    decreases |steps|
  {
    if steps == [] then s else Run(Next(s, steps[0]), steps[1..])
  }

  /** Nothing but the suspend branch of the worker, and its beginning. */
  predicate Quiet(pc: WorkerPc) {
    pc.ReadRequest? || pc.StopAll? || pc.ResetQueue? || PastReset(pc)
  }

  ghost predicate Inv(s: State) {
    && (s.ack <==> s.worker.AwaitResume? || s.worker.ClearAck?)
    && (s.worker.ResetQueue? || PastReset(s.worker) ==> s.clients == 0)
    && (s.caller.Polling? || s.caller.Returning? ==> s.requested)
    && (s.caller.Assured? ==> s.requested && s.clients == 0 && Quiet(s.worker))
  }

  lemma NextKeepsInv(s: State, step: Step)
    requires Inv(s)
    ensures Inv(Next(s, step))
  {
  }

  lemma {:induction false} RunKeepsInv(s: State, steps: seq<Step>)
    requires Inv(s)
    ensures Inv(Run(s, steps))
    decreases |steps|
  {
    hide Inv, Next;
    if steps != [] {
      NextKeepsInv(s, steps[0]);
      RunKeepsInv(Next(s, steps[0]), steps[1..]);
    }
  }

  /** Once suspendAndWait has returned true every client is closed, even when the
      acknowledgement it saw belongs to an earlier suspension. */
  lemma ClosedWhenAssured(steps: seq<Step>)
    ensures var s := Run(START, steps); s.caller.Assured? ==> s.clients == 0 && s.requested
  {
    hide Run, Next;
    RunKeepsInv(START, steps);
  }

  /** And until resume is called the worker accepts nobody and writes nothing. */
  lemma {:induction false} NoActivityUntilResume(s: State, steps: seq<Step>)
    requires Inv(s) && s.caller.Assured?
    requires forall i | 0 <= i < |steps| :: !steps[i].Resume? && !steps[i].SuspendAndWait?
    ensures Run(s, steps).activity == s.activity && Run(s, steps).caller.Assured?
    decreases |steps|
  {
    if steps != [] {
      NextKeepsInv(s, steps[0]);
      NoActivityUntilResume(Next(s, steps[0]), steps[1..]);
    }
  }

  // ------------------------------------------------------------ when the queue is empty

  /** No resume, and no further suspend, among the steps. */
  ghost predicate SameCall(steps: seq<Step>) {
    forall i | 0 <= i < |steps| ::
      !steps[i].Resume? && !steps[i].SuspendAndWait? && !steps[i].RequestSuspend?
  }

  /** What a caller wants of a suspendAndWait begun in `s`: whatever happens next, if it returns
      true the queue is empty. */
  ghost predicate QueueTrusted(s: State) {
    forall steps: seq<Step> :: SameCall(steps) ==>
      var s' := Run(Next(s, SuspendAndWait), steps);
      s'.caller.Assured? ==> s'.queue == 0
  }

  /** No packet lies behind the worker's reset, and none is on its way there. */
  ghost predicate Swept(s: State) {
    && s.requested && !s.caller.Sending?
    && (PastReset(s.worker) || s.caller.Assured? ==> s.queue == 0)
  }

  lemma SweptStep(s: State, step: Step)
    requires Inv(s) && Swept(s) && !step.Resume?
    ensures Swept(Next(s, step))
  {
  }

  lemma {:induction false} SweptRun(s: State, steps: seq<Step>)
    requires Inv(s) && Swept(s) && SameCall(steps)
    ensures Inv(Run(s, steps)) && Swept(Run(s, steps))
    decreases |steps|
  {
    hide Inv, Swept, Next;
    if steps != [] {
      NextKeepsInv(s, steps[0]);
      SweptStep(s, steps[0]);
      SweptRun(Next(s, steps[0]), steps[1..]);
    }
  }

  lemma Run1(s: State, a: Step)
    ensures Run(s, [a]) == Next(s, a)
  {
    hide Next;
    assert [a][1..] == [];
  }

  lemma Run2(s: State, a: Step, b: Step)
    ensures Run(s, [a, b]) == Next(Next(s, a), b)
  {
    hide Next;
    Run1(Next(s, a), b);
    assert [a, b][1..] == [b];
  }

  lemma Run3(s: State, a: Step, b: Step, c: Step)
    ensures Run(s, [a, b, c]) == Next(Next(Next(s, a), b), c)
  {
    hide Next;
    Run2(Next(s, a), b, c);
    assert [a, b, c][1..] == [b, c];
  }

  /** The schedule that answers over a queued packet, after the call has begun. */
  function AnswerNow(pc: WorkerPc): (steps: seq<Step>)
    ensures SameCall(steps)
  {
    (if pc.SetAck? then [Worker(false)] else []) + [Poll(false), Return]
  }

  lemma AnsweredOverPacket(s: State)
    requires Inv(s) && s.requested && s.caller.Polling? && PastReset(s.worker) && s.queue > 0
    ensures Run(s, AnswerNow(s.worker)).caller.Assured? && Run(s, AnswerNow(s.worker)).queue > 0
  {
    hide Run;
    if s.worker.SetAck? {
      assert AnswerNow(s.worker) == [Worker(false), Poll(false), Return];
      Run3(s, Worker(false), Poll(false), Return);
    } else {
      assert AnswerNow(s.worker) == [Poll(false), Return];
      Run2(s, Poll(false), Return);
    }
  }

  /** A true answer means an empty queue, whatever happens during the call, if and only if the call
      does not begin while the worker is past emptying the queue for an earlier suspension and a
      packet has entered it since. */
  lemma QueueTrustedIff(s: State)
    requires Inv(s) && (s.caller.Free? || s.caller.Assured?)
    ensures QueueTrusted(s) <==> !(PastReset(s.worker) && s.queue > 0)
  {
    var s0 := Next(s, SuspendAndWait);
    NextKeepsInv(s, SuspendAndWait);
    if PastReset(s.worker) && s.queue > 0 {
      AnsweredOverPacket(s0);
      hide Run, SameCall, AnswerNow, Inv;
      assert SameCall(AnswerNow(s0.worker));
    } else {
      assert Swept(s0);
      hide Run, Next, Inv;
      forall steps: seq<Step> | SameCall(steps) ensures Run(s0, steps).caller.Assured? ==> Run(s0, steps).queue == 0 {
        SweptRun(s0, steps);
      }
    }
  }

  /** Such a moment comes, and with it an answer over a packet. */
  lemma UntrustedQueueHappens()
    ensures var s := Run(START, [RequestSuspend, Worker(false), Worker(false), Worker(false)] + [Resume, Update, Send]);
      Inv(s) && s.caller.Free? && PastReset(s.worker) && s.queue == 1 && !QueueTrusted(s)
  {
    var w := Worker(false);
    var a, b := [RequestSuspend, w, w, w], [Resume, Update, Send];
    var s1 := Run4(START, RequestSuspend, w, w, w, a + b);
    assert (a + b)[4..] == b;
    Run3(s1, Resume, Update, Send);
    RunKeepsInv(START, a + b);
    hide Run, Inv, QueueTrusted;
    QueueTrustedIff(Run(START, a + b));
  }

  // ------------------------------------------------------------------- orderly callers

  /** A caller that resumes only while the worker is waiting for it never leaves one behind. */
  ghost predicate Orderly(s: State) {
    && (PastReset(s.worker) ==> s.queue == 0)
    && (s.worker.StopAll? || s.worker.ResetQueue? || s.worker.SetAck? ==> s.requested)
    && (s.caller.Sending? ==> !s.requested && !PastReset(s.worker))
  }

  /** With such a caller no packet is ever behind the point where the worker emptied the queue. */
  lemma {:induction false} OrderlyResume(s: State, steps: seq<Step>, i: nat)
    requires Inv(s) && Orderly(s) && i <= |steps|
    requires forall k | 0 <= k < i :: steps[k].Resume? ==> Run(s, steps[..k]).worker.AwaitResume?
    ensures Inv(Run(s, steps[..i])) && Orderly(Run(s, steps[..i]))
    ensures PastReset(Run(s, steps[..i]).worker) ==> Run(s, steps[..i]).queue == 0
    decreases i
  {
    if i == 0 {
      assert steps[..0] == [];
    } else {
      OrderlyResume(s, steps, i - 1);
      RunSnoc(s, steps[..i - 1], steps[i - 1]);
      assert steps[..i] == steps[..i - 1] + [steps[i - 1]];
      hide Run;
      OrderlyStep(Run(s, steps[..i - 1]), steps[i - 1]);
    }
  }

  lemma OrderlyStep(s: State, step: Step)
    requires Inv(s) && Orderly(s) && (step.Resume? ==> s.worker.AwaitResume?)
    ensures Inv(Next(s, step)) && Orderly(Next(s, step))
  {
    NextKeepsInv(s, step);
  }

  /** So every call can be trusted to leave an empty queue. */
  lemma OrderlyCallIsTrusted(steps: seq<Step>)
    requires forall k | 0 <= k < |steps| :: steps[k].Resume? ==> Run(START, steps[..k]).worker.AwaitResume?
    requires var s := Run(START, steps); s.caller.Free? || s.caller.Assured?
    ensures QueueTrusted(Run(START, steps))
  {
    OrderlyResume(START, steps, |steps|);
    assert steps[..|steps|] == steps;
    hide Run, Next, Inv, Orderly;
    QueueTrustedIff(Run(START, steps));
  }

  lemma {:induction false} RunSnoc(s: State, steps: seq<Step>, last: Step)
    ensures Run(s, steps + [last]) == Next(Run(s, steps), last)
    decreases |steps|
  {
    hide Next;
    if steps == [] {
      assert [last][1..] == [];
    } else {
      assert (steps + [last])[1..] == steps[1..] + [last];
      RunSnoc(Next(s, steps[0]), steps[1..], last);
    }
  }

  /** Such packets exist: the suspension is called off before the worker acknowledges it, a
      packet is accepted in that gap, and the late acknowledgement answers the next suspension. */
  lemma {:induction false} QueueNeedNotBeEmpty(steps: seq<Step>)
    requires steps == [
      RequestSuspend, Worker(false), Worker(false), Worker(false),
      Resume, Update, Send,
      SuspendAndWait, Worker(false), Poll(false), Return]
    ensures Run(START, steps).caller.Assured? && Run(START, steps).queue == 1
  {
    var s1 := Run4(START, RequestSuspend, Worker(false), Worker(false), Worker(false), steps);
    var s2 := Run4(s1, Resume, Update, Send, SuspendAndWait, steps[4..]);
    assert steps[4..][4..] == [Worker(false), Poll(false), Return];
    assert s2.worker.SetAck? && s2.queue == 1;
    var s3 := Next(s2, Worker(false));
    var s4 := Next(s3, Poll(false));
    var s5 := Next(s4, Return);
    assert [Worker(false), Poll(false), Return][1..] == [Poll(false), Return];
    assert [Poll(false), Return][1..] == [Return];
    assert [Return][1..] == [];
  }

  lemma Run4(s: State, a: Step, b: Step, c: Step, d: Step, steps: seq<Step>) returns (s': State)
    requires |steps| >= 4 && steps[..4] == [a, b, c, d]
    ensures s' == Next(Next(Next(Next(s, a), b), c), d)
    ensures Run(s, steps) == Run(s', steps[4..])
  {
    hide Next;
    s' := Next(Next(Next(Next(s, a), b), c), d);
    assert steps[0] == steps[..4][0] && steps[1] == steps[..4][1]
           && steps[2] == steps[..4][2] && steps[3] == steps[..4][3];
    assert steps[1..][1..] == steps[2..] && steps[2..][1..] == steps[3..] && steps[3..][1..] == steps[4..];
    assert Run(s, steps) == Run(Next(s, a), steps[1..]);
    assert Run(Next(s, a), steps[1..]) == Run(Next(Next(s, a), b), steps[2..]);
    var s2 := Next(Next(s, a), b);
    assert Run(s2, steps[2..]) == Run(Next(s2, c), steps[3..]);
    assert Run(Next(s2, c), steps[3..]) == Run(s', steps[4..]);
  }
}
