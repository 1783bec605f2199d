/** The suspend handshake of src/ntrip_client.h, step by step. */
module ClientSuspend {
  // Unlike the caster's, this worker raises its acknowledgement again on every turn it finds
  // itself suspended, and the caller lowers it before it raises the request.

  /** What the worker does next. */
  datatype WorkerPc =
    | ReadSuspended | StopSocket | ResetQueue | SetAck | Pause
    | ReadReconnect | StopForReconnect | ResetForReconnect | ClearReconnect
    | ReadSocket | Connect | Handshake | Receive | ReadAgain | ReadInLoop | Write

  /** Where the caller stands: between calls; about to send in push; between the two
      writes of requestSuspend, or of resume; polling; about to read the flag it returns; or
      back with true and not yet resumed. */
  datatype CallerPc = Free | Sending | HalfRequested(waits: bool) | HalfResumed | Polling | Returning | Assured

  /** The queue and the connection, with the number of connects and writes so far. */
  datatype Io = Io(queue: nat, connected: bool, open: bool, activity: nat)

  /** The flags and the two programs, with two notes about the call in force: it was begun, with no
      request in force, while the worker was on its way to an acknowledgement of an earlier one; it
      was begun, under a request, while a packet lay behind the worker's reset of the queue. */
  datatype State = State(
    suspended: bool,
    ack: bool,
    reconnect: bool,
    io: Io,
    worker: WorkerPc,
    caller: CallerPc,
    overtaken: bool,
    crowded: bool)

  const QUEUE_DEPTH := 12

  const START := State(false, false, false, Io(0, false, false, 0), ReadSuspended, Free, false, false)

  /** `works` is what the network answers: a connect or a handshake succeeds, a write goes on. The
      peer may drop the connection at any moment, and any write may have been a packet's last. */
  datatype Step =
    | Worker(works: bool)
    | RequestSuspend | SuspendAndWait | RaiseRequest | Poll(timedOut: bool) | Return
    | Resume | LowerRequest | Push | Send | SetCredentials | PeerDrops | PacketDone

  function Closed(io: Io): Io {
    io.(open := false, connected := false)
  }

  function Active(io: Io): Io {
    io.(activity := io.activity + 1)
  }

  /** The worker's suspend branch. */
  function SuspendBranch(s: State): State {
    match s.worker
    case ReadSuspended => s.(worker := if s.suspended then StopSocket else ReadReconnect)
    case StopSocket => s.(io := Closed(s.io), worker := ResetQueue)
    case ResetQueue => s.(io := s.io.(queue := 0), worker := SetAck)
    case SetAck => s.(ack := true, worker := Pause)
    case _ => s.(worker := ReadSuspended)
  }

  /** The rest of its loop up to the socket test. */
  function ReconnectBranch(s: State): State {
    match s.worker
    case ReadReconnect => s.(worker := if s.reconnect then StopForReconnect else ReadSocket)
    case StopForReconnect => s.(io := Closed(s.io), worker := ResetForReconnect)
    case ResetForReconnect => s.(io := s.io.(queue := 0), worker := ClearReconnect)
    case ClearReconnect => s.(reconnect := false, worker := ReadSocket)
    case _ => if s.io.open then s.(worker := Receive) else s.(io := Closed(s.io), worker := Connect)
  }

  /** Connecting, or sending one packet: where the worker goes, and what becomes of the connection. */
  function Serve(worker: WorkerPc, io: Io, suspended: bool, works: bool): (r: (WorkerPc, Io))
    ensures !OnTheWay(r.0)
  {
    match worker
    case Connect =>
      if works then (Handshake, Active(io).(open := true)) else (ReadSuspended, Closed(io))
    case Handshake =>
      (ReadSuspended, if works then Active(io).(connected := true) else Closed(Active(io)))
    case Receive =>
      if io.queue == 0 then (ReadSuspended, io) else (ReadAgain, io.(queue := io.queue - 1))
    case ReadAgain => (if suspended then ReadSuspended else ReadInLoop, io)
    case ReadInLoop => (if suspended || !io.open then ReadSuspended else Write, io)
    case _ => if works then (ReadInLoop, Active(io)) else (ReadSuspended, Closed(Active(io)))
  }

  predicate Reconnecting(pc: WorkerPc) {
    pc.ReadReconnect? || pc.StopForReconnect? || pc.ResetForReconnect? || pc.ClearReconnect? || pc.ReadSocket?
  }

  function WorkerStep(s: State, works: bool): State {
    if Quiet(s.worker) then SuspendBranch(s)
    else if Reconnecting(s.worker) then ReconnectBranch(s)
    else
      var r := Serve(s.worker, s.io, s.suspended, works);
      s.(worker := r.0, io := r.1)
  }

  /** The worker has read the suspended flag and not yet acknowledged. */
  predicate OnTheWay(pc: WorkerPc) {
    pc.StopSocket? || pc.ResetQueue? || pc.SetAck?
  }

  /** A packet lies behind the worker's reset of the queue. */
  predicate Crowded(s: State) {
    s.worker.SetAck? && s.io.queue > 0
  }

  function Begin(s: State, waits: bool): State {
    s.(ack := false, caller := HalfRequested(waits),
       overtaken := !s.suspended && OnTheWay(s.worker), crowded := s.suspended && Crowded(s))
  }

  function Next(s: State, step: Step): State {
    match step
    case Worker(works) => WorkerStep(s, works)
    case RequestSuspend => if s.caller.Free? || s.caller.Assured? then Begin(s, false) else s
    case SuspendAndWait => if s.caller.Free? || s.caller.Assured? then Begin(s, true) else s
    case RaiseRequest =>
      if s.caller.HalfRequested? then
        s.(suspended := true, caller := if s.caller.waits then Polling else Free)
      else s
    case Poll(timedOut) => if s.caller.Polling? && (s.ack || timedOut) then s.(caller := Returning) else s
    case Return => if s.caller.Returning? then s.(caller := if s.ack then Assured else Free) else s
    case Resume => if s.caller.Free? || s.caller.Assured? then s.(ack := false, caller := HalfResumed) else s
    case LowerRequest => if s.caller.HalfResumed? then s.(suspended := false, caller := Free) else s
    case Push =>
      if s.caller.Free? && !s.suspended && !s.reconnect && s.io.connected then s.(caller := Sending) else s
    case Send =>
      if !s.caller.Sending? then s
      else if s.io.queue < QUEUE_DEPTH then s.(io := s.io.(queue := s.io.queue + 1), caller := Free)
      else s.(reconnect := true, caller := Free)
    case SetCredentials => if s.caller.Free? || s.caller.Assured? then s.(reconnect := true) else s
    case PeerDrops => s.(io := s.io.(open := false))
    case PacketDone => if s.worker.ReadInLoop? then s.(worker := ReadSuspended) else s
  }

  function Run(s: State, steps: seq<Step>): State
    decreases |steps|
  {
    if steps == [] then s else Run(Next(s, steps[0]), steps[1..])
  }

  /** The worker cannot connect or write before it has read the suspended flag again. */
  predicate Quiet(pc: WorkerPc) {
    pc.ReadSuspended? || OnTheWay(pc) || pc.Pause?
  }

  /** Socket closed, worker in its suspend branch. */
  ghost predicate Stopped(s: State) {
    s.suspended && !s.io.open && !s.io.connected && Quiet(s.worker)
  }

  /** And the queue empty. */
  ghost predicate AtRest(s: State) {
    Stopped(s) && s.io.queue == 0
  }

  ghost predicate Basic(s: State) {
    && (s.caller.Sending? ==> !s.suspended)
    && (s.worker.ResetQueue? || s.worker.SetAck? ==> !s.io.open && !s.io.connected)
    && (s.caller.Polling? || s.caller.Returning? || s.caller.Assured? ==> s.suspended)
  }

  /** A request that did not overtake an acknowledgement is not answered before the socket is closed. */
  ghost predicate Prompt(s: State) {
    && (s.suspended && s.ack ==> Stopped(s))
    && (s.caller.HalfRequested? && !s.suspended ==> !s.ack && !OnTheWay(s.worker))
    && (s.caller.Assured? ==> Stopped(s))
  }

  /** Nor, when no packet lay behind the reset, before the queue is empty. */
  ghost predicate Clear(s: State) {
    s.suspended && (s.worker.SetAck? || s.ack || s.caller.Assured?) ==> s.io.queue == 0
  }

  ghost predicate Inv(s: State) {
    Basic(s) && (!s.overtaken ==> Prompt(s) && (!s.crowded ==> Clear(s)))
  }

  lemma SuspendBranchKeepsInv(s: State)
    requires Inv(s) && Quiet(s.worker)
    ensures Inv(SuspendBranch(s))
  {
  }

  lemma ReconnectBranchKeepsInv(s: State)
    requires Inv(s) && Reconnecting(s.worker)
    ensures Inv(ReconnectBranch(s))
  {
  }

  lemma ServeKeepsInv(s: State, works: bool)
    requires Inv(s) && !Quiet(s.worker) && !Reconnecting(s.worker)
    ensures Inv(WorkerStep(s, works))
  {
    hide Serve;
    ServeKeepsQueue(s, works);
  }

  lemma ServeKeepsQueue(s: State, works: bool)
    ensures Serve(s.worker, s.io, s.suspended, works).1.queue <= s.io.queue
  {
  }

  lemma WorkerKeepsInv(s: State, works: bool)
    requires Inv(s)
    ensures Inv(WorkerStep(s, works))
  {
    hide Inv, SuspendBranch, ReconnectBranch, Serve;
    if Quiet(s.worker) {
      SuspendBranchKeepsInv(s);
    } else if Reconnecting(s.worker) {
      ReconnectBranchKeepsInv(s);
    } else {
      ServeKeepsInv(s, works);
    }
  }

  lemma CallerKeepsInv(s: State, step: Step)
    requires Inv(s) && !step.Worker?
    ensures Inv(Next(s, step))
  {
    hide WorkerStep;
  }

  lemma NextKeepsInv(s: State, step: Step)
    requires Inv(s)
    ensures Inv(Next(s, step))
  {
    hide Inv, WorkerStep;
    if step.Worker? {
      WorkerKeepsInv(s, step.works);
    } else {
      CallerKeepsInv(s, step);
    }
  }

  lemma {:induction false} RunKeepsInv(s: State, steps: seq<Step>)
    requires Inv(s)
    ensures Inv(Run(s, steps))
    decreases |steps|
  {
    hide Inv, Next;
    if steps != [] {
      NextKeepsInv(s, steps[0]);
      RunKeepsInv(Next(s, steps[0]), steps[1..]);
    }
  }

  // ------------------------------------------------------------- when true can be trusted

  /** What a caller wants of a suspendAndWait begun in `s`: whatever happens next, if it
      returns true the socket is closed. */
  ghost predicate SocketTrusted(s: State) {
    forall steps: seq<Step> :: SameCall(steps) ==>
      var s' := Run(Next(s, SuspendAndWait), steps);
      s'.caller.Assured? ==> Stopped(s')
  }

  /** And the queue empty, too. */
  ghost predicate Trustworthy(s: State) {
    forall steps: seq<Step> :: SameCall(steps) ==>
      var s' := Run(Next(s, SuspendAndWait), steps);
      s'.caller.Assured? ==> AtRest(s')
  }

  /** The call can return true over an open socket. */
  ghost predicate AnswersOverOpenSocket(s: State) {
    exists steps: seq<Step> :: SameCall(steps) &&
      var s' := Run(Next(s, SuspendAndWait), steps);
      s'.caller.Assured? && s'.io.open
  }

  /** No resume, and no further suspend, among the steps. */
  ghost predicate SameCall(steps: seq<Step>) {
    forall i | 0 <= i < |steps| ::
      !steps[i].Resume? && !steps[i].SuspendAndWait? && !steps[i].RequestSuspend?
  }

  lemma {:induction false} OvertakenStays(s: State, steps: seq<Step>)
    requires SameCall(steps)
    ensures Run(s, steps).overtaken == s.overtaken && Run(s, steps).crowded == s.crowded
    decreases |steps|
  {
    if steps != [] {
      OvertakenStep(s, steps[0]);
      hide Next;
      OvertakenStays(Next(s, steps[0]), steps[1..]);
    }
  }

  lemma OvertakenStep(s: State, step: Step)
    requires !step.SuspendAndWait? && !step.RequestSuspend?
    ensures Next(s, step).overtaken == s.overtaken && Next(s, step).crowded == s.crowded
  {
    WorkerKeepsFlags(s, step.Worker? && step.works);
    hide WorkerStep;
  }

  lemma WorkerKeepsFlags(s: State, works: bool)
    ensures WorkerStep(s, works).overtaken == s.overtaken && WorkerStep(s, works).crowded == s.crowded
  {
    hide Serve;
  }

  lemma TrustworthyIfNotOvertaken(s: State)
    requires Inv(s) && !Next(s, SuspendAndWait).overtaken
    ensures SocketTrusted(s)
    ensures !Next(s, SuspendAndWait).crowded ==> Trustworthy(s)
  {
    var s0 := Next(s, SuspendAndWait);
    NextKeepsInv(s, SuspendAndWait);
    hide Next, Run;
    forall steps: seq<Step> | SameCall(steps)
      ensures Run(s0, steps).caller.Assured? ==> Stopped(Run(s0, steps))
      ensures !s0.crowded && Run(s0, steps).caller.Assured? ==> AtRest(Run(s0, steps))
    {
      OvertakenStays(s0, steps);
      RunKeepsInv(s0, steps);
    }
  }

  /** Steps that bring the worker from `pc` to its pause, acknowledging on the way. */
  function Acknowledge(pc: WorkerPc): seq<Step> {
    match pc
    case StopSocket => [Worker(true), Worker(true), Worker(true)]
    case ResetQueue => [Worker(true), Worker(true)]
    case _ => [Worker(true)]
  }

  /** The way from there to an open socket, while the request is still half made. */
  function Reopen(reconnect: bool): seq<Step> {
    if reconnect then
      [Worker(true), Worker(true), Worker(true), Worker(true), Worker(true), Worker(true), Worker(true), Worker(true)]
    else
      [Worker(true), Worker(true), Worker(true), Worker(true), Worker(true)]
  }

  const ANSWER: seq<Step> := [RaiseRequest, Poll(false), Return]

  lemma {:induction false} RunConcat(s: State, a: seq<Step>, b: seq<Step>)
    ensures Run(s, a + b) == Run(Run(s, a), b)
    decreases |a|
  {
    hide Next;
    if a == [] {
      assert a + b == b;
    } else {
      assert (a + b)[1..] == a[1..] + b;
      RunConcat(Next(s, a[0]), a[1..], b);
    }
  }

  lemma Run1(s: State, a: Step)
    ensures Run(s, [a]) == Next(s, a)
  {
    hide Next;
    assert [a][1..] == [];
  }

  lemma Run2(s: State, a: Step, b: Step)
    ensures Run(s, [a, b]) == Next(Next(s, a), b)
  {
    hide Next;
    Run1(Next(s, a), b);
    assert [a, b][1..] == [b];
  }

  lemma Run3(s: State, a: Step, b: Step, c: Step)
    ensures Run(s, [a, b, c]) == Next(Next(Next(s, a), b), c)
  {
    hide Next;
    Run2(Next(s, a), b, c);
    assert [a, b, c][1..] == [b, c];
  }

  lemma AcknowledgeReachesPause(s: State)
    requires Basic(s) && OnTheWay(s.worker)
    ensures var s' := Run(s, Acknowledge(s.worker));
      s'.worker.Pause? && s'.ack && !s'.io.open && s'.suspended == s.suspended
      && s'.caller == s.caller && s'.reconnect == s.reconnect
  {
    hide Run, Serve, ReconnectBranch;
    var w := Worker(true);
    match s.worker {
      case StopSocket => Run3(s, w, w, w);
      case ResetQueue => Run2(s, w, w);
      case SetAck => Run1(s, w);
    }
  }

  /** From the pause, with no request in force, to a socket test that finds it closed. */
  lemma ReachesSocketTest(s: State) returns (s': State)
    requires s.worker.Pause? && s.ack && !s.io.open && !s.suspended
    ensures var w := Worker(true);
      s' == Run(s, if s.reconnect then [w, w, w] + [w, w, w] else [w, w, w])
    ensures s'.worker.ReadSocket? && s'.ack && !s'.io.open && !s'.suspended && s'.caller == s.caller
  {
    hide Run, Serve;
    var w := Worker(true);
    var s3 := Next(Next(Next(s, w), w), w);
    Run3(s, w, w, w);
    s' := s3;
    if s.reconnect {
      assert s3.worker.StopForReconnect?;
      RunConcat(s, [w, w, w], [w, w, w]);
      Run3(s3, w, w, w);
      s' := Next(Next(Next(s3, w), w), w);
    }
  }

  lemma ReopenReachesSocket(s: State)
    requires s.worker.Pause? && s.ack && !s.io.open && !s.suspended
    ensures var s' := Run(s, Reopen(s.reconnect));
      s'.io.open && s'.ack && !s'.suspended && s'.caller == s.caller
  {
    hide Run, SuspendBranch;
    var w := Worker(true);
    var s1 := ReachesSocketTest(s);
    Run2(s1, w, w);
    RunConcat(s, if s.reconnect then [w, w, w] + [w, w, w] else [w, w, w], [w, w]);
    assert Reopen(true) == ([w, w, w] + [w, w, w]) + [w, w];
    assert Reopen(false) == [w, w, w] + [w, w];
  }

  lemma AnswerOverOpenSocket(s: State)
    requires s.io.open && s.ack && s.caller == HalfRequested(true)
    ensures Run(s, ANSWER).caller.Assured? && Run(s, ANSWER).io.open
  {
    hide Run, SuspendBranch, ReconnectBranch, Serve;
    Run3(s, RaiseRequest, Poll(false), Return);
  }

  /** The schedule of the counterexample, after the call has begun. */
  function Overtake(s: State): (steps: seq<Step>)
    ensures SameCall(steps)
  {
    Acknowledge(s.worker) + (Reopen(s.reconnect) + ANSWER)
  }

  lemma {:induction false} OvertakeOpensSocket(s: State)
    requires Basic(s) && s.caller == HalfRequested(true) && !s.suspended && OnTheWay(s.worker)
    ensures Run(s, Overtake(s)).caller.Assured? && Run(s, Overtake(s)).io.open
  {
    hide Run, Next, Basic, Acknowledge, Reopen, ANSWER;
    var s1 := Run(s, Acknowledge(s.worker));
    var s2 := Run(s1, Reopen(s.reconnect));
    AcknowledgeReachesPause(s);
    ReopenReachesSocket(s1);
    AnswerOverOpenSocket(s2);
    RunConcat(s, Acknowledge(s.worker), Reopen(s.reconnect) + ANSWER);
    RunConcat(s1, Reopen(s.reconnect), ANSWER);
  }

  /** A suspendAndWait can return true over an open socket as soon as it begins while the
      worker is on its way to an acknowledgement of an earlier, withdrawn request. */
  lemma NotTrustworthyIfOvertaken(s: State)
    requires Inv(s) && (s.caller.Free? || s.caller.Assured?)
    requires !s.suspended && OnTheWay(s.worker)
    ensures AnswersOverOpenSocket(s) && !SocketTrusted(s) && !Trustworthy(s)
  {
    var s0 := Next(s, SuspendAndWait);
    CallerKeepsInv(s, SuspendAndWait);
    OvertakeOpensSocket(s0);
    hide Next, Run, SameCall, Overtake;
    assert SameCall(Overtake(s0));
  }

  /** It can return true over a queued packet when it begins under a request, while the worker is
      past its reset of the queue and a packet has entered it since. */
  lemma NotTrustworthyIfCrowded(s: State)
    requires Inv(s) && (s.caller.Free? || s.caller.Assured?) && s.suspended && Crowded(s)
    ensures !Trustworthy(s)
  {
    var s0 := Next(s, SuspendAndWait);
    var steps := [RaiseRequest, Worker(true)] + [Poll(false), Return];
    AnsweredOverPacket(s0);
    hide Next, Run;
    assert SameCall(steps);
  }

  lemma AnsweredOverPacket(s: State)
    requires Crowded(s) && s.suspended && s.caller == HalfRequested(true)
    ensures var s' := Run(s, [RaiseRequest, Worker(true)] + [Poll(false), Return]);
      s'.caller.Assured? && s'.io.queue > 0
  {
    hide Run, ReconnectBranch, Serve;
    RunConcat(s, [RaiseRequest, Worker(true)], [Poll(false), Return]);
    Run2(s, RaiseRequest, Worker(true));
    Run2(Next(Next(s, RaiseRequest), Worker(true)), Poll(false), Return);
  }

  /** A true answer means a closed socket exactly when the call does not begin, with no request in
      force, while the worker is on its way to an acknowledgement. */
  lemma SocketTrustedIff(s: State)
    requires Inv(s) && (s.caller.Free? || s.caller.Assured?)
    ensures SocketTrusted(s) <==> s.suspended || !OnTheWay(s.worker)
  {
    if !s.suspended && OnTheWay(s.worker) {
      NotTrustworthyIfOvertaken(s);
    } else {
      assert !Next(s, SuspendAndWait).overtaken;
      hide Next, Inv, SocketTrusted, Trustworthy;
      TrustworthyIfNotOvertaken(s);
    }
  }

  /** It means a closed socket and an empty queue exactly when, in addition, the call does not begin
      under a request while a packet lies behind the worker's reset of the queue. */
  lemma TrustworthyIff(s: State)
    requires Inv(s) && (s.caller.Free? || s.caller.Assured?)
    ensures Trustworthy(s) <==> if s.suspended then !Crowded(s) else !OnTheWay(s.worker)
  {
    if s.suspended && Crowded(s) {
      NotTrustworthyIfCrowded(s);
    } else if !s.suspended && OnTheWay(s.worker) {
      NotTrustworthyIfOvertaken(s);
    } else {
      assert !Next(s, SuspendAndWait).overtaken && !Next(s, SuspendAndWait).crowded;
      hide Next, Inv, SocketTrusted, Trustworthy;
      TrustworthyIfNotOvertaken(s);
    }
  }

  /** A moment of the first kind comes: the worker sees a request that is withdrawn before it has
      acted on it. */
  lemma OvertakingHappens()
    ensures var s := Run(START, [RequestSuspend, RaiseRequest, Worker(true)] + [Resume, LowerRequest]);
      Inv(s) && s.caller.Free? && !s.suspended && OnTheWay(s.worker) && AnswersOverOpenSocket(s)
  {
    hide Run;
    var s1 := Next(Next(Next(START, RequestSuspend), RaiseRequest), Worker(true));
    Run3(START, RequestSuspend, RaiseRequest, Worker(true));
    Run2(s1, Resume, LowerRequest);
    RunConcat(START, [RequestSuspend, RaiseRequest, Worker(true)], [Resume, LowerRequest]);
    RunKeepsInv(START, [RequestSuspend, RaiseRequest, Worker(true)] + [Resume, LowerRequest]);
    NotTrustworthyIfOvertaken(Next(Next(s1, Resume), LowerRequest));
  }

  /** The schedule of a moment of the second kind: connect; a request that is withdrawn while the
      worker acts on it; a packet that is accepted before it closes the socket and enters the queue
      after it has emptied it; and a new request. */
  const CROWD: seq<seq<Step>> := [
    [Worker(true), Worker(true), Worker(true)],
    [Worker(true), Worker(true), RequestSuspend],
    [RaiseRequest, Worker(true), Resume],
    [LowerRequest, Push, Worker(true)],
    [Worker(true), Send, RequestSuspend]]

  function Joined(parts: seq<seq<Step>>): seq<Step> {
    if parts == [] then [] else parts[0] + Joined(parts[1..])
  }

  lemma JoinedRun(s: State, parts: seq<seq<Step>>) returns (s': State)
    requires parts != [] && |parts[0]| == 3
    ensures s' == Next(Next(Next(s, parts[0][0]), parts[0][1]), parts[0][2])
    ensures Run(s, Joined(parts)) == Run(s', Joined(parts[1..]))
  {
    hide Next;
    var p := parts[0];
    assert p == [p[0], p[1], p[2]];
    Run3(s, p[0], p[1], p[2]);
    RunConcat(s, p, Joined(parts[1..]));
    s' := Next(Next(Next(s, p[0]), p[1]), p[2]);
  }

  lemma CrowdingHappens()
    ensures var s := Run(START, Joined(CROWD) + [RaiseRequest]);
      Inv(s) && s.caller.Free? && s.suspended && Crowded(s) && !Trustworthy(s)
  {
    hide Run, Joined, Next, CROWD, Crowded, Inv;
    var s5 := CrowdRun();
    RunConcat(START, Joined(CROWD), [RaiseRequest]);
    Run1(s5, RaiseRequest);
    CrowdRaised(s5);
    RunKeepsInv(START, Joined(CROWD) + [RaiseRequest]);
    NotTrustworthyIfCrowded(Next(s5, RaiseRequest));
  }

  lemma CrowdRaised(s: State)
    requires s.worker.SetAck? && s.io.queue == 1 && s.caller == HalfRequested(false)
    ensures var s' := Next(s, RaiseRequest); s'.caller.Free? && s'.suspended && Crowded(s')
    ensures Inv(START)
  {
  }

  lemma CrowdRun() returns (s: State)
    ensures s == Run(START, Joined(CROWD))
    ensures s.worker.SetAck? && s.io.queue == 1 && s.caller == HalfRequested(false)
  {
    hide Run, Joined, SuspendBranch, ReconnectBranch, Serve;
    var s1 := JoinedRun(START, CROWD);
    ConnectingRun(s1);
    var s2 := JoinedRun(s1, CROWD[1..]);
    var s3 := JoinedRun(s2, CROWD[2..]);
    ClosingRun(s2);
    var s4 := JoinedRun(s3, CROWD[3..]);
    s := JoinedRun(s4, CROWD[4..]);
    CrowdedRun(s3);
    CrowdEnds(s);
  }

  lemma ConnectingRun(s: State)
    requires var w := Worker(true); s == Next(Next(Next(START, w), w), w)
    ensures var w := Worker(true); var s' := Next(Next(Next(s, w), w), RequestSuspend);
      && s'.worker.ReadSuspended? && s'.io.connected && s'.io.queue == 0
      && s'.caller == HalfRequested(false) && !s'.reconnect
  {
    assert s.worker.Connect? && s.caller.Free? && !s.suspended && s.io.queue == 0 && !s.reconnect;
  }

  lemma ClosingRun(s: State)
    requires s.worker.ReadSuspended? && s.io.connected && s.io.queue == 0
    requires s.caller == HalfRequested(false) && !s.reconnect
    ensures var s' := Next(Next(Next(s, RaiseRequest), Worker(true)), Resume);
      && s'.worker.StopSocket? && s'.io.connected && s'.io.queue == 0 && s'.caller.HalfResumed? && !s'.reconnect
  {
    hide ReconnectBranch, Serve;
  }

  lemma CrowdedRun(s: State)
    requires s.worker.StopSocket? && s.io.connected && s.io.queue == 0 && s.caller.HalfResumed? && !s.reconnect
    ensures var s1 := Next(Next(Next(s, LowerRequest), Push), Worker(true));
      var s' := Next(Next(Next(s1, Worker(true)), Send), RequestSuspend);
      s'.worker.SetAck? && s'.io.queue == 1 && s'.caller == HalfRequested(false)
  {
    hide ReconnectBranch, Serve;
  }

  lemma CrowdEnds(s: State)
    ensures Joined(CROWD[5..]) == [] && Run(s, []) == s
  {
  }

  /** Once true has been returned by a call whose socket can be trusted, the worker neither connects
      nor writes until resume, and an empty queue stays empty. */
  lemma {:induction false} NoActivityUntilResume(s: State, steps: seq<Step>)
    requires Inv(s) && s.caller.Assured? && !s.overtaken && SameCall(steps)
    ensures var s' := Run(s, steps);
      s'.io.activity == s.io.activity && Stopped(s') && (!s.crowded ==> AtRest(s'))
    decreases |steps|
  {
    if steps != [] {
      NextKeepsInv(s, steps[0]);
      AssuredStep(s, steps[0]);
      hide Next, Inv;
      NoActivityUntilResume(Next(s, steps[0]), steps[1..]);
    }
  }

  lemma AssuredStep(s: State, step: Step)
    requires Inv(s) && s.caller.Assured? && !s.overtaken
    requires !step.Resume? && !step.SuspendAndWait? && !step.RequestSuspend?
    ensures var s' := Next(s, step);
      s'.caller.Assured? && !s'.overtaken && s'.crowded == s.crowded && s'.io.activity == s.io.activity
  {
  }
}
