/** Modes and gates of main/base_station.cpp. */
module StreamGate {
  // They decide when the four senders may run. Each public method of the base station is one
  // atomic step here.

  datatype Mode = Survey | Transmit

  /** The flags of the base station, and the suspended flag of each sender. */
  datatype Gate = Gate(
    transientSuspended: bool,
    userEnabled: bool,
    networkAvailable: bool,
    hasRtcm: bool,
    rateReady: bool,
    raw: bool,
    mode: Mode,
    loggerActive: bool,
    local: bool,
    upstream: seq<bool>)

  const MIN_OUTBOUND_BPS := 900

  /** As the members are initialised. */
  const POWER_UP := Gate(true, true, false, false, false, false, Survey, false, true, [true, true, true])

  function StreamsSuspended(g: Gate): bool {
    g.transientSuspended || !g.userEnabled || g.mode != Transmit || !g.hasRtcm || g.raw
  }

  function OutboundSuspended(g: Gate): bool {
    StreamsSuspended(g) || !g.networkAvailable || !g.rateReady
  }

  /** The user's, the owner's and the network's switches. */
  predicate SameSwitches(g: Gate, g': Gate) {
    g'.userEnabled == g.userEnabled && g'.transientSuspended == g.transientSuspended
    && g'.networkAvailable == g.networkAvailable
  }

  /** apply_stream_state: touches nothing but the senders' flags. */
  function Applied(g: Gate): (g': Gate)
    ensures Stands(g', g.hasRtcm, g.rateReady, g.raw, g.mode)
    ensures SameSwitches(g, g') && g'.loggerActive == g.loggerActive
  {
    g.(local := StreamsSuspended(g),
       upstream := [OutboundSuspended(g), OutboundSuspended(g), OutboundSuspended(g)])
  }

  /** What decides whether frames are read and passed on. */
  predicate Stands(g: Gate, hasRtcm: bool, rateReady: bool, raw: bool, mode: Mode) {
    g.hasRtcm == hasRtcm && g.rateReady == rateReady && g.raw == raw && g.mode == mode
  }

  function EnterSurvey(g: Gate): (g': Gate)
    ensures Stands(g', false, false, g.raw, Survey)
    ensures SameSwitches(g, g')
  {
    Applied(g.(mode := Survey, hasRtcm := false, rateReady := false))
  }

  function EnterTransmit(g: Gate): (g': Gate)
    ensures Stands(g', false, false, g.raw, Transmit)
    ensures SameSwitches(g, g')
  {
    Applied(g.(mode := Transmit, hasRtcm := false, rateReady := false))
  }

  function EnterRaw(g: Gate): (g': Gate)
    ensures Stands(g', g.hasRtcm, g.rateReady, g.raw || g.mode == Transmit, g.mode)
    ensures SameSwitches(g, g')
  {
    if g.mode != Transmit || g.raw then g
    else Applied(g.(raw := true)).(loggerActive := true)
  }

  function ExitRaw(g: Gate): (g': Gate)
    ensures Stands(g', g.hasRtcm && !g.raw, g.rateReady && !g.raw, false, g.mode)
    ensures SameSwitches(g, g')
  {
    if !g.raw then g
    else Applied(g.(loggerActive := false, raw := false, hasRtcm := false, rateReady := false))
  }

  function ResetReceiver(g: Gate): Gate {
    if g.mode != Transmit || g.raw then g
    else Applied(g.(hasRtcm := false, rateReady := false))
  }

  /** publish_rtcm_frame: the first valid frame opens the gate. */
  function GotFrame(g: Gate): Gate {
    if g.hasRtcm then g else Applied(g.(hasRtcm := true))
  }

  /** The end of a rate window in the run loop. */
  function RateMeasured(g: Gate, bps: nat): Gate {
    if bps >= MIN_OUTBOUND_BPS && !g.rateReady then Applied(g.(rateReady := true)) else g
  }

  datatype Step =
    | Boot(streamsEnabled: bool, havePosition: bool)
    | RequestSurvey
    | RequestPosition(saved: bool)
    | RequestStartRaw
    | RequestStopRaw
    | RequestReset
    | SurveyDone(saved: bool)
    | FrameArrived
    | RateWindow(bps: nat)
    | SetSuspended(suspended: bool)
    | SetEnabled(enabled: bool)
    | ApplyPersisted(stored: bool)
    | SetNetwork(available: bool)
    | ReloadServices

  /** Frames are read only while transmitting and not collecting raw data; a survey result
      is taken only in survey mode. */
  function Next(g: Gate, s: Step): Gate {
    match s
    case Boot(streamsEnabled, havePosition) =>
      var g1 := g.(userEnabled := streamsEnabled, transientSuspended := true);
      if havePosition then EnterTransmit(g1) else EnterSurvey(g1)
    case RequestSurvey => EnterSurvey(ExitRaw(g))
    case RequestPosition(saved) => if saved then EnterTransmit(ExitRaw(g)) else ExitRaw(g)
    case RequestStartRaw => EnterRaw(g)
    case RequestStopRaw => ExitRaw(g)
    case RequestReset => ResetReceiver(g)
    case SurveyDone(saved) => if g.mode == Survey && saved then EnterTransmit(g) else g
    case FrameArrived => if g.mode == Transmit && !g.raw then GotFrame(g) else g
    case RateWindow(bps) => RateMeasured(g, bps)
    case SetSuspended(suspended) => Applied(g.(transientSuspended := suspended))
    case SetEnabled(enabled) => Applied(g.(userEnabled := enabled))
    case ApplyPersisted(stored) => Applied(g.(userEnabled := stored, transientSuspended := false))
    case SetNetwork(available) =>
      if g.networkAvailable == available then g else Applied(g.(networkAvailable := available))
    case ReloadServices => Applied(g)
  }

  function Run(g: Gate, steps: seq<Step>): Gate
    decreases |steps|
  {
    if steps == [] then g else Run(Next(g, steps[0]), steps[1..])
  }

  /** Every sender's flag is what its predicate says; raw collection only while
      transmitting, with the logger on. */
  ghost predicate Inv(g: Gate) {
    && g.local == StreamsSuspended(g)
    && g.upstream == [OutboundSuspended(g), OutboundSuspended(g), OutboundSuspended(g)]
    && LoggerInv(g)
  }

  ghost predicate AllSuspended(g: Gate) {
    g.local && g.upstream == [true, true, true]
  }

  /** A mode change, the end of raw collection, or a receiver reset, that takes effect. */
  predicate Transition(g: Gate, s: Step) {
    match s
    case Boot(_, _) => true
    case RequestSurvey => true
    case RequestPosition(saved) => saved || g.raw
    case RequestStopRaw => g.raw
    case RequestReset => g.mode == Transmit && !g.raw
    case SurveyDone(saved) => g.mode == Survey && saved
    case _ => false
  }

  lemma PowerUpInv()
    ensures Inv(POWER_UP)
  {
  }

  lemma NextKeepsInv(g: Gate, s: Step)
    requires Inv(g) && (s.Boot? ==> !g.raw)
    ensures Inv(Next(g, s))
  {
    hide *;
    if IsSwitch(s) {
      SwitchKeepsInv(g, s);
    } else if IsNews(s) {
      NewsKeepsInv(g, s);
    } else {
      RequestKeepsInv(g, s);
    }
  }

  /** The user's and the provisioning's switches. */
  predicate IsSwitch(s: Step) {
    s.SetSuspended? || s.SetEnabled? || s.ApplyPersisted? || s.ReloadServices?
  }

  /** What the station learns by itself. */
  predicate IsNews(s: Step) {
    s.FrameArrived? || s.RateWindow? || s.SetNetwork?
  }

  lemma SwitchKeepsInv(g: Gate, s: Step)
    requires Inv(g) && IsSwitch(s)
    ensures Inv(Next(g, s))
  {
    hide Inv, Applied;
    InvLogger(g);
    match s {
      case SetSuspended(suspended) => AppliedInv(g.(transientSuspended := suspended));
      case SetEnabled(enabled) => AppliedInv(g.(userEnabled := enabled));
      case ApplyPersisted(stored) => AppliedInv(g.(userEnabled := stored, transientSuspended := false));
      case ReloadServices => AppliedInv(g);
    }
  }

  lemma NewsKeepsInv(g: Gate, s: Step)
    requires Inv(g) && IsNews(s)
    ensures Inv(Next(g, s))
  {
    hide Inv, Applied, GotFrame, RateMeasured;
    InvLogger(g);
    match s {
      case FrameArrived => GotFrameKeepsInv(g);
      case RateWindow(bps) => RateKeepsInv(g, bps);
      case SetNetwork(available) => AppliedInv(g.(networkAvailable := available));
    }
  }

  lemma GotFrameKeepsInv(g: Gate)
    requires Inv(g)
    ensures Inv(GotFrame(g))
  {
    hide Inv, Applied;
    InvLogger(g);
    AppliedInv(g.(hasRtcm := true));
  }

  lemma RateKeepsInv(g: Gate, bps: nat)
    requires Inv(g)
    ensures Inv(RateMeasured(g, bps))
  {
    hide Inv, Applied;
    InvLogger(g);
    AppliedInv(g.(rateReady := true));
  }

  lemma RequestKeepsInv(g: Gate, s: Step)
    requires Inv(g) && (s.Boot? ==> !g.raw) && !IsSwitch(s) && !IsNews(s)
    ensures Inv(Next(g, s))
  {
    hide Inv, Applied, EnterSurvey, EnterTransmit, EnterRaw, ExitRaw;
    InvLogger(g);
    EnteringKeepsInv(g);
    if s.Boot? {
      EnteringKeepsInv(g.(userEnabled := s.streamsEnabled, transientSuspended := true));
    }
    AppliedInv(g.(hasRtcm := false, rateReady := false));
  }

  lemma InvLogger(g: Gate)
    requires Inv(g)
    ensures g.mode == Survey ==> !g.raw
    ensures LoggerInv(g)
  {
  }

  /** The logger is on exactly while raw data is collected, which is while transmitting. */
  ghost predicate LoggerInv(g: Gate) {
    (g.raw ==> g.mode == Transmit && g.loggerActive) && (!g.raw ==> !g.loggerActive)
  }

  lemma AppliedInv(g: Gate)
    requires LoggerInv(g)
    ensures Inv(Applied(g))
  {
  }

  /** The flags do not look at the logger. */
  lemma AppliedBeforeLogger(g: Gate)
    requires g.raw && g.mode == Transmit
    ensures Inv(Applied(g).(loggerActive := true))
  {
  }

  lemma EnteringKeepsInv(g: Gate)
    requires LoggerInv(g)
    ensures Inv(g) ==> Inv(EnterRaw(g)) && Inv(ExitRaw(g))
    ensures !g.raw ==> Inv(EnterSurvey(g)) && Inv(EnterTransmit(g))
    ensures Inv(EnterSurvey(ExitRaw(g))) && Inv(EnterTransmit(ExitRaw(g)))
  {
    AppliedBeforeLogger(g.(raw := true, mode := Transmit));
    AppliedInv(g.(loggerActive := false, raw := false, hasRtcm := false, rateReady := false));
    var left := ExitRaw(g);
    AppliedInv(left.(mode := Survey, hasRtcm := false, rateReady := false));
    AppliedInv(left.(mode := Transmit, hasRtcm := false, rateReady := false));
    hide StreamsSuspended, OutboundSuspended, Applied, Inv;
    assert g.raw || g == left;
    assert g.mode == Transmit ==> g.(raw := true, mode := Transmit) == g.(raw := true);
  }

  /** The base station is started once, before anything is asked of it. */
  lemma {:induction false} RunKeepsInv(g: Gate, steps: seq<Step>)
    requires Inv(g) && forall i | 0 <= i < |steps| :: !steps[i].Boot?
    ensures Inv(Run(g, steps))
    decreases |steps|
  {
    if steps != [] {
      NextKeepsInv(g, steps[0]);
      RunKeepsInv(Next(g, steps[0]), steps[1..]);
    }
  }

  lemma NoFrameNoOpening(g: Gate, s: Step)
    requires !g.hasRtcm && !s.FrameArrived?
    ensures !Next(g, s).hasRtcm
  {
    hide Applied, EnterSurvey, EnterTransmit, EnterRaw, ExitRaw;
  }

  lemma NoRateNoOpening(g: Gate, s: Step)
    requires !g.rateReady && (s.RateWindow? ==> s.bps < MIN_OUTBOUND_BPS)
    ensures !Next(g, s).rateReady
  {
    hide Applied, EnterSurvey, EnterTransmit, EnterRaw, ExitRaw;
  }

  /** Without a frame the gate stays shut whatever else happens. */
  lemma {:induction false} ShutWithoutFrame(g: Gate, steps: seq<Step>)
    requires Inv(g) && !g.hasRtcm
    requires forall i | 0 <= i < |steps| :: !steps[i].Boot? && !steps[i].FrameArrived?
    ensures !Run(g, steps).hasRtcm && AllSuspended(Run(g, steps))
    decreases |steps|
  {
    if steps != [] {
      hide Next;
      NextKeepsInv(g, steps[0]);
      NoFrameNoOpening(g, steps[0]);
      ShutWithoutFrame(Next(g, steps[0]), steps[1..]);
    }
  }

  /** From a transition to the next valid frame all four senders stay suspended, whatever
      the user, the network and the rate measurement do meanwhile. */
  lemma {:induction false} QuietAfterTransition(g: Gate, s: Step, steps: seq<Step>)
    requires Inv(g) && Transition(g, s) && (s.Boot? ==> !g.raw)
    requires forall i | 0 <= i < |steps| :: !steps[i].Boot? && !steps[i].FrameArrived?
    ensures AllSuspended(Run(Next(g, s), steps))
  {
    NextKeepsInv(g, s);
    ShutWithoutFrame(Next(g, s), steps);
  }

  /** The three upstream senders wait, in addition, for a rate window that meets the minimum. */
  lemma {:induction false} ShutWithoutRate(g: Gate, steps: seq<Step>)
    requires Inv(g) && !g.rateReady
    requires forall i | 0 <= i < |steps| ::
               !steps[i].Boot? && (steps[i].RateWindow? ==> steps[i].bps < MIN_OUTBOUND_BPS)
    ensures !Run(g, steps).rateReady && Run(g, steps).upstream == [true, true, true]
    decreases |steps|
  {
    if steps != [] {
      hide Next;
      NextKeepsInv(g, steps[0]);
      NoRateNoOpening(g, steps[0]);
      ShutWithoutRate(Next(g, steps[0]), steps[1..]);
    }
  }

  lemma NoUpstreamBeforeRate(g: Gate, s: Step, steps: seq<Step>)
    requires Inv(g) && Transition(g, s) && (s.Boot? ==> !g.raw)
    requires forall i | 0 <= i < |steps| ::
               !steps[i].Boot? && (steps[i].RateWindow? ==> steps[i].bps < MIN_OUTBOUND_BPS)
    ensures Run(Next(g, s), steps).upstream == [true, true, true]
  {
    NextKeepsInv(g, s);
    ShutWithoutRate(Next(g, s), steps);
  }

  /** No step of the run is a transition where it happens. */
  predicate Undisturbed(g: Gate, steps: seq<Step>)
    decreases |steps|
  {
    steps == [] || (!Transition(g, steps[0]) && Undisturbed(Next(g, steps[0]), steps[1..]))
  }

  /** An open rate gate is shut by the transitions and by nothing else. */
  lemma OnlyTransitionsShut(g: Gate, s: Step)
    requires g.rateReady
    ensures Next(g, s).rateReady <==> !Transition(g, s)
  {
    hide Applied, EnterSurvey, EnterTransmit, EnterRaw, ExitRaw;
  }

  /** Until the next transition the rate gate is a latch, whatever the user, the network, the
      streams and later windows do: the upstream senders wait for nothing but the stream and
      the network. */
  lemma {:induction false} RateGateLatches(g: Gate, steps: seq<Step>)
    requires Inv(g) && g.rateReady && Undisturbed(g, steps)
    ensures var g' := Run(g, steps);
      && g'.rateReady
      && var held := StreamsSuspended(g') || !g'.networkAvailable;
         g'.upstream == [held, held, held]
    decreases |steps|
  {
    if steps != [] {
      hide Next;
      NextKeepsInv(g, steps[0]);
      OnlyTransitionsShut(g, steps[0]);
      RateGateLatches(Next(g, steps[0]), steps[1..]);
    }
  }
}
