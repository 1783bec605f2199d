/** Why a sender is suspended, read off the steps alone. */
module GateReasons {
  import opened Common
  import opened StreamGate

  // StreamGate keeps flags and applies them. Here nothing is kept: each reason for a suspension is
  // found by looking back over the steps for the last one that bears on it, and the senders' flags
  // after every run are shown to be exactly these reasons.

  /** The last word about the user's switch: the stored one at the start, a new one, or a reload. */
  function Enabled(atBoot: bool, steps: seq<Step>): bool
    decreases |steps|
  {
    if steps == [] then atBoot
    else
      match steps[|steps| - 1]
      case SetEnabled(enabled) => enabled
      case ApplyPersisted(stored) => stored
      case _ => Enabled(atBoot, steps[..|steps| - 1])
  }

  /** The transient suspension, in force from the start until it is lifted. */
  function Held(steps: seq<Step>): bool
    decreases |steps|
  {
    if steps == [] then true
    else
      match steps[|steps| - 1]
      case SetSuspended(suspended) => suspended
      case ApplyPersisted(_) => false
      case _ => Held(steps[..|steps| - 1])
  }

  /** The last word about the network. */
  function Online(steps: seq<Step>): bool
    decreases |steps|
  {
    if steps == [] then false
    else
      match steps[|steps| - 1]
      case SetNetwork(available) => available
      case _ => Online(steps[..|steps| - 1])
  }

  /** What the station is doing. */
  datatype Activity = Surveying | Transmitting | Collecting

  function Doing(havePosition: bool, steps: seq<Step>): Activity
    decreases |steps|
  {
    if steps == [] then if havePosition then Transmitting else Surveying
    else Then(Doing(havePosition, steps[..|steps| - 1]), steps[|steps| - 1])
  }

  function Then(before: Activity, s: Step): Activity {
    match s
    case RequestSurvey => Surveying
    case RequestPosition(saved) => if saved || before.Collecting? then Transmitting else before
    case SurveyDone(saved) => if saved && before.Surveying? then Transmitting else before
    case RequestStartRaw => if before.Transmitting? then Collecting else before
    case RequestStopRaw => if before.Collecting? then Transmitting else before
    case _ => before
  }

  /** A step that makes the station forget what it heard, given what it was doing. */
  predicate Forgets(before: Activity, s: Step) {
    match s
    case RequestSurvey => true
    case RequestPosition(saved) => saved || before.Collecting?
    case SurveyDone(saved) => saved && before.Surveying?
    case RequestStopRaw => before.Collecting?
    case RequestReset => before.Transmitting?
    case _ => false
  }

  /** A frame has been heard since then. */
  function Heard(havePosition: bool, steps: seq<Step>): bool
    decreases |steps|
  {
    if steps == [] then false
    else
      var init, last := steps[..|steps| - 1], steps[|steps| - 1];
      var before := Doing(havePosition, init);
      !Forgets(before, last) && (Heard(havePosition, init) || (last.FrameArrived? && before.Transmitting?))
  }

  /** A window of 900 bytes per second or more has been measured since then. */
  function Fast(havePosition: bool, steps: seq<Step>): bool
    decreases |steps|
  {
    if steps == [] then false
    else
      var init, last := steps[..|steps| - 1], steps[|steps| - 1];
      !Forgets(Doing(havePosition, init), last)
      && (Fast(havePosition, init) || (last.RateWindow? && last.bps >= 900))
  }

  function AfterBoot(atBoot: bool, havePosition: bool, steps: seq<Step>): Gate {
    Run(Next(POWER_UP, Boot(atBoot, havePosition)), steps)
  }

  predicate NoBoot(steps: seq<Step>) {
    forall i | 0 <= i < |steps| :: !steps[i].Boot?
  }

  lemma {:induction false} RunSnoc(g: Gate, steps: seq<Step>, last: Step)
    ensures Run(g, steps + [last]) == Next(Run(g, steps), last)
    decreases |steps|
  {
    hide Next;
    if steps == [] {
      assert [last][1..] == [];
    } else {
      assert (steps + [last])[1..] == steps[1..] + [last];
      RunSnoc(Next(g, steps[0]), steps[1..], last);
    }
  }

  /** The station's own fields are what the steps say. */
  ghost predicate SwitchesAgree(g: Gate, atBoot: bool, steps: seq<Step>) {
    && g.userEnabled == Enabled(atBoot, steps) && g.transientSuspended == Held(steps)
    && g.networkAvailable == Online(steps)
  }

  function ActivityOf(g: Gate): Activity {
    if g.mode == Survey then Surveying else if g.raw then Collecting else Transmitting
  }

  ghost predicate Agrees(g: Gate, atBoot: bool, havePosition: bool, steps: seq<Step>) {
    && SwitchesAgree(g, atBoot, steps)
    && g.hasRtcm == Heard(havePosition, steps) && g.rateReady == Fast(havePosition, steps)
    && ActivityOf(g) == Doing(havePosition, steps)
  }

  /** The switches are left alone by everything but their own steps. */
  lemma RequestKeepsSwitches(g: Gate, s: Step)
    requires !s.Boot? && !IsSwitch(s)
    ensures s.SetNetwork? || SameSwitches(g, Next(g, s))
  {
    hide Applied, EnterSurvey, EnterTransmit, EnterRaw, ExitRaw;
  }

  lemma SwitchesNext(g: Gate, s: Step)
    requires IsSwitch(s) || s.SetNetwork?
    ensures var g' := Next(g, s);
      && g'.userEnabled == (if s.SetEnabled? then s.enabled else if s.ApplyPersisted? then s.stored else g.userEnabled)
      && g'.networkAvailable == (if s.SetNetwork? then s.available else g.networkAvailable)
      && g'.transientSuspended
         == (if s.SetSuspended? then s.suspended else !s.ApplyPersisted? && g.transientSuspended)
  {
    hide Applied, EnterSurvey, EnterTransmit, EnterRaw, ExitRaw, ResetReceiver, GotFrame, RateMeasured;
  }

  lemma SwitchStep(g: Gate, atBoot: bool, steps: seq<Step>)
    requires steps != [] && !steps[|steps| - 1].Boot?
    requires SwitchesAgree(g, atBoot, steps[..|steps| - 1])
    ensures SwitchesAgree(Next(g, steps[|steps| - 1]), atBoot, steps)
  {
    hide Next;
    var last := steps[|steps| - 1];
    if IsSwitch(last) || last.SetNetwork? {
      SwitchesNext(g, last);
    } else {
      RequestKeepsSwitches(g, last);
    }
  }

  lemma ActivityStep(g: Gate, s: Step)
    requires !s.Boot? && (g.mode == Survey ==> !g.raw)
    ensures ActivityOf(Next(g, s)) == Then(ActivityOf(g), s)
  {
    hide Applied, EnterSurvey, EnterTransmit, EnterRaw, ExitRaw;
  }

  lemma HeardStep(g: Gate, s: Step)
    requires !s.Boot? && (g.mode == Survey ==> !g.raw)
    ensures Next(g, s).hasRtcm <==>
      !Forgets(ActivityOf(g), s) && (g.hasRtcm || (s.FrameArrived? && ActivityOf(g).Transmitting?))
  {
    hide *;
    if IsSwitch(s) || IsNews(s) {
      NewsHeard(g, s);
    } else {
      RequestForgets(g, s);
    }
  }

  lemma FastStep(g: Gate, s: Step)
    requires !s.Boot? && (g.mode == Survey ==> !g.raw)
    ensures Next(g, s).rateReady <==> !Forgets(ActivityOf(g), s) && (g.rateReady || (s.RateWindow? && s.bps >= 900))
  {
    hide *;
    if IsSwitch(s) || IsNews(s) {
      NewsFast(g, s);
    } else {
      RequestForgets(g, s);
    }
  }

  lemma NewsHeard(g: Gate, s: Step)
    requires IsSwitch(s) || IsNews(s)
    ensures !Forgets(ActivityOf(g), s)
    ensures Next(g, s).hasRtcm <==> g.hasRtcm || (s.FrameArrived? && ActivityOf(g).Transmitting?)
  {
    hide Applied;
  }

  lemma NewsFast(g: Gate, s: Step)
    requires IsSwitch(s) || IsNews(s)
    ensures !Forgets(ActivityOf(g), s)
    ensures Next(g, s).rateReady <==> g.rateReady || (s.RateWindow? && s.bps >= 900)
  {
    hide Applied;
  }

  lemma RequestForgets(g: Gate, s: Step)
    requires !s.Boot? && !IsSwitch(s) && !IsNews(s) && (g.mode == Survey ==> !g.raw)
    ensures !s.FrameArrived? && !s.RateWindow?
    ensures Next(g, s).hasRtcm <==> !Forgets(ActivityOf(g), s) && g.hasRtcm
    ensures Next(g, s).rateReady <==> !Forgets(ActivityOf(g), s) && g.rateReady
  {
    hide Applied, EnterSurvey, EnterTransmit, EnterRaw, ExitRaw;
  }

  lemma StepAgrees(g: Gate, atBoot: bool, havePosition: bool, steps: seq<Step>)
    requires steps != [] && !steps[|steps| - 1].Boot? && Inv(g)
    requires Agrees(g, atBoot, havePosition, steps[..|steps| - 1])
    ensures Agrees(Next(g, steps[|steps| - 1]), atBoot, havePosition, steps)
  {
    hide Next, ActivityOf, SwitchesAgree, Forgets, Then, Inv;
    InvLogger(g);
    var last := steps[|steps| - 1];
    SwitchStep(g, atBoot, steps);
    ActivityStep(g, last);
    HeardStep(g, last);
    FastStep(g, last);
  }

  lemma {:induction false} RunAgrees(atBoot: bool, havePosition: bool, steps: seq<Step>)
    requires NoBoot(steps)
    ensures Agrees(AfterBoot(atBoot, havePosition, steps), atBoot, havePosition, steps)
    ensures Inv(AfterBoot(atBoot, havePosition, steps))
    decreases |steps|
  {
    var boot := Next(POWER_UP, Boot(atBoot, havePosition));
    PowerUpInv();
    NextKeepsInv(POWER_UP, Boot(atBoot, havePosition));
    if steps != [] {
      hide Next, Inv, Agrees;
      var n := |steps| - 1;
      RunAgrees(atBoot, havePosition, steps[..n]);
      assert steps == steps[..n] + [steps[n]];
      RunSnoc(boot, steps[..n], steps[n]);
      StepAgrees(Run(boot, steps[..n]), atBoot, havePosition, steps);
      NextKeepsInv(Run(boot, steps[..n]), steps[n]);
    }
  }

  /** After every run from the start: the local caster is suspended if and only if the suspension is
      in force, or the user has switched the streams off, or the station is not transmitting, or it
      has heard no frame since it last forgot what it heard; each upstream sender, in addition, if
      and only if the network is down or no window has met the minimum since then. */
  lemma FlagsAreReasons(atBoot: bool, havePosition: bool, steps: seq<Step>)
    requires NoBoot(steps)
    ensures var g := AfterBoot(atBoot, havePosition, steps);
      var local := Held(steps) || !Enabled(atBoot, steps) || !Doing(havePosition, steps).Transmitting?
                   || !Heard(havePosition, steps);
      var upstream := local || !Online(steps) || !Fast(havePosition, steps);
      g.local == local && g.upstream == [upstream, upstream, upstream]
  {
    hide AfterBoot, Enabled, Held, Online, Doing, Heard, Fast;
    RunAgrees(atBoot, havePosition, steps);
  }

  // --------------------------------------------------------- while a reason holds

  /** The steps that lift each reason. */
  predicate Enables(s: Step) {
    (s.SetEnabled? && s.enabled) || (s.ApplyPersisted? && s.stored)
  }

  predicate Lifts(s: Step) {
    s.ApplyPersisted? || (s.SetSuspended? && !s.suspended)
  }

  predicate Connects(s: Step) {
    s.SetNetwork? && s.available
  }

  predicate StartsTransmitting(s: Step) {
    s.RequestSurvey? || s.RequestPosition? || s.RequestStopRaw? || s.SurveyDone?
  }

  lemma {:induction false} StaysDisabled(atBoot: bool, steps: seq<Step>, more: seq<Step>)
    requires !Enabled(atBoot, steps) && forall i | 0 <= i < |more| :: !Enables(more[i])
    ensures !Enabled(atBoot, steps + more)
    decreases |more|
  {
    if more == [] {
      assert steps + more == steps;
    } else {
      var n := |more| - 1;
      assert (steps + more)[..|steps + more| - 1] == steps + more[..n];
      StaysDisabled(atBoot, steps, more[..n]);
    }
  }

  lemma {:induction false} StaysHeld(steps: seq<Step>, more: seq<Step>)
    requires Held(steps) && forall i | 0 <= i < |more| :: !Lifts(more[i])
    ensures Held(steps + more)
    decreases |more|
  {
    if more == [] {
      assert steps + more == steps;
    } else {
      var n := |more| - 1;
      assert (steps + more)[..|steps + more| - 1] == steps + more[..n];
      StaysHeld(steps, more[..n]);
    }
  }

  lemma {:induction false} StaysOffline(steps: seq<Step>, more: seq<Step>)
    requires !Online(steps) && forall i | 0 <= i < |more| :: !Connects(more[i])
    ensures !Online(steps + more)
    decreases |more|
  {
    if more == [] {
      assert steps + more == steps;
    } else {
      var n := |more| - 1;
      assert (steps + more)[..|steps + more| - 1] == steps + more[..n];
      StaysOffline(steps, more[..n]);
    }
  }

  lemma {:induction false} StaysElsewhere(havePosition: bool, steps: seq<Step>, more: seq<Step>)
    requires !Doing(havePosition, steps).Transmitting?
    requires forall i | 0 <= i < |more| :: !StartsTransmitting(more[i])
    ensures !Doing(havePosition, steps + more).Transmitting?
    decreases |more|
  {
    if more == [] {
      assert steps + more == steps;
    } else {
      var n := |more| - 1;
      assert (steps + more)[..|steps + more| - 1] == steps + more[..n];
      StaysElsewhere(havePosition, steps, more[..n]);
    }
  }

  /** From a step that switches the streams off all four senders are suspended until one switches
      them on, whatever else happens. */
  lemma OffUntilEnabled(atBoot: bool, havePosition: bool, steps: seq<Step>, off: Step, more: seq<Step>)
    requires NoBoot(steps) && NoBoot(more) && (off == SetEnabled(false) || off == ApplyPersisted(false))
    requires forall i | 0 <= i < |more| :: !Enables(more[i])
    ensures AllSuspended(AfterBoot(atBoot, havePosition, steps + [off] + more))
  {
    var before := steps + [off];
    assert before[..|before| - 1] == steps && before[|before| - 1] == off;
    assert !Enabled(atBoot, before);
    hide Enabled, AfterBoot;
    StaysDisabled(atBoot, before, more);
    FlagsAreReasons(atBoot, havePosition, before + more);
  }

  /** From a transient suspension until it is lifted. */
  lemma OffUntilLifted(atBoot: bool, havePosition: bool, steps: seq<Step>, more: seq<Step>)
    requires NoBoot(steps) && NoBoot(more) && forall i | 0 <= i < |more| :: !Lifts(more[i])
    ensures AllSuspended(AfterBoot(atBoot, havePosition, steps + [SetSuspended(true)] + more))
  {
    var before := steps + [SetSuspended(true)];
    assert Held(before);
    hide Held, AfterBoot;
    StaysHeld(before, more);
    FlagsAreReasons(atBoot, havePosition, before + more);
  }

  /** While a survey runs or raw data is collected. */
  lemma OffUntilTransmitting(atBoot: bool, havePosition: bool, steps: seq<Step>, more: seq<Step>)
    requires NoBoot(steps) && NoBoot(more) && !Doing(havePosition, steps).Transmitting?
    requires forall i | 0 <= i < |more| :: !StartsTransmitting(more[i])
    ensures AllSuspended(AfterBoot(atBoot, havePosition, steps + more))
  {
    hide Doing, AfterBoot;
    StaysElsewhere(havePosition, steps, more);
    FlagsAreReasons(atBoot, havePosition, steps + more);
  }

  /** From the loss of the network until it is back the upstream senders are suspended. */
  lemma UpstreamOffUntilOnline(atBoot: bool, havePosition: bool, steps: seq<Step>, more: seq<Step>)
    requires NoBoot(steps) && NoBoot(more) && forall i | 0 <= i < |more| :: !Connects(more[i])
    ensures AfterBoot(atBoot, havePosition, steps + [SetNetwork(false)] + more).upstream == [true, true, true]
  {
    var before := steps + [SetNetwork(false)];
    assert !Online(before);
    hide Online, AfterBoot;
    StaysOffline(before, more);
    FlagsAreReasons(atBoot, havePosition, before + more);
  }

  /** With none of these reasons the local caster runs, and with network and rate all four senders. */
  lemma RunsWithoutReason(atBoot: bool, havePosition: bool, steps: seq<Step>)
    requires NoBoot(steps) && Enabled(atBoot, steps) && !Held(steps)
    requires Doing(havePosition, steps).Transmitting? && Heard(havePosition, steps)
    ensures var g := AfterBoot(atBoot, havePosition, steps);
      !g.local && (Online(steps) && Fast(havePosition, steps) ==> g.upstream == [false, false, false])
  {
    hide AfterBoot, Enabled, Held, Online, Doing, Heard, Fast;
    FlagsAreReasons(atBoot, havePosition, steps);
  }
}
