/** The base station object of main/base_station.cpp, method by method.

    The three parts it owns keep their own buffers; each method is proved to take the whole
    station through one step of `Station.Next`. */
module BaseStation {
  import opened Bits
  import Deframer
  import Batch
  import Mailbox
  import StreamGate
  import Station

  datatype Action =
    | SurveyAction
    | PositionAction(saved: bool)
    | StartRawAction
    | StopRawAction
    | ResetUm980Action

  function StepOf(a: Action): StreamGate.Step {
    match a
    case SurveyAction => StreamGate.RequestSurvey
    case PositionAction(saved) => StreamGate.RequestPosition(saved)
    case StartRawAction => StreamGate.RequestStartRaw
    case StopRawAction => StreamGate.RequestStopRaw
    case ResetUm980Action => StreamGate.RequestReset
  }

  class BaseStation {
    var transientStreamsSuspended: bool
    var userStreamsEnabled: bool
    var networkAvailable: bool
    var hasRtcmData: bool
    var outboundRateReady: bool
    var rawCollection: bool
    var mode: StreamGate.Mode
    var loggerActive: bool
    var localSuspended: bool
    var upstreamSuspended: seq<bool>
    const deframer: Deframer.RtcmDeframer
    const localBatch: Batch.RtcmBatch
    const mailbox: Mailbox.CorrectionMailbox

    ghost function Repr(): set<object> {
      {this, deframer, deframer.frame, localBatch, localBatch.data, localBatch.frameEnds,
       mailbox, mailbox.slots, mailbox.pushNextFlushUs}
    }

    /** The parts are valid and share no buffer. */
    ghost predicate Parts()
      reads Repr()
    {
      && deframer.Valid() && localBatch.Valid() && mailbox.Valid()
      && deframer.frame != localBatch.data
      && localBatch.frameEnds != mailbox.pushNextFlushUs
    }

    ghost function Gate(): StreamGate.Gate
      reads this
    {
      StreamGate.Gate(transientStreamsSuspended, userStreamsEnabled, networkAvailable, hasRtcmData,
                      outboundRateReady, rawCollection, mode, loggerActive,
                      localSuspended, upstreamSuspended)
    }

    ghost function State(): Station.Station
      requires Parts()
      reads Repr()
    {
      Station.Station(Gate(), deframer.State(), localBatch.Abs(), mailbox.State())
    }

    ghost predicate Valid()
      reads Repr()
    {
      Parts() && Station.Inv(State())
    }

    constructor ()
      ensures Valid() && State() == Station.POWER_UP_STATION && fresh(Repr())
    {
      transientStreamsSuspended := true;
      userStreamsEnabled := true;
      networkAvailable := false;
      hasRtcmData := false;
      outboundRateReady := false;
      rawCollection := false;
      mode := StreamGate.Survey;
      loggerActive := false;
      localSuspended := true;
      upstreamSuspended := [true, true, true];
      deframer := new Deframer.RtcmDeframer();
      localBatch := new Batch.RtcmBatch();
      mailbox := new Mailbox.CorrectionMailbox();
      new;
      hide Station.Inv, Mailbox.Inv;
      assert Parts() && Gate() == StreamGate.POWER_UP;
      Station.PowerUpInv();
    }

    method ApplyStreamState()
      modifies this
      ensures Gate() == StreamGate.Applied(old(Gate()))
    {
      var suspended := transientStreamsSuspended || !userStreamsEnabled ||
                       mode != StreamGate.Transmit || !hasRtcmData || rawCollection;
      localSuspended := suspended;
      var outbound := suspended || !networkAvailable || !outboundRateReady;
      upstreamSuspended := [outbound, outbound, outbound];
    }

    /** reset_rtcm_parser and reset_rtcm_state */
    method ResetRtcm(now: int)
      requires Parts()
      modifies Repr() - {this}
      ensures Parts() && State() == Station.Discard(old(State()), now)
    {
      deframer.Reset();
      localBatch.Reset();
      mailbox.ResetState(now);
    }

    method EnterSurvey(now: int)
      requires Parts()
      modifies Repr()
      ensures Parts()
      ensures State() == Station.Discard(old(State()), now).(gate := StreamGate.EnterSurvey(old(Gate())))
    {
      mode := StreamGate.Survey;
      hasRtcmData := false;
      outboundRateReady := false;
      ApplyStreamState();
      ResetRtcm(now);
    }

    method EnterTransmit(now: int)
      requires Parts()
      modifies Repr()
      ensures Parts()
      ensures State() == Station.Discard(old(State()), now).(gate := StreamGate.EnterTransmit(old(Gate())))
    {
      mode := StreamGate.Transmit;
      hasRtcmData := false;
      outboundRateReady := false;
      ResetRtcm(now);
      ApplyStreamState();
    }

    method EnterRawCollection(now: int)
      requires Parts()
      modifies Repr()
      ensures Parts()
      ensures State() ==
              (if old(Gate()).mode == StreamGate.Transmit && !old(Gate()).raw
               then Station.Discard(old(State()), now) else old(State()))
              .(gate := StreamGate.EnterRaw(old(Gate())))
    {
      if mode != StreamGate.Transmit {
        return;
      }
      if rawCollection {
        return;
      }
      rawCollection := true;
      ApplyStreamState();
      ResetRtcm(now);
      loggerActive := true;
    }

    method ExitRawCollection(now: int)
      requires Parts()
      modifies Repr()
      ensures Parts()
      ensures State() ==
              (if old(Gate()).raw then Station.Discard(old(State()), now) else old(State()))
              .(gate := StreamGate.ExitRaw(old(Gate())))
    {
      if !rawCollection {
        return;
      }
      loggerActive := false;
      StopCollecting(now);
    }

    /** The rest of exit_raw_collection, when raw data was being collected. */
    method StopCollecting(now: int)
      requires Parts()
      modifies Repr()
      ensures Parts()
      ensures State() == Station.Discard(old(State()), now)
                         .(gate := StreamGate.Applied(old(Gate()).(raw := false, hasRtcm := false, rateReady := false)))
    {
      hide StreamGate.Applied;
      rawCollection := false;
      hasRtcmData := false;
      outboundRateReady := false;
      ResetRtcm(now);
      ApplyStreamState();
    }

    method ResetUm980(now: int)
      requires Parts()
      modifies Repr()
      ensures Parts()
      ensures State() ==
              (if old(Gate()).mode == StreamGate.Transmit && !old(Gate()).raw
               then Station.Discard(old(State()), now) else old(State()))
              .(gate := StreamGate.ResetReceiver(old(Gate())))
    {
      if mode != StreamGate.Transmit || rawCollection {
        return;
      }
      hasRtcmData := false;
      outboundRateReady := false;
      ApplyStreamState();
      ResetRtcm(now);
      ApplyStreamState();
    }

    method HandleAction(action: Action, now: int)
      requires Valid()
      modifies Repr()
      ensures Valid()
      ensures State() == Station.Next(old(State()), Station.Control(StepOf(action), now))
    {
      Station.StepKeepsInv(State(), Station.Control(StepOf(action), now));
      ghost var g := Gate();
      hide Station.Inv, Station.NothingWaits, StreamGate.Applied;
      match action {
        case SurveyAction =>
          RestartSurvey(now);
        case StartRawAction =>
          EnterRawCollection(now);
        case StopRawAction =>
          ExitRawCollection(now);
        case ResetUm980Action =>
          ResetUm980(now);
        case PositionAction(saved) =>
          SetPosition(saved, now);
      }
    }

    /** The survey action. */
    method RestartSurvey(now: int)
      requires Valid()
      modifies Repr()
      ensures Parts() && State() == Station.Next(old(State()), Station.Control(StepOf(SurveyAction), now))
    {
      hide Station.Inv, Station.NothingWaits, StreamGate.Applied;
      if rawCollection {
        ExitRawCollection(now);
      }
      EnterSurvey(now);
    }

    /** The position action; `saved` says whether the position could be stored. */
    method SetPosition(saved: bool, now: int)
      requires Valid()
      modifies Repr()
      ensures Parts() && State() == Station.Next(old(State()), Station.Control(StepOf(PositionAction(saved)), now))
    {
      hide Station.Inv, Station.NothingWaits, StreamGate.Applied;
      if rawCollection {
        ExitRawCollection(now);
      }
      if !saved {
        return;
      }
      EnterTransmit(now);
    }

    /** start() and the beginning of run(). */
    method Boot(streamsEnabled: bool, havePosition: bool, now: int)
      requires Valid() && !rawCollection
      modifies Repr()
      ensures Valid()
      ensures State() == Station.Discard(old(State()), now)
                         .(gate := StreamGate.Next(old(Gate()), StreamGate.Boot(streamsEnabled, havePosition)))
    {
      Station.BootKeepsInv(State(), streamsEnabled, havePosition, now);
      hide Station.Inv, Station.NothingWaits, StreamGate.Applied;
      userStreamsEnabled := streamsEnabled;
      transientStreamsSuspended := true;
      if havePosition {
        EnterTransmit(now);
      } else {
        EnterSurvey(now);
      }
    }

    /** run() when the survey has delivered its result. */
    method FinishSurvey(saved: bool, now: int)
      requires Valid() && mode == StreamGate.Survey
      modifies Repr()
      ensures Valid()
      ensures State() == Station.Next(old(State()), Station.Control(StreamGate.SurveyDone(saved), now))
    {
      Station.StepKeepsInv(State(), Station.Control(StreamGate.SurveyDone(saved), now));
      hide Station.Inv, Station.NothingWaits, StreamGate.Applied;
      if saved {
        EnterTransmit(now);
      }
    }

    method SetStreamsSuspended(suspended: bool, ghost now: int)
      requires Valid()
      modifies this
      ensures Valid()
      ensures State() == Station.Next(old(State()), Station.Control(StreamGate.SetSuspended(suspended), now))
    {
      hide Station.Inv, Station.Next, StreamGate.Applied;
      Station.SettingKeepsData(State(), StreamGate.SetSuspended(suspended), now);
      transientStreamsSuspended := suspended;
      ApplyStreamState();
    }

    method SetStreamsEnabled(enabled: bool, ghost now: int)
      requires Valid()
      modifies this
      ensures Valid()
      ensures State() == Station.Next(old(State()), Station.Control(StreamGate.SetEnabled(enabled), now))
    {
      hide Station.Inv, Station.Next, StreamGate.Applied;
      Station.SettingKeepsData(State(), StreamGate.SetEnabled(enabled), now);
      userStreamsEnabled := enabled;
      ApplyStreamState();
    }

    method SetNetworkAvailable(available: bool, ghost now: int)
      requires Valid()
      modifies this
      ensures Valid()
      ensures State() == Station.Next(old(State()), Station.Control(StreamGate.SetNetwork(available), now))
    {
      hide Station.Inv, Station.Next, StreamGate.Applied;
      Station.SettingKeepsData(State(), StreamGate.SetNetwork(available), now);
      if networkAvailable == available {
        return;
      }
      networkAvailable := available;
      ApplyStreamState();
    }

    /** The end of a rate window in run(). */
    method CloseRateWindow(bps: nat, ghost now: int)
      requires Valid()
      modifies this
      ensures Valid()
      ensures State() == Station.Next(old(State()), Station.Control(StreamGate.RateWindow(bps), now))
    {
      hide Station.Inv, Station.Next, StreamGate.Applied;
      Station.SettingKeepsData(State(), StreamGate.RateWindow(bps), now);
      if bps >= StreamGate.MIN_OUTBOUND_BPS && !outboundRateReady {
        outboundRateReady := true;
        ApplyStreamState();
      }
    }

    /** One byte of read_data_uart; `sent` are the frames pushed to the local caster. */
    method FeedRtcmByte(b: byte, now: int) returns (sent: seq<seq<byte>>)
      requires Valid() && Station.Receiving(Gate())
      modifies Repr()
      ensures Valid()
      ensures State() == Station.Next(old(State()), Station.Byte(b, now))
      ensures localBatch.flushed == old(localBatch.flushed) + sent
    {
      Station.StepKeepsInv(State(), Station.Byte(b, now));
      Station.FeedOneAdds(deframer.State(), b);
      hide Station.Inv, Station.NothingWaits, Deframer.FeedOne, Mailbox.Inv, Batch.Bounded, StreamGate.Applied;
      var frame := deframer.FeedByte(b);
      sent := [];
      if frame != [] {
        sent := PublishRtcmFrame(frame, now);
      }
    }

    method PublishRtcmFrame(frame: seq<byte>, now: int) returns (sent: seq<seq<byte>>)
      requires Parts() && 0 < |frame| <= Deframer.BUFFER_SIZE
      modifies Repr() - {deframer, deframer.frame}
      ensures Parts() && State() == Station.PublishFrame(old(State()), frame, now)
      ensures localBatch.flushed == old(localBatch.flushed) + sent
    {
      hide Mailbox.Inv, Batch.Bounded, StreamGate.Applied, Batch.Publish, Mailbox.Publish, Mailbox.MessageNumber;
      NoteFrame();
      sent := localBatch.PublishTo(frame, now, 0);
      mailbox.PublishToCorrections(frame, Mailbox.MessageNumber(frame), now);
    }

    /** The first good frame opens the gates that wait for one. */
    method NoteFrame()
      requires Parts()
      modifies this
      ensures Parts() && State() == old(State()).(gate := StreamGate.GotFrame(old(Gate())))
    {
      hide Mailbox.Inv, Batch.Bounded, StreamGate.Applied;
      if !hasRtcmData {
        hasRtcmData := true;
        ApplyStreamState();
      }
    }

    /** The end of read_data_uart: the local batch, then the three destinations in turn. */
    method FlushDue(now: int, answers: seq<seq<bool>>) returns (sent: seq<seq<byte>>)
      requires Valid() && Station.Receiving(Gate()) && Station.LegalAnswers(answers)
      modifies Repr()
      ensures Valid()
      ensures State() == Station.Next(old(State()), Station.Poll(now, answers))
      ensures localBatch.flushed == old(localBatch.flushed) + sent
    {
      Station.StepKeepsInv(State(), Station.Poll(now, answers));
      hide Station.Inv, Station.NothingWaits, Mailbox.Inv, Batch.Bounded, Station.TickAll, Batch.FlushDue;
      sent := localBatch.FlushIfDue(now);
      FlushDueCorrections(now, answers);
    }

    /** flush_due_corrections */
    method FlushDueCorrections(now: int, answers: seq<seq<bool>>)
      requires Parts() && Station.LegalAnswers(answers)
      modifies mailbox, mailbox.slots, mailbox.pushNextFlushUs
      ensures Parts() && mailbox.State() == Station.TickAll(old(mailbox.State()), now, answers)
    {
      hide Mailbox.Inv, Batch.Bounded, Mailbox.Tick;
      var _ := mailbox.FlushDestinationIfDue(0, now, answers[0]);
      var _ := mailbox.FlushDestinationIfDue(1, now, answers[1]);
      var _ := mailbox.FlushDestinationIfDue(2, now, answers[2]);
    }
  }
}
