/** The client object of main/ntrip_push.cpp; each method is one step of the model in NtripPush. */
module NtripPushClient {
  import opened Bits
  import opened Common
  import opened SendLoop
  import opened NtripPush

  class NtripPushClient {
    var suspended: bool
    var enabled: bool
    var reconnect: bool
    var connected: bool
    var socketOpen: bool
    var resumedUs: int
    var queue: seq<Packet>
    var droppedBatches: nat
    var failures: nat
    var healthySinceUs: int
    var clockUs: int
    ghost var wire: Wire
    ghost var log: seq<SocketEvent>
    ghost var attempts: seq<int>

    ghost function State(): Client
      reads this
    {
      Client(suspended, enabled, reconnect, connected, socketOpen, resumedUs, queue, droppedBatches,
             wire, log, Pace(failures, healthySinceUs, clockUs, attempts))
    }

    ghost predicate Valid()
      reads this
    {
      Inv(State())
    }

    constructor ()
      ensures Valid() && State() == START
    {
      suspended, enabled, reconnect, connected, socketOpen := true, false, false, false, false;
      resumedUs, queue, droppedBatches := 0, [], 0;
      failures, healthySinceUs, clockUs := 0, 0, 0;
      wire, log := START.wire, [];
      attempts := [];
      new;
      StartInv();
    }

    method SetSuspended(value: bool)
      requires Valid()
      modifies this
      ensures Valid() && State() == NtripPush.SetSuspended(old(State()), value)
    {
      CallsKeepInv(State(), value, false, []);
      hide Inv;
      var wasSuspended := suspended;
      suspended := value;
      if value {
        resumedUs := 0;
        reconnect := true;
      } else if wasSuspended {
        resumedUs := clockUs;
      }
    }

    method Configure(wanted: bool, mountpoint: string)
      requires Valid()
      modifies this
      ensures Valid() && State() == NtripPush.Configure(old(State()), wanted && mountpoint != [])
    {
      CallsKeepInv(State(), false, wanted && mountpoint != [], []);
      hide Inv;
      enabled := wanted && mountpoint != [];
      reconnect := true;
    }

    method Push(data: seq<byte>) returns (queued: bool)
      requires Valid()
      modifies this
      ensures Valid() && State() == NtripPush.Push(old(State()), data)
      ensures queued == Accepts(old(State()), data)
      ensures queued ==> queue != [] && queue[|queue| - 1] == Truncated(data)
    {
      CallsKeepInv(State(), false, false, data);
      hide Inv;
      if data == [] || suspended || !connected {
        return false;
      }
      var packet := Truncated(data);
      if |queue| < QUEUE_DEPTH {
        queue := queue + [packet];
        return true;
      }
      queue := queue[1..];
      droppedBatches := droppedBatches + 1;
      queue := queue + [packet];
      return true;
    }

    method CloseSocket()
      modifies this
      ensures State() == Close(old(State()))
    {
      connected := false;
      if socketOpen {
        wire := Ended(wire, [], 0);
        log := log + [SocketClosed];
        socketOpen := false;
      }
    }

    /** A counted failure and the pause after it. */
    method CountFailure(random: nat, sleepUs: nat)
      modifies this
      ensures State() == old(State()).(pace := NtripPush.Failed(old(State()).pace, random, sleepUs))
    {
      failures := failures + 1;
      healthySinceUs := 0;
      clockUs := clockUs + RetryDelayMs(failures, random) * 1000 + sleepUs;
    }

    /** connect_caster and the failure branch after it. */
    method ConnectCaster(e: Surroundings) returns (ok: bool)
      requires !socketOpen
      modifies this
      ensures State() == Connect(old(State()), e) && ok == socketOpen
    {
      hide Sent, UpstreamEffects, Opened, Refused, NtripPush.Failed;
      connected := false;
      attempts := attempts + [clockUs];
      clockUs := clockUs + e.connectUs;
      ok := false;
      if e.opens {
        ok := Handshake(e);
      }
      if !ok {
        CountFailure(e.random, e.sleepUs);
      }
    }

    /** The request goes out over a new socket, which stays open if the caster accepts it. */
    method Handshake(e: Surroundings) returns (ok: bool)
      requires !socketOpen && !connected
      modifies this
      ensures ok <==> HandshakeSent(e) == |e.request| && e.accepted
      ensures ok ==> State() == HandshakeDone(old(State()), e)
      ensures !ok ==> State() == HandshakeLost(old(State()), e)
    {
      hide Sent, UpstreamEffects, Opened, Refused;
      log := log + [SocketOpened];
      var written, offset, out := SendAllUpstream(e.request, e.handshake);
      log := log + [SocketWrote(out)];
      ok := written && e.accepted;
      if ok {
        assert out == e.request;
        wire := Opened(wire, e.request);
        socketOpen := true;
        connected := true;
      } else {
        wire := Refused(wire, e.request, offset);
        log := log + [SocketClosed];
      }
    }

    /** After a delivered packet: the backoff is cleared only by a real stretch of health. */
    method NoteDelivery()
      modifies this
      ensures State() == old(State()).(pace := Healthy(old(State()).pace))
    {
      if healthySinceUs == 0 {
        healthySinceUs := clockUs;
      }
      if clockUs - healthySinceUs >= HEALTHY_STREAK_US {
        failures := 0;
        attempts := if attempts == [] then [] else [attempts[|attempts| - 1]];
      }
    }

    /** What the loop does after the send of a packet: `out` went out, all of it or not. */
    method NoteSend(packet: Packet, ok: bool, offset: nat, ghost out: seq<byte>, e: Surroundings)
      requires socketOpen && offset <= |packet| && out == packet[..offset]
      requires ok <==> offset == |packet|
      modifies this
      ensures State() == AfterSend(old(State()), packet, offset, e)
    {
      hide Delivered, Ended, NtripPush.Failed, Healthy;
      log := log + [SocketWrote(out)];
      if ok {
        assert out == packet;
        wire := Delivered(wire, packet);
        NoteDelivery();
      } else {
        wire := Ended(wire, packet, offset).(dequeued := wire.dequeued + [packet]);
        log := log + [SocketClosed];
        connected := false;
        socketOpen := false;
        CountFailure(e.random, e.sleepUs);
      }
    }

    /** Receive one packet, if there is one, and send it. */
    method ServeQueue(e: Surroundings)
      requires socketOpen
      modifies this
      ensures State() == Serve(old(State()), e)
    {
      hide Sent, UpstreamEffects, AfterSend, Slept;
      Sleep(e.sendUs);
      if queue == [] {
        return;
      }
      var packet := queue[0];
      queue := queue[1..];
      var ok, offset, out := SendAllUpstream(packet, e.answers);
      NoteSend(packet, ok, offset, out, e);
    }

    method ForgetStreak()
      modifies this
      ensures State() == old(State()).(pace := NewStreak(old(State()).pace))
    {
      failures := 0;
      healthySinceUs := 0;
      attempts := [];
    }

    method Sleep(us: nat)
      modifies this
      ensures State() == old(State()).(pace := Slept(old(State()).pace, us))
    {
      clockUs := clockUs + us;
    }

    method HandleReconnect()
      modifies this
      ensures State() == Reconfigured(old(State()))
    {
      hide NewStreak;
      if reconnect {
        reconnect := false;
        CloseSocket();
        queue := [];
        ForgetStreak();
      }
    }

    method ConnectThenServe(e: Surroundings)
      modifies this
      ensures State() == ConnectAndServe(old(State()), e)
    {
      hide Connect, Serve;
      if !socketOpen {
        var ok := ConnectCaster(e);
        if !ok {
          return;
        }
      }
      ServeQueue(e);
    }

    method WaitOrServe(e: Surroundings)
      modifies this
      ensures State() == StaggerAndServe(old(State()), e)
    {
      hide Slept, ConnectAndServe;
      if resumedUs > 0 && e.staggerMs > 0 {
        if clockUs - resumedUs < e.staggerMs * 1000 {
          connected := false;
          Sleep(250000 + e.sleepUs);
          return;
        }
        resumedUs := 0;
      }
      ConnectThenServe(e);
    }

    /** One turn of the loop in run(). */
    method RunOnce(e: Surroundings)
      requires Valid()
      modifies this
      ensures Valid() && State() == Turn(old(State()), e)
    {
      TurnKeepsInv(State(), e);
      hide Inv, Close, NewStreak, Slept, Reconfigured, StaggerAndServe;
      if suspended || !enabled {
        CloseSocket();
        queue := [];
        ForgetStreak();
        Sleep(250000 + e.sleepUs);
        return;
      }
      HandleReconnect();
      WaitOrServe(e);
    }
  }
}
