/** The local caster object of main/local_caster.cpp; each method is one step of LocalCaster. */
module LocalCasterTask {
  import opened Bits
  import opened Common
  import opened SendLoop
  import opened LocalCaster

  /** recount_clients */
  function OpenCount(clients: seq<int>): (n: nat)
    ensures n <= |clients|
    decreases |clients|
  {
    if clients == [] then 0
    else OpenCount(clients[..|clients| - 1]) + if clients[|clients| - 1] >= 0 then 1 else 0
  }

  datatype Stream = Stream(joined: nat, bytes: seq<byte>)

  function SlotOf(client: int, ipv4: nat, stream: Stream): Slot {
    if client < 0 then Free else Open(ipv4, stream.joined, stream.bytes)
  }

  class LocalCasterTask {
    var suspended: bool
    var resetClients: bool
    var listening: bool
    var clientCount: nat
    var queue: seq<Packet>
    const clients: array<int>
    const clientIpv4: array<nat>
    ghost var streams: seq<Stream>
    ghost var broadcasts: seq<Packet>
    ghost var gone: seq<Gone>

    ghost predicate Shaped()
      reads this, clients, clientIpv4
    {
      clients.Length == MAX_CLIENTS && clientIpv4.Length == MAX_CLIENTS && |streams| == MAX_CLIENTS
    }

    ghost function State(): Caster
      requires Shaped()
      reads this, clients, clientIpv4
    {
      Caster(suspended, resetClients, listening,
             seq(MAX_CLIENTS, i requires 0 <= i < MAX_CLIENTS reads this, clients, clientIpv4
                                requires Shaped() =>
                                SlotOf(clients[i], clientIpv4[i], streams[i])),
             queue, broadcasts, gone)
    }

    /** The counter that status pages show is the number of open clients, and only open
        clients have an address. */
    ghost predicate Counted()
      requires Shaped()
      reads this, clients, clientIpv4
    {
      && clientCount == OpenCount(clients[..])
      && forall i | 0 <= i < MAX_CLIENTS && clients[i] < 0 :: clientIpv4[i] == 0
    }

    ghost predicate Valid()
      reads this, clients, clientIpv4
    {
      Shaped() && Counted() && Inv(State())
    }

    constructor ()
      ensures Valid() && State() == START && fresh(clients) && fresh(clientIpv4)
    {
      suspended, resetClients, listening, clientCount, queue := true, false, false, 0, [];
      clients := new int[MAX_CLIENTS](_ => -1);
      clientIpv4 := new nat[MAX_CLIENTS](_ => 0);
      streams := seq(MAX_CLIENTS, _ => Stream(0, []));
      broadcasts, gone := [], [];
      new;
      StartInv();
      Recount();
      assert State() == START;
      AllClosed(clients[..]);
    }

    method Recount()
      requires Shaped()
      modifies this`clientCount
      ensures clientCount == OpenCount(clients[..])
    {
      var count := 0;
      for i := 0 to clients.Length
        invariant count == OpenCount(clients[..i])
      {
        assert clients[..i + 1][..i] == clients[..i];
        if clients[i] >= 0 {
          count := count + 1;
        }
      }
      assert clients[..clients.Length] == clients[..];
      clientCount := count;
    }

    method SetSuspended(value: bool)
      requires Valid()
      modifies this`suspended, this`resetClients
      ensures Valid() && State() == LocalCaster.SetSuspended(old(State()), value)
    {
      CallsKeepInv(State(), value, []);
      suspended := value;
      if value {
        resetClients := true;
      }
      assert State() == LocalCaster.SetSuspended(old(State()), value);
    }

    method Push(data: seq<byte>)
      requires Valid()
      modifies this`queue
      ensures Valid() && State() == LocalCaster.Push(old(State()), data)
    {
      CallsKeepInv(State(), false, data);
      if data == [] || suspended {
        return;
      }
      var packet := if |data| <= MAX_PACKET then data else data[..MAX_PACKET];
      if |queue| < QUEUE_DEPTH {
        queue := queue + [packet];
      }
      assert State() == LocalCaster.Push(old(State()), data);
    }

    /** Close one client's socket and free its slot. */
    method Drop(i: nat, ghost cut: Packet, ghost sent: nat)
      requires Shaped() && i < MAX_CLIENTS && clients[i] >= 0 && sent <= |cut|
      modifies this`gone, clients, clientIpv4
      ensures Shaped() && State() == CloseSlot(old(State()), i, cut, sent)
      ensures clients[i] == -1 && clientIpv4[i] == 0
      ensures forall j | 0 <= j < MAX_CLIENTS && j != i ::
                clients[j] == old(clients[j]) && clientIpv4[j] == old(clientIpv4[j])
    {
      gone := gone + [Gone(streams[i].joined, |broadcasts|, streams[i].bytes + cut[..sent], cut)];
      clients[i] := -1;
      clientIpv4[i] := 0;
      assert State().slots == old(State()).slots[i := Free];
    }

    method CloseClients()
      requires Shaped()
      modifies this`gone, this`clientCount, clients, clientIpv4
      ensures Shaped() && Counted() && State() == LocalCaster.CloseClients(old(State()))
    {
      for i := 0 to clients.Length
        invariant Shaped() && State() == CloseFirst(old(State()), i)
        invariant forall j | 0 <= j < i :: clients[j] < 0 && clientIpv4[j] == 0
      {
        if clients[i] >= 0 {
          Drop(i, [], 0);
        } else {
          clientIpv4[i] := 0;
          assert State() == CloseFirst(old(State()), i);
        }
      }
      Recount();
      assert State() == LocalCaster.CloseClients(old(State()));
    }

    /** A packet offered to one client, which is dropped when it cannot take it. */
    method OfferTo(i: nat, packet: Packet, script: seq<Attempt>)
      requires Shaped() && i < MAX_CLIENTS && Ends(LocalEffects(script), |packet|, 0, 0, LOCAL_STALLS)
      requires forall j | 0 <= j < MAX_CLIENTS && clients[j] < 0 :: clientIpv4[j] == 0
      modifies this`gone, this`streams, clients, clientIpv4
      ensures Shaped() && State() == Offer(old(State()), i, packet, script)
      ensures forall j | 0 <= j < MAX_CLIENTS && clients[j] < 0 :: clientIpv4[j] == 0
    {
      hide Sent, Ends, LocalEffects;
      if clients[i] >= 0 {
        ghost var before := State();
        var ok, sent, out := SendAllLocal(packet, script);
        if ok {
          assert out == packet;
          streams := streams[i := Stream(streams[i].joined, streams[i].bytes + out)];
          assert State().slots == before.slots[i := before.slots[i].(bytes := before.slots[i].bytes + packet)];
        } else {
          Drop(i, packet, sent);
        }
      }
    }

    method Broadcast(packet: Packet, scripts: seq<seq<Attempt>>)
      requires Shaped() && Counted() && |scripts| == MAX_CLIENTS
      requires forall i | 0 <= i < MAX_CLIENTS ::
                 Ends(LocalEffects(scripts[i]), |packet|, 0, 0, LOCAL_STALLS)
      modifies this`gone, this`clientCount, this`streams, this`broadcasts, clients, clientIpv4
      ensures Shaped() && Counted() && State() == LocalCaster.Broadcast(old(State()), packet, scripts)
    {
      hide Ends, Offer, SlotOf;
      for i := 0 to clients.Length
        invariant Shaped() && State() == OfferFirst(old(State()), packet, scripts, i)
        invariant forall j | 0 <= j < MAX_CLIENTS && clients[j] < 0 :: clientIpv4[j] == 0
      {
        OfferTo(i, packet, scripts[i]);
      }
      Recount();
      ghost var after := State();
      broadcasts := broadcasts + [packet];
      assert State().slots == after.slots;
      OffersKeepBroadcasts(old(State()), packet, scripts, MAX_CLIENTS);
    }

    /** The free slot that accept_client takes, or -1. */
    method FindSlot() returns (slot: int)
      requires Shaped()
      ensures -1 <= slot < MAX_CLIENTS
      ensures FirstFree(State().slots) == if slot < 0 then None else Some(slot)
    {
      slot := -1;
      ghost var slots := State().slots;
      for i := 0 to clients.Length
        invariant FirstFree(slots[..i]) == None
      {
        assert slots[..i + 1][..i] == slots[..i];
        if clients[i] < 0 {
          slot := i;
          FreeFound(slots, i);
          return;
        }
      }
      assert slots[..MAX_CLIENTS] == slots;
    }

    method AcceptClient(incoming: Incoming, fd: nat)
      requires Shaped() && Counted()
      requires incoming.Caller? ==>
                 Ends(LocalEffects(incoming.script), |GREETING|, 0, 0, LOCAL_STALLS)
      modifies this`streams, this`clientCount, clients, clientIpv4
      ensures Shaped() && Counted() && State() == Accept(old(State()), incoming)
    {
      hide Sent, Ends, LocalEffects, GREETING;
      if incoming.Nobody? || !incoming.wantsStream {
        return;
      }
      var slot := FindSlot();
      if slot < 0 {
        return;
      }
      var ok, _, out := SendAllLocal(GREETING, incoming.script);
      if !ok {
        return;
      }
      assert out == GREETING;
      clients[slot] := fd;
      streams := streams[slot := Stream(|broadcasts|, out)];
      clientIpv4[slot] := incoming.ipv4;
      Recount();
      assert State().slots == old(State()).slots[slot := Open(incoming.ipv4, |broadcasts|, GREETING)];
    }

    /** Every send loop that a call enters ends. */
    ghost predicate SendsEnd(e: Surroundings)
      reads this
    {
      && |e.scripts| == MAX_CLIENTS
      && (e.incoming.Caller? ==>
            Ends(LocalEffects(e.incoming.script), |GREETING|, 0, 0, LOCAL_STALLS))
      && (queue != [] ==> forall i | 0 <= i < MAX_CLIENTS ::
            Ends(LocalEffects(e.scripts[i]), |queue[0]|, 0, 0, LOCAL_STALLS))
    }

    method HandleReset()
      requires Shaped() && Counted()
      modifies this, clients, clientIpv4
      ensures Shaped() && Counted() && State() == Reset(old(State()))
    {
      hide LocalCaster.CloseClients;
      if resetClients {
        CloseClients();
        resetClients := false;
        queue := [];
      }
      assert State() == Reset(old(State()));
    }

    method AcceptThenServe(e: Surroundings, fd: nat)
      requires Shaped() && Counted() && SendsEnd(e)
      modifies this, clients, clientIpv4
      ensures Shaped() && Counted() && State() == AcceptAndServe(old(State()), e)
    {
      hide Ends, LocalCaster.Broadcast, Accept, GREETING;
      AcceptClient(e.incoming, fd);
      ghost var c1 := State();
      assert c1 == Accept(old(State()), e.incoming);
      if queue != [] {
        var packet := queue[0];
        queue := queue[1..];
        assert State() == c1.(queue := c1.queue[1..]);
        Broadcast(packet, e.scripts);
      }
    }

    /** One turn of the loop in run(). */
    method RunOnce(e: Surroundings, fd: nat)
      requires Valid() && SendsEnd(e)
      modifies this, clients, clientIpv4
      ensures Valid() && State() == Turn(old(State()), e)
    {
      TurnKeepsInv(State(), e);
      hide Inv, Ends, LocalCaster.CloseClients, AcceptAndServe, Reset, GREETING, SlotOf;
      if suspended {
        StandStill();
      } else {
        HandleReset();
        ListenThenServe(e, fd);
      }
    }

    method StandStill()
      requires Shaped() && Counted()
      modifies this, clients, clientIpv4
      ensures Shaped() && Counted()
      ensures State() == LocalCaster.CloseClients(old(State())).(listening := false, queue := [])
    {
      hide LocalCaster.CloseClients;
      CloseClients();
      ghost var c := State();
      listening := false;
      queue := [];
      assert State().slots == c.slots;
    }

    method ListenThenServe(e: Surroundings, fd: nat)
      requires Shaped() && Counted() && SendsEnd(e)
      modifies this, clients, clientIpv4
      ensures Shaped() && Counted() && State() == Listen(old(State()), e)
    {
      hide Ends, LocalCaster.CloseClients, AcceptAndServe, GREETING, SlotOf;
      ghost var c := State();
      if !listening && !e.listener.Opens? {
        if e.listener.BindFails? {
          CloseClients();
        }
        return;
      }
      listening := true;
      assert State() == c.(listening := true);
      AcceptThenServe(e, fd);
    }
  }

  lemma {:induction false} OffersKeepBroadcasts(c: Caster, p: Packet, scripts: seq<seq<Attempt>>, k: nat)
    requires |c.slots| == |scripts| && k <= |scripts|
    ensures OfferFirst(c, p, scripts, k).broadcasts == c.broadcasts
    decreases k
  {
    if k > 0 {
      OffersKeepBroadcasts(c, p, scripts, k - 1);
    }
  }

  lemma {:induction false} AllClosed(clients: seq<int>)
    requires forall i | 0 <= i < |clients| :: clients[i] < 0
    ensures OpenCount(clients) == 0
    decreases |clients|
  {
    if clients != [] {
      AllClosed(clients[..|clients| - 1]);
    }
  }

  lemma {:induction false} FreeFound(slots: seq<Slot>, i: nat)
    requires i < |slots| && slots[i].Free? && FirstFree(slots[..i]) == None
    ensures FirstFree(slots) == Some(i)
    decreases |slots|
  {
    if i == |slots| - 1 {
    } else {
      var init := slots[..|slots| - 1];
      assert init[..i] == slots[..i];
      FreeFound(init, i);
    }
  }
}
