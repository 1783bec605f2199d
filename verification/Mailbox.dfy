/** The mailbox of newest corrections, main/base_station.cpp. */
module Mailbox {
  import opened Bits
  import opened Common

  // It stands in front of the three upstream casters. One slot per RTCM message number holds the
  // newest frame of that type and the set of destinations that have taken it. Destinations are
  // polled on their own schedules, and a destination may refuse any frame it is offered.

  const MAX_SLOTS := 16
  const DESTINATIONS := 3
  const BATCH_US := 200000
  const STAGGER_US := BATCH_US / 4

  datatype Slot = Slot(used: bool, number: nat, data: seq<byte>, sent: set<nat>, updatedUs: int)

  const UNUSED := Slot(false, 0, [], {}, 0)

  function NoSlots(count: nat): (slots: seq<Slot>)
    ensures |slots| == count && forall i | 0 <= i < count :: slots[i] == UNUSED
  {
    seq(count, _ => UNUSED)
  }

  /** rtcm_message_number: the first twelve bits of the payload. */
  function MessageNumber(frame: seq<byte>): (n: nat)
    ensures n < 4096
  {
    if |frame| < 5 then 0 else frame[3] as int * 16 + frame[4] as int / 16
  }

  /** Those twelve bits, of the frame as it is transmitted. */
  lemma MessageNumberIs(frame: seq<byte>)
    requires |frame| >= 5
    ensures Bits.BitsOf(MessageNumber(frame), 12) == Bits.Bits(frame)[24..36]
  {
    hide *;
    var a, b := frame[3] as int, frame[4] as int;
    NumberIs(frame);
    Bits.BitsAt(frame, 3);
    Bits.BitsAt(frame, 4);
    ByteIs(frame[3]);
    ByteIs(frame[4]);
    Bits.BitsOfFour(a, b / 16, 8);
    Bits.BitsOfFour(b / 16, b % 16, 4);
    assert b == 16 * (b / 16) + b % 16;
    FrontOf(Bits.Bits(frame), Bits.BitsOf(a, 8), Bits.BitsOf(b / 16, 4), Bits.BitsOf(b % 16, 4));
  }

  lemma NumberIs(frame: seq<byte>)
    requires |frame| >= 5
    ensures MessageNumber(frame) == 16 * frame[3] as int + frame[4] as int / 16
  {
  }

  lemma ByteIs(b: byte)
    ensures Bits.ByteBits(b) == Bits.BitsOf(b as int, 8)
  {
  }

  lemma FrontOf(bits: seq<bool>, a: seq<bool>, b: seq<bool>, c: seq<bool>)
    requires |bits| >= 40 && |a| == 8 && |b| == 4 && |c| == 4
    requires bits[24..32] == a && bits[32..40] == b + c
    ensures bits[24..36] == a + b
  {
    assert bits[24..36] == bits[24..32] + bits[32..36];
    assert bits[32..36] == bits[32..40][..4];
  }

  // ------------------------------------------------------------- slots as a map

  /** The slot that holds message `n`. */
  function Find(slots: seq<Slot>, n: nat): (r: Option<nat>)
    ensures r.Some? ==> r.value < |slots| && slots[r.value].used && slots[r.value].number == n
    ensures r.None? ==> forall i | 0 <= i < |slots| && slots[i].used :: slots[i].number != n
    decreases |slots|
  {
    if slots == [] then
      None
    else
      match Find(slots[..|slots| - 1], n)
      case Some(i) => Some(i)
      case None =>
        var last := slots[|slots| - 1];
        if last.used && last.number == n then Some(|slots| - 1) else None
  }

  function FindFree(slots: seq<Slot>): (r: Option<nat>)
    ensures r.Some? ==> r.value < |slots| && !slots[r.value].used
    ensures r.None? ==> forall i | 0 <= i < |slots| :: slots[i].used
    decreases |slots|
  {
    if slots == [] then
      None
    else
      match FindFree(slots[..|slots| - 1])
      case Some(i) => Some(i)
      case None => if slots[|slots| - 1].used then None else Some(|slots| - 1)
  }

  /** The slot that publish_to_corrections writes, if there is one. */
  function Target(slots: seq<Slot>, n: nat): (r: Option<nat>)
    ensures r.Some? ==> r.value < |slots|
  {
    if Find(slots, n).Some? then Find(slots, n) else FindFree(slots)
  }

  ghost predicate Distinct(slots: seq<Slot>) {
    forall i, j | 0 <= i < j < |slots| && slots[i].used && slots[j].used ::
      slots[i].number != slots[j].number
  }

  /** The used slots, as a map from message number to frame. */
  function Contents(slots: seq<Slot>): (m: map<nat, seq<byte>>)
    decreases |slots|
  {
    if slots == [] then
      map[]
    else
      var last := slots[|slots| - 1];
      var m := Contents(slots[..|slots| - 1]);
      if last.used then m[last.number := last.data] else m
  }

  lemma {:induction false} ContentsAt(slots: seq<Slot>, i: nat)
    requires Distinct(slots) && i < |slots| && slots[i].used
    ensures slots[i].number in Contents(slots)
    ensures Contents(slots)[slots[i].number] == slots[i].data
    decreases |slots|
  {
    if i < |slots| - 1 {
      ContentsAt(slots[..|slots| - 1], i);
    }
  }

  lemma {:induction false} ContentsFrom(slots: seq<Slot>, n: nat)
    ensures n in Contents(slots) <==> Find(slots, n).Some?
    decreases |slots|
  {
    if slots != [] {
      ContentsFrom(slots[..|slots| - 1], n);
    }
  }

  lemma {:induction false} ContentsSize(slots: seq<Slot>)
    requires Distinct(slots)
    ensures |Contents(slots)| <= |slots|
    ensures |Contents(slots)| == |slots| <==> FindFree(slots).None?
    decreases |slots|
  {
    if slots != [] {
      var init, last := slots[..|slots| - 1], slots[|slots| - 1];
      ContentsSize(init);
      ContentsFrom(init, last.number);
    }
  }

  // -------------------------------------------------------------------- the state

  datatype Message = Message(number: nat, frame: seq<byte>)

  /** The slots and the three deadlines, with what a bystander saw: every frame published so
      far, and for each destination the versions it took, a version being a position in `history`. */
  datatype Mail = Mail(slots: seq<Slot>, deadlines: seq<int>,
                       history: seq<Message>, handed: seq<seq<nat>>)

  /** The newest version of message `n`, or -1. */
  function Newest(history: seq<Message>, n: nat): (v: int)
    ensures -1 <= v < |history|
    ensures v >= 0 ==> history[v].number == n
    ensures forall i | v < i < |history| :: history[i].number != n
    decreases |history|
  {
    if history == [] then
      -1
    else if history[|history| - 1].number == n then
      |history| - 1
    else
      Newest(history[..|history| - 1], n)
  }

  ghost predicate Shaped(m: Mail) {
    |m.slots| == MAX_SLOTS && |m.deadlines| == DESTINATIONS && |m.handed| == DESTINATIONS
  }

  /** A used slot holds the newest frame of its type. */
  ghost predicate HoldsNewest(s: Slot, history: seq<Message>) {
    s.used ==>
      var v := Newest(history, s.number);
      v >= 0 && s.data == history[v].frame && s.data != []
  }

  /** The bit of `dest` says whether `dest` has taken what the slot holds. */
  ghost predicate BitsRight(s: Slot, history: seq<Message>, dest: nat, taken: seq<nat>) {
    s.used && s.data != [] ==> (dest in s.sent <==> Newest(history, s.number) in taken)
  }

  /** Per message number, a destination's versions only ever get newer. */
  ghost predicate OnlyNewer(history: seq<Message>, taken: seq<nat>) {
    && (forall i | 0 <= i < |taken| :: taken[i] < |history|)
    && (forall i, j | 0 <= i < j < |taken| && history[taken[i]].number == history[taken[j]].number ::
          taken[i] < taken[j])
  }

  ghost predicate Inv(m: Mail) {
    && Shaped(m)
    && Distinct(m.slots)
    && (forall i | 0 <= i < MAX_SLOTS :: HoldsNewest(m.slots[i], m.history))
    && (forall i, d | 0 <= i < MAX_SLOTS && 0 <= d < DESTINATIONS ::
          BitsRight(m.slots[i], m.history, d, m.handed[d]))
    && (forall d | 0 <= d < DESTINATIONS :: OnlyNewer(m.history, m.handed[d]))
  }

  // ------------------------------------------------------------------- operations

  /** The mailbox part of reset_rtcm_state. */
  function Reset(m: Mail, now: int): Mail {
    m.(slots := NoSlots(MAX_SLOTS),
       deadlines := [now + STAGGER_US + BATCH_US, now + STAGGER_US * 2 + BATCH_US,
                     now + STAGGER_US * 3 + BATCH_US])
  }

  /** publish_to_corrections */
  function Publish(m: Mail, frame: seq<byte>, n: nat, now: int): Mail {
    var m' := m.(history := m.history + [Message(n, frame)]);
    match Target(m.slots, n)
    case None => m'
    case Some(i) => m'.(slots := m.slots[i := Slot(true, n, frame, {}, now)])
  }

  predicate Pending(s: Slot, dest: nat) {
    s.used && s.data != [] && dest !in s.sent
  }

  /** The body of the loop in flush_destination_if_due; `taken` is the destination's answer. */
  function Offer(m: Mail, dest: nat, i: nat, taken: bool): Mail
    requires Shaped(m) && dest < DESTINATIONS && i < MAX_SLOTS
  {
    var s := m.slots[i];
    if Pending(s, dest) && taken && Newest(m.history, s.number) >= 0 then
      m.(slots := m.slots[i := s.(sent := s.sent + {dest})],
         handed := m.handed[dest := m.handed[dest] + [Newest(m.history, s.number)]])
    else
      m
  }

  /** The first `k` turns of that loop, for the answers `taken`, one per slot. */
  function Offers(m: Mail, dest: nat, taken: seq<bool>, k: nat): (m': Mail)
    requires Shaped(m) && dest < DESTINATIONS && |taken| == MAX_SLOTS && k <= MAX_SLOTS
    ensures Shaped(m')
    decreases k
  {
    if k == 0 then m else Offer(Offers(m, dest, taken, k - 1), dest, k - 1, taken[k - 1])
  }

  /** flush_destination_if_due */
  function Tick(m: Mail, dest: nat, now: int, taken: seq<bool>): (m': Mail)
    requires Shaped(m) && dest < DESTINATIONS && |taken| == MAX_SLOTS
    ensures Shaped(m')
  {
    if now < m.deadlines[dest] then
      m
    else
      var m' := Offers(m, dest, taken, MAX_SLOTS);
      m'.(deadlines := m'.deadlines[dest := now + BATCH_US])
  }

  // ------------------------------------------------------------ what they maintain

  lemma NewestSnoc(history: seq<Message>, x: Message, n: nat)
    ensures Newest(history + [x], n) == if x.number == n then |history| else Newest(history, n)
  {
    assert (history + [x])[..|history|] == history;
  }

  lemma ResetKeepsInv(m: Mail, now: int)
    requires Inv(m)
    ensures Inv(Reset(m, now))
  {
    hide Newest;
  }

  lemma PublishKeepsInv(m: Mail, frame: seq<byte>, n: nat, now: int)
    requires Inv(m) && frame != []
    ensures Inv(Publish(m, frame, n, now))
  {
    hide Newest, Find, FindFree;
    var m' := Publish(m, frame, n, now);
    var x := Message(n, frame);
    forall i | 0 <= i < MAX_SLOTS
      ensures HoldsNewest(m'.slots[i], m'.history)
    {
      NewestSnoc(m.history, x, m'.slots[i].number);
    }
    forall i, d | 0 <= i < MAX_SLOTS && 0 <= d < DESTINATIONS
      ensures BitsRight(m'.slots[i], m'.history, d, m'.handed[d])
    {
      NewestSnoc(m.history, x, m'.slots[i].number);
      assert BitsRight(m.slots[i], m.history, d, m.handed[d]);
    }
  }

  lemma TakenOnlyNewer(history: seq<Message>, taken: seq<nat>, n: nat)
    requires OnlyNewer(history, taken)
    requires Newest(history, n) >= 0 && Newest(history, n) !in taken
    ensures OnlyNewer(history, taken + [Newest(history, n)])
  {
    var v := Newest(history, n);
    forall i | 0 <= i < |taken| && history[taken[i]].number == n
      ensures taken[i] < v
    {
      assert taken[i] in taken;
    }
  }

  lemma OfferKeepsInv(m: Mail, dest: nat, i: nat, taken: bool)
    requires Inv(m) && dest < DESTINATIONS && i < MAX_SLOTS
    ensures Inv(Offer(m, dest, i, taken))
  {
    hide Newest;
    var s, m' := m.slots[i], Offer(m, dest, i, taken);
    if Pending(s, dest) && taken {
      assert BitsRight(s, m.history, dest, m.handed[dest]);
      assert HoldsNewest(s, m.history);
      TakenOnlyNewer(m.history, m.handed[dest], s.number);
      forall j, d | 0 <= j < MAX_SLOTS && 0 <= d < DESTINATIONS
        ensures BitsRight(m'.slots[j], m'.history, d, m'.handed[d])
      {
        assert BitsRight(m.slots[j], m.history, d, m.handed[d]);
        assert HoldsNewest(m.slots[j], m.history);
      }
    }
  }

  lemma {:induction false} OffersKeepInv(m: Mail, dest: nat, taken: seq<bool>, k: nat)
    requires Inv(m) && dest < DESTINATIONS && |taken| == MAX_SLOTS && k <= MAX_SLOTS
    ensures Inv(Offers(m, dest, taken, k))
    decreases k
  {
    assert Shaped(m);
    hide Inv, Offer;
    if k > 0 {
      OffersKeepInv(m, dest, taken, k - 1);
      OfferKeepsInv(Offers(m, dest, taken, k - 1), dest, k - 1, taken[k - 1]);
    }
  }

  lemma TickKeepsInv(m: Mail, dest: nat, now: int, taken: seq<bool>)
    requires Inv(m) && dest < DESTINATIONS && |taken| == MAX_SLOTS
    ensures Inv(Tick(m, dest, now, taken))
  {
    OffersKeepInv(m, dest, taken, MAX_SLOTS);
  }

  datatype Event =
    | Published(frame: seq<byte>, at: int)
    | Polled(dest: nat, now: int, taken: seq<bool>)
    | Restarted(at: int)

  ghost predicate Legal(e: Event) {
    && (e.Published? ==> e.frame != [])
    && (e.Polled? ==> e.dest < DESTINATIONS && |e.taken| == MAX_SLOTS)
  }

  ghost predicate AllLegal(events: seq<Event>) {
    forall i | 0 <= i < |events| :: Legal(events[i])
  }

  function Apply(m: Mail, e: Event): Mail
    requires Shaped(m) && Legal(e)
  {
    match e
    case Published(frame, at) => Publish(m, frame, MessageNumber(frame), at)
    case Polled(dest, now, taken) => Tick(m, dest, now, taken)
    case Restarted(at) => Reset(m, at)
  }

  const FRESH := Mail(NoSlots(MAX_SLOTS), [0, 0, 0], [], [[], [], []])

  /** The state after any run of events since power-up. */
  function Run(events: seq<Event>): (m: Mail)
    requires AllLegal(events)
    ensures Shaped(m)
    decreases |events|
  {
    if events == [] then
      FRESH
    else
      var before := Run(events[..|events| - 1]);
      Apply(before, events[|events| - 1])
  }

  lemma FreshInv()
    ensures Inv(FRESH)
  {
    hide Newest;
  }

  /** Whatever is published and whatever the destinations answer, the invariant holds. */
  lemma {:induction false} RunKeepsInv(events: seq<Event>)
    requires AllLegal(events)
    ensures Inv(Run(events))
    decreases |events|
  {
    if events == [] {
      FreshInv();
    } else {
      var before := Run(events[..|events| - 1]);
      RunKeepsInv(events[..|events| - 1]);
      hide Inv, Publish, Tick, Reset;
      match events[|events| - 1] {
        case Published(frame, at) => PublishKeepsInv(before, frame, MessageNumber(frame), at);
        case Polled(dest, now, taken) => TickKeepsInv(before, dest, now, taken);
        case Restarted(at) => ResetKeepsInv(before, at);
      }
    }
  }

  // ------------------------------------------------------------ what it means

  /** What a run publishes, in order. */
  function PublishedIn(events: seq<Event>): seq<Message>
    decreases |events|
  {
    if events == [] then
      []
    else
      var last := events[|events| - 1];
      PublishedIn(events[..|events| - 1])
      + if last.Published? then [Message(MessageNumber(last.frame), last.frame)] else []
  }

  lemma {:induction false} HistoryIsPublished(events: seq<Event>)
    requires AllLegal(events)
    ensures Run(events).history == PublishedIn(events)
    decreases |events|
  {
    if events != [] {
      var before := Run(events[..|events| - 1]);
      HistoryIsPublished(events[..|events| - 1]);
      RunKeepsInv(events[..|events| - 1]);
      hide Inv, Publish, Tick, Reset;
      ApplyHistory(before, events[|events| - 1]);
    }
  }

  lemma ApplyHistory(m: Mail, e: Event)
    requires Inv(m) && Legal(e)
    ensures Apply(m, e).history
      == m.history + if e.Published? then [Message(MessageNumber(e.frame), e.frame)] else []
  {
    if e.Polled? {
      OffersOnlyMark(m, e.dest, e.taken, MAX_SLOTS);
    }
    hide Inv, Target, Offers, Shaped;
  }

  /** In any run a destination is handed only what was published, no publication twice, and
      the frames of one type in the order of their publication. */
  lemma AtMostOnce(events: seq<Event>, d: nat, i: nat, j: nat)
    requires AllLegal(events) && d < DESTINATIONS && i < j < |Run(events).handed[d]|
    ensures var v, w, all := Run(events).handed[d][i], Run(events).handed[d][j], PublishedIn(events);
      v < |all| && w < |all| && v != w && (all[v].number == all[w].number ==> v < w)
  {
    hide Run;
    RunKeepsInv(events);
    HistoryIsPublished(events);
    var m := Run(events);
    assert OnlyNewer(m.history, m.handed[d]);
  }

  lemma TargetFull(m: Mail, n: nat)
    requires Inv(m)
    ensures Target(m.slots, n).None? <==> n !in Contents(m.slots) && |Contents(m.slots)| == 16
    ensures |Contents(m.slots)| <= 16
  {
    hide Newest;
    ContentsSize(m.slots);
    ContentsFrom(m.slots, n);
  }

  /** The slots are a map of at most 16 message numbers to their newest frames; a further
      type leaves all of it as it was. */
  lemma PublishUpdatesMap(m: Mail, frame: seq<byte>, n: nat, now: int)
    requires Inv(m) && frame != []
    ensures var old' := Contents(m.slots);
            Contents(Publish(m, frame, n, now).slots)
            == if n in old' || |old'| < 16 then old'[n := frame] else old'
    ensures forall d | 0 <= d < DESTINATIONS :: Publish(m, frame, n, now).handed[d] == m.handed[d]
  {
    TargetFull(m, n);
    PublishKeepsInv(m, frame, n, now);
    var m' := Publish(m, frame, n, now);
    if Target(m.slots, n).Some? {
      assert forall i | 0 <= i < MAX_SLOTS && i != Target(m.slots, n).value :: m'.slots[i] == m.slots[i];
      SlotsDecideMap(m.slots, m'.slots, Target(m.slots, n).value);
    }
  }

  /** Overwriting one slot changes the map at that slot's number alone. */
  lemma SlotsDecideMap(slots: seq<Slot>, slots': seq<Slot>, i: nat)
    requires Distinct(slots) && Distinct(slots') && |slots| == |slots'| && i < |slots|
    requires slots'[i].used && (slots[i].used ==> slots[i].number == slots'[i].number)
    requires forall j | 0 <= j < |slots| && j != i :: slots'[j] == slots[j]
    ensures Contents(slots') == Contents(slots)[slots'[i].number := slots'[i].data]
  {
    var n, a, b := slots'[i].number, Contents(slots), Contents(slots');
    ContentsAt(slots', i);
    forall k
      ensures k in b <==> k in a || k == n
      ensures k in a && k != n ==> b[k] == a[k]
    {
      ContentsFrom(slots, k);
      ContentsFrom(slots', k);
      if Find(slots, k).Some? && k != n {
        ContentsAt(slots, Find(slots, k).value);
        ContentsAt(slots', Find(slots, k).value);
      }
      if Find(slots', k).Some? && k != n {
        assert slots[Find(slots', k).value].used;
      }
    }
  }

  /** A turn offers nothing twice: slots and other destinations are untouched apart from the bit. */
  lemma {:induction false} OffersOnlyMark(m: Mail, dest: nat, taken: seq<bool>, k: nat)
    requires Inv(m) && dest < DESTINATIONS && |taken| == MAX_SLOTS && k <= MAX_SLOTS
    ensures var m' := Offers(m, dest, taken, k);
      && m'.history == m.history && m'.deadlines == m.deadlines
      && (forall d | 0 <= d < DESTINATIONS && d != dest :: m'.handed[d] == m.handed[d])
      && (forall i | 0 <= i < MAX_SLOTS ::
            m'.slots[i] == if i < k && taken[i] && Pending(m.slots[i], dest)
                           then m.slots[i].(sent := m.slots[i].sent + {dest}) else m.slots[i])
    decreases k
  {
    hide Newest, Distinct, OnlyNewer, BitsRight;
    if k > 0 {
      OffersOnlyMark(m, dest, taken, k - 1);
      assert HoldsNewest(m.slots[k - 1], m.history);
    }
  }

  /** Everything a tick hands over is, at that moment, the newest frame of its type. */
  lemma {:induction false} OffersHandNewest(m: Mail, dest: nat, taken: seq<bool>, k: nat)
    requires Inv(m) && dest < DESTINATIONS && |taken| == MAX_SLOTS && k <= MAX_SLOTS
    ensures var before, after := m.handed[dest], Offers(m, dest, taken, k).handed[dest];
      && |before| <= |after| && after[..|before|] == before
      && (forall j | |before| <= j < |after| ::
            after[j] < |m.history| && after[j] == Newest(m.history, m.history[after[j]].number))
    decreases k
  {
    if k > 0 {
      OffersHandNewest(m, dest, taken, k - 1);
      OffersOnlyMark(m, dest, taken, k - 1);
    }
  }

  lemma TickHandsNewest(m: Mail, dest: nat, now: int, taken: seq<bool>)
    requires Inv(m) && dest < DESTINATIONS && |taken| == MAX_SLOTS
    ensures var before, after := m.handed[dest], Tick(m, dest, now, taken).handed[dest];
      && |before| <= |after| && after[..|before|] == before
      && (forall j | |before| <= j < |after| ::
            after[j] < |m.history| && after[j] == Newest(m.history, m.history[after[j]].number))
  {
    hide Newest, Inv;
    OffersHandNewest(m, dest, taken, MAX_SLOTS);
  }

  /** A due tick at which nothing is refused leaves the destination with the newest frame
      of every type in the mailbox. */
  lemma DueTickCatchesUp(m: Mail, dest: nat, now: int, taken: seq<bool>, i: nat)
    requires Inv(m) && dest < DESTINATIONS && |taken| == MAX_SLOTS && i < MAX_SLOTS
    requires now >= m.deadlines[dest] && taken[i] && m.slots[i].used
    ensures Newest(m.history, m.slots[i].number) in Tick(m, dest, now, taken).handed[dest]
    ensures Contents(Tick(m, dest, now, taken).slots) == Contents(m.slots)
  {
    assert Shaped(m);
    hide Inv, Newest, Offers, HoldsNewest, BitsRight, Contents;
    OffersOnlyMark(m, dest, taken, MAX_SLOTS);
    OffersKeepInv(m, dest, taken, MAX_SLOTS);
    var m' := Offers(m, dest, taken, MAX_SLOTS);
    MarkedIsTaken(m', dest, i);
    UsedIsNotEmpty(m, i);
    SameFramesSameMap(m.slots, m'.slots);
  }

  lemma MarkedIsTaken(m: Mail, dest: nat, i: nat)
    requires Inv(m) && dest < DESTINATIONS && i < MAX_SLOTS
    ensures m.slots[i].used && m.slots[i].data != [] && dest in m.slots[i].sent ==>
              Newest(m.history, m.slots[i].number) in m.handed[dest]
  {
    assert BitsRight(m.slots[i], m.history, dest, m.handed[dest]);
  }

  lemma UsedIsNotEmpty(m: Mail, i: nat)
    requires Inv(m) && i < MAX_SLOTS && m.slots[i].used
    ensures m.slots[i].data != []
  {
    assert HoldsNewest(m.slots[i], m.history);
  }

  lemma {:induction false} SameFramesSameMap(a: seq<Slot>, b: seq<Slot>)
    requires |a| == |b|
    requires forall i | 0 <= i < |a| ::
               a[i].used == b[i].used && a[i].number == b[i].number && a[i].data == b[i].data
    ensures Contents(a) == Contents(b)
    decreases |a|
  {
    if a != [] {
      SameFramesSameMap(a[..|a| - 1], b[..|b| - 1]);
    }
  }

  /** A frame that is refused stays pending and is offered again at the next due tick. */
  lemma RefusedStaysPending(m: Mail, dest: nat, now: int, taken: seq<bool>, i: nat)
    requires Inv(m) && dest < DESTINATIONS && |taken| == MAX_SLOTS && i < MAX_SLOTS
    requires !taken[i] && Pending(m.slots[i], dest)
    ensures Tick(m, dest, now, taken).slots[i] == m.slots[i]
  {
    OffersOnlyMark(m, dest, taken, MAX_SLOTS);
  }

  // ------------------------------------------------------------------------ the cadence

  /** When destination `d` is next due, read off the run: at once from power-up, 200 ms after the
      last poll that found it due, and 200 ms and its share of the stagger after a reset. */
  function DueAt(events: seq<Event>, d: nat): int
    decreases |events|
  {
    if events == [] then 0
    else
      var before := DueAt(events[..|events| - 1], d);
      match events[|events| - 1]
      case Published(_, _) => before
      case Polled(dest, now, _) => if dest == d && now >= before then now + 200_000 else before
      case Restarted(at) => at + 200_000 + 50_000 * (d + 1)
  }

  lemma {:induction false} DeadlineIsDueAt(events: seq<Event>, d: nat)
    requires AllLegal(events) && d < DESTINATIONS
    ensures Run(events).deadlines[d] == DueAt(events, d)
    decreases |events|
  {
    if events != [] {
      var before := Run(events[..|events| - 1]);
      DeadlineIsDueAt(events[..|events| - 1], d);
      RunKeepsInv(events[..|events| - 1]);
      hide Inv, Target, Offers, Shaped, Run;
      DeadlineStep(before, events[|events| - 1], d);
    }
  }

  lemma DeadlineStep(m: Mail, e: Event, d: nat)
    requires Inv(m) && Legal(e) && d < DESTINATIONS
    ensures Apply(m, e).deadlines[d] ==
      match e
      case Published(_, _) => m.deadlines[d]
      case Polled(dest, now, _) => if dest == d && now >= m.deadlines[d] then now + 200_000 else m.deadlines[d]
      case Restarted(at) => at + 200_000 + 50_000 * (d + 1)
  {
    if e.Polled? {
      OffersOnlyMark(m, e.dest, e.taken, MAX_SLOTS);
    }
    hide Inv, Target, Offers;
  }

  /** What a poll is for, told by the times alone. After any run: a poll of destination `d` that is
      due hands it, of every type it has not the newest frame of, that frame, if it takes it, and
      marks nothing it refuses; a poll that comes too early changes nothing. */
  lemma PollsOnTime(events: seq<Event>, d: nat, now: int, taken: seq<bool>, i: nat)
    requires AllLegal(events) && d < DESTINATIONS && |taken| == MAX_SLOTS && i < MAX_SLOTS
    ensures var m, m' := Run(events), Tick(Run(events), d, now, taken);
      && (now < DueAt(events, d) ==> m' == m)
      && (now >= DueAt(events, d) && m.slots[i].used && d !in m.slots[i].sent ==>
            if taken[i] then
              && d in m'.slots[i].sent && Newest(m.history, m.slots[i].number) !in m.handed[d]
              && Newest(m.history, m.slots[i].number) in m'.handed[d]
            else
              m'.slots[i] == m.slots[i])
  {
    var m := Run(events);
    RunKeepsInv(events);
    DeadlineIsDueAt(events, d);
    hide Run, DueAt;
    if now >= m.deadlines[d] && m.slots[i].used {
      UsedIsNotEmpty(m, i);
      NotMarkedNotTaken(m, d, i);
      hide Inv, Newest, Contents, HoldsNewest, BitsRight;
      OffersOnlyMark(m, d, taken, MAX_SLOTS);
      if taken[i] {
        DueTickCatchesUp(m, d, now, taken, i);
      }
    }
  }

  lemma NotMarkedNotTaken(m: Mail, dest: nat, i: nat)
    requires Inv(m) && dest < DESTINATIONS && i < MAX_SLOTS
    ensures m.slots[i].used && m.slots[i].data != [] && dest !in m.slots[i].sent ==>
              Newest(m.history, m.slots[i].number) !in m.handed[dest]
  {
    assert BitsRight(m.slots[i], m.history, dest, m.handed[dest]);
  }

  // ------------------------------------------------------------------- the program

  /** What a due tick offers, in slot order. */
  function PendingFrames(slots: seq<Slot>, dest: nat): seq<seq<byte>>
    decreases |slots|
  {
    if slots == [] then
      []
    else
      var last := slots[|slots| - 1];
      PendingFrames(slots[..|slots| - 1], dest) + if Pending(last, dest) then [last.data] else []
  }

  class CorrectionMailbox {
    const slots: array<Slot>
    const pushNextFlushUs: array<int>
    ghost var history: seq<Message>
    ghost var handed: seq<seq<nat>>

    ghost predicate Valid()
      reads this, slots, pushNextFlushUs
    {
      slots.Length == MAX_SLOTS && pushNextFlushUs.Length == DESTINATIONS && Inv(State())
    }

    ghost function State(): Mail
      reads this, slots, pushNextFlushUs
    {
      Mail(slots[..], pushNextFlushUs[..], history, handed)
    }

    constructor ()
      ensures Valid() && State() == FRESH && fresh(slots) && fresh(pushNextFlushUs)
    {
      slots := new Slot[MAX_SLOTS](_ => UNUSED);
      pushNextFlushUs := new int[DESTINATIONS](_ => 0);
      history := [];
      handed := [[], [], []];
      new;
      assert State() == FRESH;
      FreshInv();
    }

    method ResetState(now: int)
      requires Valid()
      modifies this, slots, pushNextFlushUs
      ensures Valid() && State() == Reset(old(State()), now)
    {
      ResetKeepsInv(State(), now);
      for i := 0 to slots.Length
        invariant unchanged(this) && unchanged(pushNextFlushUs)
        invariant forall j | 0 <= j < i :: slots[j] == UNUSED
      {
        slots[i] := UNUSED;
      }
      pushNextFlushUs[0] := now + STAGGER_US + BATCH_US;
      pushNextFlushUs[1] := now + STAGGER_US * 2 + BATCH_US;
      pushNextFlushUs[2] := now + STAGGER_US * 3 + BATCH_US;
      assert State() == Reset(old(State()), now);
    }

    /** The two searches of publish_to_corrections. */
    method FindTarget(number: nat) returns (slot: int)
      requires slots.Length == MAX_SLOTS
      ensures -1 <= slot < MAX_SLOTS
      ensures Target(slots[..], number) == if slot < 0 then None else Some(slot)
    {
      slot := -1;
      var i := 0;
      while i < slots.Length && slot < 0
        invariant 0 <= i <= slots.Length && -1 <= slot < slots.Length
        invariant slot < 0 ==> Find(slots[..i], number) == None
        invariant slot >= 0 ==> Find(slots[..], number) == Some(slot)
      {
        assert slots[..i + 1][..i] == slots[..i];
        if slots[i].used && slots[i].number == number {
          slot := i;
          FindExtends(slots[..], i + 1, number);
        }
        i := i + 1;
      }
      assert slots[..slots.Length] == slots[..];
      if slot >= 0 {
        return;
      }
      i := 0;
      while i < slots.Length && slot < 0
        invariant 0 <= i <= slots.Length && -1 <= slot < slots.Length
        invariant slot < 0 ==> FindFree(slots[..i]) == None
        invariant slot >= 0 ==> FindFree(slots[..]) == Some(slot)
      {
        assert slots[..i + 1][..i] == slots[..i];
        if !slots[i].used {
          slot := i;
          FindFreeExtends(slots[..], i + 1);
        }
        i := i + 1;
      }
      assert slots[..slots.Length] == slots[..];
    }

    method PublishToCorrections(frame: seq<byte>, number: nat, now: int)
      requires Valid() && frame != []
      modifies this, slots
      ensures Valid() && State() == Publish(old(State()), frame, number, now)
    {
      PublishKeepsInv(State(), frame, number, now);
      hide Inv, Target;
      var slot := FindTarget(number);
      history := history + [Message(number, frame)];
      if slot >= 0 {
        slots[slot] := Slot(true, number, frame, {}, now);
      }
      assert State() == Publish(old(State()), frame, number, now);
    }

    /** `taken[i]` is what push answers for slot `i`; `offered` are the frames pushed. */
    method FlushDestinationIfDue(dest: nat, now: int, taken: seq<bool>) returns (offered: seq<seq<byte>>)
      requires Valid() && dest < DESTINATIONS && |taken| == MAX_SLOTS
      modifies this, slots, pushNextFlushUs
      ensures Valid() && State() == Tick(old(State()), dest, now, taken)
      ensures offered == if now < old(pushNextFlushUs[dest]) then [] else PendingFrames(old(slots[..]), dest)
    {
      offered := [];
      if now < pushNextFlushUs[dest] {
        return;
      }
      ghost var before := State();
      TickKeepsInv(before, dest, now, taken);
      hide Inv, Offer, HoldsNewest, Pending;
      for i := 0 to slots.Length
        invariant unchanged(pushNextFlushUs)
        invariant State() == Offers(before, dest, taken, i)
        invariant offered == PendingFrames(before.slots[..i], dest)
      {
        NextTurn(before, dest, taken, i);
        var frame := OfferSlot(dest, i, taken[i]);
        offered := offered + frame;
      }
      assert before.slots[..MAX_SLOTS] == before.slots;
      pushNextFlushUs[dest] := now + BATCH_US;
    }

    /** The body of that loop. */
    method OfferSlot(dest: nat, i: nat, taken: bool) returns (offered: seq<seq<byte>>)
      requires Shaped(State()) && dest < DESTINATIONS && i < MAX_SLOTS && HoldsNewest(slots[i], history)
      modifies this`handed, slots
      ensures State() == Offer(old(State()), dest, i, taken)
      ensures offered == if Pending(old(slots[i]), dest) then [old(slots[i].data)] else []
    {
      hide Newest;
      if !slots[i].used || slots[i].data == [] || dest in slots[i].sent {
        return [];
      }
      offered := [slots[i].data];
      if taken {
        handed := handed[dest := handed[dest] + [Newest(history, slots[i].number)]];
        slots[i] := slots[i].(sent := slots[i].sent + {dest});
      }
    }
  }

  /** What turn `i` of the loop finds: its slot is as it was when the tick began. */
  lemma NextTurn(m: Mail, dest: nat, taken: seq<bool>, i: nat)
    requires Inv(m) && dest < DESTINATIONS && |taken| == MAX_SLOTS && i < MAX_SLOTS
    ensures var m' := Offers(m, dest, taken, i); m'.slots[i] == m.slots[i] && HoldsNewest(m'.slots[i], m'.history)
    ensures PendingFrames(m.slots[..i + 1], dest)
      == PendingFrames(m.slots[..i], dest) + if Pending(m.slots[i], dest) then [m.slots[i].data] else []
  {
    OffersOnlyMark(m, dest, taken, i);
    assert HoldsNewest(m.slots[i], m.history);
    hide Inv, Offers, HoldsNewest, Pending;
    assert m.slots[..i + 1][..i] == m.slots[..i];
  }

  lemma {:induction false} FindExtends(slots: seq<Slot>, k: nat, n: nat)
    requires k <= |slots| && Find(slots[..k], n).Some?
    ensures Find(slots, n) == Find(slots[..k], n)
    decreases |slots|
  {
    if k < |slots| {
      var init := slots[..|slots| - 1];
      assert init[..k] == slots[..k];
      FindExtends(init, k, n);
    } else {
      assert slots[..k] == slots;
    }
  }

  lemma {:induction false} FindFreeExtends(slots: seq<Slot>, k: nat)
    requires k <= |slots| && FindFree(slots[..k]).Some?
    ensures FindFree(slots) == FindFree(slots[..k])
    decreases |slots|
  {
    if k < |slots| {
      var init := slots[..|slots| - 1];
      assert init[..k] == slots[..k];
      FindFreeExtends(init, k);
    } else {
      assert slots[..k] == slots;
    }
  }
}
