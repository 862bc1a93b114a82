/** The lock-free ring between the capture thread, which stores transport stream packets at
    `inp`, and the decoder thread, which removes them at `out`. Each thread reads the index
    of the other one once and may act on it when it is out of date. Packets are copied and
    read byte by byte. Offsets are in bytes. */
module PacketRing {
  const PACKET: nat := 188

  type Packet = p: seq<bv8> | |p| == PACKET witness seq(PACKET, _ => 0)

  /** The top bit of the second byte reports a transmission error. */
  predicate HasError(p: Packet) {
    p[1] & 0x80 != 0
  }

  function WithError(p: Packet, tsError: bv8): Packet {
    p[1 := p[1] | tsError]
  }

  /** The packet identifier, 13 bits. */
  function Pid(p: Packet): bv16 {
    ((p[1] as bv16 << 8) | p[2] as bv16) & 0x1FFF
  }

  /** What became of a packet that was offered. */
  datatype Verdict = Accepted | Overflowed | Ignored
  datatype Offer = Offer(packet: Packet, verdict: Verdict)

  /** The capture thread between two steps. `fillSeen` is how many packets the ring held when
      `staleOut` was read. */
  datatype Producer =
    | Waiting
    | Loaded(packet: Packet, staleOut: nat, fillSeen: int)
    | Copying(original: Packet, copied: nat)
    | Marked(original: Packet)

  /** The decoder thread between two steps. */
  datatype Consumer = Looking | Reading(seen: seq<bv8>)

  datatype State = State(
    ring: seq<Packet>, inp: nat, out: nat, tsError: bv8,
    pids: set<bv16>,       // the identifiers of the packets wanted
    producer: Producer, consumer: Consumer,
    offers: seq<Offer>,    // all packets the capture thread is done with
    stored: seq<Packet>,   // as they were published to the decoder thread
    decoded: seq<Packet>)  // as the decoder thread read them, before it removed them

  datatype Action =
    | Load(packet: Packet) | Check | CopyByte | Mark | Publish  // capture thread
    | Look | ReadByte | Release                                 // decoder thread

  function Capacity(s: State): nat {
    |s.ring| * PACKET
  }

  /** Bytes from offset a to offset b. */
  function Distance(a: nat, b: nat, capacity: nat): int {
    if b < a then b - a + capacity else b - a
  }

  function Advance(offset: nat, capacity: nat): nat {
    if offset + PACKET >= capacity then 0 else offset + PACKET
  }

  /** Free bytes as the capture thread computes them. */
  function Free(inp: nat, out: nat, capacity: nat): int {
    if out <= inp then out - inp + capacity else out - inp
  }

  /** One atomic step; an action that is not enabled does nothing. */
  function Next(s: State, a: Action): State
    requires Sane(s)
  {
    match a
    case Load(p) =>
      if !s.producer.Waiting? then s
      else if !HasError(p) && Pid(p) !in s.pids then s.(offers := s.offers + [Offer(p, Ignored)])
      else s.(producer := Loaded(p, s.out, Fill(s)))
    case Check =>
      if !s.producer.Loaded? then s
      else if Free(s.inp, s.producer.staleOut, Capacity(s)) <= PACKET then
        s.(tsError := 0x80, producer := Waiting, offers := s.offers + [Offer(s.producer.packet, Overflowed)])
      else s.(producer := Copying(s.producer.packet, 0))
    case CopyByte =>
      if !s.producer.Copying? || s.producer.copied >= PACKET then s
      else
        var slot, n := s.inp / PACKET, s.producer.copied;
        s.(ring := s.ring[slot := s.ring[slot][n := s.producer.original[n]]], producer := s.producer.(copied := n + 1))
    case Mark =>
      if !s.producer.Copying? || s.producer.copied < PACKET then s
      else
        var slot := s.inp / PACKET;
        s.(ring := s.ring[slot := WithError(s.ring[slot], s.tsError)], tsError := 0,
           producer := Marked(s.producer.original))
    case Publish =>
      if !s.producer.Marked? then s
      else
        s.(inp := Advance(s.inp, Capacity(s)), producer := Waiting,
           offers := s.offers + [Offer(s.producer.original, Accepted)],
           stored := s.stored + [s.ring[s.inp / PACKET]])
    case Look =>
      if s.consumer.Looking? && Distance(s.out, s.inp, Capacity(s)) > 0 then s.(consumer := Reading([])) else s
    case ReadByte =>
      if s.consumer.Reading? && |s.consumer.seen| < PACKET then
        s.(consumer := Reading(s.consumer.seen + [s.ring[s.out / PACKET][|s.consumer.seen|]]))
      else s
    case Release =>
      if s.consumer.Reading? && |s.consumer.seen| == PACKET then
        s.(consumer := Looking, out := Advance(s.out, Capacity(s)), decoded := s.decoded + [s.consumer.seen])
      else s
  }

  /** The offsets are valid. */
  predicate Sane(s: State) {
    && |s.ring| > 0
    && s.inp % PACKET == 0 && s.inp < Capacity(s)
    && s.out % PACKET == 0 && s.out < Capacity(s)
  }

  function Init(ring: seq<Packet>, pids: set<bv16>): State {
    State(ring, 0, 0, 0, pids, Waiting, Looking, [], [], [])
  }

  /** Packets in the ring. */
  function Fill(s: State): int {
    |s.stored| - |s.decoded|
  }

  /** The k-th slot behind a slot. */
  function Slot(first: nat, k: nat, slots: nat): int {
    if first + k < slots then first + k else first + k - slots
  }

  // The specification of what is stored.

  /** A packet was lost to an overflow since the last one was accepted. */
  function LostBefore(offers: seq<Offer>): bool {
    if offers == [] then false
    else
      var k := |offers| - 1;
      match offers[k].verdict
      case Accepted => false
      case Overflowed => true
      case Ignored => LostBefore(offers[..k])
  }

  /** The accepted packets in order, with the error bit set in the first one after a loss. */
  function Delivered(offers: seq<Offer>): seq<Packet> {
    if offers == [] then []
    else
      var k := |offers| - 1;
      if offers[k].verdict == Accepted then
        Delivered(offers[..k])
        + [if LostBefore(offers[..k]) then WithError(offers[k].packet, 0x80) else offers[k].packet]
      else Delivered(offers[..k])
  }

  // Invariants.

  /** The offsets are as far apart as there are packets between them. */
  predicate Apart(slots: nat, out: nat, inp: nat, fill: int) {
    0 <= fill < slots && inp / PACKET == Slot(out / PACKET, fill, slots)
  }

  /** The packets from slot `first` on are those stored and not yet decoded. */
  ghost predicate Holds(ring: seq<Packet>, first: nat, stored: seq<Packet>, decoded: nat) {
    && first < |ring| && 0 <= |stored| - decoded < |ring|
    && forall k: nat :: k < |stored| - decoded ==> ring[Slot(first, k, |ring|)] == stored[decoded + k]
  }

  ghost predicate Inv(s: State) {
    && Sane(s)
    && Apart(|s.ring|, s.out, s.inp, Fill(s))
    && Holds(s.ring, s.out / PACKET, s.stored, |s.decoded|)
    && s.decoded <= s.stored && s.stored == Delivered(s.offers)
    && ProducerInv(s) && ConsumerInv(s)
  }

  function ErrorOf(offers: seq<Offer>): bv8 {
    if LostBefore(offers) then 0x80 else 0
  }

  ghost predicate ProducerInv(s: State)
    requires Sane(s)
  {
    match s.producer
    case Waiting => s.tsError == ErrorOf(s.offers)
    case Loaded(p, staleOut, fillSeen) =>
      && s.tsError == ErrorOf(s.offers)
      && staleOut % PACKET == 0 && staleOut < Capacity(s)
      && Fill(s) <= fillSeen && Apart(|s.ring|, staleOut, s.inp, fillSeen)
    case Copying(p, n) =>
      && s.tsError == ErrorOf(s.offers) && n <= PACKET
      && Fill(s) + 1 < |s.ring| && s.ring[s.inp / PACKET][..n] == p[..n]
    case Marked(p) =>
      s.tsError == 0 && Fill(s) + 1 < |s.ring| && s.ring[s.inp / PACKET] == WithError(p, ErrorOf(s.offers))
  }

  ghost predicate ConsumerInv(s: State)
    requires Sane(s)
  {
    s.consumer.Reading? ==> Fill(s) > 0 && s.consumer.seen <= s.stored[|s.decoded|]
  }

  lemma IgnoredChangesNothing(offers: seq<Offer>, p: Packet)
    ensures LostBefore(offers + [Offer(p, Ignored)]) == LostBefore(offers)
    ensures Delivered(offers + [Offer(p, Ignored)]) == Delivered(offers)
  {
    assert (offers + [Offer(p, Ignored)])[..|offers|] == offers;
  }

  lemma OverflowIsLost(offers: seq<Offer>, p: Packet)
    ensures LostBefore(offers + [Offer(p, Overflowed)])
        && Delivered(offers + [Offer(p, Overflowed)]) == Delivered(offers)
  {
    assert (offers + [Offer(p, Overflowed)])[..|offers|] == offers;
  }

  lemma AcceptedIsDelivered(offers: seq<Offer>, p: Packet)
    ensures !LostBefore(offers + [Offer(p, Accepted)])
    ensures Delivered(offers + [Offer(p, Accepted)]) == Delivered(offers) + [WithError(p, ErrorOf(offers))]
  {
    NoError(p);
    assert (offers + [Offer(p, Accepted)])[..|offers|] == offers;
  }

  lemma NoError(p: Packet)
    ensures WithError(p, 0) == p
  {
    assert p[1] | 0 == p[1];
  }

  /** The slot at `inp` is none of those in use. */
  lemma FreeSlot(ring: seq<Packet>, first: nat, stored: seq<Packet>, decoded: nat, x: Packet)
    requires Holds(ring, first, stored, decoded)
    ensures var slot := Slot(first, |stored| - decoded, |ring|);
            && 0 <= slot < |ring| && Holds(ring[slot := x], first, stored, decoded)
            && forall k: nat :: k < |stored| - decoded ==> Slot(first, k, |ring|) != slot
  {
  }

  lemma OneMore(ring: seq<Packet>, first: nat, stored: seq<Packet>, decoded: nat)
    requires Holds(ring, first, stored, decoded) && |stored| + 1 - decoded < |ring|
    ensures 0 <= Slot(first, |stored| - decoded, |ring|) < |ring|
    ensures Holds(ring, first, stored + [ring[Slot(first, |stored| - decoded, |ring|)]], decoded)
  {
  }

  lemma OneLess(ring: seq<Packet>, first: nat, stored: seq<Packet>, decoded: nat)
    requires Holds(ring, first, stored, decoded) && decoded < |stored|
    ensures Holds(ring, Slot(first, 1, |ring|), stored, decoded + 1)
    ensures ring[first] == stored[decoded]
  {
    var next := Slot(first, 1, |ring|);
    assert Slot(first, 0, |ring|) == first;
    forall k: nat | k < |stored| - decoded - 1 ensures ring[Slot(next, k, |ring|)] == stored[decoded + 1 + k] {
      assert Slot(next, k, |ring|) == Slot(first, k + 1, |ring|);
    }
  }

  lemma Advanced(offset: nat, slots: nat)
    requires offset % PACKET == 0 && offset < slots * PACKET
    ensures var r := Advance(offset, slots * PACKET);
            r % PACKET == 0 && r < slots * PACKET && r / PACKET == Slot(offset / PACKET, 1, slots)
    ensures offset / PACKET < slots
  {
  }

  /** Distances in bytes and in packets. */
  lemma Distances(slots: nat, out: nat, inp: nat, fill: int)
    requires out % PACKET == 0 && inp % PACKET == 0 && out < slots * PACKET && inp < slots * PACKET
    requires Apart(slots, out, inp, fill)
    ensures Distance(out, inp, slots * PACKET) == fill * PACKET
    ensures Free(inp, out, slots * PACKET) == (slots - fill) * PACKET
    ensures fill == 0 <==> inp == out
  {
  }

  lemma LoadKeeps(s: State, p: Packet)
    requires Inv(s)
    ensures Inv(Next(s, Load(p)))
  {
    hide Holds;
    hide Delivered;
    hide LostBefore;
    hide Pid;
    hide HasError;
    IgnoredChangesNothing(s.offers, p);
  }

  lemma CheckKeeps(s: State)
    requires Inv(s)
    ensures Inv(Next(s, Check))
  {
    hide Holds;
    hide Delivered;
    hide LostBefore;
    hide Free;
    hide Slot;
    if s.producer.Loaded? {
      OverflowIsLost(s.offers, s.producer.packet);
      Distances(|s.ring|, s.producer.staleOut, s.inp, s.producer.fillSeen);
    }
  }

  lemma CopyByteKeeps(s: State)
    requires Inv(s)
    ensures Inv(Next(s, CopyByte))
  {
    hide Holds;
    hide Delivered;
    hide LostBefore;
    hide Slot;
    if s.producer.Copying? && s.producer.copied < PACKET {
      var slot, n := s.inp / PACKET, s.producer.copied;
      FreeSlot(s.ring, s.out / PACKET, s.stored, |s.decoded|, s.ring[slot][n := s.producer.original[n]]);
      assert s.ring[slot][n := s.producer.original[n]][..n + 1] == s.producer.original[..n + 1];
    }
  }

  lemma MarkKeeps(s: State)
    requires Inv(s)
    ensures Inv(Next(s, Mark))
  {
    hide Holds;
    hide Delivered;
    hide LostBefore;
    hide Slot;
    hide WithError;
    if s.producer.Copying? && s.producer.copied == PACKET {
      var slot := s.inp / PACKET;
      FreeSlot(s.ring, s.out / PACKET, s.stored, |s.decoded|, WithError(s.ring[slot], s.tsError));
      assert s.ring[slot][..PACKET] == s.ring[slot] && s.producer.original[..PACKET] == s.producer.original;
    }
  }

  lemma PublishKeeps(s: State)
    requires Inv(s)
    ensures Inv(Next(s, Publish))
  {
    hide Holds;
    hide Delivered;
    hide LostBefore;
    hide WithError;
    hide Advance;
    if s.producer.Marked? {
      OneMore(s.ring, s.out / PACKET, s.stored, |s.decoded|);
      AcceptedIsDelivered(s.offers, s.producer.original);
      Advanced(s.inp, |s.ring|);
      Advanced(s.out, |s.ring|);
    }
  }

  lemma ReadKeeps(s: State)
    requires Inv(s)
    ensures Inv(Next(s, Look)) && Inv(Next(s, ReadByte))
  {
    hide Holds;
    hide Delivered;
    hide LostBefore;
    hide Slot;
    hide ProducerInv;
    Distances(|s.ring|, s.out, s.inp, Fill(s));
    if s.consumer.Reading? {
      OneLess(s.ring, s.out / PACKET, s.stored, |s.decoded|);
    }
    ProducerAlone(s, Next(s, Look));
    ProducerAlone(s, Next(s, ReadByte));
  }

  /** What the capture thread relies on does not depend on where the decoder thread is. */
  lemma ProducerAlone(s: State, t: State)
    requires Sane(s) && ProducerInv(s) && t == s.(consumer := t.consumer)
    ensures Sane(t) && ProducerInv(t)
  {
  }

  lemma ReleaseKeeps(s: State)
    requires Inv(s)
    ensures Inv(Next(s, Release))
  {
    hide Holds;
    hide Delivered;
    hide LostBefore;
    hide Advance;
    hide ProducerInv;
    if s.consumer.Reading? && |s.consumer.seen| == PACKET {
      OneLess(s.ring, s.out / PACKET, s.stored, |s.decoded|);
      Advanced(s.out, |s.ring|);
      assert s.consumer.seen == s.stored[|s.decoded|];
      assert s.stored[..|s.decoded| + 1] == s.decoded + [s.stored[|s.decoded|]];
      ProducerUnaware(s, Next(s, Release));
    }
  }

  /** Nor does it depend on packets being removed. */
  lemma ProducerUnaware(s: State, t: State)
    requires Sane(s) && Sane(t) && ProducerInv(s)
    requires t == s.(consumer := t.consumer, out := t.out, decoded := t.decoded) && |t.decoded| >= |s.decoded|
    ensures ProducerInv(t)
  {
  }

  lemma NextKeeps(s: State, a: Action)
    requires Inv(s)
    ensures Inv(Next(s, a))
  {
    hide Inv;
    match a
    case Load(p) => LoadKeeps(s, p);
    case Check => CheckKeeps(s);
    case CopyByte => CopyByteKeeps(s);
    case Mark => MarkKeeps(s);
    case Publish => PublishKeeps(s);
    case Look => ReadKeeps(s);
    case ReadByte => ReadKeeps(s);
    case Release => ReleaseKeeps(s);
  }

  function Run(s: State, actions: seq<Action>): State
    requires Inv(s)
    decreases |actions|
  {
    if actions == [] then s
    else
      NextKeeps(s, actions[0]);
      Run(Next(s, actions[0]), actions[1..])
  }

  lemma InitInv(ring: seq<Packet>, pids: set<bv16>)
    requires |ring| > 0
    ensures Inv(Init(ring, pids))
  {
  }

  lemma {:induction false} RunKeeps(s: State, actions: seq<Action>)
    requires Inv(s)
    ensures Inv(Run(s, actions)) && |Run(s, actions).ring| == |s.ring|
    decreases |actions|
  {
    if actions != [] {
      hide Next;
      NextKeeps(s, actions[0]);
      RingSize(s, actions[0]);
      hide Inv;
      RunKeeps(Next(s, actions[0]), actions[1..]);
    }
  }

  lemma RingSize(s: State, a: Action)
    requires Inv(s)
    ensures |Next(s, a).ring| == |s.ring|
  {
  }

  /** For every interleaving of the two threads, byte by byte: the decoder has read a prefix of
      the accepted packets, in order and intact; the ring is empty exactly if the offsets are
      equal, and one slot always remains unused. */
  lemma EveryInterleavingIsFifo(ring: seq<Packet>, pids: set<bv16>, actions: seq<Action>)
    requires |ring| > 0
    ensures Inv(Init(ring, pids))
    ensures var s := Run(Init(ring, pids), actions);
            && s.decoded <= Delivered(s.offers)
            && (s.inp == s.out <==> s.decoded == Delivered(s.offers))
            && |Delivered(s.offers)| - |s.decoded| < |ring|
  {
    InitInv(ring, pids);
    RunKeeps(Init(ring, pids), actions);
    var s := Run(Init(ring, pids), actions);
    hide Delivered;
    Distances(|s.ring|, s.out, s.inp, Fill(s));
  }

  /** A packet is refused exactly if the ring was full when the capture thread read `out`. */
  lemma RefusedExactlyWhenFull(s: State)
    requires Inv(s) && s.producer.Loaded?
    ensures Next(s, Check).producer.Waiting? <==> s.producer.fillSeen == |s.ring| - 1
    ensures Next(s, Check).producer.Waiting? ==>
              Next(s, Check).offers == s.offers + [Offer(s.producer.packet, Overflowed)]
  {
    hide Holds;
    hide Delivered;
    hide LostBefore;
    hide Slot;
    Distances(|s.ring|, s.producer.staleOut, s.inp, s.producer.fillSeen);
  }

  /** The bytes written are in no slot the decoder thread may look at, even half-way through a
      packet. */
  lemma WritesOnlyFreeSlot(s: State, a: Action, k: nat)
    requires Inv(s) && k < Fill(s)
    ensures var slot := Slot(s.out / PACKET, k, |s.ring|);
            0 <= slot < |s.ring| && Next(s, a).ring[slot] == s.ring[slot]
  {
    hide Delivered;
    hide LostBefore;
    FreeSlot(s.ring, s.out / PACKET, s.stored, |s.decoded|, s.ring[s.inp / PACKET]);
  }

  /** While a packet is being read no step of either thread changes a byte of it. */
  lemma NoTornPacket(s: State, a: Action)
    requires Inv(s) && s.consumer.Reading? && !a.Release?
    ensures var t := Next(s, a);
            t.consumer.Reading? && t.out == s.out
                && t.ring[t.out / PACKET] == s.ring[s.out / PACKET] == s.stored[|s.decoded|]
  {
    hide Delivered;
    hide LostBefore;
    WritesOnlyFreeSlot(s, a, 0);
    OneLess(s.ring, s.out / PACKET, s.stored, |s.decoded|);
  }

  /** The first packet accepted after an overflow carries the error bit. */
  lemma {:induction false} LossIsFlagged(offers: seq<Offer>, i: nat, j: nat)
    requires i < j < |offers| && offers[i].verdict == Overflowed && offers[j].verdict == Accepted
    requires forall k :: i < k < j ==> offers[k].verdict != Accepted
    ensures Delivered(offers[..j + 1]) == Delivered(offers[..j]) + [WithError(offers[j].packet, 0x80)]
    ensures HasError(WithError(offers[j].packet, 0x80))
  {
    LostSince(offers, i, j);
    assert offers[..j + 1][..j] == offers[..j];
    ErrorIsSet(offers[j].packet[1]);
  }

  lemma ErrorIsSet(h: bv8)
    ensures (h | 0x80) & 0x80 != 0
  {
  }

  lemma {:induction false} LostSince(offers: seq<Offer>, i: nat, j: nat)
    requires i < j <= |offers| && offers[i].verdict == Overflowed
    requires forall k :: i < k < j ==> offers[k].verdict != Accepted
    ensures LostBefore(offers[..j])
    decreases j
  {
    if j > i + 1 {
      LostSince(offers, i, j - 1);
    }
    assert offers[..j][..j - 1] == offers[..j - 1];
  }

  /** Without a loss since the last accepted packet a packet arrives as it was offered. */
  lemma {:induction false} NoLossNoFlag(offers: seq<Offer>, i: nat, j: nat)
    requires i < j < |offers| && offers[i].verdict == Accepted && offers[j].verdict == Accepted
    requires forall k :: i < k < j ==> offers[k].verdict == Ignored
    ensures Delivered(offers[..j + 1]) == Delivered(offers[..i + 1]) + [offers[j].packet]
  {
    NotLost(offers, i, j);
    assert offers[..j + 1][..j] == offers[..j];
  }

  lemma {:induction false} NotLost(offers: seq<Offer>, i: nat, j: nat)
    requires i < j <= |offers| && offers[i].verdict == Accepted
    requires forall k :: i < k < j ==> offers[k].verdict == Ignored
    ensures !LostBefore(offers[..j]) && Delivered(offers[..j]) == Delivered(offers[..i + 1])
    decreases j
  {
    if j > i + 1 {
      NotLost(offers, i, j - 1);
    }
    assert offers[..j][..j - 1] == offers[..j - 1];
  }
}
