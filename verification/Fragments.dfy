/** Splitting a message that exceeds the MTU, and putting the fragments together again. */
module Fragments {
  import opened Sequence
  import opened Packets

  const FRAGMENT_HEADER_SIZE := 6
  const FRAGMENTED_HEADER_TOTAL_SIZE := CHANNELED_HEADER_SIZE + FRAGMENT_HEADER_SIZE
  const MAX_FRAGMENTS := 65535

  function PacketSize(p: Packet): int {
    (if p.fragment.Part? then FRAGMENTED_HEADER_TOTAL_SIZE else CHANNELED_HEADER_SIZE) + |p.body|
  }

  // ---- Splitting --------------------------------------------------------------------------------

  /** A message given to a reliable channel, with the MTU and the fragment id it is sent under. */
  datatype Message = Message(id: uint16, mtu: int, data: seq<byte>)

  predicate NeedsSplit(m: Message) {
    |m.data| + CHANNELED_HEADER_SIZE > m.mtu
  }

  predicate Usable(mtu: int) {
    mtu > FRAGMENTED_HEADER_TOTAL_SIZE
  }

  function PartSize(m: Message): int {
    m.mtu - FRAGMENTED_HEADER_TOTAL_SIZE
  }

  function Total(m: Message): int
    requires Usable(m.mtu)
  {
    |m.data| / PartSize(m) + (if |m.data| % PartSize(m) == 0 then 0 else 1)
  }

  // The message is accepted: it is sent whole, or in fewer than 65535 fragments.
  predicate Sendable(m: Message) {
    Usable(m.mtu) && (NeedsSplit(m) ==> Total(m) < MAX_FRAGMENTS)
  }

  predicate Splits(m: Message) {
    Sendable(m) && NeedsSplit(m)
  }

  function Slice(m: Message, i: int): seq<byte>
    requires Usable(m.mtu) && 0 <= i < Total(m)
  {
    SliceInRange(m, i);
    m.data[i * PartSize(m)..if i == Total(m) - 1 then |m.data| else (i + 1) * PartSize(m)]
  }

  function FragmentOf(m: Message, i: int, channel: uint8): Packet
    requires Splits(m) && 0 <= i < Total(m)
  {
    Packet(channel, Part(m.id, i, Total(m)), Slice(m, i))
  }

  function PacketsOf(m: Message, channel: uint8): seq<Packet>
    requires Sendable(m)
  {
    if NeedsSplit(m) then seq(Total(m), i requires 0 <= i < Total(m) => FragmentOf(m, i, channel))
    else [Packet(channel, Whole, m.data)]
  }

  /** The number of fragments is the ceiling of size / part size. */
  lemma TotalIsCeiling(m: Message)
    requires Usable(m.mtu)
    ensures Total(m) * PartSize(m) >= |m.data|
    ensures |m.data| > 0 ==> (Total(m) - 1) * PartSize(m) < |m.data|
    ensures |m.data| > 0 ==> Total(m) >= 1
    ensures NeedsSplit(m) ==> |m.data| > 0 && Total(m) >= 2
  {
    var d := PartSize(m);
    var q, r := |m.data| / d, |m.data| % d;
    assert |m.data| == q * d + r;
    if NeedsSplit(m) {
      assert |m.data| > d;
      assert q >= 1;
      if q == 1 { assert r == |m.data| - d > 0; }
    }
    if r == 0 { assert (q - 1) * d == q * d - d; } else { assert (q + 1) * d == q * d + d; }
  }

  /** What can be sent, and what is split, by size alone: one packet takes up to the MTU less 4 bytes, and 65534 fragments of up
      to the MTU less 10. */
  lemma AcceptedBySize(m: Message)
    requires Usable(m.mtu)
    ensures Sendable(m) <==> |m.data| <= m.mtu - 4 || |m.data| <= 65534 * (m.mtu - 10)
    ensures Sendable(m) ==> (|PacketsOf(m, 0)| == 1 <==> |m.data| <= m.mtu - 4)
  {
    TotalIsCeiling(m);
    var d := PartSize(m);
    if Total(m) <= 65534 { Scale(Total(m), 65534, d); } else { Scale(65534, Total(m) - 1, d); }
  }

  lemma SliceInRange(m: Message, i: int)
    requires Usable(m.mtu) && 0 <= i < Total(m)
    ensures 0 <= i * PartSize(m) <= (if i == Total(m) - 1 then |m.data| else (i + 1) * PartSize(m)) <= |m.data|
    ensures i < Total(m) - 1 ==> (i + 1) * PartSize(m) == i * PartSize(m) + PartSize(m)
  {
    TotalIsCeiling(m);
    var d := PartSize(m);
    Scale(i, Total(m) - 1, d);
    if i < Total(m) - 1 { Scale(i + 1, Total(m) - 1, d); }
    assert (i + 1) * d == i * d + d;
  }

  lemma Scale(a: int, b: int, d: int)
    requires 0 <= a <= b && d >= 0
    ensures 0 <= a * d <= b * d
  {}

  function Bodies(ps: seq<Packet>): seq<byte> {
    if ps == [] then [] else ps[0].body + Bodies(ps[1..])
  }

  lemma {:induction false} BodiesAppend(ps: seq<Packet>, p: Packet)
    ensures Bodies(ps + [p]) == Bodies(ps) + p.body
  {
    if ps == [] {
      assert Bodies([p]) == p.body + Bodies([]);
    } else {
      BodiesAppend(ps[1..], p);
      assert (ps + [p])[1..] == ps[1..] + [p];
    }
  }

  lemma {:induction false} BodiesOfPrefix(m: Message, channel: uint8, k: int)
    requires Splits(m) && 0 <= k <= Total(m)
    ensures var end := if k == Total(m) then |m.data| else k * PartSize(m);
            0 <= end <= |m.data| && Bodies(PacketsOf(m, channel)[..k]) == m.data[..end]
    decreases k
  {
    TotalIsCeiling(m);
    var ps := PacketsOf(m, channel);
    if k > 0 {
      BodiesOfPrefix(m, channel, k - 1);
      SliceInRange(m, k - 1);
      assert ps[..k] == ps[..k - 1] + [ps[k - 1]];
      BodiesAppend(ps[..k - 1], ps[k - 1]);
    }
  }

  /** Every fragment fits the MTU, all but the last fill it, and together they carry the message. */
  lemma SplitExact(m: Message, channel: uint8)
    requires Splits(m)
    ensures var ps := PacketsOf(m, channel);
            && |ps| == Total(m)
            && (forall i :: 0 <= i < |ps| ==> FRAGMENTED_HEADER_TOTAL_SIZE < PacketSize(ps[i]) <= m.mtu)
            && (forall i :: 0 <= i < |ps| - 1 ==> PacketSize(ps[i]) == m.mtu)
            && Bodies(ps) == m.data
  {
    var ps := PacketsOf(m, channel);
    TotalIsCeiling(m);
    forall i | 0 <= i < |ps|
      ensures FRAGMENTED_HEADER_TOTAL_SIZE < PacketSize(ps[i]) <= m.mtu && (i < |ps| - 1 ==> PacketSize(ps[i]) == m.mtu)
    {
      SliceInRange(m, i);
      assert Total(m) * PartSize(m) == (Total(m) - 1) * PartSize(m) + PartSize(m);
    }
    BodiesOfPrefix(m, channel, Total(m));
    assert ps[..Total(m)] == ps;
  }

  datatype DeliveryMethod = ReliableUnordered | Sequenced | ReliableOrdered | ReliableSequenced | Unreliable

  datatype SendOutcome =
    | Ignored
    | NoSuchPlace(channel: uint8)   // the index is past the channels there are: the implementation reads out of bounds
    | SizeExceeded(maximum: int)
    | TooManyFragments(total: int)
    | ToUnreliableQueue(data: seq<byte>)
    | ToChannel(channel: uint8, packets: seq<Packet>)

  /** The channel of a user channel number and a delivery method, cut to a byte as the implementation does. */
  function ChannelFor(channelNumber: uint8, delivery: DeliveryMethod): uint8
    requires !delivery.Unreliable?
  {
    (channelNumber * CHANNEL_TYPE_COUNT
     + match delivery case ReliableUnordered => 0 case Sequenced => 1 case ReliableOrdered => 2 case _ => 3) % 0x100
  }

  /** The guard lets a channel number through if it is less than the number of places, but each user channel takes four of
      them: so it names a place if and only if, cut to a byte's worth of fours, it is less than the number of user channels. */
  lemma PlaceExactly(users: nat, channelNumber: uint8, delivery: DeliveryMethod)
    requires !delivery.Unreliable?
    ensures ChannelFor(channelNumber, delivery) < CHANNEL_TYPE_COUNT * users <==> channelNumber % 64 < users
  {
    var kind := ChannelFor(0, delivery);
    ChannelWraps(channelNumber, kind);
    assert ChannelFor(channelNumber, delivery) == 4 * (channelNumber % 64) + kind;
  }

  // The product is cut to a byte, so numbers that are 64 apart name the same channel.
  lemma ChannelWraps(c: uint8, kind: int)
    requires 0 <= kind < CHANNEL_TYPE_COUNT
    ensures (c * CHANNEL_TYPE_COUNT + kind) % 0x100 == CHANNEL_TYPE_COUNT * (c % 64) + kind
  {
    if c < 64 {
    } else if c < 128 {
      assert c % 64 == c - 64;
    } else if c < 192 {
      assert c % 64 == c - 128;
    } else {
      assert c % 64 == c - 192;
    }
  }

  /** With the one user channel there is unless told otherwise, channel number 1 passes the guard and names place 6 of 4. */
  lemma SecondChannelHasNoPlace()
    ensures var places := CHANNEL_TYPE_COUNT * 1; 1 < places <= ChannelFor(1, ReliableOrdered) == 6
  {}

  /** The guard on arriving packets lets through exactly one id that names no place: the number of places. */
  lemma GuardLetsOneThrough(id: uint8, places: nat)
    ensures !(id > places) && !(id < places) <==> id == places
  {}

  /** What the application is told, and what the channel is given: of a peer with `places` places for channels. */
  predicate Answers(outcome: SendOutcome, connected: bool, places: nat, m: Message, channelNumber: uint8,
      delivery: DeliveryMethod)
    requires Usable(m.mtu)
  {
    && (outcome == Ignored <==> !connected || channelNumber >= places)
    && (outcome.NoSuchPlace? <==>
          outcome != Ignored && !delivery.Unreliable? && ChannelFor(channelNumber, delivery) >= places)
    && (outcome.NoSuchPlace? ==> outcome.channel == ChannelFor(channelNumber, delivery))
    && (outcome != Ignored && delivery.Unreliable? ==>
          outcome == if |m.data| + 1 > m.mtu then SizeExceeded(m.mtu - 1) else ToUnreliableQueue(m.data))
    && (outcome != Ignored && !outcome.NoSuchPlace? && (delivery.Sequenced? || delivery.ReliableSequenced?) ==>
          outcome == if NeedsSplit(m) then SizeExceeded(m.mtu - CHANNELED_HEADER_SIZE)
                     else ToChannel(ChannelFor(channelNumber, delivery), [Packet(0, Whole, m.data)]))
    && (outcome != Ignored && !outcome.NoSuchPlace? && (delivery.ReliableOrdered? || delivery.ReliableUnordered?) ==>
          outcome == if Sendable(m) then ToChannel(ChannelFor(channelNumber, delivery), PacketsOf(m, 0))
                     else TooManyFragments(Total(m)))
  }

  /** The sending side of a peer as far as fragment ids are concerned. */
  class FragmentSender {
    const channelCount: nat
    var connected: bool
    var mtu: int
    var fragmentId: int // a 32-bit counter, of which packets carry the low 16 bits

    constructor (mtu: int, channelCount: nat)
      ensures connected && this.mtu == mtu && fragmentId == 0 && this.channelCount == channelCount
    {
      this.channelCount := channelCount;
      connected, this.mtu, fragmentId := true, mtu, 0;
    }

    /** send_internal. The fragment loop cuts the data as module-level `PacketsOf` says. */
    method SendInternal(data: seq<byte>, channelNumber: uint8, delivery: DeliveryMethod) returns (outcome: SendOutcome)
      requires Usable(mtu) && fragmentId >= 0
      modifies this`fragmentId
      ensures Answers(outcome, connected, channelCount, Message((old(fragmentId) + 1) % 0x1_0000, mtu, data),
                      channelNumber, delivery)
      ensures fragmentId == old(fragmentId) + (if outcome.ToChannel? && |outcome.packets| > 1 then 1 else 0)
    {
      if !connected || channelNumber >= channelCount { return Ignored; }
      if !delivery.Unreliable? && ChannelFor(channelNumber, delivery) >= channelCount {
        return NoSuchPlace(ChannelFor(channelNumber, delivery));
      }
      ghost var m := Message((fragmentId + 1) % 0x1_0000, mtu, data);
      TotalIsCeiling(m);
      var headerSize := if delivery.Unreliable? then 1 else CHANNELED_HEADER_SIZE;
      if |data| + headerSize > mtu {
        if !delivery.ReliableOrdered? && !delivery.ReliableUnordered? {
          return SizeExceeded(mtu - headerSize);
        }
        var packetDataSize := mtu - headerSize - FRAGMENT_HEADER_SIZE;
        var totalPackets := |data| / packetDataSize + (if |data| % packetDataSize == 0 then 0 else 1);
        if totalPackets >= MAX_FRAGMENTS {
          return TooManyFragments(totalPackets);
        }
        fragmentId := fragmentId + 1;
        var packets := CutAll(data, packetDataSize, totalPackets, fragmentId % 0x1_0000, m);
        return ToChannel(ChannelFor(channelNumber, delivery), packets);
      }
      if delivery.Unreliable? {
        return ToUnreliableQueue(data);
      }
      return ToChannel(ChannelFor(channelNumber, delivery), [Packet(0, Whole, data)]);
    }

    /** The fragment loop: `size` counts down what is left while `partIdx` gives the place to copy from. */
    method CutAll(data: seq<byte>, packetDataSize: int, totalPackets: uint16, id: uint16, ghost m: Message)
        returns (packets: seq<Packet>)
      requires Splits(m) && m.id == id && m.data == data && packetDataSize == PartSize(m) && totalPackets == Total(m)
      ensures packets == PacketsOf(m, 0)
    {
      TotalIsCeiling(m);
      packets := [];
      var size := |data|;
      var partIdx: uint16 := 0;
      while partIdx < totalPackets
        invariant partIdx <= totalPackets && packets == PacketsOf(m, 0)[..partIdx]
        invariant partIdx < totalPackets ==> size == |data| - partIdx * packetDataSize
      {
        SliceInRange(m, partIdx);
        if partIdx == totalPackets - 1 {
          assert totalPackets * packetDataSize == (totalPackets - 1) * packetDataSize + packetDataSize;
        }
        var sendLength := if size > packetDataSize then packetDataSize else size;
        var at := partIdx * packetDataSize;
        LastOrFull(m, partIdx, size);
        packets := packets + [Packet(0, Part(id, partIdx, totalPackets), data[at..at + sendLength])];
        size := size - sendLength;
        partIdx := partIdx + 1;
      }
    }
  }

  lemma LastOrFull(m: Message, i: int, size: int)
    requires Splits(m) && 0 <= i < Total(m) && size == |m.data| - i * PartSize(m)
    ensures var length := if size > PartSize(m) then PartSize(m) else size;
            && 0 <= i * PartSize(m) <= i * PartSize(m) + length <= |m.data|
            && m.data[i * PartSize(m)..i * PartSize(m) + length] == Slice(m, i)
            && (i < Total(m) - 1 ==> size - length == |m.data| - (i + 1) * PartSize(m))
  {
    TotalIsCeiling(m);
    SliceInRange(m, i);
    var d := PartSize(m);
    assert Total(m) * d == (Total(m) - 1) * d + d;
    if i < Total(m) - 1 {
      SliceInRange(m, i + 1);
      Scale(i + 1, Total(m) - 1, d);
    }
  }
}
