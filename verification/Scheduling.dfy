/** The peer's send queue: which channels are waiting for a turn to send, and who gets one in an update. */
module Scheduling {
  import opened Sequence
  import opened Packets
  import opened Bitmap
  import opened ReliableSpec
  import opened NetReliableChannel
  import opened Sequenced
  import P = PeerTable
  import opened Fragments

  datatype AnyChannel = Reliable(r: ReliableChannel) | Ordering(q: SequencedChannel)

  ghost function Footprint(c: AnyChannel): set<object> {
    match c
    case Reliable(r) => {r, r.acks, r.pending, r.received, r.earlyReceived}
    case Ordering(q) => {q}
  }

  /** A channel's two halves, as the specifications of its class see them. */
  datatype ChannelState =
    | ReliableState(rcv: Receiver, snd: Sender)
    | SequencedState(seqRcv: SeqReceiver, seqSnd: SeqSender)

  /** Which resend delays have elapsed: of which pending slots, and of the sequenced channel's last packet. */
  datatype Elapsed = Elapsed(slots: set<int>, last: bool)

  ghost function StateOf(c: AnyChannel): ChannelState
    reads Footprint(c)
  {
    match c
    case Reliable(r) => ReliableState(r.rcv, r.snd)
    case Ordering(q) => SequencedState(q.rcv, q.snd)
  }

  ghost predicate ChannelValid(c: AnyChannel)
    reads Footprint(c)
  {
    match c
    case Reliable(r) => r.Valid()
    case Ordering(q) => q.Valid()
  }

  predicate Flagged(c: AnyChannel)
    reads Footprint(c)
  {
    match c
    case Reliable(r) => r.isAddedToSendQueue
    case Ordering(q) => q.isAddedToSendQueue
  }

  ghost predicate Is(c: AnyChannel, s: ChannelState, flag: bool)
    reads Footprint(c)
  {
    ChannelValid(c) && StateOf(c) == s && Flagged(c) == flag
  }

  /** What must be sent whatever has elapsed: queued packets and acknowledgements. */
  predicate Owes(s: ChannelState) {
    match s
    case ReliableState(rcv, snd) => snd.queue != [] || rcv.ackDue
    case SequencedState(rcv, snd) => snd.queue != [] || rcv.ackDue
  }

  predicate OwesAck(s: ChannelState) {
    match s
    case ReliableState(rcv, _) => rcv.ackDue
    case SequencedState(rcv, _) => rcv.ackDue
  }

  // One turn to send, and whether the channel asks for another.
  function Turn(s: ChannelState, due: Elapsed): ChannelState {
    match s
    case ReliableState(rcv, snd) => ReliableState(rcv.(ackDue := false), Transmit(snd, due.slots))
    case SequencedState(rcv, snd) => SequencedState(rcv.(ackDue := false), SeqTransmit(snd))
  }

  predicate Again(s: ChannelState, due: Elapsed) {
    match s
    case ReliableState(_, snd) => Transmitted(snd, due.slots) != [] || Transmit(snd, due.slots).queue != []
    case SequencedState(_, snd) => SeqTransmit(snd).last.Some?
  }

  function Enqueued(s: ChannelState, p: Packet): ChannelState {
    match s
    case ReliableState(rcv, snd) => ReliableState(rcv, snd.(queue := snd.queue + [p]))
    case SequencedState(rcv, snd) => SequencedState(rcv, snd.(queue := snd.queue + [p]))
  }

  /** create_channel: what a channel of this index is when it is made. */
  function Fresh(idx: uint8): ChannelState {
    match idx % CHANNEL_TYPE_COUNT
    case 0 => ReliableState(Initial(false), Silent(idx))
    case 1 => SequencedState(SeqStart(false, idx, true).rcv, SeqStart(false, idx, true).snd)
    case 2 => ReliableState(Initial(true), Silent(idx))
    case _ => SequencedState(SeqStart(true, idx, true).rcv, SeqStart(true, idx, true).snd)
  }

  /** A datagram comes in. Its sequence number is read near the number the channel is at. */
  function Arrived(s: ChannelState, d: Datagram): ChannelState {
    match s
    case ReliableState(rcv, snd) =>
      (match d
       case Channeled(sequence, p) =>
         ReliableState(if sequence < MAX_SEQUENCE then Receive(rcv, Unwrap(sequence, rcv.r), p) else rcv, snd)
       case Ack(sequence, _, data) =>
         if |data| != ACK_PACKET_SIZE || sequence >= MAX_SEQUENCE then s
         else
           var start := Unwrap(sequence, snd.lws);
           ReliableState(rcv, ProcessAck(snd, start, Reported(data, start))))
    case SequencedState(rcv, snd) =>
      (match d
       case Channeled(sequence, p) =>
         if p.fragment.Part? then s
         else if sequence < MAX_SEQUENCE then SequencedState(SeqReceive(rcv, Unwrap(sequence, rcv.r), p), snd)
         else SequencedState(rcv.(ackDue := rcv.ackDue || rcv.reliable), snd)
       case Ack(sequence, _, _) =>
         if snd.last.None? || sequence >= MAX_SEQUENCE then s
         else SequencedState(rcv, SeqAck(snd, Unwrap(sequence, snd.last.value))))
  }

  /** Whether the datagram makes the channel owe an acknowledgement, and so join the send queue. */
  predicate Wakes(s: ChannelState, d: Datagram) {
    match s
    case ReliableState(rcv, _) => d.Channeled? && d.sequence < MAX_SEQUENCE && Admits(rcv, Unwrap(d.sequence, rcv.r))
    case SequencedState(_, snd) => d.Channeled? && !d.packet.fragment.Part? && snd.reliable
  }

  /** The channel a datagram is for: an acknowledgement, too, goes by the channel id it carries. */
  function ChannelOf(d: Datagram): uint8 {
    match d case Channeled(_, p) => p.channel case Ack(_, channel, _) => channel
  }

  /** What a turn of the channel in state `s` sends, in order: the acknowledgement it owes, and each packet under its number. */
  ghost predicate Emission(s: ChannelState, due: Elapsed, out: seq<Datagram>) {
    match s
    case ReliableState(rcv, snd) =>
      var ns, t := Transmitted(snd, due.slots), Transmit(snd, due.slots);
      && InRange(ns, |t.packets|)
      && if rcv.ackDue then out != [] && IsAckOf(out[0], rcv.(ackDue := false), snd.id) && out[1..] == Wire(t, ns)
         else out == Wire(t, ns)
    case SequencedState(rcv, snd) =>
      var ns, t := SeqTransmitted(snd, due.last), SeqTransmit(snd);
      && (forall i :: 0 <= i < |ns| ==> 1 <= ns[i] <= |t.sent|)
      && out == SeqWire(t.sent, ns) + if rcv.ackDue then [Ack(Wrap(rcv.r), ACK_CHANNEL, [])] else []
  }

  function LogOf(s: ChannelState): seq<Delivery> {
    match s case ReliableState(rcv, _) => rcv.log case SequencedState(rcv, _) => rcv.log
  }

  /** The channel that a user channel number and a delivery method name is of that method's kind, and belongs to that user
      channel. */
  lemma ChannelIsOfMethod(channelNumber: uint8, delivery: DeliveryMethod)
    requires !delivery.Unreliable?
    ensures var i := ChannelFor(channelNumber, delivery);
            var s := Fresh(i);
            && i / CHANNEL_TYPE_COUNT == channelNumber % 64
            && match delivery
               case ReliableUnordered => s.ReliableState? && !s.rcv.ordered && s.snd.id == i
               case Sequenced => s.SequencedState? && !s.seqRcv.reliable && !s.seqSnd.reliable && s.seqSnd.id == i
               case ReliableOrdered => s.ReliableState? && s.rcv.ordered && s.snd.id == i
               case ReliableSequenced => s.SequencedState? && s.seqRcv.reliable && s.seqSnd.reliable && s.seqSnd.id == i
  {
    ChannelWraps(channelNumber, ChannelFor(0, delivery));
  }

  // ---- A peer's channels ------------------------------------------------------------------------

  /** The channels made so far, and those waiting to send. */
  datatype PeerState = PeerState(channels: seq<Option<ChannelState>>, queue: seq<int>)

  function StateAt(p: PeerState, i: uint8): ChannelState
    requires i < |p.channels|
  {
    if p.channels[i].Some? then p.channels[i].value else Fresh(i)
  }

  /** The channel is made, if it was not there. */
  function Made(p: PeerState, i: uint8): PeerState
    requires i < |p.channels|
  {
    p.(channels := p.channels[i := Some(StateAt(p, i))])
  }

  function Joined(queue: seq<int>, i: int): seq<int> {
    if i in queue then queue else queue + [i]
  }

  /** The application sends a packet through channel `i`. */
  function Given(p: PeerState, i: uint8, packet: Packet): PeerState
    requires i < |p.channels|
  {
    PeerState(p.channels[i := Some(Enqueued(StateAt(p, i), packet))], Joined(p.queue, i))
  }

  /** A datagram arrives. Only a numbered packet makes a channel. */
  function Heard(p: PeerState, d: Datagram): PeerState {
    var i := ChannelOf(d);
    if i >= |p.channels| || (d.Ack? && p.channels[i].None?) then p
    else
      PeerState(p.channels[i := Some(Arrived(StateAt(p, i), d))],
                if Wakes(StateAt(p, i), d) then Joined(p.queue, i) else p.queue)
  }

  /** An update: one turn for each channel that waits. */
  function Updated(p: PeerState, due: seq<Elapsed>): PeerState
    requires |due| == |p.channels|
  {
    PeerState(seq(|p.channels|, i requires 0 <= i < |p.channels| =>
                if i in p.queue then Turned(p.channels[i], due[i]) else p.channels[i]),
              Askers(p.queue, p.channels, due))
  }

  /** What an update sends: `turns` are what the waiting channels do, in the order of the queue. */
  ghost predicate Emissions(p: PeerState, due: seq<Elapsed>, turns: seq<seq<Datagram>>)
    requires |due| == |p.channels|
  {
    && |turns| == |p.queue|
    && forall k :: 0 <= k < |turns| ==> EmissionAt(p, due, k, turns[k])
  }

  ghost predicate EmissionAt(p: PeerState, due: seq<Elapsed>, k: int, out: seq<Datagram>)
    requires |due| == |p.channels| && 0 <= k < |p.queue|
  {
    var i := p.queue[k];
    0 <= i < |p.channels| && p.channels[i].Some? && Emission(p.channels[i].value, due[i], out)
  }

  /** A datagram concerns the channel whose id it carries and no other; only a numbered packet makes that channel if it is not
      there; and it takes its place at the end of the queue, once, exactly if the datagram wakes it. */
  lemma HeardExactly(p: PeerState, d: Datagram)
    ensures var q, i := Heard(p, d), ChannelOf(d);
            && |q.channels| == |p.channels|
            && (forall j :: 0 <= j < |p.channels| && j != i ==> q.channels[j] == p.channels[j])
            && (i < |p.channels| ==> (q.channels[i].Some? <==> p.channels[i].Some? || d.Channeled?))
            && p.queue <= q.queue && |q.queue| <= |p.queue| + 1
            && (forall j :: j in q.queue <==> j in p.queue || (j == i < |p.channels| && Wakes(StateAt(p, i), d)))
  {
    assert d.Ack? ==> forall s: ChannelState :: !Wakes(s, d);
  }

  function Quiet(s: ChannelState): ChannelState {
    match s
    case ReliableState(rcv, snd) => ReliableState(rcv.(ackDue := false), snd)
    case SequencedState(rcv, snd) => SequencedState(rcv.(ackDue := false), snd)
  }

  /** A datagram wakes a channel exactly if it makes it owe an acknowledgement. */
  lemma WakesExactly(s: ChannelState, d: Datagram)
    requires s.ReliableState? ==> ReceiverInv(s.rcv)
    requires s.SequencedState? ==> s.seqRcv.reliable == s.seqSnd.reliable
    ensures Wakes(s, d) <==> OwesAck(Arrived(Quiet(s), d))
  {
    if s.ReliableState? && d.Channeled? && d.sequence < MAX_SEQUENCE {
      AckDueIrrelevant(s.rcv);
      ReceiveGuard(Quiet(s).rcv, Unwrap(d.sequence, s.rcv.r), d.packet);
    }
  }

  /** What the application gives goes to the end of its channel's queue, and to no other channel; the channel takes its place at
      the end of the send queue, once. */
  lemma GivenExactly(p: PeerState, i: uint8, packet: Packet)
    requires i < |p.channels|
    ensures var q := Given(p, i, packet);
            && (forall j :: 0 <= j < |p.channels| && j != i ==> q.channels[j] == p.channels[j])
            && |q.channels| == |p.channels| && q.channels[i].Some?
            && QueueOf(q.channels[i].value) == QueueOf(StateAt(p, i)) + [packet]
            && LogOf(q.channels[i].value) == LogOf(StateAt(p, i))
            && p.queue <= q.queue && |q.queue| <= |p.queue| + 1 && (forall j :: j in q.queue <==> j in p.queue || j == i)
  {}

  function QueueOf(s: ChannelState): seq<Packet> {
    match s case ReliableState(_, snd) => snd.queue case SequencedState(_, snd) => snd.queue
  }

  // ---- Channels of either kind ------------------------------------------------------------------

  method MakeChannel(idx: uint8) returns (c: AnyChannel)
    ensures fresh(Footprint(c)) && ChannelValid(c) && !Flagged(c) && StateOf(c) == Fresh(idx)
  {
    match idx % CHANNEL_TYPE_COUNT {
      case 0 =>
        var r := new ReliableChannel(false, idx);
        c := Reliable(r);
      case 1 =>
        var q := new SequencedChannel(false, idx);
        c := Ordering(q);
      case 2 =>
        var r := new ReliableChannel(true, idx);
        c := Reliable(r);
      case _ =>
        var q := new SequencedChannel(true, idx);
        c := Ordering(q);
    }
  }

  method Enqueue(c: AnyChannel, p: Packet)
    requires ChannelValid(c)
    modifies Footprint(c)
    ensures ChannelValid(c) && Flagged(c) && StateOf(c) == Enqueued(old(StateOf(c)), p)
  {
    match c {
      case Reliable(r) => r.AddToQueue(p);
      case Ordering(q) => q.AddToQueue(p);
    }
  }

  method Hear(c: AnyChannel, d: Datagram) returns (delivered: seq<Packet>)
    requires ChannelValid(c)
    modifies Footprint(c)
    ensures ChannelValid(c) && StateOf(c) == Arrived(old(StateOf(c)), d)
    ensures Flagged(c) == (old(Flagged(c)) || Wakes(old(StateOf(c)), d))
    ensures Payloads(LogOf(StateOf(c))) == Payloads(LogOf(old(StateOf(c)))) + delivered
  {
    match c {
      case Reliable(r) =>
        var taken, ps := r.ProcessPacket(d);
        delivered := ps;
      case Ordering(q) =>
        var taken, ps := q.ProcessPacket(d);
        delivered := ps;
    }
  }

  method SendAndCheckQueue(c: AnyChannel, due: Elapsed) returns (again: bool, out: seq<Datagram>)
    requires ChannelValid(c) && Flagged(c)
    modifies Footprint(c)
    ensures ChannelValid(c) && StateOf(c) == Turn(old(StateOf(c)), due)
    ensures again == Again(old(StateOf(c)), due) == Flagged(c)
    ensures Emission(old(StateOf(c)), due, out)
  {
    match c {
      case Reliable(r) => again, out := r.SendAndCheckQueue(due.slots);
      case Ordering(q) => again, out := q.SendAndCheckQueue(due.last);
    }
  }

  lemma OwesIsFlagged(c: AnyChannel)
    requires ChannelValid(c) && Owes(StateOf(c))
    ensures Flagged(c)
  {}

  /** The channels of a peer and the queue of those waiting to send, by index. */
  class PeerChannels {
    var channels: seq<Option<AnyChannel>>
    var sendQueue: seq<int>

    ghost var states: seq<Option<ChannelState>> // what each channel is now
    ghost var flagged: set<int>                 // the channels whose flag is set

    ghost predicate Present(i: int)
      reads this`channels
    {
      0 <= i < |channels| && channels[i].Some?
    }

    ghost function Repr(): set<object>
      reads this`channels
    {
      set i, o | 0 <= i < |channels| && channels[i].Some? && o in Footprint(channels[i].value) :: o
    }

    ghost predicate Apart()
      reads this`channels
    {
      && (forall i :: Present(i) ==> this !in Footprint(channels[i].value))
      && forall i, j :: 0 <= i < j < |channels| && Present(i) && Present(j) ==>
           Footprint(channels[i].value) !! Footprint(channels[j].value)
    }

    ghost predicate TiedAt(i: int)
      requires Present(i) && |states| == |channels|
      reads this`channels, this`states, this`flagged, Footprint(channels[i].value)
    {
      states[i].Some? && Is(channels[i].value, states[i].value, i in flagged)
    }

    ghost predicate Tied()
      reads this`channels, this`states, this`flagged, Repr()
    {
      && Apart() && |states| == |channels|
      && (forall i :: 0 <= i < |channels| ==> (channels[i].None? <==> states[i].None?))
      && (forall i :: Present(i) ==> TiedAt(i))
      && (forall i :: i in flagged ==> Present(i))
    }

    /** A channel waits in the queue, once, exactly when its flag is set. */
    ghost predicate Scheduled()
      reads this`sendQueue, this`flagged
    {
      P.NoDuplicates(sendQueue) && forall i :: i in sendQueue <==> i in flagged
    }

    ghost predicate Valid()
      reads this, Repr()
    {
      Tied() && Scheduled()
    }

    constructor (count: nat)
      ensures Valid() && sendQueue == [] && states == seq(count, _ => None)
    {
      channels, sendQueue := seq(count, _ => None), [];
      states, flagged := seq(count, _ => None), {};
    }

    // After channel `i` has changed: what is known of the others.
    ghost predicate TiedBut(i: int)
      reads this`channels, this`states, this`flagged, Repr()
    {
      && Apart() && |states| == |channels| && Present(i)
      && (forall j :: 0 <= j < |channels| ==> (channels[j].None? <==> states[j].None?))
      && (forall j :: Present(j) && j != i ==> TiedAt(j))
      && (forall j :: j in flagged ==> Present(j))
      && ChannelValid(channels[i].value)
    }

    // A change within channel `i` leaves the others as they were.
    twostate lemma OthersKept(i: int)
      requires old(Tied()) && unchanged(this`channels) && unchanged(this`states) && unchanged(this`flagged) && Present(i)
      requires forall o :: o in Repr() && o !in Footprint(channels[i].value) ==> unchanged(o)
      requires ChannelValid(channels[i].value)
      ensures TiedBut(i)
    {
      forall j | Present(j) && j != i
        ensures TiedAt(j)
      {
        assert old(TiedAt(j));
        assert Footprint(channels[j].value) !! Footprint(channels[i].value);
        assert forall o :: o in Footprint(channels[j].value) ==> o in Repr() && unchanged(o);
      }
    }

    ghost method Note(i: int)
      requires TiedBut(i)
      modifies this`states, this`flagged
      ensures Tied()
      ensures states == old(states)[i := Some(StateOf(channels[i].value))]
      ensures flagged == if Flagged(channels[i].value) then old(flagged) + {i} else old(flagged) - {i}
    {
      states := states[i := Some(StateOf(channels[i].value))];
      flagged := if Flagged(channels[i].value) then flagged + {i} else flagged - {i};
      forall j | Present(j) && j != i
        ensures TiedAt(j)
      {
        assert this !in Footprint(channels[j].value) && old(TiedAt(j));
      }
    }

    // The channel is given a packet, and has not joined the queue yet.
    method GiveTo(i: int, p: Packet) returns (was: bool)
      requires Tied() && Present(i)
      modifies this`states, this`flagged, Repr()
      ensures Tied() && was == (i in old(flagged)) && flagged == old(flagged) + {i}
      ensures states == old(states)[i := Some(Enqueued(old(states)[i].value, p))]
    {
      var c := channels[i].value;
      assert TiedAt(i);
      was := Flagged(c);
      Enqueue(c, p);
      OthersKept(i);
      Note(i);
    }

    /** add_to_queue of a channel: the packet waits, and the channel waits, if it did not already. */
    method AddToQueue(i: int, p: Packet)
      requires Valid() && Present(i)
      modifies this`sendQueue, this`states, this`flagged, Repr()
      ensures Valid() && i in sendQueue
      ensures states == old(states)[i := Some(Enqueued(old(states)[i].value, p))]
      ensures sendQueue == Joined(old(sendQueue), i)
    {
      var was := GiveTo(i, p);
      if !was {
        sendQueue := sendQueue + [i];
      }
    }

    method Install(i: int, c: AnyChannel)
      requires Tied() && 0 <= i < |channels| && !Present(i)
      requires ChannelValid(c) && !Flagged(c) && this !in Footprint(c) && Footprint(c) !! Repr()
      modifies this`channels, this`states
      ensures Tied() && channels == old(channels)[i := Some(c)] && Repr() <= old(Repr()) + Footprint(c)
      ensures states == old(states)[i := Some(StateOf(c))]
    {
      assert i !in flagged;
      forall j | Present(j)
        ensures this !in Footprint(channels[j].value) && Footprint(channels[j].value) !! Footprint(c)
      {
        assert Footprint(channels[j].value) <= Repr();
      }
      channels := channels[i := Some(c)];
      states := states[i := Some(StateOf(c))];
      forall j | Present(j) && j != i
        ensures TiedAt(j)
      {
        assert old(Present(j)) && old(TiedAt(j));
        assert channels[j] == old(channels[j]) && states[j] == old(states[j]);
      }
      assert TiedAt(i);
    }

    ghost function View(): PeerState
      reads this
    {
      PeerState(states, sendQueue)
    }

    twostate lemma StillValid()
      requires old(Valid()) && unchanged(this) && forall o :: o in Repr() ==> unchanged(o)
      ensures Valid()
    {
      forall j | Present(j)
        ensures TiedAt(j)
      {
        assert old(TiedAt(j)) && Footprint(channels[j].value) <= Repr();
      }
    }

    // Another peer, which may have made channels meanwhile, still shares nothing with this one.
    twostate lemma KeptApart(other: PeerChannels)
      requires old(Valid()) && unchanged(this) && forall o :: o in Repr() ==> unchanged(o)
      requires old(other.Repr() !! Repr()) && fresh(other.Repr() - old(other.Repr()))
      ensures Valid() && View() == old(View()) && other.Repr() !! Repr()
    {
      StillValid();
      assert Repr() == old(Repr());
      assert other.Repr() <= old(other.Repr()) + (other.Repr() - old(other.Repr()));
    }

    /** create_channel: a channel is made when it is first used. */
    method CreateChannel(i: uint8)
      requires Valid() && i < |channels|
      modifies this`channels, this`states
      ensures Valid() && Present(i) && fresh(Repr() - old(Repr()))
      ensures |channels| == |old(channels)|
      ensures states == if old(Present(i)) then old(states) else old(states)[i := Some(Fresh(i))]
    {
      if channels[i].Some? {
        return;
      }
      var c := MakeChannel(i);
      StillValid();
      Install(i, c);
    }

    /** The ACK and CHANNELED part of process_packet. The guard lets the id through that is one past the last channel's:
        `outside` says that the implementation reads out of bounds there, after which nothing is known of it. */
    method ProcessPacket(d: Datagram) returns (delivered: seq<Packet>, outside: bool)
      requires Valid()
      modifies this, Repr()
      ensures Valid() && View() == Heard(old(View()), d) && fresh(Repr() - old(Repr()))
      ensures outside <==> ChannelOf(d) == |channels|
      ensures if ChannelOf(d) < |channels| && (d.Channeled? || old(states)[ChannelOf(d)].Some?) then
                Payloads(LogOf(StateAt(View(), ChannelOf(d)))) == Payloads(LogOf(StateAt(old(View()), ChannelOf(d)))) + delivered
              else delivered == []
    {
      delivered, outside := [], false;
      var i := ChannelOf(d);
      if i > |channels| {
        return;
      }
      if i == |channels| {
        outside := true;
        return;
      }
      if channels[i].None? && d.Ack? {
        return;
      }
      CreateChannel(i);
      delivered := Deliver(i, d);
    }

    // The channel reads the datagram, and has not joined the queue yet.
    method HearAt(i: int, d: Datagram) returns (delivered: seq<Packet>, joins: bool)
      requires Tied() && Present(i)
      modifies this`states, this`flagged, Repr()
      ensures Tied() && states == old(states)[i := Some(Arrived(old(states)[i].value, d))]
      ensures flagged == if Wakes(old(states)[i].value, d) then old(flagged) + {i} else old(flagged)
      ensures joins == (i in flagged && i !in old(flagged))
      ensures Payloads(LogOf(states[i].value)) == Payloads(LogOf(old(states)[i].value)) + delivered
    {
      var c := channels[i].value;
      assert TiedAt(i);
      var was := Flagged(c);
      delivered := Hear(c, d);
      OthersKept(i);
      Note(i);
      joins := !was && Flagged(c);
    }

    method Deliver(i: int, d: Datagram) returns (delivered: seq<Packet>)
      requires Valid() && Present(i)
      modifies this`sendQueue, this`states, this`flagged, Repr()
      ensures Valid() && states == old(states)[i := Some(Arrived(old(states)[i].value, d))]
      ensures sendQueue == if Wakes(old(states)[i].value, d) then Joined(old(sendQueue), i) else old(sendQueue)
      ensures Payloads(LogOf(states[i].value)) == Payloads(LogOf(old(states)[i].value)) + delivered
    {
      var joins;
      delivered, joins := HearAt(i, d);
      if joins {
        sendQueue := sendQueue + [i];
      }
    }

    // The turn of a channel that has left the queue.
    method RunTurn(i: int, due: Elapsed) returns (again: bool, out: seq<Datagram>)
      requires Tied() && i in flagged
      modifies this`states, this`flagged, Repr()
      ensures Tied() && old(states)[i].Some?
      ensures states == old(states)[i := Some(Turn(old(states)[i].value, due))]
      ensures again == Again(old(states)[i].value, due)
      ensures Emission(old(states)[i].value, due, out)
      ensures flagged == if again then old(flagged) else old(flagged) - {i}
    {
      var c := channels[i].value;
      assert TiedAt(i);
      again, out := SendAndCheckQueue(c, due);
      OthersKept(i);
      Note(i);
    }

    /** The first channel of the queue takes its turn, and goes to the end of the queue if it asks for another. */
    method TakeTurn(due: Elapsed) returns (out: seq<Datagram>)
      requires Valid() && sendQueue != []
      modifies this`sendQueue, this`states, this`flagged, Repr()
      ensures Valid()
      ensures var i := old(sendQueue)[0];
              && 0 <= i < |old(states)| && old(states)[i].Some?
              && states == old(states)[i := Some(Turn(old(states)[i].value, due))]
              && sendQueue == old(sendQueue)[1..] + (if Again(old(states)[i].value, due) then [i] else [])
              && Emission(old(states)[i].value, due, out)
    {
      var i := sendQueue[0];
      FirstOfQueue(sendQueue);
      sendQueue := sendQueue[1..];
      var again;
      again, out := RunTurn(i, due);
      if again {
        sendQueue := sendQueue + [i];
      }
    }

    /** The channels' part of update: as many turns as there are channels waiting. Each of them gets exactly one, no other
        channel gets any, those that ask for another turn keep their order, and afterwards no acknowledgement is owed. */
    method Update(due: seq<Elapsed>) returns (turns: seq<seq<Datagram>>)
      requires Valid() && |due| == |channels|
      modifies this`sendQueue, this`states, this`flagged, Repr()
      ensures Valid() && View() == Updated(old(View()), due)
      ensures Emissions(old(View()), due, turns)
      ensures forall i :: 0 <= i < |states| && states[i].Some? ==> !OwesAck(states[i].value)
    {
      IdleOwesNothing();
      ghost var q, before := sendQueue, states;
      ghost var k := 0;
      var count := |sendQueue|;
      RotatedStart(q, before, due);
      turns := [];
      while count > 0
        invariant Valid() && |channels| == |due|
        invariant 0 <= k <= |q| && count == |q| - k == |q| - |turns|
        invariant Rotated(q, k, before, states, sendQueue, due)
        invariant forall j :: 0 <= j < k ==> EmissionAt(PeerState(before, q), due, j, turns[j])
      {
        count := count - 1;
        RotatedNext(q, k, before, states, sendQueue, due);
        var out := TakeTurn(due[sendQueue[0]]);
        turns := turns + [out];
        k := k + 1;
      }
      RotatedEnd(q, before, states, sendQueue, due);
      UpdatedIs(PeerState(before, q), View(), due);
    }

    lemma IdleOwesNothing()
      requires Valid()
      ensures forall i :: i in sendQueue ==> 0 <= i < |states|
      ensures forall i :: 0 <= i < |states| && states[i].Some? && i !in sendQueue ==> !OwesAck(states[i].value)
    {
      forall i | 0 <= i < |states| && states[i].Some? && OwesAck(states[i].value)
        ensures i in sendQueue
      {
        assert Present(i) && Owes(states[i].value);
        WhoOwesWaits(i);
      }
    }

    /** Channels that have something to send whatever has elapsed are always in the queue. */
    lemma WhoOwesWaits(i: int)
      requires Valid() && Present(i) && states[i].Some? && Owes(states[i].value)
      ensures i in sendQueue && multiset(sendQueue)[i] == 1
    {
      assert TiedAt(i);
      OwesIsFlagged(channels[i].value);
      OnceInQueue(sendQueue, i);
    }
  }

  lemma {:induction false} OnceInQueue(q: seq<int>, i: int)
    requires P.NoDuplicates(q) && i in q
    ensures multiset(q)[i] == 1
  {
    assert q == [q[0]] + q[1..];
    if q[0] == i {
      assert i !in q[1..];
    } else {
      assert P.NoDuplicates(q[1..]);
      OnceInQueue(q[1..], i);
    }
  }

  lemma FirstOfQueue(q: seq<int>)
    requires P.NoDuplicates(q) && q != []
    ensures P.NoDuplicates(q[1..]) && (forall i :: i in q <==> i == q[0] || i in q[1..]) && q[0] !in q[1..]
    ensures P.NoDuplicates(q[1..] + [q[0]])
  {
    assert q == [q[0]] + q[1..];
  }

  /** Those of the channels `q` that ask for another turn. */
  function Askers(q: seq<int>, states: seq<Option<ChannelState>>, due: seq<Elapsed>): seq<int> {
    if q == [] then []
    else
      var i := q[|q| - 1];
      Askers(q[..|q| - 1], states, due)
      + if 0 <= i < |states| && i < |due| && states[i].Some? && Again(states[i].value, due[i]) then [i] else []
  }

  /** Those that ask again are a part of those that waited, in the same order, each just if it asks. */
  lemma {:induction false} AskersConcat(a: seq<int>, b: seq<int>, states: seq<Option<ChannelState>>, due: seq<Elapsed>)
    ensures Askers(a + b, states, due) == Askers(a, states, due) + Askers(b, states, due)
    decreases |b|
  {
    if b == [] {
      assert a + b == a;
    } else {
      assert (a + b)[..|a + b| - 1] == a + b[..|b| - 1];
      AskersConcat(a, b[..|b| - 1], states, due);
    }
  }

  lemma AskersOne(i: int, states: seq<Option<ChannelState>>, due: seq<Elapsed>)
    requires 0 <= i < |states| && i < |due| && states[i].Some?
    ensures Askers([i], states, due) == if Again(states[i].value, due[i]) then [i] else []
  {
    assert [i][..0] == [];
  }

  function Turned(s: Option<ChannelState>, due: Elapsed): Option<ChannelState> {
    if s.None? then None else Some(Turn(s.value, due))
  }

  // The first `k` channels of `q` have had their turns: `now` and `queue` are what `before` and `q` have become.
  ghost predicate Rotated(q: seq<int>, k: int, before: seq<Option<ChannelState>>, now: seq<Option<ChannelState>>,
      queue: seq<int>, due: seq<Elapsed>)
  {
    && P.NoDuplicates(q) && 0 <= k <= |q|
    && (forall i :: i in q ==> 0 <= i < |before|)
    && |now| == |before| == |due|
    && queue == q[k..] + Askers(q[..k], before, due)
    && (forall i :: 0 <= i < |now| ==> now[i] == if i in q[..k] then Turned(before[i], due[i]) else before[i])
  }

  lemma RotatedStart(q: seq<int>, states: seq<Option<ChannelState>>, due: seq<Elapsed>)
    requires P.NoDuplicates(q) && |states| == |due| && forall i :: i in q ==> 0 <= i < |states|
    ensures Rotated(q, 0, states, states, q, due)
  {
    assert q[0..] == q && q + [] == q;
  }

  lemma RotatedEnd(q: seq<int>, before: seq<Option<ChannelState>>, now: seq<Option<ChannelState>>,
      queue: seq<int>, due: seq<Elapsed>)
    requires Rotated(q, |q|, before, now, queue, due)
    requires forall i :: 0 <= i < |before| && before[i].Some? && i !in q ==> !OwesAck(before[i].value)
    ensures queue == Askers(q, before, due)
    ensures forall i :: 0 <= i < |now| ==> now[i] == if i in q then Turned(before[i], due[i]) else before[i]
    ensures forall i :: 0 <= i < |now| && now[i].Some? ==> !OwesAck(now[i].value)
  {
    assert q[..|q|] == q && q[|q|..] == [];
  }

  lemma UpdatedIs(p: PeerState, q: PeerState, due: seq<Elapsed>)
    requires |due| == |p.channels| == |q.channels| && q.queue == Askers(p.queue, p.channels, due)
    requires forall i :: 0 <= i < |q.channels| ==>
               q.channels[i] == if i in p.queue then Turned(p.channels[i], due[i]) else p.channels[i]
    ensures q == Updated(p, due)
  {
    assert q.channels == Updated(p, due).channels;
  }

  lemma RotatedNext(q: seq<int>, k: int, before: seq<Option<ChannelState>>, now: seq<Option<ChannelState>>,
      queue: seq<int>, due: seq<Elapsed>)
    requires Rotated(q, k, before, now, queue, due) && k < |q|
    ensures var i := q[k];
            && queue != [] && queue[0] == i && i in q && 0 <= i < |now| && now[i] == before[i]
            && (now[i].Some? ==>
                  Rotated(q, k + 1, before, now[i := Some(Turn(now[i].value, due[i]))],
                          queue[1..] + (if Again(now[i].value, due[i]) then [i] else []), due))
  {
    var i := q[k];
    assert i in q && i !in q[..k];
    assert q[..k + 1] == q[..k] + [i] && q[..k + 1][..k] == q[..k];
    assert q[k..] == [i] + q[k + 1..];
    assert queue[1..] == q[k + 1..] + Askers(q[..k], before, due);
    assert forall j :: j in q[..k + 1] <==> j in q[..k] || j == i;
  }
}
