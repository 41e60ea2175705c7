/** What two peers do with all their channels is, for each reliable channel and each direction, a run of module
    ReliableProtocol: so its theorems hold of every channel of a conversation, whatever the other channels do. */
module ChannelRuns {
  import opened Sequence
  import opened Packets
  import opened Bitmap
  import opened ReliableSpec
  import opened Sequenced
  import opened Scheduling
  import opened Conversation
  import R = ReliableProtocol
  import NetReliableChannel
  import ReliableLink

  // ---- One channel in one direction -------------------------------------------------------------

  function SndAt(p: PeerState, i: uint8): Sender {
    if i < |p.channels| && StateAt(p, i).ReliableState? then StateAt(p, i).snd else Silent(i)
  }

  function RcvAt(p: PeerState, i: uint8): Receiver {
    if i < |p.channels| && StateAt(p, i).ReliableState? then StateAt(p, i).rcv
    else Initial(i % CHANNEL_TYPE_COUNT == RELIABLE_ORDERED)
  }

  predicate IsData(l: Letter, i: uint8) {
    l.datagram.Channeled? && l.datagram.packet.channel == i
  }

  predicate IsAck(l: Letter, i: uint8) {
    l.datagram.Ack? && l.datagram.channel == i && |l.datagram.data| == ACK_PACKET_SIZE
  }

  function DataOf(l: Letter): R.ChannelMessage
    requires l.datagram.Channeled?
  {
    R.DataMessage(l.number, l.datagram.packet)
  }

  function AckOf(l: Letter): R.ChannelMessage
    requires l.datagram.Ack? && |l.datagram.data| == ACK_PACKET_SIZE
  {
    R.AckMessage(l.number, Reported(l.datagram.data, l.number))
  }

  function DataOn(ls: set<Letter>, i: uint8): set<R.ChannelMessage> {
    set l | l in ls && IsData(l, i) :: DataOf(l)
  }

  function AcksOn(ls: set<Letter>, i: uint8): set<R.ChannelMessage> {
    set l | l in ls && IsAck(l, i) :: AckOf(l)
  }

  /** Channel `i` from this peer to the other: its sender here, its receiver there, its packets and acknowledgements. */
  function Project(c: Conversation, i: uint8): R.System {
    R.System(SndAt(c.here, i), RcvAt(c.there, i), DataOn(c.toThere, i) + AcksOn(c.toHere, i), i in c.here.queue)
  }

  predicate HasPlace(c: Conversation, i: uint8) {
    i < |c.here.channels| && i < |c.there.channels| && i % 2 == 0
  }

  /** The assumption on age: a letter of the channel is read here only while at most half the sequence space has been used
      since it was numbered. */
  predicate Young(c: Conversation, l: Letter, i: uint8) {
    ChannelOf(l.datagram) == i ==> SndAt(if l.datagram.Ack? then c.here else c.there, i).ls - l.number <= HALF_MAX_SEQUENCE
  }

  predicate InTime(c: Conversation, m: Move, i: uint8) {
    m.deed.Hears? ==> if m.Here? then Young(c, m.deed.letter, i) else Young(Swapped(c), m.deed.letter, i)
  }

  ghost predicate AllInTime(c: Conversation, moves: seq<Move>, i: uint8)
    decreases |moves|
  {
    moves == [] || (InTime(c, moves[0], i) && AllInTime(Apply(c, moves[0]), moves[1..], i))
  }

  /** What a deed of this peer is to its sending half of the channel. */
  ghost function SenderActions(c: Conversation, a: Deed, i: uint8): seq<R.Action>
    requires HasPlace(c, i)
  {
    match a
    case Makes(_) => []
    case Gives(j, p) => if j == i then [R.Enqueue(p)] else []
    case Updates(due, turns) =>
      if |due| == |c.here.channels| && Emissions(c.here, due, turns) && i in c.here.queue then [R.TransmitPending(due[i].slots)]
      else []
    case Hears(l) =>
      if l !in c.toHere || ChannelOf(l.datagram) != i then []
      else if IsAck(l, i) then [R.DeliverToSender(AckOf(l))]
      else if Wakes(StateAt(c.here, i), l.datagram) then [R.Wake]
      else []
  }

  /** What a deed of this peer is to its receiving half of the channel. */
  ghost function ReceiverActions(c: Conversation, a: Deed, i: uint8): seq<R.Action>
    requires HasPlace(c, i)
  {
    match a
    case Makes(_) => []
    case Gives(_, _) => []
    case Updates(due, turns) =>
      if |due| == |c.here.channels| && Emissions(c.here, due, turns) && i in c.here.queue then [R.SendAck] else []
    case Hears(l) => if l in c.toHere && IsData(l, i) then [R.DeliverToReceiver(DataOf(l))] else []
  }

  ghost function Actions(c: Conversation, m: Move, i: uint8): seq<R.Action>
    requires HasPlace(c, i)
  {
    match m case Here(a) => SenderActions(c, a, i) case There(a) => ReceiverActions(Swapped(c), a, i)
  }

  // ---- What a turn writes -----------------------------------------------------------------------

  lemma ChannelsOfQueue(p: PeerState, due: seq<Elapsed>, turns: seq<seq<Datagram>>, i: uint8)
    requires PeerInv(p) && |due| == |p.channels| && i < |p.channels| && i % 2 == 0 && Emissions(p, due, turns) && i in p.queue
    ensures p.channels[i].Some? && p.channels[i].value.ReliableState?
    ensures exists k :: 0 <= k < |turns| && p.queue[k] == i && Emission(p.channels[i].value, due[i], turns[k])
  {
    var k :| 0 <= k < |p.queue| && p.queue[k] == i;
    assert EmissionAt(p, due, k, turns[k]);
  }

  // How many acknowledgements come before the packets of a turn.
  function Lead(s: ChannelState): nat
    requires s.ReliableState?
  {
    if s.rcv.ackDue then 1 else 0
  }

  // The datagrams of one reliable turn, one by one.
  lemma TurnAt(s: ChannelState, due: Elapsed, out: seq<Datagram>, i: uint8)
    requires s.ReliableState? && OfKind(i, s) && Emission(s, due, out)
    ensures var ns, t := Transmitted(s.snd, due.slots), Transmit(s.snd, due.slots);
            && |out| == Lead(s) + |ns| == |Numbers(s, due)|
            && (forall k {:trigger ns[k]} :: 0 <= k < |ns| ==>
                  && 0 <= ns[k] < |t.packets| && t.packets[ns[k]].channel == i
                  && out[Lead(s) + k] == Channeled(Wrap(ns[k]), t.packets[ns[k]]) && Numbers(s, due)[Lead(s) + k] == ns[k])
            && (s.rcv.ackDue ==> NetReliableChannel.IsAckOf(out[0], s.rcv.(ackDue := false), i) && Numbers(s, due)[0] == s.rcv.w)
  {
    FillKeepsKind(s.snd);
    var ns, t := Transmitted(s.snd, due.slots), Transmit(s.snd, due.slots);
    if s.rcv.ackDue {
      assert forall k :: 0 <= k < |ns| ==> out[1 + k] == out[1..][k];
    }
  }

  lemma PacketOfTurn(s: ChannelState, due: Elapsed, out: seq<Datagram>, i: uint8, k: nat)
    requires s.ReliableState? && OfKind(i, s) && Emission(s, due, out) && Lead(s) <= k < |out|
    ensures k < |Numbers(s, due)| && out[k].Channeled? && out[k].packet.channel == i
    ensures R.DataMessage(Numbers(s, due)[k], out[k].packet) in R.DataSent(s.snd, due.slots)
  {
    TurnAt(s, due, out, i);
    var ns, t := Transmitted(s.snd, due.slots), Transmit(s.snd, due.slots);
    var n := ns[k - Lead(s)];
    assert n in ns && out[k] == Channeled(Wrap(n), t.packets[n]);
  }

  // A letter of a turn is a packet it sends, or the acknowledgement it owed.
  lemma LetterOfTurn(s: ChannelState, due: Elapsed, out: seq<Datagram>, i: uint8, l: Letter)
    requires s.ReliableState? && OfKind(i, s) && Emission(s, due, out) && l in Letters(s, due, out)
    ensures if l.datagram.Channeled? then IsData(l, i) && DataOf(l) in R.DataSent(s.snd, due.slots)
            else IsAck(l, i) && s.rcv.ackDue && AckOf(l) == R.AckMessage(s.rcv.w, Acknowledged(s.rcv.(ackDue := false)))
  {
    var k :| 0 <= k < |out| && l == Letter(out[k], Numbers(s, due)[k]);
    if k < Lead(s) { TurnAt(s, due, out, i); } else { PacketOfTurn(s, due, out, i, k); }
  }

  lemma SentIsData(s: ChannelState, due: Elapsed, out: seq<Datagram>, i: uint8, m: R.ChannelMessage)
    requires s.ReliableState? && OfKind(i, s) && Emission(s, due, out)
    requires m in R.DataSent(s.snd, due.slots)
    ensures m in DataOn(Letters(s, due, out), i)
  {
    TurnAt(s, due, out, i);
    var ns := Transmitted(s.snd, due.slots);
    var k :| 0 <= k < |ns| && ns[k] == m.n;
    var l := Letter(out[Lead(s) + k], Numbers(s, due)[Lead(s) + k]);
    assert l in Letters(s, due, out) && IsData(l, i) && DataOf(l) == m;
  }

  lemma DataOfTurn(s: ChannelState, due: Elapsed, out: seq<Datagram>, i: uint8)
    requires s.ReliableState? && OfKind(i, s) && Emission(s, due, out)
    ensures DataOn(Letters(s, due, out), i) == R.DataSent(s.snd, due.slots)
  {
    forall l | l in Letters(s, due, out) && IsData(l, i)
      ensures DataOf(l) in R.DataSent(s.snd, due.slots)
    {
      LetterOfTurn(s, due, out, i, l);
    }
    forall m | m in R.DataSent(s.snd, due.slots)
      ensures m in DataOn(Letters(s, due, out), i)
    {
      SentIsData(s, due, out, i, m);
    }
  }

  lemma AcksOfTurn(s: ChannelState, due: Elapsed, out: seq<Datagram>, i: uint8)
    requires s.ReliableState? && OfKind(i, s) && Emission(s, due, out) && ReceiverInv(s.rcv)
    ensures AcksOn(Letters(s, due, out), i) == if s.rcv.ackDue then {R.AckMessage(s.rcv.w, Acknowledged(s.rcv))} else {}
  {
    AckDueIrrelevant(s.rcv);
    forall l | l in Letters(s, due, out) && IsAck(l, i)
      ensures s.rcv.ackDue && AckOf(l) == R.AckMessage(s.rcv.w, Acknowledged(s.rcv))
    {
      LetterOfTurn(s, due, out, i, l);
    }
    if s.rcv.ackDue {
      TurnAt(s, due, out, i);
      var l := Letter(out[0], Numbers(s, due)[0]);
      assert l in Letters(s, due, out) && IsAck(l, i) && AckOf(l) == R.AckMessage(s.rcv.w, Acknowledged(s.rcv));
    }
  }

  // What a whole update writes for one reliable channel is what that channel's turn writes.
  lemma WrittenOfChannel(p: PeerState, due: seq<Elapsed>, turns: seq<seq<Datagram>>, i: uint8, k: nat, l: Letter)
    requires PeerInv(p) && |due| == |p.channels| && Emissions(p, due, turns) && IsWritten(p, due, turns, k, l)
    requires i % 2 == 0 && (IsData(l, i) || IsAck(l, i))
    ensures p.queue[k] == i && Emission(p.channels[i].value, due[i], turns[k])
  {
    assert EmissionAt(p, due, k, turns[k]);
    var j := p.queue[k];
    EmissionIsFromChannel(j, p.channels[j].value, due[j], turns[k], l);
  }

  lemma WrittenData(p: PeerState, due: seq<Elapsed>, turns: seq<seq<Datagram>>, i: uint8)
    requires PeerInv(p) && |due| == |p.channels| && i < |p.channels| && i % 2 == 0 && Emissions(p, due, turns)
    ensures DataOn(Written(p, due, turns), i) == if i in p.queue then R.DataSent(SndAt(p, i), due[i].slots) else {}
  {
    forall l | l in Written(p, due, turns) && IsData(l, i)
      ensures i in p.queue && DataOf(l) in R.DataSent(SndAt(p, i), due[i].slots)
    {
      var k :| IsWritten(p, due, turns, k, l);
      WrittenOfChannel(p, due, turns, i, k, l);
      LetterOfTurn(p.channels[i].value, due[i], turns[k], i, l);
    }
    if i in p.queue {
      ChannelsOfQueue(p, due, turns, i);
      var k :| 0 <= k < |turns| && p.queue[k] == i && Emission(p.channels[i].value, due[i], turns[k]);
      DataOfTurn(p.channels[i].value, due[i], turns[k], i);
      forall l | l in Letters(p.channels[i].value, due[i], turns[k])
        ensures l in Written(p, due, turns)
      {
        assert IsWritten(p, due, turns, k, l);
      }
    }
  }

  lemma WrittenAcks(p: PeerState, due: seq<Elapsed>, turns: seq<seq<Datagram>>, i: uint8)
    requires PeerInv(p) && |due| == |p.channels| && i < |p.channels| && i % 2 == 0 && Emissions(p, due, turns)
    requires ReceiverInv(RcvAt(p, i))
    ensures AcksOn(Written(p, due, turns), i) ==
            if i in p.queue && RcvAt(p, i).ackDue then {R.AckMessage(RcvAt(p, i).w, Acknowledged(RcvAt(p, i)))} else {}
  {
    AckDueIrrelevant(RcvAt(p, i));
    forall l | l in Written(p, due, turns) && IsAck(l, i)
      ensures i in p.queue && RcvAt(p, i).ackDue && AckOf(l) == R.AckMessage(RcvAt(p, i).w, Acknowledged(RcvAt(p, i)))
    {
      var k :| IsWritten(p, due, turns, k, l);
      WrittenOfChannel(p, due, turns, i, k, l);
      LetterOfTurn(p.channels[i].value, due[i], turns[k], i, l);
    }
    if i in p.queue {
      ChannelsOfQueue(p, due, turns, i);
      var k :| 0 <= k < |turns| && p.queue[k] == i && Emission(p.channels[i].value, due[i], turns[k]);
      AcksOfTurn(p.channels[i].value, due[i], turns[k], i);
      forall l | l in Letters(p.channels[i].value, due[i], turns[k])
        ensures l in Written(p, due, turns)
      {
        assert IsWritten(p, due, turns, k, l);
      }
    }
  }

  // ---- Every move is a step of the protocol, or none --------------------------------------------

  lemma OneStep(s: R.System, a: R.Action)
    ensures R.Run(s, [a]) == R.Apply(s, a)
  {
    assert R.Run(s, [a]) == R.Run(R.Apply(s, a), [a][1..]);
  }

  lemma DataOfBoth(a: set<Letter>, b: set<Letter>, i: uint8)
    ensures DataOn(a + b, i) == DataOn(a, i) + DataOn(b, i) && AcksOn(a + b, i) == AcksOn(a, i) + AcksOn(b, i)
  {}

  lemma {:induction false} AskersOnly(q: seq<int>, states: seq<Option<ChannelState>>, due: seq<Elapsed>, i: int)
    requires i in Askers(q, states, due)
    ensures i in q && 0 <= i < |states| && i < |due| && states[i].Some? && Again(states[i].value, due[i])
    decreases |q|
  {
    if i in Askers(q[..|q| - 1], states, due) {
      AskersOnly(q[..|q| - 1], states, due, i);
    }
  }

  // What an update does to the two halves of a reliable channel.
  lemma UpdatedHalves(p: PeerState, due: seq<Elapsed>, turns: seq<seq<Datagram>>, i: uint8)
    requires PeerInv(p) && |due| == |p.channels| && i < |p.channels| && i % 2 == 0 && Emissions(p, due, turns)
    ensures var q := Updated(p, due);
            && SndAt(q, i) == (if i in p.queue then Transmit(SndAt(p, i), due[i].slots) else SndAt(p, i))
            && RcvAt(q, i) == (if i in p.queue then RcvAt(p, i).(ackDue := false) else RcvAt(p, i))
            && (i in q.queue <==> i in p.queue && KeepsTurn(SndAt(p, i), due[i].slots))
  {
    var q := Updated(p, due);
    if i in q.queue { AskersOnly(p.queue, p.channels, due, i); }
    if i in p.queue {
      ChannelsOfQueue(p, due, turns, i);
      if Again(p.channels[i].value, due[i]) { AskersHas(p.queue, p.channels, due, i); }
    }
  }

  lemma SenderPart(c: Conversation, p: PeerState, ls: set<Letter>, i: uint8)
    ensures Project(c.(here := p, toThere := c.toThere + ls), i) ==
            R.System(SndAt(p, i), RcvAt(c.there, i), Project(c, i).net + DataOn(ls, i), i in p.queue)
  {
    DataOfBoth(c.toThere, ls, i);
    assert (DataOn(c.toThere, i) + DataOn(ls, i)) + AcksOn(c.toHere, i) ==
           (DataOn(c.toThere, i) + AcksOn(c.toHere, i)) + DataOn(ls, i);
  }

  lemma ReceiverPart(c: Conversation, p: PeerState, ls: set<Letter>, i: uint8)
    ensures Project(c.(there := p, toHere := c.toHere + ls), i) ==
            R.System(SndAt(c.here, i), RcvAt(p, i), Project(c, i).net + AcksOn(ls, i), i in c.here.queue)
  {
    DataOfBoth(c.toHere, ls, i);
    assert DataOn(c.toThere, i) + (AcksOn(c.toHere, i) + AcksOn(ls, i)) ==
           (DataOn(c.toThere, i) + AcksOn(c.toHere, i)) + AcksOn(ls, i);
  }

  lemma SenderUpdates(c: Conversation, due: seq<Elapsed>, turns: seq<seq<Datagram>>, i: uint8)
    requires PeerInv(c.here) && HasPlace(c, i) && |due| == |c.here.channels| && Emissions(c.here, due, turns)
    ensures Project(Act(c, Updates(due, turns)), i) ==
            if i in c.here.queue then R.Apply(Project(c, i), R.TransmitPending(due[i].slots)) else Project(c, i)
  {
    UpdatedHalves(c.here, due, turns, i);
    WrittenData(c.here, due, turns, i);
    SenderPart(c, Updated(c.here, due), Written(c.here, due, turns), i);
  }

  lemma AcknowledgedOrNot(s: R.System, t: R.System, turn: bool)
    requires t.snd == s.snd && t.scheduled == s.scheduled
    requires t.rcv == if turn then s.rcv.(ackDue := false) else s.rcv
    requires t.net == s.net + if turn && s.rcv.ackDue then {R.AckMessage(s.rcv.w, Acknowledged(s.rcv))} else {}
    ensures t == if turn then R.Apply(s, R.SendAck) else s
  {
    assert s.net + {} == s.net;
  }

  lemma FarUpdates(c: Conversation, due: seq<Elapsed>, turns: seq<seq<Datagram>>)
    requires PeerInv(c.there) && |due| == |c.there.channels| && Emissions(c.there, due, turns)
    ensures Apply(c, There(Updates(due, turns))) ==
            c.(there := Updated(c.there, due), toHere := c.toHere + Written(c.there, due, turns))
  {}

  lemma ReceiverUpdates(c: Conversation, due: seq<Elapsed>, turns: seq<seq<Datagram>>, i: uint8)
    requires PeerInv(c.there) && HasPlace(c, i) && |due| == |c.there.channels| && Emissions(c.there, due, turns)
    requires ReceiverInv(RcvAt(c.there, i))
    ensures Project(Apply(c, There(Updates(due, turns))), i) ==
            if i in c.there.queue then R.Apply(Project(c, i), R.SendAck) else Project(c, i)
  {
    UpdatedHalves(c.there, due, turns, i);
    WrittenAcks(c.there, due, turns, i);
    var p, ls := Updated(c.there, due), Written(c.there, due, turns);
    FarUpdates(c, due, turns);
    ReceiverPart(c, p, ls, i);
    AcknowledgedOrNot(Project(c, i), Project(c.(there := p, toHere := c.toHere + ls), i), i in c.there.queue);
  }

  // What a datagram does to the sending half of its reliable channel, and to the receiving half.
  function SenderAfter(s: Sender, d: Datagram): Sender {
    if d.Ack? && |d.data| == ACK_PACKET_SIZE then
      var start := Unwrap(d.sequence, s.lws); ProcessAck(s, start, Reported(d.data, start))
    else s
  }

  function ReceiverAfter(s: Receiver, d: Datagram): Receiver {
    if d.Channeled? then Receive(s, Unwrap(d.sequence, s.r), d.packet) else s
  }

  lemma ArrivedHalves(s: ChannelState, d: Datagram)
    requires s.ReliableState? && d.sequence < MAX_SEQUENCE
    ensures Arrived(s, d) == ReliableState(ReceiverAfter(s.rcv, d), SenderAfter(s.snd, d))
  {}

  lemma SilentStays(i: uint8, d: Datagram)
    ensures SenderAfter(Silent(i), d) == Silent(i)
  {}

  lemma HeardHalves(p: PeerState, d: Datagram, i: uint8)
    requires PeerInv(p) && i < |p.channels| && i % 2 == 0 && d.sequence < MAX_SEQUENCE
    ensures var q, mine := Heard(p, d), ChannelOf(d) == i;
            && SndAt(q, i) == (if mine then SenderAfter(SndAt(p, i), d) else SndAt(p, i))
            && RcvAt(q, i) == (if mine then ReceiverAfter(RcvAt(p, i), d) else RcvAt(p, i))
            && (i in q.queue <==> i in p.queue || (mine && Wakes(StateAt(p, i), d)))
  {
    assert p.channels[i].Some? ==> OfKind(i, p.channels[i].value);
    ArrivedHalves(StateAt(p, i), d);
    SilentStays(i, d);
  }

  lemma SenderHears(c: Conversation, l: Letter, i: uint8)
    requires Inv(c) && HasPlace(c, i) && R.Inv(Project(c, i)) && l in c.toHere && Young(c, l, i)
    ensures Project(Act(c, Hears(l)), i) == R.Run(Project(c, i), SenderActions(c, Hears(l), i))
  {
    var j :| 0 <= j && FromChannel(j, l);
    HeardHalves(c.here, l.datagram, i);
    if IsAck(l, i) {
      ReliableLink.ReadAsMeant(Project(c, i), AckOf(l));
      OneStep(Project(c, i), R.DeliverToSender(AckOf(l)));
    } else {
      OneStep(Project(c, i), R.Wake);
    }
  }

  lemma ReceiverHears(c: Conversation, l: Letter, i: uint8)
    requires Inv(c) && HasPlace(c, i) && R.Inv(Project(c, i)) && l in c.toThere && Young(Swapped(c), l, i)
    ensures Project(Apply(c, There(Hears(l))), i) == R.Run(Project(c, i), ReceiverActions(Swapped(c), Hears(l), i))
  {
    var j :| 0 <= j && FromChannel(j, l);
    HeardHalves(c.there, l.datagram, i);
    if IsData(l, i) {
      ReliableLink.ReadAsMeant(Project(c, i), DataOf(l));
      OneStep(Project(c, i), R.DeliverToReceiver(DataOf(l)));
    }
  }

  lemma GivenHalves(p: PeerState, j: uint8, packet: Packet, i: uint8)
    requires PeerInv(p) && i < |p.channels| && i % 2 == 0 && j < |p.channels|
    ensures var q := Given(p, j, packet);
            && SndAt(q, i) == (if j == i then SndAt(p, i).(queue := SndAt(p, i).queue + [packet]) else SndAt(p, i))
            && RcvAt(q, i) == RcvAt(p, i) && (i in q.queue <==> i in p.queue || j == i)
  {
    assert p.channels[i].Some? ==> OfKind(i, p.channels[i].value);
  }

  lemma MadeHalves(p: PeerState, j: uint8, i: uint8)
    requires PeerInv(p) && i < |p.channels| && i % 2 == 0 && j < |p.channels|
    ensures var q := Made(p, j); SndAt(q, i) == SndAt(p, i) && RcvAt(q, i) == RcvAt(p, i) && q.queue == p.queue
  {}

  /** A move of either peer is, for each reliable channel, one step of its protocol or none. */
  lemma MoveIsProtocolStep(c: Conversation, m: Move, i: uint8)
    requires Inv(c) && HasPlace(c, i) && R.Inv(Project(c, i)) && InTime(c, m, i)
    ensures Project(Apply(c, m), i) == R.Run(Project(c, i), Actions(c, m, i))
  {
    match m
    case Here(Makes(j)) => if j < |c.here.channels| { MadeHalves(c.here, j, i); }
    case There(Makes(j)) => if j < |c.there.channels| { MadeHalves(c.there, j, i); }
    case Here(Gives(j, p)) =>
      if j < |c.here.channels| { GivenHalves(c.here, j, p, i); }
      OneStep(Project(c, i), R.Enqueue(p));
    case Here(Updates(due, turns)) =>
      if |due| == |c.here.channels| && Emissions(c.here, due, turns) {
        SenderUpdates(c, due, turns, i);
        OneStep(Project(c, i), R.TransmitPending(due[i].slots));
      }
    case Here(Hears(l)) => if l in c.toHere { SenderHears(c, l, i); }
    case There(Gives(j, p)) => if j < |c.there.channels| { GivenHalves(c.there, j, p, i); }
    case There(Updates(due, turns)) =>
      if |due| == |c.there.channels| && Emissions(c.there, due, turns) {
        ReceiverUpdates(c, due, turns, i);
        OneStep(Project(c, i), R.SendAck);
      }
    case There(Hears(l)) => if l in c.toThere { ReceiverHears(c, l, i); }
  }

  // ---- Every run --------------------------------------------------------------------------------

  ghost function AllActions(c: Conversation, moves: seq<Move>, i: uint8): seq<R.Action>
    requires Inv(c) && HasPlace(c, i)
    decreases |moves|
  {
    if moves == [] then []
    else
      ApplyKeepsInv(c, moves[0]);
      Actions(c, moves[0], i) + AllActions(Apply(c, moves[0]), moves[1..], i)
  }

  lemma {:induction false} RunIsProtocolRun(c: Conversation, moves: seq<Move>, i: uint8)
    requires Inv(c) && HasPlace(c, i) && R.Inv(Project(c, i)) && AllInTime(c, moves, i)
    ensures Project(Run(c, moves), i) == R.Run(Project(c, i), AllActions(c, moves, i))
    decreases |moves|
  {
    if moves != [] {
      var actions := Actions(c, moves[0], i);
      MoveIsProtocolStep(c, moves[0], i);
      R.RunKeepsInv(Project(c, i), actions);
      ApplyKeepsInv(c, moves[0]);
      RunIsProtocolRun(Apply(c, moves[0]), moves[1..], i);
      R.RunConcat(Project(c, i), actions, AllActions(Apply(c, moves[0]), moves[1..], i));
    }
  }

  /** What the application here gave the channel, as the channel stamps it. */
  function GivenThrough(moves: seq<Move>, i: uint8): seq<Packet> {
    if moves == [] then []
    else (if moves[0].Here? && moves[0].deed.Gives? && moves[0].deed.channel == i then [Stamp(moves[0].deed.packet, i)] else [])
         + GivenThrough(moves[1..], i)
  }

  lemma {:induction false} GivenOfConcat(a: seq<R.Action>, b: seq<R.Action>, i: uint8)
    requires |a| <= 1
    ensures R.Given(a + b, i) == R.Given(a, i) + R.Given(b, i)
  {
    if a == [] {
      assert a + b == b;
    } else {
      assert (a + b)[0] == a[0] && (a + b)[1..] == b && a[1..] == [];
      assert R.Given(a, i) == if a[0].Enqueue? then [Stamp(a[0].packet, i)] else [];
    }
  }

  lemma {:induction false} GivenInActions(c: Conversation, moves: seq<Move>, i: uint8)
    requires Inv(c) && HasPlace(c, i)
    ensures R.Given(AllActions(c, moves, i), i) == GivenThrough(moves, i)
    decreases |moves|
  {
    if moves != [] {
      ApplyKeepsInv(c, moves[0]);
      var d := Apply(c, moves[0]);
      GivenInActions(d, moves[1..], i);
      GivenOfConcat(Actions(c, moves[0], i), AllActions(d, moves[1..], i), i);
    }
  }

  lemma BeginIsStart(here: nat, there: nat, i: uint8)
    requires i < here && i < there && i % 2 == 0
    ensures var c := Begin(here, there);
            && Inv(c) && HasPlace(c, i) && Project(c, i) == R.Start(i % CHANNEL_TYPE_COUNT == RELIABLE_ORDERED, i)
            && R.Inv(Project(c, i)) && R.AcksOrdered(Project(c, i))
  {
    assert DataOn({}, i) + AcksOn({}, i) == {};
  }

  // What is true of a reliable channel in one direction: module ReliableProtocol proves it of every run.
  ghost predicate Delivers(s: R.System, given: seq<Packet>) {
    && R.WindowsAgree(s) && R.FreedAreAccepted(s)
    && s.snd.packets <= given
    && if s.rcv.ordered then s.rcv.r <= |s.snd.packets| && Payloads(s.rcv.log) == s.snd.packets[..s.rcv.r] else R.DeliveredOnce(s)
  }

  lemma OneDirection(here: nat, there: nat, moves: seq<Move>, i: uint8)
    requires i < here && i < there && i % 2 == 0 && AllInTime(Begin(here, there), moves, i)
    ensures Delivers(Project(Run(Begin(here, there), moves), i), GivenThrough(moves, i))
    ensures R.Inv(Project(Run(Begin(here, there), moves), i))
    ensures Project(Run(Begin(here, there), moves), i).rcv.ordered == (i % CHANNEL_TYPE_COUNT == RELIABLE_ORDERED)
  {
    var c, ordered := Begin(here, there), i % CHANNEL_TYPE_COUNT == RELIABLE_ORDERED;
    BeginIsStart(here, there, i);
    RunIsProtocolRun(c, moves, i);
    GivenInActions(c, moves, i);
    var actions := AllActions(c, moves, i);
    R.RunKeepsInv(R.Start(ordered, i), actions);
    R.RunOffers(R.Start(ordered, i), actions);
    R.AcksAreSound(ordered, actions, i);
    if ordered { R.OrderedDelivery(actions, i); } else { R.UnorderedDelivery(actions, i); }
  }

  function Mirror(m: Move): Move {
    match m case Here(a) => There(a) case There(a) => Here(a)
  }

  function Mirrored(moves: seq<Move>): seq<Move> {
    if moves == [] then [] else [Mirror(moves[0])] + Mirrored(moves[1..])
  }

  lemma {:induction false} RunMirrored(c: Conversation, moves: seq<Move>, i: uint8)
    ensures Run(Swapped(c), Mirrored(moves)) == Swapped(Run(c, moves))
    ensures AllInTime(c, moves, i) ==> AllInTime(Swapped(c), Mirrored(moves), i)
    decreases |moves|
  {
    if moves != [] {
      assert Swapped(Swapped(c)) == c;
      assert Apply(Swapped(c), Mirror(moves[0])) == Swapped(Apply(c, moves[0]));
      assert Mirrored(moves)[1..] == Mirrored(moves[1..]);
      RunMirrored(Apply(c, moves[0]), moves[1..], i);
    }
  }

  /** In every run of two peers with all their channels, in both directions at once: each reliable ordered channel hands on a
      prefix of what it was given, each reliable unordered one every packet it accepted, once, and none frees a packet that
      was not accepted. Channels do not disturb each other. */
  lemma EveryChannelDelivers(here: nat, there: nat, moves: seq<Move>, i: uint8)
    requires i < here && i < there && i % 2 == 0 && AllInTime(Begin(here, there), moves, i)
    ensures var c := Run(Begin(here, there), moves);
            && Delivers(Project(c, i), GivenThrough(moves, i))
            && Delivers(Project(Swapped(c), i), GivenThrough(Mirrored(moves), i))
            && (i % CHANNEL_TYPE_COUNT == RELIABLE_ORDERED ==>
                  && Payloads(RcvAt(c.there, i).log) <= GivenThrough(moves, i)
                  && Payloads(RcvAt(c.here, i).log) <= GivenThrough(Mirrored(moves), i))
  {
    OneDirection(here, there, moves, i);
    RunMirrored(Begin(here, there), moves, i);
    assert Swapped(Begin(here, there)) == Begin(there, here);
    OneDirection(there, here, Mirrored(moves), i);
  }
}
