/** Two peers with all their channels, each sending what its channels emit and reading what the other sent, in any order, any
    number of times or never. What becomes of a reliable sequenced channel, whose acknowledgements carry channel id 0. */
module Conversation {
  import opened Sequence
  import opened Packets
  import opened ReliableSpec
  import opened Sequenced
  import opened Scheduling
  import Bitmap

  const RELIABLE_ORDERED := 2
  const RELIABLE_SEQUENCED := 3

  /** A datagram on the network, with the number that its sequence stands for. Only the wrapped one is sent. */
  datatype Letter = Letter(datagram: Datagram, number: int)

  datatype Conversation = Conversation(here: PeerState, there: PeerState, toHere: set<Letter>, toThere: set<Letter>)

  datatype Deed =
    | Makes(channel: uint8) // a message is refused for its size, but its channel is made
    | Gives(channel: uint8, packet: Packet)
    | Updates(due: seq<Elapsed>, turns: seq<seq<Datagram>>) // `turns` is what its channels send
    | Hears(letter: Letter)

  datatype Move = Here(deed: Deed) | There(deed: Deed)

  /** The numbers of the datagrams a turn sends, in order. */
  function Numbers(s: ChannelState, due: Elapsed): seq<int> {
    match s
    case ReliableState(rcv, snd) => (if rcv.ackDue then [rcv.w] else []) + Transmitted(snd, due.slots)
    case SequencedState(rcv, snd) => SeqTransmitted(snd, due.last) + if rcv.ackDue then [rcv.r] else []
  }

  function Letters(s: ChannelState, due: Elapsed, out: seq<Datagram>): set<Letter> {
    set k | 0 <= k < |out| && k < |Numbers(s, due)| :: Letter(out[k], Numbers(s, due)[k])
  }

  predicate IsWritten(p: PeerState, due: seq<Elapsed>, turns: seq<seq<Datagram>>, k: int, l: Letter) {
    && 0 <= k < |turns| && k < |p.queue| && 0 <= p.queue[k] < |p.channels| && p.queue[k] < |due| && p.channels[p.queue[k]].Some?
    && l in Letters(p.channels[p.queue[k]].value, due[p.queue[k]], turns[k])
  }

  /** What the turns of an update put on the network. */
  function Written(p: PeerState, due: seq<Elapsed>, turns: seq<seq<Datagram>>): (ls: set<Letter>)
    ensures forall l :: l in ls <==> exists k :: IsWritten(p, due, turns, k, l)
  {
    WrittenUpTo(p, due, turns, |turns|)
  }

  function WrittenUpTo(p: PeerState, due: seq<Elapsed>, turns: seq<seq<Datagram>>, n: nat): (ls: set<Letter>)
    requires n <= |turns|
    ensures forall l :: l in ls <==> exists k :: k < n && IsWritten(p, due, turns, k, l)
  {
    if n == 0 then {}
    else
      var i := if n <= |p.queue| then p.queue[n - 1] else -1;
      var last := if 0 <= i < |p.channels| && i < |due| && p.channels[i].Some?
                  then Letters(p.channels[i].value, due[i], turns[n - 1]) else {};
      assert forall l :: l in last <==> IsWritten(p, due, turns, n - 1, l);
      WrittenUpTo(p, due, turns, n - 1) + last
  }

  ghost function Act(c: Conversation, a: Deed): Conversation {
    match a
    case Makes(i) => if i < |c.here.channels| then c.(here := Made(c.here, i)) else c
    case Gives(i, p) => if i < |c.here.channels| then c.(here := Given(c.here, i, p)) else c
    case Updates(due, turns) =>
      if |due| == |c.here.channels| && Emissions(c.here, due, turns) then
        c.(here := Updated(c.here, due), toThere := c.toThere + Written(c.here, due, turns))
      else c
    case Hears(l) => if l in c.toHere then c.(here := Heard(c.here, l.datagram)) else c
  }

  // The same, seen from the other side.
  function Swapped(c: Conversation): Conversation {
    Conversation(c.there, c.here, c.toThere, c.toHere)
  }

  ghost function Apply(c: Conversation, m: Move): Conversation {
    match m case Here(a) => Act(c, a) case There(a) => Swapped(Act(Swapped(c), a))
  }

  ghost function Run(c: Conversation, moves: seq<Move>): Conversation
    decreases |moves|
  {
    if moves == [] then c else Run(Apply(c, moves[0]), moves[1..])
  }

  function Begin(here: nat, there: nat): Conversation {
    Conversation(PeerState(seq(here, _ => None), []), PeerState(seq(there, _ => None), []), {}, {})
  }

  lemma {:induction false} RunConcat(c: Conversation, a: seq<Move>, b: seq<Move>)
    ensures Run(c, a + b) == Run(Run(c, a), b)
    decreases |a|
  {
    if a == [] {
      assert a + b == b;
    } else {
      assert (a + b)[1..] == a[1..] + b;
      RunConcat(Apply(c, a[0]), a[1..], b);
    }
  }

  // ---- What every move keeps --------------------------------------------------------------------

  predicate Stamped(ps: seq<Packet>, i: int) {
    forall k :: 0 <= k < |ps| ==> ps[k].channel == i
  }

  /** A channel is of the kind its id says, and has that id, as have all its packets. */
  predicate OfKind(i: int, s: ChannelState) {
    match s
    case ReliableState(rcv, snd) =>
      i % 2 == 0 && snd.id == i && Stamped(snd.packets, i) && (rcv.ordered <==> i % CHANNEL_TYPE_COUNT == RELIABLE_ORDERED)
    case SequencedState(_, snd) =>
      i % 2 == 1 && snd.id == i && Stamped(snd.sent, i) && (snd.reliable <==> i % CHANNEL_TYPE_COUNT == RELIABLE_SEQUENCED)
  }

  /** A reliable sequenced channel that ever sent a packet keeps its last one, and its place in the send queue. */
  predicate Holding(i: int, s: ChannelState, queue: seq<int>) {
    i % CHANNEL_TYPE_COUNT == RELIABLE_SEQUENCED && s.SequencedState? ==>
      && (s.seqSnd.sent != [] ==> s.seqSnd.last.Some?)
      && (s.seqSnd.last.Some? ==> i in queue)
      && s.seqSnd.dropped == []
  }

  ghost predicate PeerInv(p: PeerState) {
    forall i :: 0 <= i < |p.channels| && p.channels[i].Some? ==>
      OfKind(i, p.channels[i].value) && Holding(i, p.channels[i].value, p.queue)
  }

  /** What a letter of channel `i` can be: its packets are that channel's, and so are its acknowledgements, unless it is a
      sequenced channel: then they are channel 0's. */
  predicate FromChannel(i: int, l: Letter) {
    && l.datagram.sequence == Wrap(l.number)
    && match l.datagram
       case Channeled(_, p) => p.channel == i
       case Ack(_, channel, data) => if i % 2 == 0 then channel == i else channel == ACK_CHANNEL && data == []
  }

  ghost predicate Genuine(ls: set<Letter>) {
    forall l :: l in ls ==> exists i :: 0 <= i && FromChannel(i, l)
  }

  ghost predicate Inv(c: Conversation) {
    PeerInv(c.here) && PeerInv(c.there) && Genuine(c.toHere) && Genuine(c.toThere)
  }

  // Channels are made, but not places for them.
  predicate SamePlaces(c: Conversation, d: Conversation) {
    |d.here.channels| == |c.here.channels| && |d.there.channels| == |c.there.channels|
  }

  lemma {:induction false} FillKeepsKind(s: Sender)
    requires Stamped(s.packets, s.id)
    ensures Fill(s).id == s.id && Stamped(Fill(s).packets, s.id)
    decreases |s.queue|
  {
    if s.queue != [] && s.ls - s.lws < WINDOW_SIZE {
      FillKeepsKind(s.(queue := s.queue[1..], packets := s.packets + [Stamp(s.queue[0], s.id)], ls := s.ls + 1));
    }
  }

  lemma {:induction false} AckKeepsId(s: Sender, n: int, start: int, acked: set<int>)
    ensures AckFrom(s, n, start, acked).id == s.id && AckFrom(s, n, start, acked).packets == s.packets
    decreases s.ls - n
  {
    if n < s.ls && n - start < WINDOW_SIZE {
      AckKeepsId(if n in acked then Clear(s, n) else s, n + 1, start, acked);
    }
  }

  lemma EmissionIsFromChannel(i: int, s: ChannelState, due: Elapsed, out: seq<Datagram>, l: Letter)
    requires 0 <= i && OfKind(i, s) && Emission(s, due, out) && l in Letters(s, due, out)
    ensures FromChannel(i, l)
  {
    if s.ReliableState? { FillKeepsKind(s.snd); }
  }

  lemma TurnKeeps(i: int, s: ChannelState, due: Elapsed, queue: seq<int>)
    requires OfKind(i, s) && Holding(i, s, queue)
    ensures OfKind(i, Turn(s, due))
    ensures forall q: seq<int> :: (Again(s, due) ==> i in q) ==> Holding(i, Turn(s, due), q)
  {
    if s.ReliableState? { FillKeepsKind(s.snd); }
  }

  lemma ArrivalKeeps(i: int, s: ChannelState, d: Datagram, queue: seq<int>)
    requires OfKind(i, s) && Holding(i, s, queue)
    requires d.Ack? ==> i % CHANNEL_TYPE_COUNT != RELIABLE_SEQUENCED
    ensures OfKind(i, Arrived(s, d)) && Holding(i, Arrived(s, d), queue)
  {
    if s.ReliableState? && d.Channeled? && d.sequence < MAX_SEQUENCE {
      ReceiveKeepsKind(s.rcv, Unwrap(d.sequence, s.rcv.r), d.packet);
    }
    if s.ReliableState? && d.Ack? && |d.data| == Bitmap.ACK_PACKET_SIZE {
      var start := Unwrap(d.sequence, s.snd.lws);
      AckKeepsId(s.snd, s.snd.lws, start, Bitmap.Reported(d.data, start));
    }
  }

  lemma {:induction false} AskersHas(q: seq<int>, states: seq<Option<ChannelState>>, due: seq<Elapsed>, i: int)
    requires i in q && 0 <= i < |states| && i < |due| && states[i].Some? && Again(states[i].value, due[i])
    ensures i in Askers(q, states, due)
    decreases |q|
  {
    if q[|q| - 1] != i {
      AskersHas(q[..|q| - 1], states, due, i);
    }
  }

  lemma UpdateKeepsInv(p: PeerState, due: seq<Elapsed>)
    requires PeerInv(p) && |due| == |p.channels|
    ensures PeerInv(Updated(p, due))
  {
    var t := Updated(p, due);
    forall i | 0 <= i < |t.channels| && t.channels[i].Some?
      ensures OfKind(i, t.channels[i].value) && Holding(i, t.channels[i].value, t.queue)
    {
      var s := p.channels[i].value;
      if i in p.queue {
        TurnKeeps(i, s, due[i], p.queue);
        if Again(s, due[i]) { AskersHas(p.queue, p.channels, due, i); }
      }
    }
  }

  lemma GiveKeepsInv(p: PeerState, i: uint8, packet: Packet)
    requires PeerInv(p) && i < |p.channels|
    ensures PeerInv(Given(p, i, packet))
  {
    assert OfKind(i, StateAt(p, i)) && Holding(i, StateAt(p, i), p.queue);
  }

  lemma HearKeepsInv(p: PeerState, d: Datagram)
    requires PeerInv(p) && (d.Ack? ==> d.channel % CHANNEL_TYPE_COUNT != RELIABLE_SEQUENCED)
    ensures PeerInv(Heard(p, d))
  {
    var i := ChannelOf(d);
    if i < |p.channels| {
      assert OfKind(i, StateAt(p, i)) && Holding(i, StateAt(p, i), p.queue);
      ArrivalKeeps(i, StateAt(p, i), d, p.queue);
    }
  }

  lemma ActKeepsInv(c: Conversation, a: Deed)
    requires Inv(c)
    ensures Inv(Act(c, a)) && SamePlaces(c, Act(c, a))
  {
    match a
    case Makes(i) => if i < |c.here.channels| { assert OfKind(i, StateAt(c.here, i)) && Holding(i, StateAt(c.here, i), c.here.queue); }
    case Gives(i, p) => if i < |c.here.channels| { GiveKeepsInv(c.here, i, p); }
    case Hears(l) =>
      if l in c.toHere {
        var i :| 0 <= i && FromChannel(i, l);
        HearKeepsInv(c.here, l.datagram);
      }
    case Updates(due, turns) =>
      if |due| == |c.here.channels| && Emissions(c.here, due, turns) {
        UpdateKeepsInv(c.here, due);
        WrittenIsGenuine(c.here, due, turns);
      }
  }

  lemma WrittenIsGenuine(p: PeerState, due: seq<Elapsed>, turns: seq<seq<Datagram>>)
    requires PeerInv(p) && |due| == |p.channels| && Emissions(p, due, turns)
    ensures Genuine(Written(p, due, turns))
  {
    forall l | l in Written(p, due, turns)
      ensures exists i :: 0 <= i && FromChannel(i, l)
    {
      var k :| IsWritten(p, due, turns, k, l);
      var i := p.queue[k];
      assert EmissionAt(p, due, k, turns[k]);
      EmissionIsFromChannel(i, p.channels[i].value, due[i], turns[k], l);
    }
  }

  lemma ApplyKeepsInv(c: Conversation, m: Move)
    requires Inv(c)
    ensures Inv(Apply(c, m)) && SamePlaces(c, Apply(c, m))
  {
    match m case Here(a) => ActKeepsInv(c, a); case There(a) => ActKeepsInv(Swapped(c), a);
  }

  lemma {:induction false} RunKeepsInv(c: Conversation, moves: seq<Move>)
    requires Inv(c)
    ensures Inv(Run(c, moves)) && SamePlaces(c, Run(c, moves))
    decreases |moves|
  {
    if moves != [] {
      ApplyKeepsInv(c, moves[0]);
      RunKeepsInv(Apply(c, moves[0]), moves[1..]);
    }
  }

  // ---- What becomes of a reliable sequenced channel ---------------------------------------------

  /** The packet to be repeated is there, and the channel waits for its turn to repeat it. */
  ghost predicate Repeating(p: PeerState, i: int) {
    && 0 <= i < |p.channels| && i % CHANNEL_TYPE_COUNT == RELIABLE_SEQUENCED
    && p.channels[i].Some? && p.channels[i].value.SequencedState?
    && p.channels[i].value.seqSnd.last.Some? && i in p.queue
  }

  /** In every run of two peers: once a reliable sequenced channel has sent a packet, it holds its last packet and waits to
      repeat it, and no acknowledgement ever made it drop one. */
  lemma AcknowledgedNever(here: nat, there: nat, moves: seq<Move>, i: int)
    ensures var p := Run(Begin(here, there), moves).here;
            0 <= i < |p.channels| && i % CHANNEL_TYPE_COUNT == RELIABLE_SEQUENCED && p.channels[i].Some? ==>
              && p.channels[i].value.SequencedState? && p.channels[i].value.seqSnd.dropped == []
              && (p.channels[i].value.seqSnd.sent != [] ==> Repeating(p, i))
  {
    RunKeepsInv(Begin(here, there), moves);
  }

  /** And so for ever after: whatever both peers and the network do, it goes on repeating. */
  lemma {:induction false} RepeatsForEver(c: Conversation, moves: seq<Move>, i: int)
    requires Inv(c) && Repeating(c.here, i)
    ensures Repeating(Run(c, moves).here, i)
    decreases |moves|
  {
    if moves != [] {
      ApplyKeepsInv(c, moves[0]);
      RepeatsOn(c, moves[0], i);
      RepeatsForEver(Apply(c, moves[0]), moves[1..], i);
    }
  }

  lemma RepeatsOn(c: Conversation, m: Move, i: int)
    requires Inv(c) && Repeating(c.here, i)
    ensures Repeating(Apply(c, m).here, i)
  {
    if m.Here? && m.deed.Updates? && |m.deed.due| == |c.here.channels| {
      AskersHas(c.here.queue, c.here.channels, m.deed.due, i);
    }
  }
}
