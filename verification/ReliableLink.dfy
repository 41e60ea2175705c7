/** Two real channels joined by a lossy, duplicating, reordering network of real datagrams. Every run of the link is
    a run of module ReliableProtocol, so its theorems hold of the modular implementation, across any number of
    wraps, under the one assumption that no datagram is delivered after half the sequence space has been used. */
module ReliableLink {
  import opened Sequence
  import opened Packets
  import opened Bitmap
  import opened ReliableSpec
  import opened ReliableProtocol
  import opened NetReliableChannel

  ghost predicate Represents(m: ChannelMessage, d: Datagram) {
    match m
    case DataMessage(n, p) => d == Channeled(Wrap(n), p)
    case AckMessage(start, acked) =>
      d.Ack? && d.sequence == Wrap(start) && |d.data| == ACK_PACKET_SIZE && Reported(d.data, start) == acked
  }

  ghost predicate AllRepresented(ms: seq<ChannelMessage>, ds: seq<Datagram>) {
    |ms| == |ds| && forall i :: 0 <= i < |ms| ==> Represents(ms[i], ds[i])
  }

  /** The number a datagram was sent with: of the packet, or of the window start. */
  function Birth(m: ChannelMessage): int {
    match m case DataMessage(n, _) => n case AckMessage(start, _) => start
  }

  lemma RunExtended(s: System, actions: seq<Action>, a: Action)
    ensures Run(s, actions + [a]) == Apply(Run(s, actions), a)
  {
    RunConcat(s, actions, [a]);
    assert Run(Run(s, actions), [a]) == Run(Apply(Run(s, actions), a), []);
  }

  function DataMessages(s: Sender, ns: seq<int>): (ms: seq<ChannelMessage>)
    requires InRange(ns, |s.packets|)
    ensures AllRepresented(ms, Wire(s, ns))
  {
    seq(|ns|, i requires 0 <= i < |ns| => DataMessage(ns[i], s.packets[ns[i]]))
  }

  lemma DataMessagesAreSent(s: Sender, due: set<int>)
    requires SenderInv(s)
    ensures var ns := Transmitted(s, due);
            && InRange(ns, |Transmit(s, due).packets|)
            && (set m | m in DataMessages(Transmit(s, due), ns)) == DataSent(s, due)
  {
    TransmittedInRange(s, due);
    var ns, t := Transmitted(s, due), Transmit(s, due);
    var ms := DataMessages(t, ns);
    forall m | m in DataSent(s, due)
      ensures m in ms
    {
      var i :| 0 <= i < |ns| && ns[i] == m.n;
      assert ms[i] == m;
    }
    forall m | m in ms
      ensures m in DataSent(s, due)
    {
      var i :| 0 <= i < |ms| && ms[i] == m;
      assert ns[i] in ns;
    }
  }

  lemma {:induction false} GivenExtended(actions: seq<Action>, a: Action, id: uint8)
    ensures Given(actions + [a], id) == Given(actions, id) + (if a.Enqueue? then [Stamp(a.packet, id)] else [])
  {
    if actions == [] {
      assert ([] + [a])[1..] == [];
      assert Given([a], id) == (if a.Enqueue? then [Stamp(a.packet, id)] else []) + Given([], id);
    } else {
      GivenExtended(actions[1..], a, id);
      assert (actions + [a])[1..] == actions[1..] + [a];
    }
  }

  lemma NothingMore(a: seq<ChannelMessage>, b: seq<ChannelMessage>)
    ensures a + [] == a && b + [] == b
  {}

  lemma SetOfBoth(a: seq<ChannelMessage>, b: seq<ChannelMessage>, c: seq<ChannelMessage>, d: seq<ChannelMessage>)
    ensures (set m | m in a + b) + (set m | m in c + d) ==
            ((set m | m in a) + (set m | m in c)) + (set m | m in b) + (set m | m in d)
  {}

  /** A datagram within the age limit is read as the number it was sent with. */
  lemma ReadAsMeant(s: System, m: ChannelMessage)
    requires Inv(s) && m in s.net && s.snd.ls - Birth(m) <= HALF_MAX_SEQUENCE
    ensures m.DataMessage? ==> Unwrap(Wrap(m.n), s.rcv.r) == m.n
    ensures m.AckMessage? ==> Unwrap(Wrap(m.start), s.snd.lws) == m.start
  {
    assert GenuineMessage(s, m);
    UnwrapOfWrapped(Birth(m), if m.DataMessage? then s.rcv.r else s.snd.lws);
  }

  lemma SilentTurn(id: uint8)
    ensures Transmit(Silent(id), {}) == Silent(id) && Transmitted(Silent(id), {}) == []
  {
    assert Fill(Silent(id)) == Silent(id);
  }

  /** `sender` sends packets, `receiver` acknowledges them. The other direction is the same with the halves
      exchanged; a channel's halves do not touch each other. */
  class Link {
    const sender: ReliableChannel
    const receiver: ReliableChannel

    var forward: seq<Datagram>   // everything the sender ever put on the network
    var backward: seq<Datagram>  // everything the receiver ever put on the network
    var given: seq<Packet>       // what the application gave the sender
    var got: seq<Packet>         // what the receiver handed to its peer, in order

    ghost var forwardMessages: seq<ChannelMessage>
    ghost var backwardMessages: seq<ChannelMessage>
    ghost var history: seq<Action>

    ghost function Now(): System
      reads this, sender, receiver
    {
      System(sender.snd, receiver.rcv, OnWire(), sender.isAddedToSendQueue)
    }

    ghost function OnWire(): set<ChannelMessage>
      reads this
    {
      (set m | m in forwardMessages) + (set m | m in backwardMessages)
    }

    ghost function Begin(): System {
      Start(receiver.ordered, sender.id)
    }

    ghost predicate Apart() {
      && sender != receiver && sender.acks != receiver.acks && sender.pending != receiver.pending
      && sender.received != receiver.received && sender.earlyReceived != receiver.earlyReceived
    }

    ghost predicate Channels()
      reads sender, sender.acks, sender.pending, sender.received, sender.earlyReceived
      reads receiver, receiver.acks, receiver.pending, receiver.received, receiver.earlyReceived
    {
      && Apart() && sender.Valid() && receiver.Valid()
      && !sender.rcv.ackDue && receiver.snd == Silent(receiver.id)
    }

    ghost predicate Wires()
      reads this
    {
      && AllRepresented(forwardMessages, forward) && (forall m :: m in forwardMessages ==> m.DataMessage?)
      && AllRepresented(backwardMessages, backward) && (forall m :: m in backwardMessages ==> m.AckMessage?)
    }

    /** The state reached is the one the protocol reaches by the same actions. */
    ghost predicate Valid()
      reads this, sender, sender.acks, sender.pending, sender.received, sender.earlyReceived
      reads receiver, receiver.acks, receiver.pending, receiver.received, receiver.earlyReceived
    {
      && Channels() && Wires()
      && Now() == Run(Begin(), history)
      && Given(history, sender.id) == Stamped(given, sender.id)
      && got == Payloads(receiver.rcv.log)
    }

    constructor (ordered: bool, id: uint8)
      ensures Valid() && given == got == [] && receiver.ordered == ordered
    {
      var s := new ReliableChannel(ordered, id);
      var r := new ReliableChannel(ordered, id);
      sender, receiver := s, r;
      forward, backward, given, got := [], [], [], [];
      forwardMessages, backwardMessages, history := [], [], [];
    }

    // Notes an action that has brought the channels where the protocol goes, and what it put on the wires.
    ghost method Record(before: System, a: Action, sent: seq<ChannelMessage>, answered: seq<ChannelMessage>)
      requires Channels() && before == Run(Begin(), history) && before.net == OnWire()
      requires AllRepresented(forwardMessages + sent, forward) && AllRepresented(backwardMessages + answered, backward)
      requires forall m :: m in forwardMessages + sent ==> m.DataMessage?
      requires forall m :: m in backwardMessages + answered ==> m.AckMessage?
      requires Apply(before, a) == System(sender.snd, receiver.rcv, before.net + (set m | m in sent) + (set m | m in answered),
                                          sender.isAddedToSendQueue)
      requires Stamped(given, sender.id) ==
               Given(history, sender.id) + if a.Enqueue? then [Stamp(a.packet, sender.id)] else []
      requires got == Payloads(receiver.rcv.log)
      modifies this`history, this`forwardMessages, this`backwardMessages
      ensures Valid() && history == old(history) + [a]
    {
      RunExtended(Begin(), history, a);
      GivenExtended(history, a, sender.id);
      SetOfBoth(forwardMessages, sent, backwardMessages, answered);
      forwardMessages, backwardMessages := forwardMessages + sent, backwardMessages + answered;
      history := history + [a];
    }

    method Offer(p: Packet)
      requires Valid()
      modifies this, sender
      ensures Valid() && history == old(history) + [Enqueue(p)]
      ensures given == old(given) + [p] && got == old(got)
    {
      ghost var before := Now();
      sender.AddToQueue(p);
      given := given + [p];
      NothingMore(forwardMessages, backwardMessages);
      Record(before, Enqueue(p), [], []);
    }

    /** The sending channel's turn in the peer's update, if it waits for one; `due` are the slots whose resend delay has
        elapsed. */
    method SenderTurn(due: set<int>)
      requires Valid()
      modifies this, sender, sender.pending
      ensures Valid() && history == old(history) + [TransmitPending(due)]
      ensures given == old(given) && got == old(got)
    {
      ghost var before := Now();
      ghost var ms := [];
      NothingMore(forwardMessages, backwardMessages);
      if sender.isAddedToSendQueue {
        ms := SenderSends(due);
      }
      Record(before, TransmitPending(due), ms, []);
    }

    method SenderSends(due: set<int>) returns (ghost ms: seq<ChannelMessage>)
      requires Channels() && sender.isAddedToSendQueue && AllRepresented(forwardMessages, forward)
      modifies this`forward, sender, sender.pending
      ensures Channels() && sender.rcv == old(sender.rcv) && sender.snd == Transmit(old(sender.snd), due)
      ensures sender.isAddedToSendQueue == KeepsTurn(old(sender.snd), due)
      ensures AllRepresented(forwardMessages + ms, forward)
      ensures forall m :: m in ms ==> m.DataMessage?
      ensures (set m | m in ms) == DataSent(old(sender.snd), due)
    {
      DataMessagesAreSent(sender.snd, due);
      ghost var ns := Transmitted(sender.snd, due);
      var again, out := sender.SendAndCheckQueue(due);
      ms := DataMessages(sender.snd, ns);
      forward := forward + out;
    }

    /** The receiving channel's turn: it has nothing of its own to send but the acknowledgement it may owe. */
    method ReceiverTurn()
      requires Valid()
      modifies this, receiver, receiver.pending
      ensures Valid() && history == old(history) + [SendAck]
      ensures given == old(given) && got == old(got)
    {
      ghost var before := Now();
      NothingMore(forwardMessages, backwardMessages);
      AckDueIrrelevant(receiver.rcv);
      ghost var ms := ReceiverSends();
      Record(before, SendAck, [], ms);
    }

    method ReceiverSends() returns (ghost ms: seq<ChannelMessage>)
      requires Channels() && AllRepresented(backwardMessages, backward)
      modifies this`backward, receiver, receiver.pending
      ensures Channels() && receiver.rcv == old(receiver.rcv).(ackDue := false)
      ensures AllRepresented(backwardMessages + ms, backward)
      ensures forall m :: m in ms ==> m.AckMessage?
      ensures (set m | m in ms) ==
              if old(receiver.rcv.ackDue) then {AckMessage(receiver.rcv.w, Acknowledged(receiver.rcv))} else {}
    {
      ms := if receiver.rcv.ackDue then [AckMessage(receiver.rcv.w, Acknowledged(receiver.rcv))] else [];
      AckDueIrrelevant(receiver.rcv);
      SilentTurn(receiver.id);
      var again, out := receiver.SendAndCheckQueue({});
      backward := backward + out;
    }

    method ReceiverGets(d: Datagram) returns (delivered: seq<Packet>)
      requires Channels() && d.Channeled? && d.sequence < MAX_SEQUENCE
      modifies receiver, receiver.acks, receiver.pending, receiver.received, receiver.earlyReceived
      ensures Channels() && receiver.rcv == Receive(old(receiver.rcv), Unwrap(d.sequence, old(receiver.rcv.r)), d.packet)
      ensures Payloads(receiver.rcv.log) == Payloads(old(receiver.rcv.log)) + delivered
    {
      var taken;
      taken, delivered := receiver.ProcessPacket(d);
    }

    method SenderGets(d: Datagram, ghost m: ChannelMessage)
      requires Channels() && Represents(m, d) && m.AckMessage? && Unwrap(Wrap(m.start), sender.snd.lws) == m.start
      modifies sender, sender.acks, sender.pending, sender.received, sender.earlyReceived
      ensures Channels() && sender.rcv == old(sender.rcv)
      ensures sender.snd == ProcessAck(old(sender.snd), m.start, m.acked)
      ensures sender.isAddedToSendQueue == old(sender.isAddedToSendQueue)
    {
      var taken, delivered := sender.ProcessPacket(d);
    }

    lemma ReadForward(m: ChannelMessage)
      requires Valid() && m in forwardMessages && sender.snd.ls - Birth(m) <= HALF_MAX_SEQUENCE
      ensures m.DataMessage? && m in OnWire() && Unwrap(Wrap(m.n), receiver.rcv.r) == m.n
    {
      RunKeepsInv(Begin(), history);
      ReadAsMeant(Now(), m);
    }

    lemma ReadBackward(m: ChannelMessage)
      requires Valid() && m in backwardMessages && sender.snd.ls - Birth(m) <= HALF_MAX_SEQUENCE
      ensures m.AckMessage? && m in OnWire() && Unwrap(Wrap(m.start), sender.snd.lws) == m.start
    {
      RunKeepsInv(Begin(), history);
      ReadAsMeant(Now(), m);
    }

    /** The network hands the receiver any datagram the sender ever sent. The requirement is the assumption on age: at
        most half the sequence space has been used since the packet was numbered. */
    method ArriveAtReceiver(i: nat)
      requires Valid() && i < |forward|
      requires sender.snd.ls - Birth(forwardMessages[i]) <= HALF_MAX_SEQUENCE
      modifies this, receiver, receiver.acks, receiver.pending, receiver.received, receiver.earlyReceived
      ensures Valid() && history == old(history) + [DeliverToReceiver(old(forwardMessages)[i])]
      ensures given == old(given) && old(got) <= got
    {
      ghost var before := Now();
      ghost var m := forwardMessages[i];
      ReadForward(m);
      NothingMore(forwardMessages, backwardMessages);
      var delivered := ReceiverGets(forward[i]);
      got := got + delivered;
      Record(before, DeliverToReceiver(m), [], []);
    }

    /** The network hands the sender any acknowledgement ever sent, under the same assumption. */
    method ArriveAtSender(i: nat)
      requires Valid() && i < |backward|
      requires sender.snd.ls - Birth(backwardMessages[i]) <= HALF_MAX_SEQUENCE
      modifies this, sender, sender.acks, sender.pending, sender.received, sender.earlyReceived
      ensures Valid() && history == old(history) + [DeliverToSender(old(backwardMessages)[i])]
      ensures given == old(given) && got == old(got)
    {
      ghost var before := Now();
      ghost var m := backwardMessages[i];
      ReadBackward(m);
      NothingMore(forwardMessages, backwardMessages);
      SenderGets(backward[i], m);
      Record(before, DeliverToSender(m), [], []);
    }

    /** Whatever the network did so far, the receiver's peer got a prefix of what the application gave. */
    lemma GotPrefixOfGiven()
      requires Valid() && receiver.ordered
      ensures got <= Stamped(given, sender.id)
      ensures WindowsAgree(Now())
    {
      OrderedDelivery(history, sender.id);
    }

    /** The other theorems about every run hold of the link in any state it reaches, too. */
    lemma ReachedState()
      requires Valid()
      ensures WindowsAgree(Now()) && FreedAreAccepted(Now())
      ensures !receiver.ordered ==> DeliveredOnce(Now())
      ensures Inv(Now()) && AcksOrdered(Now())
    {
      var s0 := Start(receiver.ordered, sender.id);
      RunKeepsInv(s0, history);
      RunKeepsAcksOrdered(s0, history);
      AcksAreSound(receiver.ordered, history, sender.id);
      if !receiver.ordered {
        UnorderedDelivery(history, sender.id);
      }
    }

    /** Everything on the wire is lost. What was given can still all arrive if and only if the sending channel's flag is set
        or all has arrived: in the channels' own terms, when the sequence numbers of the two ends are equal. */
    lemma ArrivesUnlessUnscheduled()
      requires Valid()
      ensures (exists acts :: LeftAlone(acts) && Run(Lose(Now()), acts).rcv.r == |given|)
              <==> sender.isAddedToSendQueue || receiver.remoteSequence == sender.localSequence
    {
      ReachedState();
      RunOffers(Start(receiver.ordered, sender.id), history);
      assert |Offered(sender.snd)| == |given|;
      RelativeOfWrapped(sender.snd.ls, receiver.rcv.r);
      RelativeOfWrapped(receiver.rcv.r, receiver.rcv.r);
      ArrivesUnlessIdle(Now());
    }
  }

  function Stamped(ps: seq<Packet>, id: uint8): seq<Packet> {
    seq(|ps|, i requires 0 <= i < |ps| => Stamp(ps[i], id))
  }
}
