/** Two real sequenced channels joined by a lossy, duplicating, reordering network of real datagrams, as module
    ReliableLink does for the reliable ones. */
module SequencedLink {
  import opened Sequence
  import opened Packets
  import opened ReliableSpec
  import opened Sequenced

  ghost predicate Represents(m: SeqMessage, d: Datagram) {
    match m
    case SeqData(n, p) => d == Channeled(Wrap(n), p)
    case SeqAckOf(n) => d == Ack(Wrap(n), ACK_CHANNEL, [])
  }

  ghost predicate AllRepresented(ms: seq<SeqMessage>, ds: seq<Datagram>) {
    |ms| == |ds| && forall i :: 0 <= i < |ms| ==> Represents(ms[i], ds[i])
  }

  function MessagesOf(sent: seq<Packet>, ns: seq<int>): seq<SeqMessage>
    requires forall i :: 0 <= i < |ns| ==> 1 <= ns[i] <= |sent|
  {
    seq(|ns|, i requires 0 <= i < |ns| => SeqData(ns[i], sent[ns[i] - 1]))
  }

  lemma MessagesAreSent(s: SeqSender, due: bool)
    requires forall i :: 0 <= i < |SeqTransmitted(s, due)| ==> 1 <= SeqTransmitted(s, due)[i] <= |SeqTransmit(s).sent|
    ensures var ns, t := SeqTransmitted(s, due), SeqTransmit(s);
            && AllRepresented(MessagesOf(t.sent, ns), SeqWire(t.sent, ns))
            && (set m | m in MessagesOf(t.sent, ns)) == SeqDataSent(s, due)
  {
    var ns, t := SeqTransmitted(s, due), SeqTransmit(s);
    var ms := MessagesOf(t.sent, ns);
    forall m | m in SeqDataSent(s, due)
      ensures m in ms
    {
      var i :| 0 <= i < |ns| && ns[i] == m.n;
      assert ms[i] == m;
    }
    forall m | m in ms
      ensures m in SeqDataSent(s, due)
    {
      var i :| 0 <= i < |ms| && ms[i] == m;
      assert ns[i] in ns;
    }
  }

  lemma {:induction false} RunExtended(s: SeqSystem, actions: seq<SeqAction>, a: SeqAction)
    ensures SeqRun(s, actions + [a]) == SeqApply(SeqRun(s, actions), a)
    decreases |actions|
  {
    if actions == [] {
      assert ([] + [a])[1..] == [];
    } else {
      RunExtended(SeqApply(s, actions[0]), actions[1..], a);
      assert (actions + [a])[1..] == actions[1..] + [a];
    }
  }

  lemma SetOfConcat(a: seq<SeqMessage>, b: seq<SeqMessage>)
    ensures (set m | m in a + b) == (set m | m in a) + (set m | m in b)
  {}

  // What the application gave, as the channel stamps it.
  ghost function SeqOffered(s: SeqSender): seq<Packet> {
    s.sent + StampAll(s.queue, s.id)
  }

  lemma StampMore(ps: seq<Packet>, p: Packet, id: uint8)
    ensures StampAll(ps + [p], id) == StampAll(ps, id) + [Stamp(p, id)]
  {}

  lemma SilentTurn(s: SeqSender)
    requires s.queue == [] && s.last.None?
    ensures SeqTransmit(s) == s && SeqTransmitted(s, false) == []
  {
    assert s.sent + StampAll([], s.id) == s.sent;
  }

  ghost predicate AllWhole(ps: seq<Packet>) {
    forall i :: 0 <= i < |ps| ==> ps[i].fragment.Whole?
  }

  // `got` are packets of `given`, at the places `at`, in order and none twice.
  ghost predicate PickedAt(got: seq<Packet>, given: seq<Packet>, at: seq<int>) {
    && |at| == |got|
    && (forall i :: 0 <= i < |at| ==> 0 <= at[i] < |given| && got[i] == given[at[i]])
    && forall i, j :: 0 <= i < j < |at| ==> at[i] < at[j]
  }

  lemma LogIsPicked(rcv: SeqReceiver, sent: seq<Packet>, all: seq<Packet>) returns (at: seq<int>)
    requires LogInv(rcv, sent) && sent <= all
    ensures PickedAt(Payloads(rcv.log), all, at)
  {
    at := seq(|rcv.log|, i requires 0 <= i < |rcv.log| => rcv.log[i].n - 1);
  }

  /** `routed` says whether acknowledgements are handed to the sending channel. */
  class Link {
    const sender: SequencedChannel
    const receiver: SequencedChannel
    const routed: bool

    var forward: seq<Datagram>
    var backward: seq<Datagram>
    var given: seq<Packet>
    var got: seq<Packet>

    ghost var forwardMessages: seq<SeqMessage>
    ghost var backwardMessages: seq<SeqMessage>
    ghost var history: seq<SeqAction>

    ghost function Now(): SeqSystem
      reads this, sender, receiver
    {
      SeqSystem(sender.snd, receiver.rcv, (set m | m in forwardMessages) + (set m | m in backwardMessages), routed,
                sender.isAddedToSendQueue)
    }

    ghost function Begin(): SeqSystem {
      SeqStart(sender.reliable, sender.id, routed)
    }

    ghost predicate Valid()
      reads this, sender, receiver
    {
      && sender != receiver && sender.Valid() && receiver.Valid() && sender.reliable == receiver.reliable
      && !sender.rcv.ackDue && receiver.snd.queue == [] && receiver.snd.last.None?
      && AllRepresented(forwardMessages, forward) && (forall m :: m in forwardMessages ==> m.SeqData?)
      && AllRepresented(backwardMessages, backward) && (forall m :: m in backwardMessages ==> m.SeqAckOf?)
      && Now() == SeqRun(Begin(), history)
      && SeqOffered(sender.snd) == StampAll(given, sender.id) && AllWhole(given)
      && got == Payloads(receiver.rcv.log)
    }

    constructor (reliable: bool, id: uint8, routed: bool)
      ensures Valid() && given == got == [] && sender.reliable == reliable && this.routed == routed
    {
      var s := new SequencedChannel(reliable, id);
      var r := new SequencedChannel(reliable, id);
      sender, receiver, this.routed := s, r, routed;
      forward, backward, given, got := [], [], [], [];
      forwardMessages, backwardMessages, history := [], [], [];
    }

    ghost method Record(before: SeqSystem, a: SeqAction)
      requires before == SeqRun(Begin(), history) && Now() == SeqApply(before, a)
      modifies this`history
      ensures history == old(history) + [a] && Now() == SeqRun(Begin(), history)
    {
      RunExtended(Begin(), history, a);
      history := history + [a];
    }

    /** A sequenced channel is only ever given whole messages. */
    method Offer(p: Packet)
      requires Valid() && p.fragment.Whole?
      modifies this, sender
      ensures Valid() && history == old(history) + [SeqEnqueue(p)]
      ensures given == old(given) + [p] && got == old(got)
    {
      ghost var before := Now();
      StampMore(sender.snd.queue, p, sender.id);
      StampMore(given, p, sender.id);
      sender.AddToQueue(p);
      given := given + [p];
      Record(before, SeqEnqueue(p));
    }

    method SenderTurn(due: bool)
      requires Valid()
      modifies this, sender
      ensures Valid() && history == old(history) + [SeqSenderTurn(due)]
      ensures given == old(given) && got == old(got)
    {
      ghost var before := Now();
      if sender.isAddedToSendQueue {
        ghost var ms := SenderSends(due);
        SetOfConcat(forwardMessages, ms);
        forwardMessages := forwardMessages + ms;
      }
      Record(before, SeqSenderTurn(due));
    }

    method SenderSends(due: bool) returns (ghost ms: seq<SeqMessage>)
      requires sender.Valid() && sender.isAddedToSendQueue && !sender.rcv.ackDue && AllRepresented(forwardMessages, forward)
      modifies this`forward, sender
      ensures sender.Valid() && sender.rcv == old(sender.rcv) && sender.snd == SeqTransmit(old(sender.snd))
      ensures sender.isAddedToSendQueue == sender.snd.last.Some?
      ensures AllRepresented(forwardMessages + ms, forward) && forall m :: m in ms ==> m.SeqData?
      ensures (set m | m in ms) == SeqDataSent(old(sender.snd), due)
    {
      ghost var ns := SeqTransmitted(sender.snd, due);
      var again, out := sender.SendAndCheckQueue(due);
      MessagesAreSent(old(sender.snd), due);
      ms := MessagesOf(sender.snd.sent, ns);
      forward := forward + out;
    }

    method ReceiverTurn()
      requires Valid()
      modifies this, receiver
      ensures Valid() && history == old(history) + [SeqReceiverTurn]
      ensures given == old(given) && got == old(got)
    {
      ghost var before := Now();
      if receiver.isAddedToSendQueue {
        ghost var ms := ReceiverSends();
        SetOfConcat(backwardMessages, ms);
        backwardMessages := backwardMessages + ms;
      }
      Record(before, SeqReceiverTurn);
    }

    method ReceiverSends() returns (ghost ms: seq<SeqMessage>)
      requires receiver.Valid() && receiver.isAddedToSendQueue && receiver.snd.queue == [] && receiver.snd.last.None?
      requires AllRepresented(backwardMessages, backward)
      modifies this`backward, receiver
      ensures receiver.Valid() && receiver.snd == old(receiver.snd) && receiver.rcv == old(receiver.rcv).(ackDue := false)
      ensures AllRepresented(backwardMessages + ms, backward)
      ensures ms == if old(receiver.rcv.ackDue) then [SeqAckOf(receiver.rcv.r)] else []
    {
      SilentTurn(receiver.snd);
      ms := if receiver.rcv.ackDue then [SeqAckOf(receiver.rcv.r)] else [];
      var again, out := receiver.SendAndCheckQueue(false);
      backward := backward + out;
    }

    /** The network hands the receiver any datagram ever sent whose number is less than half the sequence space away from
        that of the last one taken. */
    method ArriveAtReceiver(i: nat)
      requires Valid() && i < |forward|
      requires -HALF_MAX_SEQUENCE <= forwardMessages[i].n - receiver.rcv.r < HALF_MAX_SEQUENCE
      modifies this, receiver
      ensures Valid() && history == old(history) + [SeqToReceiver(old(forwardMessages)[i])]
      ensures given == old(given) && old(got) <= got
    {
      ghost var before := Now();
      ghost var m := forwardMessages[i];
      SeqRunKeepsInv(Begin(), history);
      ReadAsMeant(before, m);
      SentIsWhole(m);
      var taken, delivered := receiver.ProcessPacket(forward[i]);
      got := got + delivered;
      Record(before, SeqToReceiver(m));
    }

    lemma SentIsWhole(m: SeqMessage)
      requires Valid() && m in forwardMessages
      ensures m.packet.fragment.Whole?
    {
      SeqRunKeepsInv(Begin(), history);
      assert m in Now().net && GenuineSeq(Now(), m);
      assert m.packet == SeqOffered(sender.snd)[m.n - 1] == StampAll(given, sender.id)[m.n - 1];
    }

    /** The network hands the sending channel any acknowledgement ever sent, if acknowledgements are routed to it at all. */
    method ArriveAtSender(i: nat)
      requires Valid() && i < |backward|
      requires |sender.snd.sent| - backwardMessages[i].n <= HALF_MAX_SEQUENCE
      modifies this, sender
      ensures Valid() && history == old(history) + [SeqToSender(old(backwardMessages)[i])]
      ensures given == old(given) && got == old(got)
    {
      ghost var before := Now();
      ghost var m := backwardMessages[i];
      SeqRunKeepsInv(Begin(), history);
      ReadAsMeant(before, m);
      if routed {
        var taken, delivered := sender.ProcessPacket(backward[i]);
      }
      Record(before, SeqToSender(m));
    }

    /** In any state the link reaches, across any number of wraps: what was delivered are packets that were given, in order
        and none twice; and a reliable channel keeps its last packet until the receiver has it. */
    lemma GotIncreases()
      requires Valid()
      ensures exists at :: PickedAt(got, StampAll(given, sender.id), at)
      ensures sender.reliable ==> sender.lastPacket.Some? || receiver.remoteSequence == sender.localSequence
    {
      SeqRunKeepsInv(Begin(), history);
      assert SeqInv(Now());
      assert sender.snd.sent <= SeqOffered(sender.snd);
      var at := LogIsPicked(receiver.rcv, sender.snd.sent, StampAll(given, sender.id));
    }
  }
}
