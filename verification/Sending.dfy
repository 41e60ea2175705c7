/** The application sends a message: the sender cuts it, and the packets wait in the peer's channel. Whole messages over the
    channels of a conversation. */
module Sending {
  import opened Sequence
  import opened Packets
  import opened Fragments
  import opened ReliableSpec
  import opened Scheduling
  import opened Conversation
  import opened ChannelRuns
  import Reassembly
  import Messages
  import UnorderedMessages

  /** The channel is given the packets one by one. */
  function GivenAll(p: PeerState, i: uint8, packets: seq<Packet>): (q: PeerState)
    requires i < |p.channels|
    ensures |q.channels| == |p.channels|
  {
    if packets == [] then p
    else Given(GivenAll(p, i, packets[..|packets| - 1]), i, packets[|packets| - 1])
  }

  // The call got as far as the channel.
  predicate Reaches(outcome: SendOutcome, delivery: DeliveryMethod) {
    !delivery.Unreliable? && outcome != Ignored && !outcome.NoSuchPlace?
  }

  // Where an outcome lets the channel be used, there is a place for it.
  predicate Fits(outcome: SendOutcome, places: nat, channelNumber: uint8, delivery: DeliveryMethod) {
    Reaches(outcome, delivery) ==> ChannelFor(channelNumber, delivery) < places
  }

  lemma AnswersFit(outcome: SendOutcome, connected: bool, places: nat, m: Message, channelNumber: uint8,
      delivery: DeliveryMethod)
    requires Usable(m.mtu) && Answers(outcome, connected, places, m, channelNumber, delivery)
    ensures Fits(outcome, places, channelNumber, delivery)
    ensures outcome.ToChannel? ==> Reaches(outcome, delivery) && outcome.channel == ChannelFor(channelNumber, delivery)
  {}

  /** What a call of send_internal with this outcome makes of the peer's channels. The channel is made before the size is
      looked at: a message too large makes it, too. */
  function AfterSend(p: PeerState, outcome: SendOutcome, channelNumber: uint8, delivery: DeliveryMethod): PeerState
    requires Fits(outcome, |p.channels|, channelNumber, delivery)
  {
    if !Reaches(outcome, delivery) then p
    else
      var i := ChannelFor(channelNumber, delivery);
      GivenAll(Made(p, i), i, if outcome.ToChannel? then outcome.packets else [])
  }

  /** The packets of one message are added to the channel's queue. */
  method AddAllToQueue(peer: PeerChannels, i: uint8, packets: seq<Packet>)
    requires peer.Valid() && peer.Present(i)
    modifies peer, peer.Repr()
    ensures peer.Valid() && peer.channels == old(peer.channels) && peer.View() == GivenAll(old(peer.View()), i, packets)
  {
    ghost var before := peer.View();
    var k := 0;
    assert packets[..0] == [];
    while k < |packets|
      invariant 0 <= k <= |packets| && peer.Valid() && peer.channels == old(peer.channels)
      invariant peer.View() == GivenAll(before, i, packets[..k])
    {
      GivenAllNext(before, i, packets, k);
      peer.AddToQueue(i, packets[k]);
      k := k + 1;
    }
    assert packets[..|packets|] == packets;
  }

  lemma MadeIs(p: PeerState, i: uint8)
    requires i < |p.channels|
    ensures Made(p, i) == if p.channels[i].Some? then p else p.(channels := p.channels[i := Some(Fresh(i))])
  {}

  /** The channel is made if need be, and given the packets. */
  method MakeAndFill(peer: PeerChannels, i: uint8, packets: seq<Packet>)
    requires peer.Valid() && i < |peer.channels|
    modifies peer, peer.Repr()
    ensures peer.Valid() && peer.View() == GivenAll(Made(old(peer.View()), i), i, packets)
    ensures fresh(peer.Repr() - old(peer.Repr()))
  {
    MadeIs(peer.View(), i);
    peer.CreateChannel(i);
    AddAllToQueue(peer, i, packets);
  }

  lemma GivenAllNext(p: PeerState, i: uint8, packets: seq<Packet>, k: nat)
    requires i < |p.channels| && k < |packets|
    ensures GivenAll(p, i, packets[..k + 1]) == Given(GivenAll(p, i, packets[..k]), i, packets[k])
  {
    assert packets[..k + 1][..k] == packets[..k];
  }

  /** send_internal, with the channels of its peer. */
  method Send(sender: FragmentSender, peer: PeerChannels, data: seq<byte>, channelNumber: uint8, delivery: DeliveryMethod)
      returns (outcome: SendOutcome)
    requires peer.Valid() && sender.channelCount == |peer.channels| && sender !in peer.Repr()
    requires Usable(sender.mtu) && sender.fragmentId >= 0
    modifies sender`fragmentId, peer, peer.Repr()
    ensures peer.Valid() && fresh(peer.Repr() - old(peer.Repr()))
    ensures Answers(outcome, sender.connected, sender.channelCount,
                    Message((old(sender.fragmentId) + 1) % 0x1_0000, sender.mtu, data), channelNumber, delivery)
    ensures sender.fragmentId == old(sender.fragmentId) + (if outcome.ToChannel? && |outcome.packets| > 1 then 1 else 0)
    ensures Fits(outcome, |old(peer.channels)|, channelNumber, delivery)
    ensures peer.View() == AfterSend(old(peer.View()), outcome, channelNumber, delivery)
  {
    outcome := sender.SendInternal(data, channelNumber, delivery);
    peer.StillValid();
    AnswersFit(outcome, sender.connected, sender.channelCount,
               Message((old(sender.fragmentId) + 1) % 0x1_0000, sender.mtu, data), channelNumber, delivery);
    if Reaches(outcome, delivery) {
      MakeAndFill(peer, ChannelFor(channelNumber, delivery), if outcome.ToChannel? then outcome.packets else []);
    }
  }

  // ---- Messages over a conversation -------------------------------------------------------------

  /** A message sent is so many packets given, with nothing in between. */
  function Gifts(i: uint8, packets: seq<Packet>): seq<Move> {
    if packets == [] then [] else Gifts(i, packets[..|packets| - 1]) + [Here(Gives(i, packets[|packets| - 1]))]
  }

  lemma {:induction false} RunOneMore(c: Conversation, moves: seq<Move>, m: Move)
    ensures Run(c, moves + [m]) == Apply(Run(c, moves), m)
    decreases |moves|
  {
    RunConcat(c, moves, [m]);
    assert [m][1..] == [];
    assert Run(Apply(Run(c, moves), m), []) == Apply(Run(c, moves), m);
  }

  /** What `Send` makes of a peer is what these moves make of it. */
  lemma {:induction false} GiftsAreSent(c: Conversation, i: uint8, packets: seq<Packet>)
    requires i < |c.here.channels| && packets != []
    ensures Run(c, Gifts(i, packets)) == c.(here := GivenAll(Made(c.here, i), i, packets))
    decreases |packets|
  {
    var init, last := packets[..|packets| - 1], packets[|packets| - 1];
    RunOneMore(c, Gifts(i, init), Here(Gives(i, last)));
    if init == [] {
      MadeThenGiven(c.here, i, last);
    } else {
      GiftsAreSent(c, i, init);
    }
  }

  lemma MadeThenGiven(p: PeerState, i: uint8, packet: Packet)
    requires i < |p.channels|
    ensures Given(Made(p, i), i, packet) == Given(p, i, packet)
  {}

  lemma {:induction false} GivenThroughConcat(a: seq<Move>, b: seq<Move>, i: uint8)
    ensures GivenThrough(a + b, i) == GivenThrough(a, i) + GivenThrough(b, i)
    decreases |a|
  {
    if a == [] {
      assert a + b == b;
    } else {
      assert (a + b)[1..] == a[1..] + b;
      GivenThroughConcat(a[1..], b, i);
    }
  }

  /** And they give the channel the packets of the message, as the channel stamps them. */
  lemma {:induction false} GiftsGive(i: uint8, packets: seq<Packet>)
    ensures GivenThrough(Gifts(i, packets), i) == seq(|packets|, k requires 0 <= k < |packets| => Stamp(packets[k], i))
    decreases |packets|
  {
    if packets != [] {
      var init, last := packets[..|packets| - 1], Here(Gives(i, packets[|packets| - 1]));
      GiftsGive(i, init);
      GivenThroughConcat(Gifts(i, init), [last], i);
      assert [last][1..] == [];
      assert GivenThrough([last], i) == [Stamp(packets[|packets| - 1], i)];
    }
  }

  /** In every run of two peers: what reassembly raises of an ordered channel's packets is a prefix of the messages sent. */
  lemma {:induction false} OrderedMessages(here: nat, there: nat, moves: seq<Move>, i: uint8, ms: seq<Message>)
    requires i < here && i < there && i % CHANNEL_TYPE_COUNT == RELIABLE_ORDERED && AllInTime(Begin(here, there), moves, i)
    requires Messages.AllSendable(ms) && GivenThrough(moves, i) <= Messages.Stream(ms, i)
    ensures var log := RcvAt(Run(Begin(here, there), moves).there, i).log;
            Reassembly.AddAll(map[], Payloads(log)).1 <= Messages.Received(ms, i)
  {
    var c := Begin(here, there);
    BeginIsStart(here, there, i);
    RunIsProtocolRun(c, moves, i);
    GivenInActions(c, moves, i);
    Messages.MessagesInOrder(AllActions(c, moves, i), i, ms);
  }

  /** And of an unordered channel's packets: the messages all of whose packets were accepted, each once. */
  lemma {:induction false} UnorderedMessagesExact(here: nat, there: nat, moves: seq<Move>, i: uint8, ms: seq<Message>)
    requires i < here && i < there && i % CHANNEL_TYPE_COUNT == 0 && AllInTime(Begin(here, there), moves, i)
    requires Messages.AllSendable(ms) && UnorderedMessages.IdsApart(UnorderedMessages.Items(ms))
    requires GivenThrough(moves, i) <= Messages.Stream(ms, i)
    ensures var rcv, xs := RcvAt(Run(Begin(here, there), moves).there, i), UnorderedMessages.Items(ms);
            var done := UnorderedMessages.Finished(xs, rcv.log);
            && UnorderedMessages.AllIn(done, ms) && UnorderedMessages.Distinct(done)
            && Reassembly.AddAll(map[], Payloads(rcv.log)).1 == Messages.Received(UnorderedMessages.Chosen(ms, done), i)
            && (forall k :: k in done <==> UnorderedMessages.AllAccepted(xs, k, rcv))
  {
    var c := Begin(here, there);
    BeginIsStart(here, there, i);
    RunIsProtocolRun(c, moves, i);
    GivenInActions(c, moves, i);
    UnorderedMessages.MessagesExact(AllActions(c, moves, i), i, ms);
  }

  // ---- What sending promises --------------------------------------------------------------------

  /** What the application here does, one call of send_internal at a time, among all the other moves. */
  datatype Doing =
    | Sends(channelNumber: uint8, delivery: DeliveryMethod, message: Message, connected: bool, outcome: SendOutcome)
    | Moves(move: Move)

  /** The moves a call with this outcome makes. */
  function SendMoves(outcome: SendOutcome, channelNumber: uint8, delivery: DeliveryMethod): seq<Move> {
    if !Reaches(outcome, delivery) then []
    else
      var i := ChannelFor(channelNumber, delivery);
      [Here(Makes(i))] + Gifts(i, if outcome.ToChannel? then outcome.packets else [])
  }

  function AllMoves(doings: seq<Doing>): seq<Move> {
    if doings == [] then []
    else
      (match doings[0]
       case Sends(c, d, _, _, outcome) => SendMoves(outcome, c, d)
       case Moves(m) => [m])
      + AllMoves(doings[1..])
  }

  /** The application here gives packets by sending messages only, and each call answers as send_internal does. */
  ghost predicate AsSent(doings: seq<Doing>, places: nat) {
    forall k :: 0 <= k < |doings| ==>
      match doings[k]
      case Sends(c, d, m, connected, outcome) => Usable(m.mtu) && Answers(outcome, connected, places, m, c, d)
      case Moves(m) => !(m.Here? && m.deed.Gives?)
  }

  /** The messages sent through user channel `channelNumber` by the method `delivery`, in order, but for those refused. The
      number counts modulo 64, as it does in the implementation. */
  function MessagesSent(doings: seq<Doing>, channelNumber: uint8, delivery: DeliveryMethod): seq<Message> {
    if doings == [] then []
    else
      (match doings[0]
       case Sends(c, d, m, _, outcome) => if outcome.ToChannel? && d == delivery && c % 64 == channelNumber % 64 then [m] else []
       case Moves(_) => [])
      + MessagesSent(doings[1..], channelNumber, delivery)
  }

  lemma ChannelsApart(c: uint8, d: DeliveryMethod, channelNumber: uint8, delivery: DeliveryMethod)
    requires !d.Unreliable? && !delivery.Unreliable?
    ensures ChannelFor(c, d) == ChannelFor(channelNumber, delivery) <==> d == delivery && c % 64 == channelNumber % 64
  {
    ChannelIsOfMethod(c, d);
    ChannelIsOfMethod(channelNumber, delivery);
    if d == delivery && c % 64 == channelNumber % 64 {
      PlaceOf(c, d);
      PlaceOf(channelNumber, d);
    }
  }

  lemma PlaceOf(c: uint8, d: DeliveryMethod)
    requires !d.Unreliable?
    ensures ChannelFor(c, d) == CHANNEL_TYPE_COUNT * (c % 64) + ChannelFor(0, d)
  {
    var k := ChannelFor(0, d);
    assert 0 <= k < CHANNEL_TYPE_COUNT;
    ChannelWraps(c, k);
  }

  lemma {:induction false} GiftsOfOther(j: uint8, packets: seq<Packet>, i: uint8)
    requires j != i
    ensures GivenThrough(Gifts(j, packets), i) == []
    decreases |packets|
  {
    if packets != [] {
      var init, last := packets[..|packets| - 1], Here(Gives(j, packets[|packets| - 1]));
      GiftsOfOther(j, init, i);
      GivenThroughConcat(Gifts(j, init), [last], i);
      assert [last][1..] == [];
    }
  }

  // What one call gives the channel of a reliable method.
  lemma {:induction false} SendGives(c: uint8, d: DeliveryMethod, m: Message, connected: bool, outcome: SendOutcome, places: nat,
      channelNumber: uint8, delivery: DeliveryMethod)
    requires Usable(m.mtu) && Answers(outcome, connected, places, m, c, d)
    requires delivery.ReliableOrdered? || delivery.ReliableUnordered?
    ensures var i, mine := ChannelFor(channelNumber, delivery), outcome.ToChannel? && d == delivery && c % 64 == channelNumber % 64;
            && (mine ==> Sendable(m))
            && GivenThrough(SendMoves(outcome, c, d), i) == if mine then PacketsOf(m, i) else []
  {
    var i := ChannelFor(channelNumber, delivery);
    AnswersFit(outcome, connected, places, m, c, d);
    if Reaches(outcome, d) {
      ChannelsApart(c, d, channelNumber, delivery);
      var j := ChannelFor(c, d);
      var packets := if outcome.ToChannel? then outcome.packets else [];
      GivenThroughConcat([Here(Makes(j))], Gifts(j, packets), i);
      assert [Here(Makes(j))][1..] == [];
      if j == i { GiftsGive(i, packets); } else { GiftsOfOther(j, packets, i); }
    }
  }

  lemma {:induction false} StreamCons(m: Message, rest: seq<Message>, i: uint8)
    requires Sendable(m) && Messages.AllSendable(rest)
    ensures Messages.AllSendable([m] + rest)
    ensures Messages.Stream([m] + rest, i) == PacketsOf(m, i) + Messages.Stream(rest, i)
  {
    assert ([m] + rest)[1..] == rest;
  }

  /** What the channel of a reliable method is given is the packets of the messages sent by that method, one after another. */
  lemma {:induction false} GivenIsSent(doings: seq<Doing>, places: nat, channelNumber: uint8, delivery: DeliveryMethod)
    requires AsSent(doings, places) && (delivery.ReliableOrdered? || delivery.ReliableUnordered?)
    ensures var ms, i := MessagesSent(doings, channelNumber, delivery), ChannelFor(channelNumber, delivery);
            Messages.AllSendable(ms) && GivenThrough(AllMoves(doings), i) == Messages.Stream(ms, i)
    decreases |doings|
  {
    if doings != [] {
      var i := ChannelFor(channelNumber, delivery);
      GivenIsSent(doings[1..], places, channelNumber, delivery);
      var rest := MessagesSent(doings[1..], channelNumber, delivery);
      match doings[0]
      case Sends(c, d, m, connected, outcome) =>
        SendGives(c, d, m, connected, outcome, places, channelNumber, delivery);
        GivenThroughConcat(SendMoves(outcome, c, d), AllMoves(doings[1..]), i);
        if outcome.ToChannel? && d == delivery && c % 64 == channelNumber % 64 {
          StreamCons(m, rest, i);
        } else {
          assert [] + rest == rest && [] + Messages.Stream(rest, i) == Messages.Stream(rest, i);
        }
      case Moves(m) =>
        GivenThroughConcat([m], AllMoves(doings[1..]), i);
        assert [m][1..] == [] && GivenThrough([m], i) == [];
        assert [] + rest == rest && [] + Messages.Stream(rest, i) == Messages.Stream(rest, i);
    }
  }

  /** What is sent reliably and in order arrives so: in every run of two peers, what the far peer's reassembly raises of the
      channel's packets is a prefix of the messages sent, under the user channel number they were sent to. */
  lemma {:induction false} SentInOrder(here: nat, there: nat, doings: seq<Doing>, channelNumber: uint8)
    requires var i := ChannelFor(channelNumber, ReliableOrdered);
             AsSent(doings, here) && i < here && i < there && AllInTime(Begin(here, there), AllMoves(doings), i)
    ensures var i, ms := ChannelFor(channelNumber, ReliableOrdered), MessagesSent(doings, channelNumber, ReliableOrdered);
            var log := RcvAt(Run(Begin(here, there), AllMoves(doings)).there, i).log;
            Reassembly.AddAll(map[], Payloads(log)).1 <=
              seq(|ms|, k requires 0 <= k < |ms| => Reassembly.ReceiveEvent(channelNumber % 64, ms[k].data))
  {
    var i, ms := ChannelFor(channelNumber, ReliableOrdered), MessagesSent(doings, channelNumber, ReliableOrdered);
    ChannelIsOfMethod(channelNumber, ReliableOrdered);
    GivenIsSent(doings, here, channelNumber, ReliableOrdered);
    OrderedMessages(here, there, AllMoves(doings), i, ms);
    assert Messages.Received(ms, i) ==
           seq(|ms|, k requires 0 <= k < |ms| => Reassembly.ReceiveEvent(channelNumber % 64, ms[k].data));
  }

  /** And what is sent reliably without order: exactly the messages all of whose packets were accepted, each once. */
  lemma {:induction false} SentOnce(here: nat, there: nat, doings: seq<Doing>, channelNumber: uint8)
    requires var i := ChannelFor(channelNumber, ReliableUnordered);
             AsSent(doings, here) && i < here && i < there && AllInTime(Begin(here, there), AllMoves(doings), i)
    requires var ms := MessagesSent(doings, channelNumber, ReliableUnordered);
             Messages.AllSendable(ms) && UnorderedMessages.IdsApart(UnorderedMessages.Items(ms))
    ensures var i, ms := ChannelFor(channelNumber, ReliableUnordered), MessagesSent(doings, channelNumber, ReliableUnordered);
            var rcv, xs := RcvAt(Run(Begin(here, there), AllMoves(doings)).there, i), UnorderedMessages.Items(ms);
            var done := UnorderedMessages.Finished(xs, rcv.log);
            && UnorderedMessages.AllIn(done, ms) && UnorderedMessages.Distinct(done)
            && Reassembly.AddAll(map[], Payloads(rcv.log)).1 ==
                 seq(|done|, k requires 0 <= k < |done| => Reassembly.ReceiveEvent(channelNumber % 64, ms[done[k]].data))
            && (forall k :: k in done <==> UnorderedMessages.AllAccepted(xs, k, rcv))
  {
    var i, ms := ChannelFor(channelNumber, ReliableUnordered), MessagesSent(doings, channelNumber, ReliableUnordered);
    ChannelIsOfMethod(channelNumber, ReliableUnordered);
    GivenIsSent(doings, here, channelNumber, ReliableUnordered);
    UnorderedMessagesExact(here, there, AllMoves(doings), i, ms);
    var done := UnorderedMessages.Finished(UnorderedMessages.Items(ms), RcvAt(Run(Begin(here, there), AllMoves(doings)).there, i).log);
    assert Messages.Received(UnorderedMessages.Chosen(ms, done), i) ==
           seq(|done|, k requires 0 <= k < |done| => Reassembly.ReceiveEvent(channelNumber % 64, ms[done[k]].data));
  }

  /** The moves of one call make of the peer what `Send` makes of it. */
  lemma {:induction false} SendIsMoves(c: Conversation, outcome: SendOutcome, channelNumber: uint8, delivery: DeliveryMethod)
    requires Fits(outcome, |c.here.channels|, channelNumber, delivery)
    ensures Run(c, SendMoves(outcome, channelNumber, delivery)) ==
            c.(here := AfterSend(c.here, outcome, channelNumber, delivery))
  {
    if Reaches(outcome, delivery) {
      var i := ChannelFor(channelNumber, delivery);
      var packets := if outcome.ToChannel? then outcome.packets else [];
      var made := Here(Makes(i));
      RunConcat(c, [made], Gifts(i, packets));
      assert [made][1..] == [];
      assert Run(Apply(c, made), []) == Apply(c, made);
      assert Run(c, [made]) == Apply(c, made) == c.(here := Made(c.here, i));
      if packets != [] {
        GiftsAreSent(c.(here := Made(c.here, i)), i, packets);
        assert Made(Made(c.here, i), i) == Made(c.here, i);
      }
    }
  }
}
