/** What two peers do with all their channels is, for each sequenced channel and each direction, a run of module Sequenced in
    which no acknowledgement reaches the sender. */
module SequencedRuns {
  import opened Sequence
  import opened Packets
  import opened ReliableSpec
  import opened Sequenced
  import opened Scheduling
  import opened Conversation
  import opened ChannelRuns

  function SeqSndAt(p: PeerState, i: uint8): SeqSender {
    if i < |p.channels| && StateAt(p, i).SequencedState? then StateAt(p, i).seqSnd
    else SeqStart(i % CHANNEL_TYPE_COUNT == RELIABLE_SEQUENCED, i, false).snd
  }

  function SeqRcvAt(p: PeerState, i: uint8): SeqReceiver {
    if i < |p.channels| && StateAt(p, i).SequencedState? then StateAt(p, i).seqRcv
    else SeqStart(i % CHANNEL_TYPE_COUNT == RELIABLE_SEQUENCED, i, false).rcv
  }

  predicate HasSeqPlace(c: Conversation, i: uint8) {
    i < |c.here.channels| && i < |c.there.channels| && i % 2 == 1
  }

  function SeqDataOf(l: Letter): SeqMessage
    requires l.datagram.Channeled?
  {
    SeqData(l.number, l.datagram.packet)
  }

  // All its acknowledgements carry channel id 0 and nothing else.
  function AckLetter(n: int): Letter {
    Letter(Ack(Wrap(n), ACK_CHANNEL, []), n)
  }

  /** The channel from this peer to the other is where the protocol is, its packets are those on the network, and its
      acknowledgements are there, too. */
  ghost predicate Shows(c: Conversation, i: uint8, s: SeqSystem) {
    && s.snd == SeqSndAt(c.here, i) && s.rcv == SeqRcvAt(c.there, i) && !s.routed && (s.scheduled <==> i in c.here.queue)
    && (forall l :: l in c.toThere && IsData(l, i) ==> SeqDataOf(l) in s.net)
    && (forall m :: m in s.net && m.SeqData? ==> exists l :: l in c.toThere && IsData(l, i) && SeqDataOf(l) == m)
    && (forall m :: m in s.net && m.SeqAckOf? ==> AckLetter(m.n) in c.toHere)
  }

  /** The assumption on distance: a packet of the channel that is read there is less than half the sequence space away from the
      last one taken. */
  predicate InReach(c: Conversation, m: Move, i: uint8) {
    m.There? && m.deed.Hears? && IsData(m.deed.letter, i) ==>
      -HALF_MAX_SEQUENCE <= m.deed.letter.number - SeqRcvAt(c.there, i).r < HALF_MAX_SEQUENCE
  }

  ghost predicate AllInReach(c: Conversation, moves: seq<Move>, i: uint8)
    decreases |moves|
  {
    moves == [] || (InReach(c, moves[0], i) && AllInReach(Apply(c, moves[0]), moves[1..], i))
  }

  ghost function SeqActions(c: Conversation, m: Move, i: uint8): seq<SeqAction>
    requires HasSeqPlace(c, i)
  {
    match m
    case Here(Gives(j, p)) => if j == i then [SeqEnqueue(p)] else []
    case Here(Updates(due, turns)) =>
      if |due| == |c.here.channels| && Emissions(c.here, due, turns) && i in c.here.queue then [SeqSenderTurn(due[i].last)] else []
    case Here(Hears(l)) =>
      if l in c.toHere && ChannelOf(l.datagram) == i && Wakes(StateAt(c.here, i), l.datagram) then [SeqWake] else []
    case There(Updates(due, turns)) =>
      if |due| == |c.there.channels| && Emissions(c.there, due, turns) && i in c.there.queue then [SeqReceiverTurn] else []
    case There(Hears(l)) =>
      if l in c.toThere && IsData(l, i) && l.datagram.packet.fragment.Whole? then [SeqToReceiver(SeqDataOf(l))] else []
    case _ => []
  }

  lemma OneSeqStep(s: SeqSystem, a: SeqAction)
    ensures SeqRun(s, [a]) == SeqApply(s, a)
  {
    assert [a][1..] == [];
    assert SeqRun(SeqApply(s, a), []) == SeqApply(s, a);
  }

  // ---- What a turn writes -----------------------------------------------------------------------

  // The letters of a sequenced turn: each packet under its number, then the acknowledgement owed.
  lemma SeqTurnAt(s: ChannelState, due: Elapsed, out: seq<Datagram>, i: uint8)
    requires s.SequencedState? && OfKind(i, s) && Emission(s, due, out)
    ensures var ns, t := SeqTransmitted(s.seqSnd, due.last), SeqTransmit(s.seqSnd);
            && |out| == |Numbers(s, due)| == |ns| + (if s.seqRcv.ackDue then 1 else 0)
            && (forall k {:trigger ns[k]} :: 0 <= k < |ns| ==>
                  && 1 <= ns[k] <= |t.sent| && out[k] == Channeled(Wrap(ns[k]), t.sent[ns[k] - 1])
                  && t.sent[ns[k] - 1].channel == i && Numbers(s, due)[k] == ns[k])
            && (s.seqRcv.ackDue ==> Letter(out[|ns|], Numbers(s, due)[|ns|]) == AckLetter(s.seqRcv.r))
  {
    SeqTurnExactly(s.seqSnd, due.last);
    var ns, t := SeqTransmitted(s.seqSnd, due.last), SeqTransmit(s.seqSnd);
    assert forall k :: 0 <= k < |t.sent| ==> t.sent[k].channel == i;
  }

  lemma SeqLetterOfTurn(s: ChannelState, due: Elapsed, out: seq<Datagram>, i: uint8, l: Letter)
    requires s.SequencedState? && OfKind(i, s) && Emission(s, due, out) && l in Letters(s, due, out) && l.datagram.Channeled?
    ensures IsData(l, i) && SeqDataOf(l) in SeqDataSent(s.seqSnd, due.last)
  {
    SeqTurnAt(s, due, out, i);
    var ns := SeqTransmitted(s.seqSnd, due.last);
    var k :| 0 <= k < |out| && l == Letter(out[k], Numbers(s, due)[k]);
    assert ns[k] in ns;
  }

  lemma SeqSentIsLetter(s: ChannelState, due: Elapsed, out: seq<Datagram>, i: uint8, m: SeqMessage) returns (l: Letter)
    requires s.SequencedState? && OfKind(i, s) && Emission(s, due, out) && m in SeqDataSent(s.seqSnd, due.last)
    ensures l in Letters(s, due, out) && IsData(l, i) && SeqDataOf(l) == m
  {
    SeqTurnAt(s, due, out, i);
    var ns := SeqTransmitted(s.seqSnd, due.last);
    var k :| 0 <= k < |ns| && ns[k] == m.n;
    l := Letter(out[k], Numbers(s, due)[k]);
  }

  lemma SeqAckIsLetter(s: ChannelState, due: Elapsed, out: seq<Datagram>, i: uint8)
    requires s.SequencedState? && OfKind(i, s) && Emission(s, due, out) && s.seqRcv.ackDue
    ensures AckLetter(s.seqRcv.r) in Letters(s, due, out)
  {
    SeqTurnAt(s, due, out, i);
    var n := |SeqTransmitted(s.seqSnd, due.last)|;
    assert Letter(out[n], Numbers(s, due)[n]) in Letters(s, due, out);
  }

  // The turn of a sequenced channel within an update.
  lemma SeqTurnOf(p: PeerState, due: seq<Elapsed>, turns: seq<seq<Datagram>>, i: uint8) returns (k: nat)
    requires PeerInv(p) && |due| == |p.channels| && i < |p.channels| && i % 2 == 1 && Emissions(p, due, turns) && i in p.queue
    ensures p.channels[i].Some? && p.channels[i].value.SequencedState? && OfKind(i, p.channels[i].value)
    ensures k < |turns| && p.queue[k] == i && Emission(p.channels[i].value, due[i], turns[k])
    ensures forall l :: l in Letters(p.channels[i].value, due[i], turns[k]) ==> l in Written(p, due, turns)
  {
    k :| 0 <= k < |p.queue| && p.queue[k] == i;
    assert EmissionAt(p, due, k, turns[k]);
    forall l | l in Letters(p.channels[i].value, due[i], turns[k])
      ensures l in Written(p, due, turns)
    {
      assert IsWritten(p, due, turns, k, l);
    }
  }

  lemma SeqWrittenIsSent(p: PeerState, due: seq<Elapsed>, turns: seq<seq<Datagram>>, i: uint8, l: Letter)
    requires PeerInv(p) && |due| == |p.channels| && i < |p.channels| && i % 2 == 1 && Emissions(p, due, turns)
    requires l in Written(p, due, turns) && IsData(l, i)
    ensures i in p.queue && SeqDataOf(l) in SeqDataSent(SeqSndAt(p, i), due[i].last)
  {
    var k :| IsWritten(p, due, turns, k, l);
    assert EmissionAt(p, due, k, turns[k]);
    var j := p.queue[k];
    EmissionIsFromChannel(j, p.channels[j].value, due[j], turns[k], l);
    SeqLetterOfTurn(p.channels[i].value, due[i], turns[k], i, l);
  }

  // ---- What each deed does to the two halves ----------------------------------------------------

  lemma SeqUpdatedHalves(p: PeerState, due: seq<Elapsed>, turns: seq<seq<Datagram>>, i: uint8)
    requires PeerInv(p) && |due| == |p.channels| && i < |p.channels| && i % 2 == 1 && Emissions(p, due, turns)
    ensures var q := Updated(p, due);
            && SeqSndAt(q, i) == (if i in p.queue then SeqTransmit(SeqSndAt(p, i)) else SeqSndAt(p, i))
            && SeqRcvAt(q, i) == (if i in p.queue then SeqRcvAt(p, i).(ackDue := false) else SeqRcvAt(p, i))
            && (i in q.queue <==> i in p.queue && SeqTransmit(SeqSndAt(p, i)).last.Some?)
  {
    var q := Updated(p, due);
    if i in q.queue { AskersOnly(p.queue, p.channels, due, i); }
    if i in p.queue {
      var k := SeqTurnOf(p, due, turns, i);
      if Again(p.channels[i].value, due[i]) { AskersHas(p.queue, p.channels, due, i); }
    }
  }

  lemma SeqHeardHalves(p: PeerState, d: Datagram, i: uint8)
    requires PeerInv(p) && i < |p.channels| && i % 2 == 1 && d.sequence < MAX_SEQUENCE && (ChannelOf(d) == i ==> d.Channeled?)
    ensures var q, mine := Heard(p, d), ChannelOf(d) == i;
            && SeqSndAt(q, i) == SeqSndAt(p, i)
            && SeqRcvAt(q, i) == (if mine && d.packet.fragment.Whole?
                                  then SeqReceive(SeqRcvAt(p, i), Unwrap(d.sequence, SeqRcvAt(p, i).r), d.packet)
                                  else SeqRcvAt(p, i))
            && (i in q.queue <==> i in p.queue || (mine && Wakes(StateAt(p, i), d)))
  {
    assert p.channels[i].Some? ==> OfKind(i, p.channels[i].value);
  }

  lemma SeqGivenHalves(p: PeerState, j: uint8, packet: Packet, i: uint8)
    requires PeerInv(p) && i < |p.channels| && i % 2 == 1 && j < |p.channels|
    ensures var q := Given(p, j, packet);
            && SeqSndAt(q, i) == (if j == i then SeqSndAt(p, i).(queue := SeqSndAt(p, i).queue + [packet]) else SeqSndAt(p, i))
            && SeqRcvAt(q, i) == SeqRcvAt(p, i) && (i in q.queue <==> i in p.queue || j == i)
    ensures var q := Made(p, j); SeqSndAt(q, i) == SeqSndAt(p, i) && SeqRcvAt(q, i) == SeqRcvAt(p, i) && q.queue == p.queue
  {
    assert p.channels[i].Some? ==> OfKind(i, p.channels[i].value);
  }

  // ---- Every move is a step of the protocol, or none --------------------------------------------

  lemma HereUpdatesSeq(c: Conversation, due: seq<Elapsed>, turns: seq<seq<Datagram>>, i: uint8, s: SeqSystem)
    requires Inv(c) && HasSeqPlace(c, i) && Shows(c, i, s) && |due| == |c.here.channels| && Emissions(c.here, due, turns)
    ensures Shows(Act(c, Updates(due, turns)), i, if i in c.here.queue then SeqApply(s, SeqSenderTurn(due[i].last)) else s)
  {
    SeqUpdatedHalves(c.here, due, turns, i);
    var d := Act(c, Updates(due, turns));
    var t := if i in c.here.queue then SeqApply(s, SeqSenderTurn(due[i].last)) else s;
    forall l | l in d.toThere && IsData(l, i)
      ensures SeqDataOf(l) in t.net
    {
      if l !in c.toThere { SeqWrittenIsSent(c.here, due, turns, i, l); }
    }
    forall m | m in t.net && m.SeqData?
      ensures exists l :: l in d.toThere && IsData(l, i) && SeqDataOf(l) == m
    {
      if m !in s.net {
        var k := SeqTurnOf(c.here, due, turns, i);
        var l := SeqSentIsLetter(c.here.channels[i].value, due[i], turns[k], i, m);
        assert l in d.toThere;
      }
    }
  }

  lemma ShowsReceiverTurn(c: Conversation, d: Conversation, i: uint8, s: SeqSystem, turn: bool)
    requires Shows(c, i, s) && d.here == c.here && d.toThere == c.toThere && c.toHere <= d.toHere
    requires SeqRcvAt(d.there, i) == if turn then s.rcv.(ackDue := false) else s.rcv
    requires turn && s.rcv.ackDue ==> AckLetter(s.rcv.r) in d.toHere
    ensures Shows(d, i, if turn then SeqApply(s, SeqReceiverTurn) else s)
  {}

  lemma ThereUpdatesSeq(c: Conversation, due: seq<Elapsed>, turns: seq<seq<Datagram>>, i: uint8, s: SeqSystem)
    requires Inv(c) && HasSeqPlace(c, i) && Shows(c, i, s) && |due| == |c.there.channels| && Emissions(c.there, due, turns)
    ensures Shows(Apply(c, There(Updates(due, turns))), i, if i in c.there.queue then SeqApply(s, SeqReceiverTurn) else s)
  {
    var d := Conversation(c.here, Updated(c.there, due), c.toHere + Written(c.there, due, turns), c.toThere);
    assert Apply(c, There(Updates(due, turns))) == d;
    SeqUpdatedHalves(c.there, due, turns, i);
    if i in c.there.queue {
      var k := SeqTurnOf(c.there, due, turns, i);
      if SeqRcvAt(c.there, i).ackDue { SeqAckIsLetter(c.there.channels[i].value, due[i], turns[k], i); }
    }
    ShowsReceiverTurn(c, d, i, s, i in c.there.queue);
  }

  lemma HearsSeq(c: Conversation, m: Move, i: uint8, s: SeqSystem)
    requires Inv(c) && HasSeqPlace(c, i) && SeqInv(s) && Shows(c, i, s) && InReach(c, m, i) && m.deed.Hears?
    requires if m.Here? then m.deed.letter in c.toHere else m.deed.letter in c.toThere
    ensures Shows(Apply(c, m), i, SeqRun(s, SeqActions(c, m, i)))
  {
    var l := m.deed.letter;
    var j :| 0 <= j && FromChannel(j, l);
    if m.Here? {
      SeqHeardHalves(c.here, l.datagram, i);
      OneSeqStep(s, SeqWake);
    } else {
      SeqHeardHalves(c.there, l.datagram, i);
      if IsData(l, i) && l.datagram.packet.fragment.Whole? {
        OneSeqStep(s, SeqToReceiver(SeqDataOf(l)));
        ReadAsMeant(s, SeqDataOf(l));
      }
    }
  }

  /** A move of either peer is, for each sequenced channel, one step of its protocol or none. */
  lemma MoveIsSeqStep(c: Conversation, m: Move, i: uint8, s: SeqSystem)
    requires Inv(c) && HasSeqPlace(c, i) && SeqInv(s) && Shows(c, i, s) && InReach(c, m, i)
    ensures Shows(Apply(c, m), i, SeqRun(s, SeqActions(c, m, i)))
  {
    match m
    case Here(Makes(j)) => if j < |c.here.channels| { SeqGivenHalves(c.here, j, Packet(0, Whole, []), i); }
    case There(Makes(j)) => if j < |c.there.channels| { SeqGivenHalves(c.there, j, Packet(0, Whole, []), i); }
    case Here(Gives(j, p)) =>
      if j < |c.here.channels| { SeqGivenHalves(c.here, j, p, i); }
      OneSeqStep(s, SeqEnqueue(p));
    case There(Gives(j, p)) => if j < |c.there.channels| { SeqGivenHalves(c.there, j, p, i); }
    case Here(Updates(due, turns)) =>
      if |due| == |c.here.channels| && Emissions(c.here, due, turns) {
        HereUpdatesSeq(c, due, turns, i, s);
        OneSeqStep(s, SeqSenderTurn(due[i].last));
      }
    case There(Updates(due, turns)) =>
      if |due| == |c.there.channels| && Emissions(c.there, due, turns) {
        ThereUpdatesSeq(c, due, turns, i, s);
        OneSeqStep(s, SeqReceiverTurn);
      }
    case Here(Hears(l)) => if l in c.toHere { HearsSeq(c, m, i, s); }
    case There(Hears(l)) => if l in c.toThere { HearsSeq(c, m, i, s); }
  }

  // ---- Every run --------------------------------------------------------------------------------

  ghost function AllSeqActions(c: Conversation, moves: seq<Move>, i: uint8): seq<SeqAction>
    requires Inv(c) && HasSeqPlace(c, i)
    decreases |moves|
  {
    if moves == [] then []
    else
      ApplyKeepsInv(c, moves[0]);
      SeqActions(c, moves[0], i) + AllSeqActions(Apply(c, moves[0]), moves[1..], i)
  }

  lemma {:induction false} SeqRunConcat(s: SeqSystem, a: seq<SeqAction>, b: seq<SeqAction>)
    ensures SeqRun(s, a + b) == SeqRun(SeqRun(s, a), b)
    decreases |a|
  {
    if a == [] {
      assert a + b == b;
    } else {
      assert (a + b)[1..] == a[1..] + b;
      SeqRunConcat(SeqApply(s, a[0]), a[1..], b);
    }
  }

  lemma {:induction false} RunIsSeqRun(c: Conversation, moves: seq<Move>, i: uint8, s: SeqSystem)
    requires Inv(c) && HasSeqPlace(c, i) && SeqInv(s) && Shows(c, i, s) && AllInReach(c, moves, i)
    ensures Shows(Run(c, moves), i, SeqRun(s, AllSeqActions(c, moves, i)))
    decreases |moves|
  {
    if moves != [] {
      var actions := SeqActions(c, moves[0], i);
      MoveIsSeqStep(c, moves[0], i, s);
      SeqRunKeepsInv(s, actions);
      ApplyKeepsInv(c, moves[0]);
      RunIsSeqRun(Apply(c, moves[0]), moves[1..], i, SeqRun(s, actions));
      SeqRunConcat(s, actions, AllSeqActions(Apply(c, moves[0]), moves[1..], i));
    }
  }

  // What has been given to the channel, as it is or will be sent.
  function SeqOffered(s: SeqSender): seq<Packet> {
    s.sent + StampAll(s.queue, s.id)
  }

  lemma SeqMoveOffers(c: Conversation, m: Move, i: uint8)
    requires Inv(c) && HasSeqPlace(c, i)
    ensures var before, after := SeqSndAt(c.here, i), SeqSndAt(Apply(c, m).here, i);
            SeqOffered(after) == SeqOffered(before) + GivenThrough([m], i) && after.id == before.id
  {
    assert [m][1..] == [] && GivenThrough([], i) == [];
    match m
    case There(_) =>
    case Here(Makes(j)) => if j < |c.here.channels| { SeqGivenHalves(c.here, j, Packet(0, Whole, []), i); }
    case Here(Gives(j, p)) => if j < |c.here.channels| { SeqGivenHalves(c.here, j, p, i); }
    case Here(Updates(due, turns)) =>
      if |due| == |c.here.channels| && Emissions(c.here, due, turns) { SeqUpdatedHalves(c.here, due, turns, i); }
    case Here(Hears(l)) =>
      if l in c.toHere {
        var j :| 0 <= j && FromChannel(j, l);
        SeqHeardHalves(c.here, l.datagram, i);
      }
  }

  lemma {:induction false} SeqRunOffers(c: Conversation, moves: seq<Move>, i: uint8)
    requires Inv(c) && HasSeqPlace(c, i)
    ensures SeqOffered(SeqSndAt(Run(c, moves).here, i)) == SeqOffered(SeqSndAt(c.here, i)) + GivenThrough(moves, i)
    decreases |moves|
  {
    if moves != [] {
      SeqMoveOffers(c, moves[0], i);
      ApplyKeepsInv(c, moves[0]);
      SeqRunOffers(Apply(c, moves[0]), moves[1..], i);
      assert moves == [moves[0]] + moves[1..];
      GivenThroughFirst(moves, i);
    }
  }

  lemma GivenThroughFirst(moves: seq<Move>, i: uint8)
    requires moves != []
    ensures GivenThrough(moves, i) == GivenThrough([moves[0]], i) + GivenThrough(moves[1..], i)
  {
    assert [moves[0]][1..] == [];
  }

  lemma BeginShows(here: nat, there: nat, i: uint8)
    requires i < here && i < there && i % 2 == 1
    ensures var c, s := Begin(here, there), SeqStart(i % CHANNEL_TYPE_COUNT == RELIABLE_SEQUENCED, i, false);
            Inv(c) && HasSeqPlace(c, i) && Shows(c, i, s) && SeqInv(s) && SeqOffered(SeqSndAt(c.here, i)) == []
  {}

  // The state reached is one of the protocol's.
  lemma Reached(here: nat, there: nat, moves: seq<Move>, i: uint8) returns (actions: seq<SeqAction>)
    requires i < here && i < there && i % 2 == 1 && AllInReach(Begin(here, there), moves, i)
    ensures var s := SeqRun(SeqStart(i % CHANNEL_TYPE_COUNT == RELIABLE_SEQUENCED, i, false), actions);
            Shows(Run(Begin(here, there), moves), i, s) && SeqInv(s)
  {
    var c, s := Begin(here, there), SeqStart(i % CHANNEL_TYPE_COUNT == RELIABLE_SEQUENCED, i, false);
    BeginShows(here, there, i);
    RunIsSeqRun(c, moves, i, s);
    actions := AllSeqActions(c, moves, i);
    SeqRunKeepsInv(s, actions);
  }

  lemma SentOfGiven(here: nat, there: nat, moves: seq<Move>, i: uint8)
    requires i < here && i < there && i % 2 == 1
    ensures SeqSndAt(Run(Begin(here, there), moves).here, i).sent <= GivenThrough(moves, i)
  {
    BeginShows(here, there, i);
    SeqRunOffers(Begin(here, there), moves, i);
    var snd := SeqSndAt(Run(Begin(here, there), moves).here, i);
    assert [] + GivenThrough(moves, i) == GivenThrough(moves, i);
    assert snd.sent <= SeqOffered(snd);
  }

  lemma LastIsKept(here: nat, there: nat, moves: seq<Move>, i: uint8)
    requires i < here && i < there && i % CHANNEL_TYPE_COUNT == RELIABLE_SEQUENCED
    ensures var snd := SeqSndAt(Run(Begin(here, there), moves).here, i); snd.sent != [] ==> snd.last.Some?
  {
    AcknowledgedNever(here, there, moves, i);
    RunKeepsInv(Begin(here, there), moves);
  }

  /** In every run of two peers with all their channels: what a sequenced channel hands on are packets that were given to it, in
      the order in which they were given and none twice; and a reliable one keeps its last packet for ever. */
  lemma SequencedChannelsDeliver(here: nat, there: nat, moves: seq<Move>, i: uint8)
    requires i < here && i < there && i % 2 == 1 && AllInReach(Begin(here, there), moves, i)
    ensures var c := Run(Begin(here, there), moves);
            var log, snd := SeqRcvAt(c.there, i).log, SeqSndAt(c.here, i);
            && snd.sent <= GivenThrough(moves, i)
            && (forall j, k :: 0 <= j < k < |log| ==> log[j].n < log[k].n)
            && (forall k :: 0 <= k < |log| ==> 1 <= log[k].n <= |snd.sent| && log[k].packet == snd.sent[log[k].n - 1])
            && (i % CHANNEL_TYPE_COUNT == RELIABLE_SEQUENCED && snd.sent != [] ==> snd.last == Some(|snd.sent|))
  {
    var actions := Reached(here, there, moves, i);
    SentOfGiven(here, there, moves, i);
    if i % CHANNEL_TYPE_COUNT == RELIABLE_SEQUENCED { LastIsKept(here, there, moves, i); }
  }
}
