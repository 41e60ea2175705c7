/** Two real peers with all their channels, and the datagrams between them: what they do is a run of module Conversation, so
    its theorems, and those of every channel, hold of them. */
module Talk {
  import opened Packets
  import opened Fragments
  import opened ReliableSpec
  import opened Scheduling
  import opened Conversation
  import opened ChannelRuns
  import opened Sending
  import Reassembly

  ghost predicate Apart(me: PeerChannels, other: PeerChannels)
    reads me, me.Repr(), other, other.Repr()
  {
    && me.Valid() && other.Valid() && me != other
    && me !in other.Repr() && other !in me.Repr() && me.Repr() !! other.Repr()
  }

  // A sender for a peer with so many places.
  predicate CanSend(sender: FragmentSender, places: nat)
    reads sender
  {
    sender.channelCount == places && Usable(sender.mtu) && sender.fragmentId >= 0
  }

  method SendAt(sender: FragmentSender, me: PeerChannels, other: PeerChannels, data: seq<byte>, channelNumber: uint8,
      delivery: DeliveryMethod) returns (outcome: SendOutcome)
    requires Apart(me, other) && CanSend(sender, |me.channels|) && sender !in me.Repr() && sender !in other.Repr()
    modifies sender`fragmentId, me, me.Repr()
    ensures Apart(me, other) && other.View() == old(other.View()) && fresh(me.Repr() - old(me.Repr()))
    ensures Answers(outcome, sender.connected, sender.channelCount,
                    Message((old(sender.fragmentId) + 1) % 0x1_0000, sender.mtu, data), channelNumber, delivery)
    ensures Fits(outcome, |old(me.channels)|, channelNumber, delivery)
    ensures me.View() == AfterSend(old(me.View()), outcome, channelNumber, delivery)
  {
    outcome := Send(sender, me, data, channelNumber, delivery);
    other.KeptApart(me);
  }

  method HearAt(me: PeerChannels, other: PeerChannels, d: Datagram) returns (delivered: seq<Packet>, outside: bool)
    requires Apart(me, other)
    modifies me, me.Repr()
    ensures Apart(me, other) && other.View() == old(other.View()) && me.View() == Heard(old(me.View()), d)
    ensures fresh(me.Repr() - old(me.Repr()))
  {
    delivered, outside := me.ProcessPacket(d);
    other.KeptApart(me);
  }

  method UpdateAt(me: PeerChannels, other: PeerChannels, due: seq<Elapsed>) returns (turns: seq<seq<Datagram>>)
    requires Apart(me, other) && |due| == |me.channels|
    modifies me, me.Repr()
    ensures Apart(me, other) && other.View() == old(other.View()) && me.View() == Updated(old(me.View()), due)
    ensures me.Repr() == old(me.Repr()) && Emissions(old(me.View()), due, turns)
  {
    turns := me.Update(due);
    assert me.Repr() == old(me.Repr());
    other.StillValid();
  }

  lemma {:induction false} OneMove(c: Conversation, m: Move)
    ensures Run(c, [m]) == Apply(c, m)
  {
    assert [m][1..] == [];
    assert Run(Apply(c, m), []) == Apply(c, m);
  }

  class Talk {
    const here: PeerChannels
    const there: PeerChannels
    const places: (nat, nat) // how many there are here and there

    ghost var toHere: set<Letter>
    ghost var toThere: set<Letter>
    ghost var history: seq<Move>

    ghost function View(): Conversation
      reads this, here, there
    {
      Conversation(here.View(), there.View(), toHere, toThere)
    }

    /** The state reached is the one the conversation reaches by the same moves. */
    ghost predicate Valid()
      reads this, here, here.Repr(), there, there.Repr()
    {
      && Apart(here, there) && this !in here.Repr() && this !in there.Repr()
      && |here.channels| == places.0 && |there.channels| == places.1
      && View() == Run(Begin(places.0, places.1), history)
    }

    constructor (placesHere: nat, placesThere: nat)
      ensures Valid() && history == [] && places == (placesHere, placesThere)
    {
      here := new PeerChannels(placesHere);
      there := new PeerChannels(placesThere);
      places, toHere, toThere, history := (placesHere, placesThere), {}, {}, [];
    }

    // Notes the moves that have brought the peers where the conversation goes.
    ghost method Record(before: Conversation, moves: seq<Move>, toHereNow: set<Letter>, toThereNow: set<Letter>)
      requires Apart(here, there) && this !in here.Repr() && this !in there.Repr() && before == Run(Begin(places.0, places.1), history)
      requires Run(before, moves) == Conversation(here.View(), there.View(), toHereNow, toThereNow)
      requires |here.channels| == places.0 && |there.channels| == places.1
      modifies this`history, this`toHere, this`toThere
      ensures Valid() && history == old(history) + moves
    {
      RunConcat(Begin(places.0, places.1), history, moves);
      history, toHere, toThere := history + moves, toHereNow, toThereNow;
    }

    /** The application of one peer sends a message. */
    method HereSends(sender: FragmentSender, data: seq<byte>, channelNumber: uint8, delivery: DeliveryMethod)
        returns (outcome: SendOutcome)
      requires Valid() && CanSend(sender, places.0) && sender !in here.Repr() && sender !in there.Repr()
      modifies sender`fragmentId, this, here, here.Repr()
      ensures Answers(outcome, sender.connected, places.0,
                      Message((old(sender.fragmentId) + 1) % 0x1_0000, sender.mtu, data), channelNumber, delivery)
      ensures Valid() && history == old(history) + SendMoves(outcome, channelNumber, delivery)
    {
      ghost var before := View();
      outcome := SendAt(sender, here, there, data, channelNumber, delivery);
      SendIsMoves(before, outcome, channelNumber, delivery);
      Record(before, SendMoves(outcome, channelNumber, delivery), toHere, toThere);
    }

    method ThereSends(sender: FragmentSender, data: seq<byte>, channelNumber: uint8, delivery: DeliveryMethod)
        returns (outcome: SendOutcome)
      requires Valid() && CanSend(sender, places.1) && sender !in here.Repr() && sender !in there.Repr()
      modifies sender`fragmentId, this, there, there.Repr()
      ensures Answers(outcome, sender.connected, places.1,
                      Message((old(sender.fragmentId) + 1) % 0x1_0000, sender.mtu, data), channelNumber, delivery)
      ensures Valid() && history == old(history) + Mirrored(SendMoves(outcome, channelNumber, delivery))
    {
      ghost var before := View();
      outcome := SendAt(sender, there, here, data, channelNumber, delivery);
      SendIsMoves(Swapped(before), outcome, channelNumber, delivery);
      RunMirrored(Swapped(before), SendMoves(outcome, channelNumber, delivery), 0);
      Record(before, Mirrored(SendMoves(outcome, channelNumber, delivery)), toHere, toThere);
    }

    /** An update of one peer. */
    method HereUpdates(due: seq<Elapsed>) returns (turns: seq<seq<Datagram>>)
      requires Valid() && |due| == places.0
      modifies this, here, here.Repr()
      ensures Valid() && history == old(history) + [Here(Updates(due, turns))]
    {
      ghost var before := View();
      turns := UpdateAt(here, there, due);
      OneMove(before, Here(Updates(due, turns)));
      Record(before, [Here(Updates(due, turns))], toHere, toThere + Written(before.here, due, turns));
    }

    method ThereUpdates(due: seq<Elapsed>) returns (turns: seq<seq<Datagram>>)
      requires Valid() && |due| == places.1
      modifies this, there, there.Repr()
      ensures Valid() && history == old(history) + [There(Updates(due, turns))]
    {
      ghost var before := View();
      turns := UpdateAt(there, here, due);
      OneMove(before, There(Updates(due, turns)));
      Record(before, [There(Updates(due, turns))], toHere + Written(before.there, due, turns), toThere);
    }

    /** Any datagram that was ever sent to one peer arrives. */
    method HereHears(d: Datagram, ghost l: Letter) returns (delivered: seq<Packet>, outside: bool)
      requires Valid() && l in toHere && l.datagram == d
      modifies this, here, here.Repr()
      ensures Valid() && history == old(history) + [Here(Hears(l))]
    {
      ghost var before := View();
      OneMove(before, Here(Hears(l)));
      delivered, outside := HearAt(here, there, d);
      Record(before, [Here(Hears(l))], toHere, toThere);
    }

    method ThereHears(d: Datagram, ghost l: Letter) returns (delivered: seq<Packet>, outside: bool)
      requires Valid() && l in toThere && l.datagram == d
      modifies this, there, there.Repr()
      ensures Valid() && history == old(history) + [There(Hears(l))]
    {
      ghost var before := View();
      OneMove(before, There(Hears(l)));
      delivered, outside := HearAt(there, here, d);
      Record(before, [There(Hears(l))], toHere, toThere);
    }

    /** Whatever the two did so far and the network did to them: every reliable channel they share has kept its promise in both
        directions, and every reliable sequenced one repeats its last packet. */
    lemma Kept(i: uint8)
      requires Valid() && i < places.0 && i < places.1
      ensures i % 2 == 0 && AllInTime(Begin(places.0, places.1), history, i) ==>
                && Delivers(Project(View(), i), GivenThrough(history, i))
                && Delivers(Project(Swapped(View()), i), GivenThrough(Mirrored(history), i))
      ensures i % CHANNEL_TYPE_COUNT == RELIABLE_SEQUENCED && here.states[i].Some? ==>
                && here.states[i].value.SequencedState?
                && (here.states[i].value.seqSnd.sent != [] ==> Repeating(here.View(), i))
    {
      if i % 2 == 0 && AllInTime(Begin(places.0, places.1), history, i) {
        EveryChannelDelivers(places.0, places.1, history, i);
      }
      AcknowledgedNever(places.0, places.1, history, i);
    }

    /** And what the application here sent reliably and in order is what the far one receives, as far as it goes: the same bytes
        in the same order, under the same user channel number. */
    lemma KeptInOrder(doings: seq<Doing>, channelNumber: uint8)
      requires Valid() && history == AllMoves(doings) && AsSent(doings, places.0)
      requires var i := ChannelFor(channelNumber, ReliableOrdered);
               i < places.0 && i < places.1 && AllInTime(Begin(places.0, places.1), history, i)
      ensures var i, ms := ChannelFor(channelNumber, ReliableOrdered), MessagesSent(doings, channelNumber, ReliableOrdered);
              Reassembly.AddAll(map[], Payloads(RcvAt(there.View(), i).log)).1 <=
                seq(|ms|, k requires 0 <= k < |ms| => Reassembly.ReceiveEvent(channelNumber % 64, ms[k].data))
    {
      SentInOrder(places.0, places.1, doings, channelNumber);
    }
  }
}
