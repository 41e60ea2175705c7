# LiteNetLib++ in Dafny

A model of the protocol logic of LiteNetLib++, a reliable-UDP library, with proofs of what it promises: that messages arrive
whole, once and in order over a network that loses, repeats and reorders datagrams, and that the bookkeeping around
that, from bitmaps to peer tables, never goes wrong. `dafny verify dfyconfig.toml` checks all of it.

Each part comes in up to three layers: functions that say what one step does, on unbounded numbers where the
implementation counts modulo 32768; a system of both ends and the network, with theorems over all its runs; and a
class with the implementation's own fields, loops and modular arithmetic, each method proved to take the step of the functions.

| file | what it holds |
|---|---|
| `Sequence.dfy`, `Packets.dfy`, `Bitmap.dfy`, `Header.dfy` | wrapped sequence numbers, packets, the acknowledgement bitmap, the header byte |
| `ReliableSpec.dfy` | one step of the reliable channel's sender and receiver, on unbounded numbers |
| `ReliableProtocol.dfy` | both ends and the network: delivery, acknowledgements, and when a channel can still finish |
| `NetReliableChannel.dfy` | the class: modular counters, bitmap bytes, slot arrays |
| `ReliableLink.dfy` | two real channels and the datagrams between them |
| `Fragments.dfy`, `Reassembly.dfy`, `Arrivals.dfy` | splitting messages, and putting fragments together in any order of arrival |
| `Messages.dfy`, `UnorderedMessages.dfy` | fragments over the ordered channel: whole messages in order; and over the unordered one: whole messages once |
| `Merge.dfy` | packing packets into datagrams and parsing them |
| `Sequenced.dfy`, `SequencedLink.dfy` | the sequenced channel, in the same layers, and two real ones with the datagrams between them |
| `Scheduling.dfy`, `Sending.dfy` | a peer's channels, the queue of those that wait to send, and what sending a message does to them |
| `Conversation.dfy`, `Talk.dfy` | two peers with all their channels and the datagrams between them; and two real ones |
| `ChannelRuns.dfy`, `SequencedRuns.dfy` | each reliable channel of a conversation, in either direction, runs the protocol of `ReliableProtocol.dfy`, and each sequenced one that of `Sequenced.dfy` |
| `PeerTable.dfy` | the manager's list, map and array of peers, and the ids |
| `Lifecycle.dfy`, `Connections.dfy`, `Entries.dfy` | connecting and disconnecting: states, requests, events; the class; and what each thing that can happen comes to, at one manager and between two |
| `Mtu.dfy`, `Timers.dfy` | MTU discovery; timers that add up over updates |

W and R stand for the receiver's window start and next expected number, lws and ls for the sender's window start and
next number, all unwrapped.

Where something one would expect does not hold of the code, the code is kept and the exact condition is proved:

- An unacknowledged packet does not keep its channel in the send queue (`UnacknowledgedKeepsTurn`, `LostPacketLosesTurn`), and
  so a reliable channel can wedge (`OneLostPacketWedges`): once its datagrams are lost, the rest arrives exactly if the channel waits to send
  (`ArrivesUnlessIdle`, `WindowEmptiesUnlessIdle`, `EverythingCanBeDelivered`, `MessagesCanAllArrive`), until the application
  or the other direction gives it something to send.
- A merged datagram never gets the peer's connection number, so it is read only under number 0: `NoneMergedExactly`,
  `ReceivedExactly`, `MergeRoundTrip`, `MergedPacketsLost`.
- The acknowledgement of the sequenced channel never gets its channel id, so it goes to channel 0, and the reliable sequenced
  channel repeats its last packet for ever: `AcknowledgedNever`, `RepeatsForEver`. The theorems about freeing the last
  packet take routing as a parameter.
- SHUTDOWN_OK never ends a shutdown, the clock does: `ShutdownOkIgnored`, `EndsByTheClock`, `LeavesTheTable`.
- `send` checks the user channel number against the number of places, of which each user channel has four, and so some
  numbers that pass name a place past the last: `PlaceExactly`, `SecondChannelHasNoPlace`; of the ids of arriving packets
  exactly one does: `GuardLetsOneThrough`. The implementation reads out of bounds there; the model says where, and stops.
- Two peers that dial each other at the same moment may both give way: `WhoGivesWay`, `BothGiveWay`.
- MTU discovery stops after three steps unless the far end probes too, and does not start at all under a connection number
  other than 0, which its packets never carry: `ReachableAlone`, `ReachableMtu`. A change of network takes the MTU back to
  508 but does not start discovery again, so an end that had finished stays there: `ResetForGood`.
- The array of header sizes lists 17 of 18 packet kinds, so those after DISCONNECT take the next one's size and the last takes 0; `Header` keeps that.

Assumptions, all of them parameters or preconditions of the members that need them:

- A datagram that arrives is at most 16384 numbers behind the sender (`ReliableLink.Link.ArriveAtReceiver`,
  `ArriveAtSender`; `SequencedLink.Link` assumes the same of the distances it reads). The channel class itself needs no such assumption: it reads every number as the nearest to its own counters.
  `ChannelRuns.EveryChannelDelivers` and `SequencedRuns.SequencedChannelsDeliver` assume it of the letters of the one channel they speak of.
- Two incomplete messages of one peer have different fragment ids (`Arrivals.Legal`). Of one unordered channel it is proved: `UnorderedMessages`
  asks for different ids only of messages at most 64 apart, which consecutive ids have.
- Which resend delays have elapsed, whether the socket took a packet, and the time that passed are arguments of the step.
- Steps are atomic: each public call, each packet that arrives and each update is one.

## Model

| member | source | states |
|---|---|---|
| ReliableProtocol.OrderedDelivery | src/lnl/channels/net_reliable_channel.cpp:5-190 | In every run over a network that loses, repeats and reorders, what the ordered channel hands to its peer is exactly the packets below the next expected number, a prefix of what was queued: no gap, repeat or reordering; the two windows agree in every state |
| ReliableProtocol.RunKeepsInv | src/lnl/channels/net_reliable_channel.cpp:17-177 | Every run keeps the cross-endpoint invariant W <= lws <= R <= ls <= lws + 64 and R <= W + 64, though each end learns only from possibly stale datagrams |
| ReliableProtocol.UnorderedDelivery | src/lnl/channels/net_reliable_channel.cpp:53-102 | In every run of the unordered mode each accepted number is delivered once, at once, with the packet sent under it; R is the least number not delivered and the early flags are exactly the delivered numbers above it |
| ReliableProtocol.AcksAreSound | src/lnl/channels/net_reliable_channel.cpp:105-146 | In every run a pending packet is freed only if the receiver accepted that number, each at most once, everything below the local window start has been freed, and the start itself never has |
| ReliableProtocol.RunKeepsAcksOrdered | src/lnl/channels/net_reliable_channel.cpp:140-144 | Acknowledgements of one receiver form a chain, whichever are lost, repeated or overtaken; so although freeing the first packet moves the window start by one number only, it never comes to rest on a number freed before |
| ReliableProtocol.NoLivePacketRefused | src/lnl/channels/net_reliable_channel.cpp:17-69 | A packet the sender still holds passes all three guards of the receiver, is accepted or recognised, and an acknowledgement is owed either way |
| ReliableProtocol.EveryArrivalAnswered | src/lnl/channels/net_reliable_channel.cpp:17-69 | Any packet in reach, new or repeated, is answered by the next turn of the receiving channel, and the answer reports it |
| ReliableProtocol.CanAlwaysFinish | src/lnl/channels/net_reliable_channel.cpp:148-212 | A channel that waits to send can empty its queue and its window and deliver everything, with nothing on the network to begin with: every packet that is not acknowledged is sent again |
| ReliableProtocol.ArrivesUnlessIdle | src/lnl/channels/net_reliable_channel.cpp:189-204 | All datagrams are lost and nobody does anything for the channel any more: then what was given to it can still all arrive if and only if it waits in the send queue or all has arrived |
| ReliableProtocol.WindowEmptiesUnlessIdle | src/lnl/channels/net_reliable_channel.cpp:105-204 | In the same situation the window can be emptied if and only if the channel waits, the window is empty, or the receiver has everything and owes the acknowledgement |
| ReliableProtocol.OneLostPacketWedges | src/lnl/channels/net_reliable_channel.cpp:193-210 | The run that wedges: one packet is given, sent and lost, and the next turn comes before its resend delay is over; then nothing that is already there brings it across |
| ReliableProtocol.EverythingCanBeDelivered | src/lnl/channels/net_reliable_channel.cpp:5-212 | In every run of an ordered channel exactly what was given can still arrive, in order, if and only if the channel waits to send or all has arrived |
| ReliableProtocol.RunOffers | src/lnl/channels/net_reliable_channel.cpp:160-177 | What was numbered followed by what is still queued is always what the application gave, in order |
| ReliableSpec.DrainExact | src/lnl/channels/net_reliable_channel.cpp:76-90 | Draining takes exactly the maximal run that starts at the expected number, and stops there |
| ReliableSpec.ReceiveKeepsInv | src/lnl/channels/net_reliable_channel.cpp:17-102 | The receiver's invariant holds after any packet, from a conforming sender or not: W never passes R + 1, which only a non-conforming sender can reach, R never passes W + 64, and no two held packets share a slot |
| ReliableSpec.ReceiveExact | src/lnl/channels/net_reliable_channel.cpp:53-102 | An admitted packet makes exactly its own number accepted; only it and packets held back are handed on |
| ReliableSpec.ReceiveGuard | src/lnl/channels/net_reliable_channel.cpp:17-51 | A packet from W to W + 127 that is not more than 64 past R makes an acknowledgement due and moves the window just as far as it takes to cover it; any other changes nothing, and an acknowledgement that is owed stays owed |
| ReliableSpec.FillExact | src/lnl/channels/net_reliable_channel.cpp:160-177 | Numbering takes as many queued packets as the window has room for, in order, and loses none |
| ReliableSpec.OutgoingExact | src/lnl/channels/net_reliable_channel.cpp:179-187 | One pass transmits exactly the pending numbers that `Sends` picks, in increasing order; `TransmittedExactly` says which those are |
| ReliableSpec.TransmittedExactly | src/lnl/channels/net_reliable_channel.cpp:157-210 | A turn sends exactly the numbers from lws on that are not freed and are either new, as many as are queued and the window has room for, or due for resending, however much is queued |
| ReliableSpec.AckFromExact | src/lnl/channels/net_reliable_channel.cpp:123-145 | The acknowledgement loop frees exactly the reported numbers within its reach, and leaves the window start at the least one not freed |
| ReliableSpec.ProcessAckExactly | src/lnl/channels/net_reliable_channel.cpp:105-146 | An acknowledgement whose window of 64 holds lws frees exactly the pending numbers it reports, whether or not it reports lws itself, and lws stops at the first it does not report; any other changes nothing |
| ReliableSpec.UnacknowledgedKeepsTurn | src/lnl/channels/net_reliable_channel.cpp:189-204 | A channel with unacknowledged packets asks for another turn to send if and only if something is queued or new, or some resend delay has elapsed: being unacknowledged is not enough |
| ReliableSpec.KeepsTurnExactly | src/lnl/channels/net_reliable_channel.cpp:157-190 | A turn is followed by another if and only if something was queued or the resend delay of a pending packet had elapsed |
| ReliableSpec.LostPacketLosesTurn | src/lnl/channels/net_reliable_channel.cpp:201-203 | A concrete sender with one unacknowledged packet that gives up its place in the send queue |
| Sequence.RelativeOfWrapped | include/lnl/net_utils.h:38-41 | The relative number of two wrapped numbers is their true distance whenever that lies in [-16384, 16384) |
| Sequence.UnwrapIsCongruent | include/lnl/net_utils.h:38-41 | Unwrapping yields a number that wraps to the same and is nearest to the reference |
| Sequence.UnwrapOfWrapped | include/lnl/net_utils.h:38-41 | Unwrapping undoes wrapping for numbers within half the space of the reference |
| NetReliableChannel.GuardsAgree | src/lnl/channels/net_reliable_channel.cpp:17-30 | The three guards on wrapped numbers decide as the guards on the number the packet stands for |
| NetReliableChannel.AckGuardAgrees | src/lnl/channels/net_reliable_channel.cpp:110-119 | So does the guard on an acknowledgement's window start |
| NetReliableChannel.MarksDetermine | src/lnl/channels/net_reliable_channel.cpp:57-66 | For every bit there is one number of [W, W + 64) in its slot, and the bit says whether that number was accepted |
| NetReliableChannel.ReliableChannel.constructor | include/lnl/channels/net_reliable_channel.h:27-43 | A new channel: both windows at 0, nothing held, pending or owed |
| NetReliableChannel.ReliableChannel.AddToQueue | src/lnl/channels/net_base_channel.cpp:31-39 | The packet goes to the end of the queue, and the channel waits to send |
| NetReliableChannel.ReliableChannel.ClearLeaving | src/lnl/channels/net_reliable_channel.cpp:43-50 | The slide loop ends, at the new window start, with the bitmap right for the new window |
| NetReliableChannel.ReliableChannel.SlideWindow | src/lnl/channels/net_reliable_channel.cpp:38-51 | The window ends at the packet that came, and the acknowledgement carries its start |
| NetReliableChannel.ReliableChannel.DrainHeld | src/lnl/channels/net_reliable_channel.cpp:76-83 | The drain loop of the ordered mode ends and hands on exactly the held run |
| NetReliableChannel.ReliableChannel.DrainEarly | src/lnl/channels/net_reliable_channel.cpp:84-90 | The drain loop of the unordered mode ends at the least number not delivered |
| NetReliableChannel.ReliableChannel.ProcessChanneled | src/lnl/channels/net_reliable_channel.cpp:11-102 | The receiving half takes the step of the unbounded receiver on the number the packet stands for; the channel waits to send if the packet was admitted |
| NetReliableChannel.ReliableChannel.ClearAcknowledged | src/lnl/channels/net_reliable_channel.cpp:123-145 | The loop over the pending slots, which moves the window start while it reads the old one, frees what the acknowledgement reports |
| NetReliableChannel.ReliableChannel.ProcessAck | src/lnl/channels/net_reliable_channel.cpp:105-146 | The sending half takes the step of the unbounded sender, which `ReliableSpec.ProcessAckExactly` determines; acknowledgements of another size, number or window change nothing |
| NetReliableChannel.ReliableChannel.ProcessPacket | src/lnl/channels/net_reliable_channel.cpp:5-103 | Both together, for any datagram of any sender; what is handed to the peer is what the receiver's log gains |
| NetReliableChannel.ReliableChannel.FillWindow | src/lnl/channels/net_reliable_channel.cpp:160-177 | The numbering loop |
| NetReliableChannel.ReliableChannel.TransmitPending | src/lnl/channels/net_reliable_channel.cpp:179-187 | The pass over the pending slots sends what `ReliableSpec.TransmittedExactly` says, the new and the due, each under its wrapped number |
| NetReliableChannel.ReliableChannel.SendAckIfOwed | src/lnl/channels/net_reliable_channel.cpp:149-154 | One acknowledgement if and only if one is owed, and it reports exactly the accepted numbers of the window |
| NetReliableChannel.ReliableChannel.SendNextPackets | src/lnl/channels/net_reliable_channel.cpp:148-190 | The whole turn: the acknowledgement owed, the packets of `ReliableSpec.TransmittedExactly` in order, and when another turn is asked for, which is `KeepsTurnExactly` |
| NetReliableChannel.ReliableChannel.SendAndCheckQueue | include/lnl/channels/net_base_channel.h:20-32 | The channel gives up its place in the send queue exactly when it asks for no other turn |
| ReliableLink.ReadAsMeant | src/lnl/channels/net_reliable_channel.cpp:17-30 | No datagram younger than 16384 numbers is taken for another: each end unwraps what the other wrapped |
| ReliableLink.Link.ArriveAtReceiver | src/lnl/channels/net_reliable_channel.cpp:5-103 | A datagram at most 16384 numbers old, arriving at the real receiving channel, is a step of the protocol |
| ReliableLink.Link.ArriveAtSender | src/lnl/channels/net_reliable_channel.cpp:105-146 | So is an acknowledgement arriving at the real sending channel |
| ReliableLink.Link.ReceiverTurn | src/lnl/channels/net_reliable_channel.cpp:148-155 | So is a turn of the real receiving channel |
| ReliableLink.Link.SenderTurn | src/lnl/channels/net_reliable_channel.cpp:148-190 | A turn of the real sending channel, which it gets only while its flag is set, is a step of the protocol and puts on the network what that step does |
| ReliableLink.Link.Offer | src/lnl/channels/net_base_channel.cpp:31-39 | So is giving the channel a packet |
| ReliableLink.Link.GotPrefixOfGiven | src/lnl/channels/net_reliable_channel.cpp:5-190 | For two real channels with modular counters, bitmap and slots, in any state they reach, across any number of wraps: what was handed on is a prefix of what was given |
| ReliableLink.Link.ReachedState | src/lnl/channels/net_reliable_channel.cpp:5-190 | In any such state the windows agree, freed packets were accepted, and an unordered channel has delivered each accepted packet once |
| ReliableLink.Link.ArrivesUnlessUnscheduled | include/lnl/channels/net_base_channel.h:20-32 | Once all datagrams are lost, what was given can still all arrive if and only if the sending channel's flag is set or the sequence numbers of the two ends are equal |
| Fragments.TotalIsCeiling | src/lnl/net_peer.cpp:730-732 | The number of fragments is the ceiling of size / (mtu - 10) |
| Fragments.AcceptedBySize | src/lnl/net_peer.cpp:717-737 | What can be sent and what is split, by size alone: one packet up to mtu - 4 bytes, otherwise fragments, up to 65534 * (mtu - 10) bytes |
| Fragments.SplitExact | src/lnl/net_peer.cpp:747-765 | The fragments are numbered in order, none exceeds the MTU, and their bodies joined are the message |
| Fragments.FragmentSender.SendInternal | src/lnl/net_peer.cpp:700-781 | Exactly the packets of the message go to the channel of the number and method, which `Scheduling.ChannelIsOfMethod` says the kind of; nothing happens if not connected or the number is out of range; errors for a size a sequenced or unreliable packet cannot have, or for 65535 fragments and more; NoSuchPlace exactly where the number passes the guard and names a place past the last |
| Fragments.PlaceExactly | src/lnl/net_peer.cpp:701-714 | A user channel number names a place for a channel if and only if, modulo 64, it is less than the number of user channels; the guard compares it with the number of places, four times as many |
| Fragments.SecondChannelHasNoPlace | src/lnl/net_peer.cpp:702-714 | The failing number: with one user channel, number 1 passes the guard and names place 6 of 4 |
| Fragments.GuardLetsOneThrough | src/lnl/net_peer.cpp:217-222 | The guard on arriving packets lets exactly one id through that names no place: the number of places |
| Scheduling.ChannelIsOfMethod | src/lnl/net_peer.cpp:713-714 | The channel that a number and a delivery method name is of that method's kind, ordered or not, reliable or not, and belongs to that user channel, modulo 64 |
| Fragments.FragmentSender.CutAll | src/lnl/net_peer.cpp:747-765 | The cutting loop, with its 16-bit counter, produces all fragments |
| Reassembly.Reassembler.AddReliablePacket | src/lnl/net_peer.cpp:353-428 | The table and its counters after one packet, and the event if it completed a message; foreign channel, index out of range and duplicates change nothing |
| Reassembly.Reassembler.Assemble | src/lnl/net_peer.cpp:392-420 | The copying loop joins the fragments in index order |
| Reassembly.CountsAll | src/lnl/net_peer.cpp:388-390 | The count of received fragments equals their number exactly if every slot is filled, and then the byte count is the message's length |
| Arrivals.AddTracks | src/lnl/net_peer.cpp:353-428 | One fragment of one of several messages in flight: exactly its completion raises an event |
| Arrivals.ReassemblyExact | src/lnl/net_peer.cpp:353-428 | Fragments of any messages in any order, interleaved and repeated, raise exactly the completed messages, each with its bytes; two incomplete messages must not share an id |
| Reassembly.ClashIsLost | src/lnl/net_peer.cpp:377-382 | A fragment whose id is taken by an incomplete message of another channel, whose index is past the end or whose place is taken is refused and raises nothing, although its channel accepted and acknowledged it |
| Arrivals.CompletedOnce | src/lnl/net_peer.cpp:353-428 | A message all of whose fragments arrive, in any order and with repetitions before the last, is raised exactly once |
| Messages.PrefixOfStream | src/lnl/net_peer.cpp:353-428 | Any prefix of the packets of a list of messages reassembles to a prefix of the messages; all of them to all |
| Messages.MessagesInOrder | src/lnl/net_peer.cpp:353-428 | Fragmentation, ordered channel and reassembly together: in every run the events are a prefix of the messages sent, byte for byte |
| Messages.MessagesCanAllArrive | src/lnl/net_peer.cpp:353-428 | All datagrams are lost and no more is sent: then all messages can still arrive if and only if the channel waits to send or all have arrived |
| Messages.LinkMessagesInOrder | src/lnl/net_peer.cpp:353-428 | The same for two real channels |
| UnorderedMessages.NoClash | src/lnl/net_peer.cpp:739-745 | On one unordered channel, two messages that are incomplete at the same time lie within 64 packets of each other, so their 16-bit ids differ |
| UnorderedMessages.ConsecutiveIdsApart | src/lnl/net_peer.cpp:739-745 | Ids taken from one counter, cut to 16 bits, are different for messages that close together |
| UnorderedMessages.NextArrival | src/lnl/net_peer.cpp:362-381 | Every packet an unordered channel hands on is legal for reassembly, whatever else is in flight, and completes its message exactly when all of the message is there |
| UnorderedMessages.FinishedExact | src/lnl/net_peer.cpp:388-427 | A message becomes complete once, and exactly if all its packets came |
| UnorderedMessages.MessagesExact | src/lnl/net_peer.cpp:353-428 | Fragmentation, unordered channel and reassembly together: in every run the events are exactly the messages all of whose packets were accepted, each once, byte for byte |
| Header.ConnectionNumberSet | include/lnl/net_packet.h:137-143 | Setting the connection number changes that field and no other |
| Header.BitFieldsAreDigits | include/lnl/net_packet.h:112-143 | The masks and shifts of the first header byte are the digits that the other members compute with |
| Header.PropertySet | include/lnl/net_packet.h:116-118 | Setting the property leaves the connection number and the fragment flag |
| Header.FieldsAreMasked | include/lnl/net_packet.h:112-139 | What is read from the header byte is its masked and shifted fields |
| Header.VerifyExactly | include/lnl/net_packet.h:120-131 | A packet passes the check if and only if it is of one of the 18 kinds and as long as the header of its kind, with six bytes more for a fragment |
| Bitmap.BitAtExactly | src/lnl/channels/net_reliable_channel.cpp:57-66 | The bit of slot i is bit i modulo 8 of byte i / 8 behind the header, and the packet has one byte more than the bits take |
| Merge.GroupsKeepPackets | src/lnl/net_peer.cpp:446-486 | Packing into datagrams loses, adds and repeats no packet |
| Merge.GroupsKeepOrder | src/lnl/net_peer.cpp:446-486 | Packets that go through the merge buffer stay in order, and so do those that do not |
| Merge.GroupsFit | src/lnl/net_peer.cpp:456-458 | Every datagram fits the MTU |
| Merge.GroupsTight | src/lnl/net_peer.cpp:446-464 | A merged datagram goes out before the end of the update only because the next packet, with its length, does not fit into it |
| Merge.TwoShareExactly | src/lnl/net_peer.cpp:446-464 | Two packets share a datagram if and only if each is more than 23 bytes shorter than the MTU and both, with their lengths and one header, fit |
| Merge.ParseFrames | src/lnl/net_peer.cpp:164-184 | The parsing loop undoes the framing |
| Merge.ParsesExactly | src/lnl/net_peer.cpp:164-184 | The loop goes on as long as a next length is in the datagram, that many bytes are in the buffer, whether received or not, and a sound packet is in them |
| Merge.UnpackWire | src/lnl/net_peer.cpp:164-188 | Unpacking undoes packing, whatever lies behind the datagram in the receive buffer |
| Merge.NoneMergedExactly | src/lnl/net_peer.cpp:451-458 | No datagram of an update is merged if and only if every two packets that follow each other in the merge buffer are too long for one datagram |
| Merge.ReceivedExactly | src/lnl/net_peer.cpp:155-188 | With connection number 0 all packets of the datagrams are received; with any other, all are received if and only if no datagram was merged, as a merged datagram's own header keeps 0 |
| Merge.MergedPacketsLost | src/lnl/net_peer.cpp:155-158 | Two packets of a peer with connection number 1 that are merged and lost |
| Merge.MergeRoundTrip | src/lnl/net_peer.cpp:164-188 | One update of the sender and the receiver together: sizes, contents, order; and everything arrives if and only if the connection number is 0 or no two packets that follow each other in the merge buffer fit into one datagram |
| Merge.MergeBuffer.SendMerged | src/lnl/net_peer.cpp:466-486 | What leaves the buffer: nothing, the bare packet, or the frames under a MERGED header |
| Merge.MergeBuffer.AppendFrame | src/lnl/net_peer.cpp:460-463 | A packet is appended with its length, within the buffer |
| Merge.MergeBuffer.SendUserData | src/lnl/net_peer.cpp:446-464 | Sent alone, appended, or appended after a flush, with the connection number set |
| Merge.MergeBuffer.SendUpdate | src/lnl/net_peer.cpp:603-614 | All packets of one update and the final flush put exactly the specified datagrams on the network |
| Merge.UnpackMerged | src/lnl/net_peer.cpp:164-188 | The loop takes out exactly the specified packets |
| PeerTable.PeerTable.GetNextPeerId | src/lnl/net_manager.cpp:864-872 | The free id that was freed first, which is then no longer free; only if there is none, the next new one; it is nobody's |
| PeerTable.PeerTable.AddPeer | src/lnl/net_manager.cpp:712-734 | The peer is linked first; list, map and array agree and ids are conserved |
| PeerTable.PeerTable.RemovePeer | src/lnl/net_manager.cpp:827-862 | The peer leaves list, map and array, the others stay in their order, and its id goes to the end of the free ids; an unknown address changes nothing |
| PeerTable.PeerTable.Connect | src/lnl/net_manager.cpp:957-992 | Nothing if not running or a request is pending; the peer there is if in use; otherwise a new one, first in the list, under the next free id, in the place of the old one and with the next connection number |
| PeerTable.PeerTable.OnConnectionSolved | src/lnl/net_manager.cpp:664-710 | A peer exactly if the request is not rejected by force and the address has none, in the state of the answer, under the next free id |
| PeerTable.PeerTable.IdsCount | src/lnl/net_manager.cpp:664-702 | No two live peers share an id or an address, and live and free ids together are all ids ever handed out |
| Sequenced.SequencedDelivery | src/lnl/channels/net_sequenced_channel.cpp:6-78 | In every run on unbounded numbers what is delivered is a strictly increasing subsequence of what was sent; the reliable variant frees its last packet only after the receiver took that number |
| Sequenced.LastArrives | src/lnl/channels/net_sequenced_channel.cpp:44-77 | All datagrams are lost and nobody does anything for the channel any more: then the last packet can still arrive if and only if it is queued, kept to be repeated, or there |
| Sequenced.LastCanArrive | src/lnl/channels/net_sequenced_channel.cpp:44-77 | In every run, whatever was lost, the reliable variant can bring its last packet across by repeating it; the other one if and only if it is still queued or has arrived |
| Sequenced.SeqTurnExactly | src/lnl/channels/net_sequenced_channel.cpp:43-69 | A turn sends everything queued, under the numbers that follow, and a reliable channel keeps the last; with nothing queued it repeats the one it keeps, exactly if its delay has elapsed |
| Sequenced.SeqReceiveExactly | src/lnl/channels/net_sequenced_channel.cpp:20-41 | A packet is handed on if and only if it is later than any before; a reliable channel owes an acknowledgement after any packet, late and repeated ones too, an unreliable one after none |
| Sequenced.SeqAckExactly | src/lnl/channels/net_sequenced_channel.cpp:11-18 | An acknowledgement frees the packet that is kept if it is for that one, and changes nothing otherwise |
| Sequenced.EveryArrivalAnswered | src/lnl/channels/net_sequenced_channel.cpp:20-41 | So any packet on the reliable variant is answered by the next turn with the number taken last, which is not less than its own |
| SequencedLink.Link.Offer | src/lnl/channels/net_base_channel.cpp:31-39 | Giving a real sequenced channel a packet is a step of the protocol |
| SequencedLink.Link.SenderTurn | src/lnl/channels/net_sequenced_channel.cpp:43-78 | So is its turn to send, which it gets only while its flag is set |
| SequencedLink.Link.ReceiverTurn | src/lnl/channels/net_sequenced_channel.cpp:71-77 | So is the turn of the receiving one |
| SequencedLink.Link.ArriveAtReceiver | src/lnl/channels/net_sequenced_channel.cpp:20-33 | So is the arrival of a datagram whose number is less than half the space away from the last one taken |
| SequencedLink.Link.ArriveAtSender | src/lnl/channels/net_sequenced_channel.cpp:11-18 | So is that of an acknowledgement, if acknowledgements are routed to the channel |
| SequencedLink.Link.GotIncreases | src/lnl/channels/net_sequenced_channel.cpp:6-78 | For two real sequenced channels in any state they reach, across any number of wraps: what was delivered are packets that were given, in order and none twice; and a reliable one keeps its last packet until the receiver has it |
| Conversation.AcknowledgedNever | src/lnl/channels/net_sequenced_channel.cpp:71-75 | In every run of two peers with all their channels, datagrams going by the channel id they carry: once a reliable sequenced channel has sent a packet it keeps the last one and its place in the send queue, and no acknowledgement ever frees one |
| Conversation.RepeatsForEver | src/lnl/net_peer.cpp:591-601 | And so for ever after, whatever both peers and the network do |
| Conversation.RunKeepsInv | include/lnl/channels/net_sequenced_channel.h:16 | What is behind it: every channel and all its packets are of the kind and id its index says, every letter is under the wrapped number it was sent with, and no acknowledgement either peer sends carries the id of a reliable sequenced channel |
| SequencedRuns.MoveIsSeqStep | src/lnl/net_peer.cpp:217-240 | Whatever either peer does with all its channels is, for each sequenced channel and direction, one step of its protocol, acknowledgements not being routed to it, or none |
| SequencedRuns.RunIsSeqRun | src/lnl/net_peer.cpp:589-601 | So every run of two peers is, for each sequenced channel and direction, a run of the protocol of `Sequenced`, if its packets are read within half the sequence space |
| SequencedRuns.SequencedChannelsDeliver | src/lnl/channels/net_sequenced_channel.cpp:6-78 | In every run of two peers with all their channels, what a sequenced channel hands on are packets it was given, in the order in which they were given and none twice; and a reliable one keeps the last for ever |
| ChannelRuns.MoveIsProtocolStep | src/lnl/net_peer.cpp:217-240 | Whatever either peer does with all its channels is, for each reliable channel and direction, one step of its protocol or none |
| ChannelRuns.RunIsProtocolRun | src/lnl/net_peer.cpp:589-601 | So every run of two peers is, for each reliable channel and direction, a run of module ReliableProtocol, if that channel's letters are read within half the sequence space |
| ChannelRuns.EveryChannelDelivers | src/lnl/net_peer.cpp:212-240 | In every run of two peers with all their channels, both ways at once: each reliable ordered channel hands on a prefix of what it was given, each unordered one delivers every accepted packet once, and what is freed was accepted |
| Sending.Send | src/lnl/net_peer.cpp:700-781 | One call with the peer's channels: the outcome, the fragment counter, and the channels afterwards; the packets of the message wait in order in the channel of the method's kind (`Scheduling.ChannelIsOfMethod`), which is made even if the message is then refused for its size; what arrives of it is `SentInOrder` and `SentOnce` |
| Sending.GiftsAreSent | src/lnl/net_peer.cpp:709-781 | What such a call makes of a peer is what giving the packets one by one makes of it in a conversation |
| Sending.OrderedMessages | src/lnl/net_peer.cpp:353-428 | In every run of two peers, what reassembly raises of an ordered channel's packets is a prefix of the messages sent through it |
| Sending.UnorderedMessagesExact | src/lnl/net_peer.cpp:353-428 | And of an unordered channel's packets exactly the messages that were accepted whole, each once |
| Sending.GivenIsSent | src/lnl/net_peer.cpp:709-781 | Whatever is sent in a run, by any method on any channel: what the channel of a reliable method is given is the packets of exactly the messages sent by that method under that number, modulo 64, in the order of the calls |
| Sending.SentInOrder | src/lnl/net_peer.cpp:700-781 | Send to receive: in every run of two peers, what is raised for the messages sent ReliableOrdered under a channel number is a prefix of them, byte for byte and under that number |
| Sending.SentOnce | src/lnl/net_peer.cpp:700-781 | And for those sent ReliableUnordered exactly the messages that were accepted whole, each once |
| Sending.SendIsMoves | src/lnl/net_peer.cpp:709-781 | The moves of one call make of a peer what `Send` makes of its channels |
| Talk.Talk.HereSends | src/lnl/net_peer.cpp:709-781 | Two real peers: sending a message is a run of the conversation |
| Talk.Talk.HereUpdates | src/lnl/net_peer.cpp:589-601 | So is an update, and exactly what its turns emit is on the network afterwards |
| Talk.Talk.HereHears | src/lnl/net_peer.cpp:217-240 | So is the arrival of any datagram ever sent, in any order, any number of times |
| Talk.Talk.Kept | src/lnl/net_peer.cpp:212-240 | In any state two real peers reach, every reliable channel they share has delivered as promised in both directions, and every reliable sequenced one that ever sent waits to repeat its last packet |
| Talk.Talk.KeptInOrder | src/lnl/net_peer.cpp:700-781 | And what the application of one sent ReliableOrdered is what the other receives, as far as it goes: the same bytes in the same order under the same number |
| Sequenced.SequencedChannel.ProcessPacket | src/lnl/channels/net_sequenced_channel.cpp:6-41 | The class takes the step of the unbounded protocol on the number a packet stands for |
| Sequenced.SequencedChannel.SendQueued | src/lnl/channels/net_sequenced_channel.cpp:55-68 | The loop numbers and sends everything queued, and the reliable variant keeps the last |
| Sequenced.SequencedChannel.SendNextPackets | src/lnl/channels/net_sequenced_channel.cpp:43-78 | The whole turn, with the datagrams sent and whether another turn is asked for |
| Sequenced.SequencedChannel.SendAndCheckQueue | include/lnl/channels/net_base_channel.h:20-32 | As for the reliable channel |
| Mtu.StepByStep | src/lnl/net_peer.cpp:308-351 | One step of either end moves it one entry up the table, for a packet of exactly that size that came through, or back to the start |
| Mtu.MtuSafe | src/lnl/net_peer.cpp:664-698 | In every run of two ends the MTU of each is the table's, the look-up one past the index is in range, and neither exceeds max(508, path) |
| Mtu.ReachableAlone | src/lnl/net_peer.cpp:676-681 | Attempts are not counted anew when a probe succeeds: an end whose far end never probes reaches an entry if and only if it is the first, or one of the next three, the path lets it through and the connection number is 0 |
| Mtu.ThreeStepsAlone | src/lnl/net_peer.cpp:676-681 | The bound behind it, from any state: never more than three steps |
| Mtu.ReachableMtu | src/lnl/net_peer.cpp:664-698 | Two ends that both follow discovery reach an entry if and only if it is the first, or the path lets it through and the connection number is 0, which is the number MTU packets carry |
| Mtu.RunMirrored | src/lnl/net_peer.cpp:308-351 | The two ends are alike: what one does in a run the other does in the mirrored one |
| Mtu.FirstProbe | src/lnl/net_peer.cpp:664-698 | Over any updates, however short: the first probe, for the next size, goes out at exactly the update at which the times since the last one add up to 1000 |
| Mtu.GivesUp | src/lnl/net_peer.cpp:669-697 | A probe that is due goes out unless discovery is over, it would be the fourth with none of the far end's between, or the socket refuses it; in the last two cases discovery is over |
| Mtu.AnswersExactly | src/lnl/net_peer.cpp:308-330 | A probe is answered, and attempts are counted anew, if and only if its size, 508 to 1432, is written into it twice; the answer is the same packet under another kind |
| Mtu.RisesExactly | src/lnl/net_peer.cpp:331-351 | The MTU rises, by one entry, if and only if the next size comes back sound to an end that still looks; discovery ends at 1432 |
| Mtu.ResetExactly | include/lnl/net_peer.h:165-172 | A change of network takes an end back to 508 and leaves its timer, attempts and whether it has finished |
| Mtu.ResetForGood | src/lnl/net_manager.cpp:423-427 | An end that had finished discovery before a change of network stays at 508 for ever, whatever both ends and the network do |
| Mtu.MtuLink.Step | src/lnl/net_peer.cpp:308-351 | Two real ends and the packets between them take the steps of the pair, each of which is determined: `FirstProbe`, `GivesUp`, `AnswersExactly`, `RisesExactly`, `ResetExactly` |
| Lifecycle.OneConnectOneDisconnect | src/lnl/net_manager.cpp:342-500 | In every run a peer has at most one CONNECT and one DISCONNECT event, in that order; its events tell whether it is dialing, connected or past, and a rejected peer has none |
| Lifecycle.NeverBackwards | src/lnl/net_peer.cpp:70-162 | Between any two moments of a run no peer moves back along OUTGOING, CONNECTED, SHUTDOWN_REQUESTED, DISCONNECTED |
| Lifecycle.RunKeepsInv | src/lnl/net_manager.cpp:226-262 | Every run keeps: each peer's events are those its state and origin tell, every peer in use is in the table under its address, and no event is about a peer that was never made |
| Lifecycle.ShutdownOkIgnored | src/lnl/net_peer.cpp:139-153 | SHUTDOWN_OK changes nothing in any state: the packet that should end a shutdown is dropped before it is looked at |
| Lifecycle.EndsByTheClock | src/lnl/net_peer.cpp:514-539 | Whatever is received meanwhile, a peer that is shut down is DISCONNECTED when its updates have counted more than the timeout, and once out of the table it stays out |
| Lifecycle.LeavesTheTable | src/lnl/net_manager.cpp:236-249 | And it leaves the table and frees its id: whatever is received, it is still there only as long as it has seen no more updates than the timeout leaves it, and one |
| Lifecycle.SilentPeerEnds | src/lnl/net_peer.cpp:514-524 | A connected peer that hears nothing is still connected only while the time its updates counted is within the timeout |
| Lifecycle.DialEnds | src/lnl/net_peer.cpp:541-557 | A dial always ends, by an answer or by giving up: whatever arrives, a new peer is not still dialing after (maximum of attempts + 1) * (delay + 1) updates, nor an older one after what is left of them |
| Lifecycle.WhoGivesWay | src/lnl/net_peer.cpp:617-640 | Two ends that dial each other at the same moment both give way if and only if each address has some byte smaller than the other's; exactly one gives way otherwise, unless the addresses are the same |
| Lifecycle.BothGiveWay | src/lnl/net_peer.cpp:625-638 | Two addresses for which both give way |
| Entries.SolvedExactly | src/lnl/net_manager.cpp:664-710 | Accepting a request makes one CONNECTED peer with the request's time, number and peer id and raises its CONNECT; rejecting makes one that is closing and raises nothing; by force makes none; the request is gone in all cases |
| Entries.RequestedExactly | src/lnl/net_manager.cpp:602-662 | A request of a peer it does not supersede is ignored; any other takes the peer out of the table, raises a DISCONNECT if it was in use, and asks the application once, under the next connection number for a peer past dialing |
| Entries.NewerIsLatest | include/lnl/net_connection_request.h:54-65 | Of the requests from one address the latest is kept; of two as late the one that came last, unless it has the same number |
| Entries.DialedExactly | src/lnl/net_manager.cpp:957-992 | A dial does nothing if a request is pending or the peer there is in use; otherwise it makes one OUTGOING peer, after an old one with the next number |
| Entries.AcceptedExactly | src/lnl/net_peer.cpp:119-136 | An acceptance connects the peer that dialed at that very time, with the number and id of the far end, and raises one CONNECT; any other changes nothing |
| Entries.HeardExactly | src/lnl/net_peer.cpp:138-161 | A packet ends the silence of its peer if and only if that is in use, the packet has its number and is not SHUTDOWN_OK, and changes nothing else |
| Entries.EndsExactly | src/lnl/net_manager.cpp:342-500 | The ten ways a peer in use goes out of use, each with the state it is left in and the reason of its one DISCONNECT; nothing else ends one |
| Entries.GoneExactly | src/lnl/net_manager.cpp:226-250 | A peer leaves the table if and only if it is past its time there, a request supersedes it, or its address is dialed anew |
| Entries.OthersUntouched | src/lnl/net_manager.cpp:342-500 | What happens at one address changes nothing about any other: not its peers, its place in the table, its pending request, and no event is about it |
| Entries.ShutdownExactly | src/lnl/net_peer.cpp:70-103 | Shutting down: nothing for a peer that is closing or down; at once by force; otherwise closing, with its silence counted anew; the result tells whether it was connected |
| Entries.UpdatedExactly | src/lnl/net_manager.cpp:226-250 | An update counts at least a millisecond, removes a peer that is past its time, and otherwise does what the peer's timers say |
| Entries.TimesOut | src/lnl/net_peer.cpp:514-524 | Over any updates, a silent connected peer times out at exactly the one at which they add up to more than the timeout |
| Entries.AsksAgain | src/lnl/net_peer.cpp:541-557 | A dialing peer asks again, or after the last attempt gives up, at exactly the update at which they add up to more than the delay |
| Entries.RepeatsShutdown | src/lnl/net_peer.cpp:526-539 | A closing peer sends its DISCONNECT again at exactly the update at which they add up to 300 |
| Entries.DialIsAccepted | src/lnl/net_manager.cpp:664-710 | Two managers: a dial that is accepted leaves both ends CONNECTED under one time and number, each with the other's id, each application told once |
| Entries.DialIsRejected | src/lnl/net_manager.cpp:664-710 | A dial that is rejected ends at the far end's DISCONNECT, with the reason CONNECTION_REJECTED; the other end was never connected |
| Entries.CloseClosesBoth | src/lnl/net_manager.cpp:449-468 | Closing one end of a connection closes the other when its DISCONNECT arrives, and each application is told its side |
| Connections.PeerConnection.GivesWay | src/lnl/net_peer.cpp:625-638 | The comparing loop |
| Connections.ConnectionManager.Step | src/lnl/net_manager.cpp:342-500 | Every entry point of the manager, with its table of peers, takes the step of the specified system and keeps its invariant; what each step comes to is said without its body in `Entries` |
| Scheduling.PeerChannels.AddToQueue | src/lnl/channels/net_base_channel.cpp:31-39 | The channel gets the packet; it is in the send queue, once, at its old place if it was there |
| Scheduling.PeerChannels.CreateChannel | src/lnl/net_peer.cpp:261-306 | A channel is made at its first use, of the kind its index says |
| Scheduling.PeerChannels.ProcessPacket | src/lnl/net_peer.cpp:217-240 | A datagram goes to the channel whose id it carries, changes that one only, makes it only if numbered, and puts it in the queue exactly if it now owes an acknowledgement and was not there; what it hands on is what the channel's log gains; `outside` exactly for the one id past the last place that the guard lets through |
| Scheduling.PeerChannels.Update | src/lnl/net_peer.cpp:589-601 | Every waiting channel gets exactly one turn, no other any; those that ask for another keep their order; afterwards no acknowledgement is owed; each turn sends exactly the acknowledgement owed and the packets due, in order, each under its own number |
| Scheduling.PeerChannels.TakeTurn | src/lnl/net_peer.cpp:591-601 | The first channel takes its turn, sends exactly what it owes, in order, and goes to the end if it asks for another |
| Scheduling.PeerChannels.WhoOwesWaits | include/lnl/channels/net_base_channel.h:20-32 | A channel with queued packets or an acknowledgement to send is in the queue exactly once |
| Scheduling.HeardExactly | src/lnl/net_peer.cpp:217-240 | A datagram changes at most the channel whose id it carries, makes it only if numbered, and puts it at the end of the queue, once, exactly if it wakes it |
| Scheduling.WakesExactly | src/lnl/channels/net_reliable_channel.cpp:31-36 | It wakes a channel if and only if the channel owes an acknowledgement for it |
| Scheduling.GivenExactly | src/lnl/channels/net_base_channel.cpp:31-39 | A packet of the application goes to the end of its channel's queue and nowhere else, and the channel into the send queue, once |

## Left out

- Sockets, polling, threads, name resolution and socket options; a send adds to what is on the network, a receive is a step.
- Mutexes, compare-and-swap and the races they guard against, among them the one around the flag in `send_and_check_queue`.
- Round-trip times and resend delays as numbers, ping and pong: only which delays have elapsed matters here.
- Timers and counters of connections and MTU discovery are unbounded, not 32 bits wide.
- The packet pool: packets are values, so aliasing and recycling of buffers are not captured.
- Delivery callbacks for user data: nothing registers any.
- Events other than CONNECT, DISCONNECT, CONNECTION_REQUEST and the receive events of reliable channels; the listener.
- The unreliable channel's queue, broadcast and unconnected messages.
- The bytes of connect request, connect accept and disconnect packets; the accept packet carries one byte of the peer id, which is not modelled.
- What is sent in answer to connection packets: the model says when a request or a shutdown is sent again, not its bytes. That an acceptance is sent again is not told: `Meet` returns `Ignored` there (net_peer.cpp:643-644), and a peer that dialed has no acceptance to send.
- Peer address change, which the implementation does not do.
- A second `accept` or `reject` of one request, which the implementation ignores: an address has at most one unsolved request, and solving takes it away.
- Datagrams inside merged datagrams that are merged themselves: `Merge.Mergeable` excludes them, as the sender never makes them.
- What an access out of bounds does: after `NoSuchPlace` and `outside` nothing is said of the implementation.
- The fragments of several channels in one peer's reassembly table: all channels take ids from one counter, so two of them can have the same id in flight if one stalls while the others split 65536 messages; `Reassembly.ClashIsLost` says what happens then, not when. `UnorderedMessages` and `Sending` speak of the packets of one channel.
- What a packet of the other direction does to a sending channel in `ReliableProtocol` and `Sequenced` is that it is scheduled (`Wake`, `SeqWake`); `Scheduling`, `Conversation` and `Talk` have both directions.
- Both directions of one link at once: a channel's halves share nothing, so `ReliableLink` runs one sender and one receiver; `ChannelRuns` has both at once.
- The list, map and array of peers within `Connections`: there the map stands for all three, and `PeerTable` proves that they agree.
- PeerTable.PeerTable.Connect: takes the connection number of a peer at a new address as an argument, because the implementation leaves it unset.
- Lifecycle.EndsByTheClock: needs the timeout not to have passed when the shutdown began, which holds as the shutdown resets the clock.
- Mtu.MtuSafe: the far end echoes honestly, as it is asked to.
