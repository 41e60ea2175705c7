/** The sequenced channel: late packets are dropped, and the reliable variant repeats the last packet until it is
    acknowledged. Unbounded numbers, the protocol over a lossy network, and the class with modular counters. */
module Sequenced {
  import opened Sequence
  import opened Packets
  import opened ReliableSpec

  // ---- One step of each end ---------------------------------------------------------------------

  /** Packet number `n` is `sent[n - 1]`: numbering starts at 1. `last` is the number of the packet kept for
      repetition; `dropped` lists the numbers whose packet an acknowledgement freed. */
  datatype SeqSender = SeqSender(reliable: bool, id: uint8, queue: seq<Packet>, sent: seq<Packet>,
                                 last: Option<int>, dropped: seq<int>)

  datatype SeqReceiver = SeqReceiver(reliable: bool, r: int, log: seq<Delivery>, ackDue: bool)

  function SeqReceive(s: SeqReceiver, n: int, p: Packet): SeqReceiver {
    var t := s.(ackDue := s.ackDue || s.reliable);
    if n > s.r then t.(r := n, log := s.log + [Delivery(n, p)]) else t
  }

  function SeqAck(s: SeqSender, n: int): SeqSender {
    if s.reliable && s.last == Some(n) then s.(last := None, dropped := s.dropped + [n]) else s
  }

  function StampAll(ps: seq<Packet>, id: uint8): seq<Packet> {
    seq(|ps|, i requires 0 <= i < |ps| => Stamp(ps[i], id))
  }

  /** The numbers one turn of the sending channel transmits, in order; `due` says the resend delay has elapsed. */
  function SeqTransmitted(s: SeqSender, due: bool): seq<int> {
    if s.reliable && s.queue == [] then (if due && s.last.Some? then [s.last.value] else [])
    else seq(|s.queue|, i => |s.sent| + 1 + i)
  }

  function SeqTransmit(s: SeqSender): SeqSender {
    var sent := s.sent + StampAll(s.queue, s.id);
    s.(queue := [], sent := sent, last := if s.reliable && s.queue != [] then Some(|sent|) else s.last)
  }

  /** What a turn sends: everything queued, under the numbers that follow; a reliable channel with nothing queued repeats its
      last packet, exactly if it still keeps it and the delay has elapsed. It keeps the last one it sends. */
  lemma SeqTurnExactly(s: SeqSender, due: bool)
    ensures var t, ns, n := SeqTransmit(s), SeqTransmitted(s, due), |s.sent|;
            && t.queue == [] && |t.sent| == n + |s.queue| && s.sent <= t.sent
            && (forall i :: 0 <= i < |s.queue| ==> t.sent[n + i] == s.queue[i].(channel := s.id))
            && (s.queue != [] ==> |ns| == |s.queue| && forall i :: 0 <= i < |ns| ==> ns[i] == n + 1 + i)
            && (s.queue == [] && s.reliable && due && s.last.Some? ==> ns == [s.last.value])
            && (s.queue == [] && !(s.reliable && due && s.last.Some?) ==> ns == [])
            && t.last == (if s.reliable && s.queue != [] then Some(|t.sent|) else s.last)
            && t.dropped == s.dropped && t.reliable == s.reliable && t.id == s.id
  {
    var t := SeqTransmit(s);
    assert t.sent[|s.sent|..] == StampAll(s.queue, s.id);
  }

  /** A packet later than any before is handed on, at once; an earlier or repeated one is not. Either way a reliable channel owes
      an acknowledgement afterwards, and an unreliable one owes none that it did not owe. */
  lemma SeqReceiveExactly(s: SeqReceiver, n: int, p: Packet)
    ensures var t := SeqReceive(s, n, p);
            && t.log == s.log + (if n > s.r then [Delivery(n, p)] else [])
            && t.r >= s.r && t.r >= n && (t.r == s.r || t.r == n)
            && (t.ackDue <==> s.ackDue || s.reliable) && t.reliable == s.reliable
  {
    assert s.log + [] == s.log;
  }

  /** An acknowledgement of the very packet that is kept frees it; any other frees nothing. */
  lemma SeqAckExactly(s: SeqSender, n: int)
    ensures var t := SeqAck(s, n);
            if s.reliable && s.last.Some? && s.last.value == n then t.last.None? && t == s.(last := None, dropped := s.dropped + [n])
            else t == s
  {}

  // ---- The protocol -----------------------------------------------------------------------------

  datatype SeqMessage = SeqData(n: int, packet: Packet) | SeqAckOf(n: int)

  /** `routed` says whether acknowledgements reach the channel they are for, `scheduled` whether the sending channel waits
      in its peer's send queue. */
  datatype SeqSystem = SeqSystem(snd: SeqSender, rcv: SeqReceiver, net: set<SeqMessage>, routed: bool, scheduled: bool)

  datatype SeqAction =
    | SeqEnqueue(packet: Packet)
    | SeqWake             // a packet of the other direction makes the sending channel owe an acknowledgement
    | SeqSenderTurn(due: bool)
    | SeqReceiverTurn
    | SeqToReceiver(message: SeqMessage)
    | SeqToSender(message: SeqMessage)

  function SeqDataSent(s: SeqSender, due: bool): set<SeqMessage> {
    var t := SeqTransmit(s);
    set n | n in SeqTransmitted(s, due) && 1 <= n <= |t.sent| :: SeqData(n, t.sent[n - 1])
  }

  function SeqApply(s: SeqSystem, a: SeqAction): SeqSystem {
    match a
    case SeqEnqueue(p) => s.(snd := s.snd.(queue := s.snd.queue + [p]), scheduled := true)
    case SeqWake => s.(scheduled := true)
    case SeqSenderTurn(due) =>
      if s.scheduled then
        var t := SeqTransmit(s.snd);
        s.(snd := t, net := s.net + SeqDataSent(s.snd, due), scheduled := t.last.Some?)
      else s
    case SeqReceiverTurn =>
      if s.rcv.ackDue then s.(rcv := s.rcv.(ackDue := false), net := s.net + {SeqAckOf(s.rcv.r)}) else s
    case SeqToReceiver(m) =>
      if m in s.net && m.SeqData? then s.(rcv := SeqReceive(s.rcv, m.n, m.packet)) else s
    case SeqToSender(m) =>
      if m in s.net && m.SeqAckOf? && s.routed then s.(snd := SeqAck(s.snd, m.n)) else s
  }

  function SeqRun(s: SeqSystem, actions: seq<SeqAction>): SeqSystem
    decreases |actions|
  {
    if actions == [] then s else SeqRun(SeqApply(s, actions[0]), actions[1..])
  }

  function SeqStart(reliable: bool, id: uint8, routed: bool): SeqSystem {
    SeqSystem(SeqSender(reliable, id, [], [], None, []), SeqReceiver(reliable, 0, [], false), {}, routed, false)
  }

  ghost predicate Taken(s: SeqReceiver, n: int) {
    exists i :: 0 <= i < |s.log| && s.log[i].n == n
  }

  ghost predicate GenuineSeq(s: SeqSystem, m: SeqMessage) {
    match m
    case SeqData(n, p) => 1 <= n <= |s.snd.sent| && p == s.snd.sent[n - 1]
    case SeqAckOf(n) => n == 0 || Taken(s.rcv, n)
  }

  ghost predicate LogInv(s: SeqReceiver, sent: seq<Packet>) {
    && 0 <= s.r <= |sent|
    && (s.r == if s.log == [] then 0 else s.log[|s.log| - 1].n)
    && (forall i, j :: 0 <= i < j < |s.log| ==> s.log[i].n < s.log[j].n)
    && (forall i :: 0 <= i < |s.log| ==> 1 <= s.log[i].n <= |sent| && s.log[i].packet == sent[s.log[i].n - 1])
  }

  ghost predicate LastInv(s: SeqSystem) {
    && (s.snd.last.Some? ==> s.snd.reliable)
    && (s.snd.last.Some? ==> s.snd.last.value == |s.snd.sent| >= 1)
    && (s.snd.queue != [] || s.snd.last.Some? ==> s.scheduled)
    && (s.snd.reliable && s.snd.last.None? ==> s.rcv.r == |s.snd.sent|)
  }

  ghost predicate SeqInv(s: SeqSystem) {
    && s.snd.reliable == s.rcv.reliable
    && LogInv(s.rcv, s.snd.sent)
    && (forall m :: m in s.net ==> GenuineSeq(s, m))
    && (forall n :: n in s.snd.dropped ==> Taken(s.rcv, n))
    && LastInv(s)
  }

  lemma LogKept(s: SeqReceiver, sent: seq<Packet>, n: int, p: Packet)
    requires LogInv(s, sent) && 1 <= n <= |sent| && p == sent[n - 1]
    ensures LogInv(SeqReceive(s, n, p), sent)
  {
    if n > s.r && s.log != [] {
      assert forall i :: 0 <= i < |s.log| ==> s.log[i].n <= s.r;
    }
  }

  lemma TakenLater(s: SeqReceiver, n: int, p: Packet)
    ensures forall m :: Taken(s, m) ==> Taken(SeqReceive(s, n, p), m)
    ensures n > s.r ==> Taken(SeqReceive(s, n, p), n)
  {
    var t := SeqReceive(s, n, p);
    assert n > s.r ==> t.log[|s.log|].n == n;
    forall m | Taken(s, m)
      ensures Taken(t, m)
    {
      var i :| 0 <= i < |s.log| && s.log[i].n == m;
      assert t.log[i].n == m;
    }
  }

  lemma ReceiverTurnKeepsInv(s: SeqSystem)
    requires SeqInv(s)
    ensures SeqInv(SeqApply(s, SeqReceiverTurn))
  {
    var t := SeqApply(s, SeqReceiverTurn);
    if s.rcv.ackDue {
      assert s.rcv.r > 0 ==> s.rcv.log[|s.rcv.log| - 1].n == s.rcv.r;
      assert forall n :: Taken(s.rcv, n) ==> Taken(t.rcv, n);
      assert forall m :: m in s.net ==> GenuineSeq(s, m) && GenuineSeq(t, m);
    }
  }

  lemma ArrivalKeepsInv(s: SeqSystem, m: SeqMessage)
    requires SeqInv(s) && m in s.net && m.SeqData?
    ensures SeqInv(SeqApply(s, SeqToReceiver(m)))
  {
    assert GenuineSeq(s, m);
    TakenLater(s.rcv, m.n, m.packet);
    LogKept(s.rcv, s.snd.sent, m.n, m.packet);
    var t := SeqApply(s, SeqToReceiver(m));
    forall x | x in t.net
      ensures GenuineSeq(t, x)
    {
      assert GenuineSeq(s, x);
    }
  }

  lemma AckKeepsInv(s: SeqSystem, m: SeqMessage)
    requires SeqInv(s) && m in s.net && m.SeqAckOf? && s.routed
    ensures SeqInv(SeqApply(s, SeqToSender(m)))
  {
    assert GenuineSeq(s, m);
    var t := SeqApply(s, SeqToSender(m));
    forall x | x in t.net
      ensures GenuineSeq(t, x)
    {
      assert GenuineSeq(s, x);
    }
    if Taken(s.rcv, m.n) {
      var i :| 0 <= i < |s.rcv.log| && s.rcv.log[i].n == m.n;
      assert m.n <= s.rcv.r;
    }
  }

  lemma SeqApplyKeepsInv(s: SeqSystem, a: SeqAction)
    requires SeqInv(s)
    ensures SeqInv(SeqApply(s, a))
  {
    match a
    case SeqEnqueue(_) =>
      var t := SeqApply(s, a);
      assert forall m :: m in t.net ==> GenuineSeq(s, m) && GenuineSeq(t, m);
    case SeqWake =>
      assert forall m :: m in s.net ==> GenuineSeq(s, m) && GenuineSeq(SeqApply(s, a), m);
    case SeqSenderTurn(due) => SenderTurnKeepsInv(s, due);
    case SeqReceiverTurn => ReceiverTurnKeepsInv(s);
    case SeqToReceiver(m) => if m in s.net && m.SeqData? { ArrivalKeepsInv(s, m); }
    case SeqToSender(m) => if m in s.net && m.SeqAckOf? && s.routed { AckKeepsInv(s, m); }
  }

  lemma SenderTurnKeepsInv(s: SeqSystem, due: bool)
    requires SeqInv(s)
    ensures SeqInv(SeqApply(s, SeqSenderTurn(due)))
  {
    var t := SeqApply(s, SeqSenderTurn(due));
    forall m | m in t.net
      ensures GenuineSeq(t, m)
    {
      if m in s.net { assert GenuineSeq(s, m); }
    }
  }

  /** Whatever packet comes in on the reliable variant, late and repeated ones too, the next turn answers it with the number
      taken last. */
  lemma EveryArrivalAnswered(s: SeqSystem, m: SeqMessage)
    requires SeqInv(s) && s.rcv.reliable && m in s.net && m.SeqData?
    ensures var t := SeqApply(s, SeqToReceiver(m));
            SeqAckOf(t.rcv.r) in SeqApply(t, SeqReceiverTurn).net && t.rcv.r >= m.n
  {
    SeqReceiveExactly(s.rcv, m.n, m.packet);
  }

  lemma {:induction false} SeqRunKeepsInv(s: SeqSystem, actions: seq<SeqAction>)
    requires SeqInv(s)
    ensures SeqInv(SeqRun(s, actions))
    ensures SeqRun(s, actions).snd.reliable == s.snd.reliable && SeqRun(s, actions).routed == s.routed
    decreases |actions|
  {
    if actions != [] {
      SeqApplyKeepsInv(s, actions[0]);
      SeqRunKeepsInv(SeqApply(s, actions[0]), actions[1..]);
    }
  }

  /** In every run the delivered packets are a strictly increasing subsequence of those sent; and the reliable variant
      gives up the last packet only after the receiver has taken it, so until then it is still there to repeat. */
  lemma SequencedDelivery(reliable: bool, id: uint8, routed: bool, actions: seq<SeqAction>)
    ensures var s := SeqRun(SeqStart(reliable, id, routed), actions);
            && (forall i, j :: 0 <= i < j < |s.rcv.log| ==> s.rcv.log[i].n < s.rcv.log[j].n)
            && (forall i :: 0 <= i < |s.rcv.log| ==>
                  1 <= s.rcv.log[i].n <= |s.snd.sent| && s.rcv.log[i].packet == s.snd.sent[s.rcv.log[i].n - 1])
            && (forall n :: n in s.snd.dropped ==> Taken(s.rcv, n))
            && (reliable ==> s.rcv.r == |s.snd.sent| || s.snd.last == Some(|s.snd.sent|))
  {
    SeqRunKeepsInv(SeqStart(reliable, id, routed), actions);
  }

  // ---- Whether the last packet can still arrive -------------------------------------------------

  predicate SeqLeftAlone(actions: seq<SeqAction>) {
    forall i :: 0 <= i < |actions| ==> !actions[i].SeqEnqueue? && !actions[i].SeqWake?
  }

  function SeqLose(s: SeqSystem): SeqSystem {
    s.(net := {})
  }

  lemma SeqRunTwo(s: SeqSystem, a: SeqAction, b: SeqAction)
    ensures SeqRun(s, [a, b]) == SeqApply(SeqApply(s, a), b)
  {
    assert [a, b][1..] == [b] && [b][1..] == [];
    assert SeqRun(s, [a, b]) == SeqRun(SeqApply(s, a), [b]) == SeqRun(SeqApply(SeqApply(s, a), b), []);
  }

  // A turn with something to send or to repeat, and the arrival of the last packet it sends.
  lemma SendAndArrive(s: SeqSystem) returns (acts: seq<SeqAction>)
    requires SeqInv(s) && (s.snd.queue != [] || s.snd.last.Some?)
    ensures SeqLeftAlone(acts) && SeqRun(s, acts).rcv.r == |s.snd.sent| + |s.snd.queue|
  {
    var n := |s.snd.sent| + |s.snd.queue|;
    LastIsSent(s.snd);
    var t := SeqApply(s, SeqSenderTurn(true));
    var m := SeqData(n, t.snd.sent[n - 1]);
    SeqApplyKeepsInv(s, SeqSenderTurn(true));
    ArrivesLast(t, m);
    SeqRunTwo(s, SeqSenderTurn(true), SeqToReceiver(m));
    acts := [SeqSenderTurn(true), SeqToReceiver(m)];
  }

  lemma ArrivesLast(t: SeqSystem, m: SeqMessage)
    requires SeqInv(t) && m.SeqData? && m in t.net && m.n == |t.snd.sent|
    ensures SeqApply(t, SeqToReceiver(m)).rcv.r == m.n
  {}

  lemma LastIsSent(s: SeqSender)
    requires s.queue != [] || (s.reliable && s.last == Some(|s.sent|) && |s.sent| >= 1)
    ensures var n := |s.sent| + |s.queue|;
            |SeqTransmit(s).sent| == n >= 1 && SeqData(n, SeqTransmit(s).sent[n - 1]) in SeqDataSent(s, true)
  {
    var ns := SeqTransmitted(s, true);
    assert ns[|ns| - 1] == |s.sent| + |s.queue| && ns[|ns| - 1] in ns;
  }

  // Nothing to send, nothing to repeat, no packet on the network.
  ghost predicate Spent(s: SeqSystem) {
    s.snd.queue == [] && s.snd.last.None? && forall m :: m in s.net ==> m.SeqAckOf?
  }

  lemma {:induction false} SpentStays(s: SeqSystem, actions: seq<SeqAction>)
    requires Spent(s) && SeqLeftAlone(actions)
    ensures SeqRun(s, actions).rcv.r == s.rcv.r
    decreases |actions|
  {
    if actions != [] {
      assert StampAll([], s.snd.id) == [] && s.snd.sent + [] == s.snd.sent;
      SpentStays(SeqApply(s, actions[0]), actions[1..]);
    }
  }

  /** Everything on the network is lost, and nobody does anything for the channel any more. Then the last packet given to it
      can still arrive if and only if it waits in the queue, is kept to be repeated, or has arrived. */
  lemma LastArrives(s: SeqSystem)
    requires SeqInv(s)
    ensures (exists acts :: SeqLeftAlone(acts) && SeqRun(SeqLose(s), acts).rcv.r == |s.snd.sent| + |s.snd.queue|)
            <==> s.snd.queue != [] || s.snd.last.Some? || s.rcv.r == |s.snd.sent|
  {
    var u := SeqLose(s);
    if s.snd.queue != [] || s.snd.last.Some? {
      var acts := SendAndArrive(u);
      assert SeqLeftAlone(acts) && SeqRun(u, acts).rcv.r == |s.snd.sent| + |s.snd.queue|;
    } else {
      if acts :| SeqLeftAlone(acts) && SeqRun(u, acts).rcv.r == |s.snd.sent| + |s.snd.queue| {
        SpentStays(u, acts);
      }
      assert SeqLeftAlone([]) && SeqRun(u, []) == u;
    }
  }

  /** In every run, whatever has been lost: the reliable variant can always still bring its last packet across, by repeating
      it; the other one if and only if it is still queued or has arrived. */
  lemma LastCanArrive(reliable: bool, id: uint8, routed: bool, actions: seq<SeqAction>)
    ensures var s := SeqRun(SeqStart(reliable, id, routed), actions);
            (exists more :: SeqLeftAlone(more) && SeqRun(SeqLose(s), more).rcv.r == |s.snd.sent| + |s.snd.queue|)
            <==> reliable || s.snd.queue != [] || s.rcv.r == |s.snd.sent|
  {
    SeqRunKeepsInv(SeqStart(reliable, id, routed), actions);
    LastArrives(SeqRun(SeqStart(reliable, id, routed), actions));
  }

  /** While distances stay below half the sequence space, wrapped numbers are read as they were meant, so the class
      below takes the protocol's steps. */
  lemma ReadAsMeant(s: SeqSystem, m: SeqMessage)
    requires SeqInv(s) && m in s.net
    ensures m.SeqData? && m.n - s.rcv.r < HALF_MAX_SEQUENCE && s.rcv.r - m.n <= HALF_MAX_SEQUENCE ==>
              SeqReceive(s.rcv, Unwrap(Wrap(m.n), s.rcv.r), m.packet) == SeqReceive(s.rcv, m.n, m.packet)
    ensures m.SeqAckOf? && s.snd.last.Some? && |s.snd.sent| - m.n <= HALF_MAX_SEQUENCE ==>
              SeqAck(s.snd, Unwrap(Wrap(m.n), s.snd.last.value)) == SeqAck(s.snd, m.n)
  {
    assert GenuineSeq(s, m);
    if m.SeqData? && m.n - s.rcv.r < HALF_MAX_SEQUENCE && s.rcv.r - m.n <= HALF_MAX_SEQUENCE {
      UnwrapOfWrapped(m.n, s.rcv.r);
    }
    if m.SeqAckOf? && s.snd.last.Some? && |s.snd.sent| - m.n <= HALF_MAX_SEQUENCE {
      if Taken(s.rcv, m.n) {
        var i :| 0 <= i < |s.rcv.log| && s.rcv.log[i].n == m.n;
      }
      UnwrapOfWrapped(m.n, s.snd.last.value);
    }
  }

  // ---- The channel ------------------------------------------------------------------------------

  datatype Numbered = Numbered(sequence: int, packet: Packet)

  function SeqWire(sent: seq<Packet>, ns: seq<int>): seq<Datagram>
    requires forall i :: 0 <= i < |ns| ==> 1 <= ns[i] <= |sent|
  {
    seq(|ns|, i requires 0 <= i < |ns| => Channeled(Wrap(ns[i]), sent[ns[i] - 1]))
  }

  function NextQueued(s: SeqSender): SeqSender
    requires s.queue != []
  {
    var sent := s.sent + [Stamp(s.queue[0], s.id)];
    s.(queue := s.queue[1..], sent := sent, last := if s.reliable && |s.queue| == 1 then Some(|sent|) else s.last)
  }

  // `s` is `s0` after the packets that `out` carries were taken from its queue.
  ghost predicate Drains(s0: SeqSender, s: SeqSender, out: seq<Datagram>) {
    && |out| <= |s0.queue| && s.queue == s0.queue[|out|..]
    && s == s0.(queue := s.queue, sent := s0.sent + StampAll(s0.queue[..|out|], s0.id), last := s.last)
    && s.last == (if s0.reliable && |out| > 0 && s.queue == [] then Some(|s.sent|) else s0.last)
    && forall i :: 0 <= i < |out| ==> out[i] == Channeled(Wrap(|s0.sent| + 1 + i), Stamp(s0.queue[i], s0.id))
  }

  lemma DrainsNext(s0: SeqSender, s: SeqSender, out: seq<Datagram>)
    requires Drains(s0, s, out) && s.queue != []
    ensures Drains(s0, NextQueued(s), out + [Channeled(Wrap(|s.sent| + 1), Stamp(s.queue[0], s.id))])
  {
    var k := |out|;
    assert s0.queue[..k + 1] == s0.queue[..k] + [s0.queue[k]];
    assert StampAll(s0.queue[..k + 1], s0.id) == StampAll(s0.queue[..k], s0.id) + [Stamp(s.queue[0], s.id)];
  }

  lemma DrainsAll(s0: SeqSender, s: SeqSender, out: seq<Datagram>)
    requires Drains(s0, s, out) && s.queue == [] && !(s0.reliable && s0.queue == [])
    ensures var ns := SeqTransmitted(s0, true);
            && (forall i :: 0 <= i < |ns| ==> 1 <= ns[i] <= |s.sent|)
            && s == SeqTransmit(s0) && out == SeqWire(s.sent, ns)
  {
    assert s0.queue[..|out|] == s0.queue;
  }

  // The channel id of the acknowledgement packet, which is made with it and never gets the channel's own.
  const ACK_CHANNEL: uint8 := 0

  class SequencedChannel {
    const id: uint8
    const reliable: bool

    var localSequence: int
    var remoteSequence: int
    var lastPacket: Option<Numbered>
    var mustSendAck: bool
    var outgoingQueue: seq<Packet>
    var isAddedToSendQueue: bool

    ghost var snd: SeqSender
    ghost var rcv: SeqReceiver

    ghost predicate SenderTied()
      reads this
    {
      && snd.reliable == reliable && snd.id == id && snd.queue == outgoingQueue
      && localSequence == Wrap(|snd.sent|)
      && (snd.last.None? ==> lastPacket == None)
      && (snd.last.Some? ==> var n := snd.last.value;
                             reliable && 1 <= n <= |snd.sent| && lastPacket == Some(Numbered(Wrap(n), snd.sent[n - 1])))
    }

    ghost predicate Valid()
      reads this
    {
      && SenderTied()
      && rcv.reliable == reliable && rcv.r >= 0 && remoteSequence == Wrap(rcv.r) && mustSendAck == rcv.ackDue
      && (mustSendAck ==> reliable)
      && (outgoingQueue != [] || mustSendAck || snd.last.Some? ==> isAddedToSendQueue)
    }

    constructor (reliable: bool, id: uint8)
      ensures Valid() && !isAddedToSendQueue
      ensures snd == SeqStart(reliable, id, true).snd && rcv == SeqStart(reliable, id, true).rcv
    {
      this.reliable, this.id := reliable, id;
      localSequence, remoteSequence, lastPacket, mustSendAck := 0, 0, None, false;
      outgoingQueue, isAddedToSendQueue := [], false;
      snd, rcv := SeqSender(reliable, id, [], [], None, []), SeqReceiver(reliable, 0, [], false);
    }

    method AddToQueue(p: Packet)
      requires Valid()
      modifies this
      ensures Valid() && isAddedToSendQueue && rcv == old(rcv)
      ensures snd == old(snd).(queue := old(snd.queue) + [p])
    {
      outgoingQueue := outgoingQueue + [p];
      snd := snd.(queue := snd.queue + [p]);
      isAddedToSendQueue := true;
    }

    /** process_packet. Every sequence number is read as the number nearest to the last one taken. */
    method ProcessPacket(d: Datagram) returns (taken: bool, delivered: seq<Packet>)
      requires Valid()
      modifies this
      ensures Valid()
      ensures rcv == match d
                     case Ack(_, _, _) => old(rcv)
                     case Channeled(sequence, p) =>
                       if p.fragment.Part? then old(rcv)
                       else if sequence < MAX_SEQUENCE then SeqReceive(old(rcv), Unwrap(sequence, old(rcv.r)), p)
                       else old(rcv).(ackDue := old(rcv.ackDue) || reliable)
      ensures Payloads(rcv.log) == Payloads(old(rcv.log)) + delivered && (taken <==> delivered != [])
      ensures snd == match d
                     case Channeled(_, _) => old(snd)
                     case Ack(sequence, _, _) =>
                       if old(snd.last).Some? && sequence < MAX_SEQUENCE then
                         SeqAck(old(snd), Unwrap(sequence, old(snd.last).value))
                       else old(snd)
      ensures isAddedToSendQueue == (old(isAddedToSendQueue) || (d.Channeled? && !d.packet.fragment.Part? && reliable))
    {
      taken, delivered := false, [];
      match d
      case Ack(sequence, _, _) =>
        if reliable && lastPacket.Some? {
          var n := AckMatches(sequence);
          if sequence == lastPacket.value.sequence {
            lastPacket := None;
            snd := SeqAck(snd, n);
          }
        }
      case Channeled(sequence, p) =>
        if p.fragment.Part? {
          return;
        }
        ghost var n := Unwrap(sequence, rcv.r);
        var relative := Relative(sequence, remoteSequence);
        if sequence < MAX_SEQUENCE && relative > 0 {
          UnwrapIsCongruent(sequence, rcv.r);
          remoteSequence := sequence;
          PayloadsConcat(rcv.log, [Delivery(n, p)]);
          rcv := rcv.(r := n, log := rcv.log + [Delivery(n, p)]);
          taken, delivered := true, [p];
        }
        if reliable {
          mustSendAck := true;
          isAddedToSendQueue := true;
          rcv := rcv.(ackDue := true);
        }
    }

    // An acknowledgement names the last packet exactly if its number, read near it, is the last packet's.
    ghost method AckMatches(sequence: uint16) returns (n: int)
      requires Valid() && snd.last.Some?
      ensures n == snd.last.value
      ensures sequence < MAX_SEQUENCE ==> (sequence == Wrap(n) <==> Unwrap(sequence, n) == n)
    {
      n := snd.last.value;
      if sequence < MAX_SEQUENCE {
        UnwrapIsCongruent(sequence, n);
        UnwrapOfWrapped(n, n);
      }
    }

    /** Numbers and sends one queued packet, and keeps it if it is the last and the channel is reliable. */
    method SendOne() returns (d: Datagram)
      requires SenderTied() && outgoingQueue != []
      modifies this`outgoingQueue, this`localSequence, this`lastPacket, this`snd
      ensures SenderTied() && snd == NextQueued(old(snd))
      ensures d == Channeled(Wrap(|snd.sent|), Stamp(old(snd.queue)[0], id))
    {
      var p := Stamp(outgoingQueue[0], id);
      outgoingQueue := outgoingQueue[1..];
      localSequence := (localSequence + 1) % MAX_SEQUENCE;
      WrapSuccessor(|snd.sent|);
      snd := NextQueued(snd);
      if reliable && outgoingQueue == [] {
        lastPacket := Some(Numbered(localSequence, p));
      }
      d := Channeled(localSequence, p);
    }

    method SendQueued() returns (out: seq<Datagram>)
      requires SenderTied() && !(reliable && outgoingQueue == [])
      modifies this`outgoingQueue, this`localSequence, this`lastPacket, this`snd
      ensures SenderTied() && snd == SeqTransmit(old(snd))
      ensures var ns := SeqTransmitted(old(snd), true);
              && (forall i :: 0 <= i < |ns| ==> 1 <= ns[i] <= |snd.sent|)
              && out == SeqWire(snd.sent, ns)
    {
      out := [];
      ghost var s0 := snd;
      while outgoingQueue != []
        invariant SenderTied() && Drains(s0, snd, out)
        decreases |outgoingQueue|
      {
        DrainsNext(s0, snd, out);
        var d := SendOne();
        out := out + [d];
      }
      DrainsAll(s0, snd, out);
    }

    /** send_next_packets. `due` says the resend delay of the last packet has elapsed. */
    method SendNextPackets(due: bool) returns (again: bool, out: seq<Datagram>)
      requires Valid() && isAddedToSendQueue
      modifies this
      ensures Valid() && !mustSendAck && outgoingQueue == [] && isAddedToSendQueue == old(isAddedToSendQueue)
      ensures snd == SeqTransmit(old(snd)) && rcv == old(rcv).(ackDue := false)
      ensures again <==> snd.last.Some?
      ensures var ns := SeqTransmitted(old(snd), due);
              && (forall i :: 0 <= i < |ns| ==> 1 <= ns[i] <= |snd.sent|)
              && out == SeqWire(snd.sent, ns) + (if old(rcv.ackDue) then [Ack(Wrap(rcv.r), ACK_CHANNEL, [])] else [])
    {
      out := [];
      if reliable && outgoingQueue == [] {
        assert SeqTransmit(snd) == snd by { assert snd.sent + StampAll([], id) == snd.sent; }
        if due && lastPacket.Some? {
          out := [Channeled(lastPacket.value.sequence, lastPacket.value.packet)];
        }
      } else {
        out := SendQueued();
      }
      if reliable && mustSendAck {
        mustSendAck := false;
        out := out + [Ack(remoteSequence, ACK_CHANNEL, [])];
      }
      rcv := rcv.(ackDue := false);
      again := lastPacket.Some?;
    }

    /** send_and_check_queue, as for the reliable channel. */
    method SendAndCheckQueue(due: bool) returns (again: bool, out: seq<Datagram>)
      requires Valid() && isAddedToSendQueue
      modifies this
      ensures Valid() && snd == SeqTransmit(old(snd)) && rcv == old(rcv).(ackDue := false)
      ensures again <==> snd.last.Some?
      ensures var ns := SeqTransmitted(old(snd), due);
              && (forall i :: 0 <= i < |ns| ==> 1 <= ns[i] <= |snd.sent|)
              && out == SeqWire(snd.sent, ns) + (if old(rcv.ackDue) then [Ack(Wrap(rcv.r), ACK_CHANNEL, [])] else [])
      ensures isAddedToSendQueue == again
    {
      again, out := SendNextPackets(due);
      if !again {
        isAddedToSendQueue := false;
      }
    }
  }
}
