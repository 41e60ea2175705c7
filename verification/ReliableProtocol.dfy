/** Two ends of a reliable channel and a network that loses, repeats and reorders: every datagram ever sent may
    be delivered at any time, any number of times, or never. */
module ReliableProtocol {
  import opened Sequence
  import opened Packets
  import opened ReliableSpec

  datatype ChannelMessage = DataMessage(n: int, packet: Packet) | AckMessage(start: int, acked: set<int>)

  /** `scheduled` says whether the sending channel waits in its peer's send queue; it gets turns only while it does. */
  datatype System = System(snd: Sender, rcv: Receiver, net: set<ChannelMessage>, scheduled: bool)

  datatype Action =
    | Enqueue(packet: Packet)       // the application gives the sending channel a packet
    | Wake                          // a packet of the other direction makes the sending channel owe an acknowledgement
    | TransmitPending(due: set<int>) // the sending channel's turn: send_and_check_queue
    | SendAck                       // the receiving channel's turn: send_next_packets
    | DeliverToReceiver(message: ChannelMessage)
    | DeliverToSender(message: ChannelMessage)

  function DataSent(s: Sender, due: set<int>): set<ChannelMessage> {
    var t := Transmit(s, due);
    set n | n in Transmitted(s, due) && 0 <= n < |t.packets| :: DataMessage(n, t.packets[n])
  }

  function Apply(s: System, a: Action): System {
    match a
    case Enqueue(p) => s.(snd := s.snd.(queue := s.snd.queue + [p]), scheduled := true)
    case Wake => s.(scheduled := true)
    case TransmitPending(due) =>
      if s.scheduled then
        s.(snd := Transmit(s.snd, due), net := s.net + DataSent(s.snd, due), scheduled := KeepsTurn(s.snd, due))
      else s
    case SendAck =>
      if s.rcv.ackDue then
        s.(rcv := s.rcv.(ackDue := false), net := s.net + {AckMessage(s.rcv.w, Acknowledged(s.rcv))})
      else s
    case DeliverToReceiver(m) =>
      if m in s.net && m.DataMessage? then s.(rcv := Receive(s.rcv, m.n, m.packet)) else s
    case DeliverToSender(m) =>
      if m in s.net && m.AckMessage? then s.(snd := ProcessAck(s.snd, m.start, m.acked)) else s
  }

  function Run(s: System, actions: seq<Action>): System
    decreases |actions|
  {
    if actions == [] then s else Run(Apply(s, actions[0]), actions[1..])
  }

  function Start(ordered: bool, id: uint8): System {
    System(Silent(id), Initial(ordered), {}, false)
  }

  // What the application enqueued, as the channel stamps it.
  function Given(actions: seq<Action>, id: uint8): seq<Packet> {
    if actions == [] then []
    else (if actions[0].Enqueue? then [Stamp(actions[0].packet, id)] else []) + Given(actions[1..], id)
  }

  /** The two windows bracket each other although each end learns of the other only from stale datagrams. */
  ghost predicate WindowsAgree(s: System) {
    && 0 <= s.rcv.w <= s.snd.lws <= s.rcv.r <= s.snd.ls <= s.snd.lws + WINDOW_SIZE
    && s.rcv.r <= s.rcv.w + WINDOW_SIZE
  }

  ghost predicate GenuineMessage(s: System, m: ChannelMessage) {
    match m
    case DataMessage(n, p) => 0 <= n < s.snd.ls == |s.snd.packets| && p == s.snd.packets[n]
    case AckMessage(start, acked) =>
      0 <= start <= s.rcv.w && forall n :: n in acked ==> start <= n < start + WINDOW_SIZE && Accepted(s.rcv, n)
  }

  ghost predicate Inv(s: System) {
    && SenderInv(s.snd) && ReceiverInv(s.rcv)
    && WindowsAgree(s)
    && (forall m :: m in s.net ==> GenuineMessage(s, m))
    && (s.snd.queue != [] ==> s.scheduled)
    && (forall n :: n in s.snd.cleared ==> Accepted(s.rcv, n))
    && (forall n :: n in s.rcv.early ==> n < s.snd.ls && s.rcv.early[n] == s.snd.packets[n])
    && (forall i :: 0 <= i < |s.rcv.log| ==>
          0 <= s.rcv.log[i].n < s.snd.ls && s.rcv.log[i].packet == s.snd.packets[s.rcv.log[i].n])
  }

  lemma TransmitKeepsSystem(s: System, due: set<int>)
    requires Inv(s)
    ensures Inv(Apply(s, TransmitPending(due)))
  {
    TransmitKeepsInv(s.snd, due);
    FillExact(s.snd);
    var t := Apply(s, TransmitPending(due));
    forall m | m in t.net
      ensures GenuineMessage(t, m)
    {
      if m in s.net { assert GenuineMessage(s, m); }
    }
  }

  lemma DeliverKeepsSystem(s: System, m: ChannelMessage)
    requires Inv(s) && m in s.net && m.DataMessage?
    ensures Inv(Apply(s, DeliverToReceiver(m)))
  {
    assert GenuineMessage(s, m);
    ReceiveKeepsInv(s.rcv, m.n, m.packet);
    if Admits(s.rcv, m.n) {
      ReceiveExact(s.rcv, m.n, m.packet);
      var t := Apply(s, DeliverToReceiver(m));
      assert !Accepted(t.rcv, t.rcv.r);
      assert t.rcv.r > 0 ==> Accepted(t.rcv, t.rcv.r - 1);
      assert forall x :: Accepted(t.rcv, x) ==> x < t.snd.ls;
      assert forall x :: x in t.net ==> GenuineMessage(s, x) && GenuineMessage(t, x);
      assert forall x :: x in t.rcv.early ==> Accepted(t.rcv, x);
    }
  }

  lemma AckKeepsSystem(s: System, m: ChannelMessage)
    requires Inv(s) && m in s.net && m.AckMessage?
    ensures Inv(Apply(s, DeliverToSender(m)))
  {
    assert GenuineMessage(s, m);
    AckFromExact(s.snd, m.start, m.acked);
    var t := Apply(s, DeliverToSender(m));
    assert !Accepted(s.rcv, s.rcv.r);
    assert t.snd.lws > 0 ==> t.snd.lws - 1 in t.snd.cleared;
    assert forall x :: x in t.net ==> GenuineMessage(s, x) && GenuineMessage(t, x);
    assert forall n :: 0 <= n < t.snd.lws ==> n in t.snd.cleared;
  }

  lemma ApplyKeepsInv(s: System, a: Action)
    requires Inv(s)
    ensures Inv(Apply(s, a))
  {
    match a
    case Enqueue(_) =>
      var t := Apply(s, a);
      assert forall x :: x in t.net ==> GenuineMessage(s, x) && GenuineMessage(t, x);
    case Wake =>
      assert forall x :: x in s.net ==> GenuineMessage(s, x) && GenuineMessage(Apply(s, a), x);
    case TransmitPending(due) => TransmitKeepsSystem(s, due);
    case SendAck =>
      var t := Apply(s, a);
      assert forall x :: x in s.net ==> GenuineMessage(s, x) && GenuineMessage(t, x);
    case DeliverToReceiver(m) => if m in s.net && m.DataMessage? { DeliverKeepsSystem(s, m); }
    case DeliverToSender(m) => if m in s.net && m.AckMessage? { AckKeepsSystem(s, m); }
  }

  lemma {:induction false} RunKeepsInv(s: System, actions: seq<Action>)
    requires Inv(s)
    ensures Inv(Run(s, actions))
    decreases |actions|
  {
    if actions != [] {
      ApplyKeepsInv(s, actions[0]);
      RunKeepsInv(Apply(s, actions[0]), actions[1..]);
    }
  }

  // ---- Acknowledgements form a chain ------------------------------------------------------------

  // The later of two acknowledgements reports whatever the earlier does of its window.
  predicate Before(m: ChannelMessage, x: ChannelMessage)
    requires m.AckMessage? && x.AckMessage?
  {
    m.start <= x.start && forall n :: n in m.acked && n >= x.start ==> n in x.acked
  }

  // It reports all of its window that has been freed, or nothing that has not.
  predicate Newest(m: ChannelMessage, cleared: seq<int>)
    requires m.AckMessage?
  {
    forall n :: n in cleared && n >= m.start ==> n in m.acked
  }

  predicate Known(m: ChannelMessage, cleared: seq<int>)
    requires m.AckMessage?
  {
    forall n :: n in m.acked ==> n in cleared
  }

  /** The packet at the window start is never acknowledged: although freeing it moves the start by one number only,
      the start never comes to rest on a number freed before, because of any two acknowledgements one reports more. */
  ghost predicate AcksOrdered(s: System) {
    && s.snd.lws !in s.snd.cleared
    && (forall m, x :: m in s.net && x in s.net && m.AckMessage? && x.AckMessage? ==> Before(m, x) || Before(x, m))
    && (forall m :: m in s.net && m.AckMessage? ==> Newest(m, s.snd.cleared) || Known(m, s.snd.cleared))
  }

  lemma SendAckKeepsAcksOrdered(s: System)
    requires Inv(s) && AcksOrdered(s)
    ensures AcksOrdered(Apply(s, SendAck))
  {
    if s.rcv.ackDue {
      var ack := AckMessage(s.rcv.w, Acknowledged(s.rcv));
      assert Newest(ack, s.snd.cleared);
      forall m | m in s.net && m.AckMessage?
        ensures Before(m, ack)
      {
        assert GenuineMessage(s, m);
      }
    }
  }

  // Reading an acknowledgement frees all it reports, if it reports anything new.
  lemma AckFrees(s: System, m: ChannelMessage)
    requires Inv(s) && AcksOrdered(s) && m in s.net && m.AckMessage?
    ensures var t := Apply(s, DeliverToSender(m));
            && t.snd.lws !in t.snd.cleared
            && (t.snd == s.snd
                || (Newest(m, s.snd.cleared) && forall n :: n in t.snd.cleared <==> n in s.snd.cleared || n in m.acked))
  {
    assert GenuineMessage(s, m);
    AckFromExact(s.snd, m.start, m.acked);
    assert forall n :: Accepted(s.rcv, n) ==> n < s.snd.ls;
    var t := Apply(s, DeliverToSender(m));
    if t.snd != s.snd && Known(m, s.snd.cleared) {
      AckKnown(s.snd, s.snd.lws, m.start, m.acked);
    }
  }

  lemma {:induction false} AckKnown(s: Sender, n: int, start: int, acked: set<int>)
    requires s.lws <= n && s.lws !in s.cleared && forall x :: x in acked ==> x in s.cleared
    ensures AckFrom(s, n, start, acked) == s
    decreases s.ls - n
  {
    if n < s.ls && n - start < WINDOW_SIZE { AckKnown(s, n + 1, start, acked); }
  }

  lemma AckKeepsAcksOrdered(s: System, m: ChannelMessage)
    requires Inv(s) && AcksOrdered(s) && m in s.net && m.AckMessage?
    ensures AcksOrdered(Apply(s, DeliverToSender(m)))
  {
    AckFrees(s, m);
    var t := Apply(s, DeliverToSender(m));
    if t.snd != s.snd {
      forall x | x in s.net && x.AckMessage?
        ensures Newest(x, t.snd.cleared) || Known(x, t.snd.cleared)
      {
        assert GenuineMessage(s, m) && GenuineMessage(s, x);
        if Before(x, m) {
          assert Known(x, t.snd.cleared);
        }
      }
    }
  }

  lemma ApplyKeepsAcksOrdered(s: System, a: Action)
    requires Inv(s) && AcksOrdered(s)
    ensures AcksOrdered(Apply(s, a))
  {
    match a
    case Enqueue(_) =>
    case Wake =>
    case TransmitPending(due) => TransmitKeepsInv(s.snd, due);
    case SendAck => SendAckKeepsAcksOrdered(s);
    case DeliverToReceiver(_) =>
    case DeliverToSender(m) => if m in s.net && m.AckMessage? { AckKeepsAcksOrdered(s, m); }
  }

  lemma {:induction false} RunKeepsAcksOrdered(s: System, actions: seq<Action>)
    requires Inv(s) && AcksOrdered(s)
    ensures AcksOrdered(Run(s, actions))
    decreases |actions|
  {
    if actions != [] {
      ApplyKeepsInv(s, actions[0]);
      ApplyKeepsAcksOrdered(s, actions[0]);
      RunKeepsAcksOrdered(Apply(s, actions[0]), actions[1..]);
    }
  }

  lemma ApplyOffers(s: System, a: Action)
    requires Inv(s)
    ensures var t := Apply(s, a);
            && Offered(t.snd) == Offered(s.snd) + (if a.Enqueue? then [Stamp(a.packet, s.snd.id)] else [])
            && t.snd.id == s.snd.id && t.rcv.ordered == s.rcv.ordered
  {
    match a {
      case Enqueue(p) => assert Offered(Apply(s, a).snd) == Offered(s.snd) + [Stamp(p, s.snd.id)];
      case Wake =>
      case TransmitPending(due) =>
        TransmitKeepsInv(s.snd, due);
        FillExact(s.snd);
      case DeliverToSender(m) => if m.AckMessage? { AckFromExact(s.snd, m.start, m.acked); }
      case DeliverToReceiver(m) => if m.DataMessage? { ReceiveKeepsKind(s.rcv, m.n, m.packet); }
      case SendAck =>
    }
  }

  lemma ConcatAssociates(a: seq<Packet>, b: seq<Packet>, c: seq<Packet>)
    ensures (a + b) + c == a + (b + c)
  {}

  lemma {:induction false} RunOffers(s: System, actions: seq<Action>)
    requires Inv(s)
    ensures var t := Run(s, actions);
            && Offered(t.snd) == Offered(s.snd) + Given(actions, s.snd.id)
            && t.snd.id == s.snd.id && t.rcv.ordered == s.rcv.ordered
    decreases |actions|
  {
    if actions != [] {
      ApplyKeepsInv(s, actions[0]);
      ApplyOffers(s, actions[0]);
      RunOffers(Apply(s, actions[0]), actions[1..]);
      var one := if actions[0].Enqueue? then [Stamp(actions[0].packet, s.snd.id)] else [];
      ConcatAssociates(Offered(s.snd), one, Given(actions[1..], s.snd.id));
    }
  }

  /** Reliable ordered delivery: in every run, what reaches the peer is a prefix of what the application gave,
      with no gap, repeat or reordering; it is exactly the packets below the receiver's next expected number. */
  lemma OrderedDelivery(actions: seq<Action>, id: uint8)
    ensures var s := Run(Start(true, id), actions);
            && WindowsAgree(s) && s.snd.ls == |s.snd.packets|
            && Payloads(s.rcv.log) == s.snd.packets[..s.rcv.r]
            && Payloads(s.rcv.log) <= s.snd.packets <= Given(actions, id)
  {
    var s0 := Start(true, id);
    RunKeepsInv(s0, actions);
    RunOffers(s0, actions);
    var s := Run(s0, actions);
    assert Offered(s0.snd) == [];
    assert s.snd.packets <= Offered(s.snd);
  }

  /** Every delivered packet is the one sent under its number, and none is delivered twice; the next expected number is
      the least undelivered one, and the early flags are exactly the delivered numbers above it. */
  ghost predicate DeliveredOnce(s: System) {
    && LogHasNoRepeat(s.rcv.log)
    && (forall i :: 0 <= i < |s.rcv.log| ==>
          0 <= s.rcv.log[i].n < |s.snd.packets| && s.rcv.log[i].packet == s.snd.packets[s.rcv.log[i].n])
    && !Logged(s.rcv.log, s.rcv.r)
    && (forall n :: 0 <= n < s.rcv.r ==> Logged(s.rcv.log, n))
    && (forall n :: n in s.rcv.early <==> n > s.rcv.r && Logged(s.rcv.log, n))
  }

  lemma UnorderedIsExact(s: System)
    requires Inv(s) && !s.rcv.ordered
    ensures DeliveredOnce(s)
  {
    assert forall n :: Logged(s.rcv.log, n) <==> Accepted(s.rcv, n);
  }

  /** Unordered mode: every accepted packet is delivered once, at once, in every run. */
  lemma {:induction false} UnorderedDelivery(actions: seq<Action>, id: uint8)
    ensures var s := Run(Start(false, id), actions);
            DeliveredOnce(s) && s.snd.packets <= Given(actions, id) && WindowsAgree(s)
  {
    var s0 := Start(false, id);
    RunKeepsInv(s0, actions);
    RunOffers(s0, actions);
    var s := Run(s0, actions);
    assert Offered(s0.snd) == [];
    assert s.snd.packets <= Offered(s.snd);
    UnorderedIsExact(s);
  }

  /** A pending packet is freed only if the receiver accepted that packet, at most once, and everything below the local
      window start has been freed. */
  ghost predicate FreedAreAccepted(s: System) {
    && (forall n :: n in s.snd.cleared ==> 0 <= n < s.snd.ls && Accepted(s.rcv, n))
    && (forall i, j :: 0 <= i < j < |s.snd.cleared| ==> s.snd.cleared[i] != s.snd.cleared[j])
    && (forall n :: 0 <= n < s.snd.lws ==> n in s.snd.cleared)
    && s.snd.lws !in s.snd.cleared
  }

  /** Acknowledgements are sound, in every run. */
  lemma AcksAreSound(ordered: bool, actions: seq<Action>, id: uint8)
    ensures FreedAreAccepted(Run(Start(ordered, id), actions))
  {
    RunKeepsInv(Start(ordered, id), actions);
    RunKeepsAcksOrdered(Start(ordered, id), actions);
  }

  /** A packet the sender still holds is never refused: it is accepted or recognised, and an answer is owed. */
  lemma NoLivePacketRefused(s: System, n: int)
    requires Inv(s) && s.snd.lws <= n < s.snd.ls
    ensures Admits(s.rcv, n)
    ensures var t := Receive(s.rcv, n, s.snd.packets[n]); t.ackDue && Accepted(t, n)
  {
    ReceiveExact(s.rcv, n, s.snd.packets[n]);
  }

  /** Every packet in reach, new or repeated, is answered by the next turn of the receiving channel, and the answer reports
      it. */
  lemma EveryArrivalAnswered(s: System, m: ChannelMessage)
    requires Inv(s) && m in s.net && m.DataMessage? && s.rcv.w <= m.n < s.rcv.w + 128 && m.n <= s.rcv.r + 64
    ensures var t := Apply(s, DeliverToReceiver(m));
            && AckMessage(t.rcv.w, Acknowledged(t.rcv)) in Apply(t, SendAck).net
            && m.n in Acknowledged(t.rcv)
  {
    ReceiveGuard(s.rcv, m.n, m.packet);
    ReceiveExact(s.rcv, m.n, m.packet);
  }

  // ---- The channel never wedges -----------------------------------------------------------------

  lemma {:induction false} RunConcat(s: System, a: seq<Action>, b: seq<Action>)
    ensures Run(s, a + b) == Run(Run(s, a), b)
    decreases |a|
  {
    if a == [] {
      assert a + b == b;
    } else {
      RunConcat(Apply(s, a[0]), a[1..], b);
      assert (a + b)[1..] == a[1..] + b;
    }
  }

  // Neither the application nor the other direction does anything for the sending channel.
  predicate LeftAlone(actions: seq<Action>) {
    forall i :: 0 <= i < |actions| ==> !actions[i].Enqueue? && !actions[i].Wake?
  }

  lemma {:induction false} NothingGiven(actions: seq<Action>, id: uint8)
    requires LeftAlone(actions)
    ensures Given(actions, id) == []
  {
    if actions != [] { NothingGiven(actions[1..], id); }
  }

  // What the receiver lacks from `k` on is on the network.
  ghost predicate OnTheWay(s: System, k: int) {
    forall n :: k <= n < s.snd.ls && 0 <= n < |s.snd.packets| ==> Accepted(s.rcv, n) || DataMessage(n, s.snd.packets[n]) in s.net
  }

  lemma {:induction false} DeliverRange(s: System, k: int) returns (acts: seq<Action>)
    requires Inv(s) && s.snd.lws <= k <= s.snd.ls && OnTheWay(s, k)
    requires forall n :: s.snd.lws <= n < k ==> Accepted(s.rcv, n)
    ensures var t := Run(s, acts);
            && LeftAlone(acts) && Inv(t) && t.snd == s.snd && t.net == s.net && t.rcv.r == s.snd.ls
    decreases s.snd.ls - k
  {
    if k == s.snd.ls {
      acts := [];
      assert s.rcv.r < s.snd.ls ==> Accepted(s.rcv, s.rcv.r);
    } else if Accepted(s.rcv, k) {
      acts := DeliverRange(s, k + 1);
    } else {
      var a := DeliverToReceiver(DataMessage(k, s.snd.packets[k]));
      ApplyKeepsInv(s, a);
      NoLivePacketRefused(s, k);
      ReceiveExact(s.rcv, k, s.snd.packets[k]);
      var rest := DeliverRange(Apply(s, a), k + 1);
      acts := [a] + rest;
    }
  }

  /** A delivered acknowledgement of a receiver that has everything empties the sender's window. */
  lemma AckEverything(s: System) returns (acts: seq<Action>)
    requires Inv(s) && s.rcv.r == s.snd.ls && s.rcv.ackDue
    ensures var t := Run(s, acts);
            && LeftAlone(acts) && Inv(t) && t.snd.lws == t.snd.ls == s.snd.ls && t.rcv.r == s.rcv.r
            && t.snd.queue == s.snd.queue && Offered(t.snd) == Offered(s.snd)
  {
    var deliver := DeliverToSender(AckMessage(s.rcv.w, Acknowledged(s.rcv)));
    acts := [SendAck] + [deliver];
    var s1 := Apply(s, SendAck);
    ApplyKeepsInv(s, SendAck);
    ApplyKeepsInv(s1, deliver);
    FullAck(s);
    RunCons(s, SendAck, [deliver]);
    RunCons(s1, deliver, []);
    assert [deliver] + [] == [deliver];
  }

  lemma FullAck(s: System)
    requires Inv(s) && s.rcv.r == s.snd.ls
    ensures var t := ProcessAck(s.snd, s.rcv.w, Acknowledged(s.rcv)); t.lws == t.ls && t == s.snd.(lws := t.lws, cleared := t.cleared)
  {
    AckFromExact(s.snd, s.rcv.w, Acknowledged(s.rcv));
    assert forall n :: s.rcv.w <= n < s.snd.ls ==> n in Acknowledged(s.rcv);
  }

  // A turn in which every resend delay has elapsed puts all that is not acknowledged on the network.
  lemma ResendsAll(s: System)
    requires Inv(s) && s.scheduled
    ensures var t := Apply(s, TransmitPending(UpTo(WINDOW_SIZE)));
            && Inv(t) && Offered(t.snd) == Offered(s.snd) && t.snd.lws == s.snd.lws && s.snd.ls <= t.snd.ls
            && OnTheWay(t, t.snd.lws)
            && (forall n :: t.snd.lws <= n < t.snd.ls && n !in t.snd.cleared ==> DataMessage(n, t.snd.packets[n]) in t.net)
            && |t.snd.queue| <= |s.snd.queue|
            && (s.snd.lws == s.snd.ls && s.snd.queue != [] ==> |t.snd.queue| < |s.snd.queue|)
  {
    var t := Apply(s, TransmitPending(UpTo(WINDOW_SIZE)));
    ApplyKeepsInv(s, TransmitPending(UpTo(WINDOW_SIZE)));
    TransmitKeepsInv(s.snd, UpTo(WINDOW_SIZE));
    FillExact(s.snd);
    forall n | t.snd.lws <= n < t.snd.ls && n !in t.snd.cleared
      ensures DataMessage(n, t.snd.packets[n]) in t.net
    {
      assert Sends(Fill(s.snd), n, UpTo(WINDOW_SIZE)) && n in Transmitted(s.snd, UpTo(WINDOW_SIZE));
    }
  }

  // With the window start unacknowledged and all that the receiver lacks on the network, the window can be emptied.
  lemma FinishWindow(s: System) returns (acts: seq<Action>)
    requires Inv(s) && OnTheWay(s, s.snd.lws)
    requires s.snd.lws < s.snd.ls ==> DataMessage(s.snd.lws, s.snd.packets[s.snd.lws]) in s.net
    ensures var t := Run(s, acts);
            && LeftAlone(acts) && Inv(t) && t.snd.lws == t.snd.ls == t.rcv.r == s.snd.ls
            && t.snd.queue == s.snd.queue && Offered(t.snd) == Offered(s.snd)
  {
    if s.snd.lws == s.snd.ls {
      acts := [];
    } else {
      var n := s.snd.lws;
      var deliver := DeliverRange(s, n);
      var s1 := Run(s, deliver);
      var again := DeliverToReceiver(DataMessage(n, s.snd.packets[n]));
      ApplyKeepsInv(s1, again);
      NoLivePacketRefused(s1, n);
      ReceiveExact(s1.rcv, n, s.snd.packets[n]);
      var ack := AckEverything(Apply(s1, again));
      RunConcat(s, deliver, [again] + ack);
      acts := deliver + ([again] + ack);
    }
  }

  /** One exchange without loss empties the sender's window. */
  lemma Exchange(s: System) returns (acts: seq<Action>)
    requires Inv(s) && AcksOrdered(s) && s.scheduled
    ensures var t := Run(s, acts);
            && LeftAlone(acts) && Inv(t) && t.snd.lws == t.snd.ls == t.rcv.r && Offered(t.snd) == Offered(s.snd)
            && |t.snd.queue| <= |s.snd.queue|
            && (s.snd.lws == s.snd.ls && s.snd.queue != [] ==> |t.snd.queue| < |s.snd.queue|)
  {
    var send := TransmitPending(UpTo(WINDOW_SIZE));
    ResendsAll(s);
    ApplyKeepsAcksOrdered(s, send);
    var rest := FinishWindow(Apply(s, send));
    acts := [send] + rest;
    RunCons(s, send, rest);
  }

  lemma RunCons(s: System, a: Action, rest: seq<Action>)
    ensures Run(s, [a] + rest) == Run(Apply(s, a), rest)
    ensures LeftAlone(rest) && !a.Enqueue? && !a.Wake? ==> LeftAlone([a] + rest)
  {
    assert ([a] + rest)[1..] == rest;
  }

  /** A channel that waits to send can always empty its queue and its window, and deliver everything, though all that was
      on the network is lost: what is not acknowledged is sent again. */
  lemma {:induction false} CanAlwaysFinish(s: System) returns (acts: seq<Action>)
    requires Inv(s) && AcksOrdered(s) && s.scheduled
    ensures var t := Run(s, acts);
            && LeftAlone(acts) && Inv(t) && t.snd.queue == [] && t.snd.lws == t.rcv.r == t.snd.ls
            && t.snd.packets == Offered(s.snd)
    decreases |s.snd.queue|, s.snd.ls - s.snd.lws
  {
    var now := Exchange(s);
    var t := Run(s, now);
    RunKeepsAcksOrdered(s, now);
    if t.snd.queue == [] {
      acts := now;
      assert t.snd.packets == Offered(t.snd);
    } else {
      var rest := CanAlwaysFinish(t);
      RunConcat(s, now, rest);
      acts := now + rest;
    }
  }

  // ---- When a channel that is left alone wedges -------------------------------------------------

  // The sending channel has left the send queue, and no packet of its is on the network.
  ghost predicate Idle(s: System) {
    !s.scheduled && forall m :: m in s.net ==> m.AckMessage?
  }

  lemma {:induction false} IdleStays(s: System, acts: seq<Action>)
    requires Inv(s) && Idle(s) && LeftAlone(acts)
    ensures var t := Run(s, acts);
            Idle(t) && t.rcv.r == s.rcv.r && t.snd.ls == s.snd.ls && t.snd.packets == s.snd.packets && t.rcv.log == s.rcv.log
    decreases |acts|
  {
    if acts != [] {
      ApplyKeepsInv(s, acts[0]);
      IdleStep(s, acts[0]);
      IdleStays(Apply(s, acts[0]), acts[1..]);
    }
  }

  lemma IdleStep(s: System, a: Action)
    requires Inv(s) && Idle(s) && !a.Enqueue? && !a.Wake?
    ensures var t := Apply(s, a);
            && Idle(t) && t.rcv.r == s.rcv.r && t.rcv.log == s.rcv.log
            && t.snd.ls == s.snd.ls && t.snd.packets == s.snd.packets && t.snd.queue == s.snd.queue
  {
    if a.DeliverToSender? && a.message in s.net {
      AckFromExact(s.snd, a.message.start, a.message.acked);
    }
  }

  function Lose(s: System): System {
    s.(net := {})
  }

  lemma LoseKeepsInv(s: System)
    requires Inv(s) && AcksOrdered(s)
    ensures Inv(Lose(s)) && AcksOrdered(Lose(s))
  {}

  /** Everything on the network is lost, and nobody does anything for the channel any more. Then what was given to it can
      still all arrive if and only if the channel waits to send, or all has arrived already. */
  lemma ArrivesUnlessIdle(s: System)
    requires Inv(s) && AcksOrdered(s)
    ensures (exists acts :: LeftAlone(acts) && Run(Lose(s), acts).rcv.r == |Offered(s.snd)|)
            <==> s.scheduled || s.rcv.r == s.snd.ls
  {
    LoseKeepsInv(s);
    if s.scheduled {
      var acts := CanAlwaysFinish(Lose(s));
      assert LeftAlone(acts) && Run(Lose(s), acts).rcv.r == |Offered(s.snd)|;
    } else {
      assert |Offered(s.snd)| == s.snd.ls;
      if acts :| LeftAlone(acts) && Run(Lose(s), acts).rcv.r == |Offered(s.snd)| {
        IdleStays(Lose(s), acts);
      }
      if s.rcv.r == s.snd.ls {
        assert LeftAlone([]) && Run(Lose(s), []).rcv.r == |Offered(s.snd)|;
      }
    }
  }

  /** In every run of an ordered channel: exactly what was given can still arrive, in order, if and only if the channel
      waits to send or all has arrived. */
  lemma EverythingCanBeDelivered(actions: seq<Action>, id: uint8)
    ensures var s := Run(Start(true, id), actions);
            (exists more :: LeftAlone(more) && Payloads(Run(Lose(s), more).rcv.log) == Given(actions, id))
            <==> s.scheduled || Payloads(s.rcv.log) == Given(actions, id)
  {
    var s0 := Start(true, id);
    RunKeepsInv(s0, actions);
    RunKeepsAcksOrdered(s0, actions);
    RunOffers(s0, actions);
    var s := Run(s0, actions);
    assert Offered(s.snd) == Given(actions, id);
    LoseKeepsInv(s);
    if s.scheduled {
      var more := CanAlwaysFinish(Lose(s));
      LogIsPrefix(Lose(s), more);
      assert Payloads(Run(Lose(s), more).rcv.log) == Given(actions, id);
    } else {
      if more :| LeftAlone(more) && Payloads(Run(Lose(s), more).rcv.log) == Given(actions, id) {
        IdleStays(Lose(s), more);
      }
      assert LeftAlone([]) && Run(Lose(s), []).rcv.log == s.rcv.log;
    }
  }

  /** After everything on the network is lost, too, what an ordered channel hands on is a prefix of what was given. */
  lemma {:induction false} ContinuedIsPrefix(actions: seq<Action>, id: uint8, more: seq<Action>)
    requires LeftAlone(more)
    ensures var s := Run(Start(true, id), actions); Payloads(Run(Lose(s), more).rcv.log) <= Given(actions, id)
  {
    var s0 := Start(true, id);
    var s := Run(s0, actions);
    RunKeepsInv(s0, actions);
    RunOffers(s0, actions);
    RunKeepsAcksOrdered(s0, actions);
    LoseKeepsInv(s);
    LogIsPrefix(Lose(s), more);
    NothingMoreOffered(Lose(s), more);
    assert [] + Given(actions, id) == Given(actions, id);
    var t := Run(Lose(s), more);
    assert t.snd.packets <= Offered(t.snd);
  }

  lemma NothingMoreOffered(s: System, more: seq<Action>)
    requires Inv(s) && LeftAlone(more)
    ensures Offered(Run(s, more).snd) == Offered(s.snd)
  {
    RunOffers(s, more);
    NothingGiven(more, s.snd.id);
    assert Offered(s.snd) + [] == Offered(s.snd);
  }

  // What an ordered receiver has handed on is the packets below the next expected number.
  lemma LogIsPrefix(s: System, actions: seq<Action>)
    requires Inv(s) && s.rcv.ordered
    ensures var t := Run(s, actions);
            Inv(t) && |t.snd.packets| == t.snd.ls && Payloads(t.rcv.log) == t.snd.packets[..t.rcv.r]
  {
    RunKeepsInv(s, actions);
    RunOffers(s, actions);
  }

  /** The sender's window can be emptied if and only if the channel waits to send, the window is empty, or the receiver
      has everything and owes the acknowledgement that says so. */
  lemma WindowEmptiesUnlessIdle(s: System)
    requires Inv(s) && AcksOrdered(s)
    ensures (exists acts :: LeftAlone(acts) && var t := Run(Lose(s), acts).snd; t.queue == [] && t.lws == t.ls)
            <==> s.scheduled || s.snd.lws == s.snd.ls || (s.rcv.ackDue && s.rcv.r == s.snd.ls)
  {
    LoseKeepsInv(s);
    var u := Lose(s);
    if s.scheduled {
      var acts := CanAlwaysFinish(u);
      assert LeftAlone(acts) && Run(u, acts).snd.queue == [];
    } else if s.snd.lws == s.snd.ls {
      assert LeftAlone([]) && Run(u, []) == u;
    } else if s.rcv.ackDue && s.rcv.r == s.snd.ls {
      var acts := AckEverything(u);
      assert LeftAlone(acts) && Run(u, acts).snd.queue == [];
    } else if acts :| LeftAlone(acts) && var t := Run(u, acts).snd; t.queue == [] && t.lws == t.ls {
      IdleStays(u, acts);
      RunKeepsInv(u, acts);
      if !s.rcv.ackDue { SilenceStays(u, acts); }
    }
  }

  lemma {:induction false} SilenceStays(s: System, acts: seq<Action>)
    requires !s.scheduled && !s.rcv.ackDue && s.net == {} && LeftAlone(acts)
    ensures Run(s, acts) == s
    decreases |acts|
  {
    if acts != [] { SilenceStays(s, acts[1..]); }
  }

  /** The run that wedges: one packet is sent and lost, and at the next turn its resend delay has not elapsed. Then nothing that
      is already there can bring it across. */
  lemma OneLostPacketWedges(p: Packet, id: uint8)
    ensures var s := Run(Start(true, id), [Enqueue(p), TransmitPending({}), TransmitPending({})]);
            && !s.scheduled && s.rcv.r == 0 && s.snd.ls == 1
            && forall acts :: LeftAlone(acts) ==> Run(Lose(s), acts).rcv.r == 0
  {
    var s0 := Start(true, id);
    var acts := [Enqueue(p), TransmitPending({}), TransmitPending({})];
    var s1 := Apply(s0, acts[0]);
    var s2 := Apply(s1, acts[1]);
    var s3 := Apply(s2, acts[2]);
    assert Run(s0, acts) == Run(s1, acts[1..]) == Run(s2, acts[2..]) == Run(s3, acts[3..]) == s3;
    FillExact(s1.snd);
    TransmitKeepsInv(s1.snd, {});
    assert Sends(Fill(s1.snd), 0, {}) && 0 in Transmitted(s1.snd, {});
    NothingQueued(s2.snd, {});
    RunKeepsInv(s0, acts);
    RunKeepsAcksOrdered(s0, acts);
    LoseKeepsInv(s3);
    forall more | LeftAlone(more)
      ensures Run(Lose(s3), more).rcv.r == 0
    {
      IdleStays(Lose(s3), more);
    }
  }
}
