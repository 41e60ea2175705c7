/** Fragmentation, the ordered reliable channel and reassembly together: the receive events of the far peer are a
    prefix of the messages sent, byte for byte and in order. */
module Messages {
  import opened Sequence
  import opened Packets
  import opened Fragments
  import opened Reassembly
  import opened Arrivals
  import ReliableSpec
  import ReliableProtocol
  import ReliableLink

  predicate AllSendable(ms: seq<Message>) {
    forall i :: 0 <= i < |ms| ==> Sendable(ms[i])
  }

  /** The packets of the messages, in the order they are given to the channel. */
  function Stream(ms: seq<Message>, channel: uint8): seq<Packet>
    requires AllSendable(ms)
  {
    if ms == [] then [] else PacketsOf(ms[0], channel) + Stream(ms[1..], channel)
  }

  function Received(ms: seq<Message>, channel: uint8): seq<ReceiveEvent> {
    seq(|ms|, i requires 0 <= i < |ms| => ReceiveEvent(channel / CHANNEL_TYPE_COUNT, ms[i].data))
  }

  lemma {:induction false} AddAllConcat(h: Held, a: seq<Packet>, b: seq<Packet>)
    ensures var (h1, e1) := AddAll(h, a);
            var (h2, e2) := AddAll(h1, b);
            AddAll(h, a + b) == (h2, e1 + e2)
    decreases |a|
  {
    if a == [] {
      assert a + b == b;
      var e := AddAll(h, b).1;
      assert [] + e == e;
    } else {
      var (h0, e0) := Add(h, a[0]);
      AddAllConcat(h0, a[1..], b);
      assert (a + b)[1..] == a[1..] + b;
      var (h1, e1) := AddAll(h0, a[1..]);
      var e2 := AddAll(h1, b).1;
      assert e0 + (e1 + e2) == (e0 + e1) + e2;
    }
  }

  lemma AddAllOne(h: Held, p: Packet)
    ensures AddAll(h, [p]) == Add(h, p)
  {
    var (h1, e1) := Add(h, p);
    assert [p][1..] == [];
    assert e1 + [] == e1;
  }

  function InFlight(m: Message, channel: uint8, k: int): Open {
    if k == 0 then map[] else map[m.id := Flight(m, channel, UpTo(k))]
  }

  lemma NextInFlight(m: Message, channel: uint8, k: int)
    requires Splits(m) && 0 <= k < Total(m)
    ensures var o, a := InFlight(m, channel, k), Arrival(m, channel, k);
            && Legal(o, a)
            && Completes(o, a) == (k + 1 == Total(m))
            && Track(o, a) == if k + 1 == Total(m) then map[] else InFlight(m, channel, k + 1)
  {
    var o, a := InFlight(m, channel, k), Arrival(m, channel, k);
    assert Got(o, m.id) == UpTo(k) && UpTo(k) + {k} == UpTo(k + 1);
    if k + 1 < Total(m) {
      assert k + 1 in AllIndices(m) && k + 1 !in UpTo(k + 1);
    }
  }

  lemma NextFragment(h: Held, m: Message, channel: uint8, k: int)
    requires Splits(m) && 0 <= k < Total(m) && Tracks(h, InFlight(m, channel, k))
    ensures var (h', e) := Add(h, FragmentOf(m, k, channel));
            if k + 1 < Total(m) then Tracks(h', InFlight(m, channel, k + 1)) && e == []
            else h' == map[] && e == [ReceiveEvent(channel / CHANNEL_TYPE_COUNT, m.data)]
  {
    NextInFlight(m, channel, k);
    AddTracks(h, InFlight(m, channel, k), Arrival(m, channel, k));
  }

  /** The first `k` fragments of a message in order raise nothing, and the whole message exactly its event. */
  lemma {:induction false} FirstFragments(m: Message, channel: uint8, k: int)
    requires Splits(m) && 0 <= k <= Total(m)
    ensures var (h, e) := AddAll(map[], PacketsOf(m, channel)[..k]);
            if k < Total(m) then Tracks(h, InFlight(m, channel, k)) && e == []
            else h == map[] && e == [ReceiveEvent(channel / CHANNEL_TYPE_COUNT, m.data)]
    decreases k
  {
    TotalIsCeiling(m);
    var ps := PacketsOf(m, channel);
    if k > 0 {
      FirstFragments(m, channel, k - 1);
      AddAllNext(map[], ps, k - 1);
      NextFragment(AddAll(map[], ps[..k - 1]).0, m, channel, k - 1);
    }
  }

  lemma AddAllNext(h: Held, ps: seq<Packet>, k: int)
    requires 0 <= k < |ps|
    ensures var t := AddAll(h, ps[..k]);
            var next := Add(t.0, ps[k]);
            AddAll(h, ps[..k + 1]) == (next.0, t.1 + next.1)
  {
    assert ps[..k + 1] == ps[..k] + [ps[k]];
    AddAllConcat(h, ps[..k], [ps[k]]);
    AddAllOne(AddAll(h, ps[..k]).0, ps[k]);
  }

  lemma OneMessage(m: Message, channel: uint8, k: int)
    requires Sendable(m) && 0 <= k <= |PacketsOf(m, channel)|
    ensures var (h, e) := AddAll(map[], PacketsOf(m, channel)[..k]);
            if k < |PacketsOf(m, channel)| then e == []
            else h == map[] && e == [ReceiveEvent(channel / CHANNEL_TYPE_COUNT, m.data)]
  {
    var ps := PacketsOf(m, channel);
    if Splits(m) {
      FirstFragments(m, channel, k);
    } else if k == 1 {
      assert ps[..1] == [ps[0]];
      AddAllOne(map[], ps[0]);
    }
  }

  /** Reassembling any prefix of the packet stream raises a prefix of the messages; all of it, all of them. */
  lemma {:induction false} PrefixOfStream(ms: seq<Message>, channel: uint8, ps: seq<Packet>)
    requires AllSendable(ms) && ps <= Stream(ms, channel)
    ensures AddAll(map[], ps).1 <= Received(ms, channel)
    ensures ps == Stream(ms, channel) ==> AddAll(map[], ps) == (map[], Received(ms, channel))
    ensures ps != Stream(ms, channel) ==> |AddAll(map[], ps).1| < |ms|
    decreases |ms|
  {
    if ms != [] {
      var first := PacketsOf(ms[0], channel);
      var rest := Stream(ms[1..], channel);
      if |ps| < |first| {
        assert ps == first[..|ps|];
        OneMessage(ms[0], channel, |ps|);
      } else {
        var tail := ps[|first|..];
        assert ps == first + tail && first == first[..|first|];
        OneMessage(ms[0], channel, |first|);
        AddAllConcat(map[], first, tail);
        PrefixOfStream(ms[1..], channel, tail);
        assert Received(ms, channel) == [ReceiveEvent(channel / CHANNEL_TYPE_COUNT, ms[0].data)] + Received(ms[1..], channel);
      }
    }
  }

  /** Message-level reliable ordered delivery, in every run of the protocol. */
  lemma MessagesInOrder(actions: seq<ReliableProtocol.Action>, id: uint8, ms: seq<Message>)
    requires AllSendable(ms) && ReliableProtocol.Given(actions, id) <= Stream(ms, id)
    ensures var s := ReliableProtocol.Run(ReliableProtocol.Start(true, id), actions);
            AddAll(map[], ReliableSpec.Payloads(s.rcv.log)).1 <= Received(ms, id)
  {
    ReliableProtocol.OrderedDelivery(actions, id);
    PrefixOfStream(ms, id, ReliableSpec.Payloads(ReliableProtocol.Run(ReliableProtocol.Start(true, id), actions).rcv.log));
  }

  /** Everything on the network is lost, and no more is sent. Then all messages can still arrive if and only if the channel
      waits to send or all have arrived. */
  lemma MessagesCanAllArrive(actions: seq<ReliableProtocol.Action>, id: uint8, ms: seq<Message>)
    requires AllSendable(ms) && ReliableProtocol.Given(actions, id) == Stream(ms, id)
    ensures var s := ReliableProtocol.Run(ReliableProtocol.Start(true, id), actions);
            (exists more :: ReliableProtocol.LeftAlone(more) && Events(Continued(s, more)) == Received(ms, id))
            <==> s.scheduled || Events(s) == Received(ms, id)
  {
    var s := ReliableProtocol.Run(ReliableProtocol.Start(true, id), actions);
    ReliableProtocol.EverythingCanBeDelivered(actions, id);
    AllOrFewer(actions, id, ms, []);
    if s.scheduled || Events(s) == Received(ms, id) {
      var more :| ReliableProtocol.LeftAlone(more)
                  && ReliableSpec.Payloads(Continued(s, more).rcv.log) == ReliableProtocol.Given(actions, id);
      AllOrFewer(actions, id, ms, more);
    } else if more :| ReliableProtocol.LeftAlone(more) && Events(Continued(s, more)) == Received(ms, id) {
      AllOrFewer(actions, id, ms, more);
    }
  }

  // What is received of `ms` is all of it exactly when all its packets are.
  lemma AllOrFewer(actions: seq<ReliableProtocol.Action>, id: uint8, ms: seq<Message>, more: seq<ReliableProtocol.Action>)
    requires AllSendable(ms) && ReliableProtocol.Given(actions, id) == Stream(ms, id) && ReliableProtocol.LeftAlone(more)
    ensures var s := ReliableProtocol.Run(ReliableProtocol.Start(true, id), actions);
            && (Events(s) == Received(ms, id) <==> ReliableSpec.Payloads(s.rcv.log) == Stream(ms, id))
            && (Events(Continued(s, more)) == Received(ms, id)
                <==> ReliableSpec.Payloads(Continued(s, more).rcv.log) == Stream(ms, id))
  {
    var s0 := ReliableProtocol.Start(true, id);
    var s := ReliableProtocol.Run(s0, actions);
    ReliableProtocol.OrderedDelivery(actions, id);
    PrefixOfStream(ms, id, ReliableSpec.Payloads(s.rcv.log));
    ReliableProtocol.ContinuedIsPrefix(actions, id, more);
    PrefixOfStream(ms, id, ReliableSpec.Payloads(Continued(s, more).rcv.log));
  }

  function Events(s: ReliableProtocol.System): seq<ReceiveEvent> {
    AddAll(map[], ReliableSpec.Payloads(s.rcv.log)).1
  }

  function Continued(s: ReliableProtocol.System, more: seq<ReliableProtocol.Action>): ReliableProtocol.System {
    ReliableProtocol.Run(ReliableProtocol.Lose(s), more)
  }

  lemma {:induction false} StreamStamped(ms: seq<Message>, id: uint8)
    requires AllSendable(ms)
    ensures Stream(ms, id) == ReliableLink.Stamped(Stream(ms, 0), id)
  {
    if ms != [] {
      StreamStamped(ms[1..], id);
      PacketsStamped(ms[0], id);
      StampedConcat(PacketsOf(ms[0], 0), Stream(ms[1..], 0), id);
    }
  }

  lemma PacketsStamped(m: Message, id: uint8)
    requires Sendable(m)
    ensures PacketsOf(m, id) == ReliableLink.Stamped(PacketsOf(m, 0), id)
  {}

  lemma StampedConcat(a: seq<Packet>, b: seq<Packet>, id: uint8)
    ensures ReliableLink.Stamped(a + b, id) == ReliableLink.Stamped(a, id) + ReliableLink.Stamped(b, id)
  {}

  /** The same of two real channels: what their peers exchange over a link in any state it can reach. */
  lemma LinkMessagesInOrder(link: ReliableLink.Link, ms: seq<Message>)
    requires link.Valid() && link.receiver.ordered && AllSendable(ms) && link.given <= Stream(ms, 0)
    ensures AddAll(map[], link.got).1 <= Received(ms, link.sender.id)
  {
    link.GotPrefixOfGiven();
    StreamStamped(ms, link.sender.id);
    PrefixOfStream(ms, link.sender.id, link.got);
  }
}
