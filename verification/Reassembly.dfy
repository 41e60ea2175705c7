/** Reassembling fragments at the receiving peer, for any order of arrival. */
module Reassembly {
  import opened Sequence
  import opened Packets
  import opened Fragments

  /** A receive event: the user channel number and the message. */
  datatype ReceiveEvent = ReceiveEvent(channel: int, data: seq<byte>)

  /** The fragments of one id received so far. The implementation also counts them and their bytes. */
  datatype Incoming = Incoming(fragments: seq<Option<Packet>>, channel: uint8)

  type Held = map<uint16, Incoming>

  predicate AllPresent(fs: seq<Option<Packet>>) {
    forall i :: 0 <= i < |fs| ==> fs[i].Some?
  }

  function Joined(fs: seq<Option<Packet>>): seq<byte>
    requires AllPresent(fs)
  {
    if fs == [] then [] else fs[0].value.body + Joined(fs[1..])
  }

  function EmptySlots(n: nat): seq<Option<Packet>> {
    seq(n, _ => None)
  }

  function EntryFor(h: Held, p: Packet): Incoming
    requires p.fragment.Part?
  {
    if p.fragment.id in h then h[p.fragment.id]
    else Incoming(EmptySlots(p.fragment.total), p.channel)
  }

  predicate Rejects(e: Incoming, p: Packet)
    requires p.fragment.Part?
  {
    p.fragment.index >= |e.fragments| || e.fragments[p.fragment.index].Some? || p.channel != e.channel
  }

  function Stored(e: Incoming, p: Packet): Incoming
    requires p.fragment.Part? && !Rejects(e, p)
  {
    e.(fragments := e.fragments[p.fragment.index := Some(p)])
  }

  /** One packet handed to add_reliable_packet: the new table and the events raised. */
  function Add(h: Held, p: Packet): (Held, seq<ReceiveEvent>) {
    match p.fragment
    case Whole => (h, [ReceiveEvent(p.channel / CHANNEL_TYPE_COUNT, p.body)])
    case Part(id, _, _) =>
      var e := EntryFor(h, p);
      if Rejects(e, p) then (h[id := e], [])
      else if AllPresent(Stored(e, p).fragments) then
        (h - {id}, [ReceiveEvent(p.channel / CHANNEL_TYPE_COUNT, Joined(Stored(e, p).fragments))])
      else (h[id := Stored(e, p)], [])
  }

  function AddAll(h: Held, ps: seq<Packet>): (Held, seq<ReceiveEvent>)
    decreases |ps|
  {
    if ps == [] then (h, [])
    else
      var (h1, e1) := Add(h, ps[0]);
      var (h2, e2) := AddAll(h1, ps[1..]);
      (h2, e1 + e2)
  }

  /** A fragment whose id is taken by an incomplete message of another channel is refused, although its channel has accepted
      and acknowledged it; so is one whose place is past the message's end or taken. */
  lemma ClashIsLost(h: Held, p: Packet)
    requires p.fragment.Part? && p.fragment.id in h
    requires var e := h[p.fragment.id];
             || e.channel != p.channel || p.fragment.index >= |e.fragments| || e.fragments[p.fragment.index].Some?
    ensures Add(h, p) == (h, [])
  {
    assert h[p.fragment.id := h[p.fragment.id]] == h;
  }

  // ---- Counting what is present -----------------------------------------------------------------

  function Present(fs: seq<Option<Packet>>): (n: nat)
    ensures n <= |fs|
  {
    if fs == [] then 0 else (if fs[0].Some? then 1 else 0) + Present(fs[1..])
  }

  function Bytes(fs: seq<Option<Packet>>): nat {
    if fs == [] then 0 else (if fs[0].Some? then |fs[0].value.body| else 0) + Bytes(fs[1..])
  }

  lemma {:induction false} CountsAll(fs: seq<Option<Packet>>)
    ensures Present(fs) == |fs| <==> AllPresent(fs)
    ensures AllPresent(fs) ==> |Joined(fs)| == Bytes(fs)
  {
    if fs != [] {
      CountsAll(fs[1..]);
      if AllPresent(fs[1..]) && fs[0].Some? {
        assert forall i :: 0 < i < |fs| ==> fs[i] == fs[1..][i - 1];
      }
      if AllPresent(fs) {
        assert forall i :: 0 <= i < |fs| - 1 ==> fs[1..][i] == fs[i + 1];
      }
    }
  }

  lemma {:induction false} CountsStored(fs: seq<Option<Packet>>, i: int, p: Packet)
    requires 0 <= i < |fs| && fs[i].None?
    ensures Present(fs[i := Some(p)]) == Present(fs) + 1
    ensures Bytes(fs[i := Some(p)]) == Bytes(fs) + |p.body|
  {
    if i == 0 {
      assert fs[0 := Some(p)][1..] == fs[1..];
    } else {
      CountsStored(fs[1..], i - 1, p);
      assert fs[i := Some(p)][1..] == fs[1..][i - 1 := Some(p)];
    }
  }

  lemma {:induction false} CountsEmpty(n: nat)
    ensures Present(EmptySlots(n)) == 0 && Bytes(EmptySlots(n)) == 0
  {
    if n > 0 {
      CountsEmpty(n - 1);
      assert EmptySlots(n)[1..] == EmptySlots(n - 1);
    }
  }

  lemma {:induction false} JoinedAppend(fs: seq<Option<Packet>>, p: Packet)
    requires AllPresent(fs)
    ensures AllPresent(fs + [Some(p)]) && Joined(fs + [Some(p)]) == Joined(fs) + p.body
  {
    if fs == [] {
      assert Joined([Some(p)]) == p.body + Joined([]);
    } else {
      JoinedAppend(fs[1..], p);
      assert (fs + [Some(p)])[1..] == fs[1..] + [Some(p)];
    }
  }

  // What the implementation keeps for one id.
  datatype IncomingFragments = IncomingFragments(fragments: seq<Option<Packet>>, receivedCount: int, totalSize: int,
                                                 channel: uint8)

  class Reassembler {
    var held: map<uint16, IncomingFragments>

    ghost function Table(): Held
      reads this
    {
      map id | id in held :: Incoming(held[id].fragments, held[id].channel)
    }

    ghost predicate Valid()
      reads this
    {
      forall id :: id in held ==>
        held[id].receivedCount == Present(held[id].fragments) && held[id].totalSize == Bytes(held[id].fragments)
    }

    constructor ()
      ensures Valid() && Table() == map[]
    {
      held := map[];
    }

    method Keep(id: uint16, e: IncomingFragments)
      requires Valid() && e.receivedCount == Present(e.fragments) && e.totalSize == Bytes(e.fragments)
      modifies this
      ensures Valid() && Table() == old(Table())[id := Incoming(e.fragments, e.channel)]
    {
      held := held[id := e];
    }

    method Forget(id: uint16)
      requires Valid()
      modifies this
      ensures Valid() && Table() == old(Table()) - {id}
    {
      held := held - {id};
    }

    /** add_reliable_packet. The two buffer checks of the copying loop never fire: `Assemble` does not fail. */
    method AddReliablePacket(p: Packet) returns (events: seq<ReceiveEvent>)
      requires Valid()
      modifies this
      ensures Valid() && (Table(), events) == Add(old(Table()), p)
    {
      if p.fragment.Whole? {
        return [ReceiveEvent(p.channel / CHANNEL_TYPE_COUNT, p.body)];
      }
      var id, index := p.fragment.id, p.fragment.index;
      CountsEmpty(p.fragment.total);
      var e := if id in held then held[id]
               else IncomingFragments(EmptySlots(p.fragment.total), 0, 0, p.channel);
      ghost var e0 := EntryFor(Table(), p);
      assert e0 == Incoming(e.fragments, e.channel);
      if index >= |e.fragments| || e.fragments[index] != None || p.channel != e.channel {
        Keep(id, e);
        return [];
      }
      CountsStored(e.fragments, index, p);
      e := e.(fragments := e.fragments[index := Some(p)],
              receivedCount := e.receivedCount + 1,
              totalSize := e.totalSize + (PacketSize(p) - FRAGMENTED_HEADER_TOTAL_SIZE));
      CountsAll(e.fragments);
      assert Stored(e0, p) == Incoming(e.fragments, e.channel);
      if e.receivedCount != |e.fragments| {
        Keep(id, e);
        return [];
      }
      var data := Assemble(e.fragments, e.totalSize);
      Forget(id);
      events := [ReceiveEvent(p.channel / CHANNEL_TYPE_COUNT, data)];
    }

    /** The copying loop. `buffer` has exactly the bytes counted, and they are all written. */
    static method Assemble(fragments: seq<Option<Packet>>, totalSize: int) returns (data: seq<byte>)
      requires AllPresent(fragments) && totalSize == Bytes(fragments)
      ensures data == Joined(fragments)
    {
      var buffer := new byte[totalSize](_ => 0);
      var pos := 0;
      var i := 0;
      CountsAll(fragments);
      assert fragments[..|fragments|] == fragments;
      while i < |fragments|
        invariant 0 <= i <= |fragments| && AllPresent(fragments[..i])
        invariant 0 <= pos == |Joined(fragments[..i])| <= buffer.Length && buffer[..pos] == Joined(fragments[..i])
      {
        var body := fragments[i].value.body;
        assert fragments[..i + 1] == fragments[..i] + [fragments[i]];
        JoinedAppend(fragments[..i], fragments[i].value);
        JoinedPrefix(fragments, i + 1);
        assert pos + |body| <= buffer.Length;
        ghost var before := buffer[..pos];
        forall k | 0 <= k < |body| {
          buffer[pos + k] := body[k];
        }
        assert buffer[..pos + |body|] == before + body;
        pos := pos + |body|;
        i := i + 1;
      }
      data := buffer[..];
    }
  }

  lemma {:induction false} JoinedPrefix(fs: seq<Option<Packet>>, k: int)
    requires AllPresent(fs) && 0 <= k <= |fs|
    ensures AllPresent(fs[..k]) && |Joined(fs[..k])| <= |Joined(fs)|
    decreases |fs| - k
  {
    if k < |fs| {
      JoinedPrefix(fs, k + 1);
      assert fs[..k + 1] == fs[..k] + [Some(fs[k].value)];
      JoinedAppend(fs[..k], fs[k].value);
    } else {
      assert fs[..k] == fs;
    }
  }
}
