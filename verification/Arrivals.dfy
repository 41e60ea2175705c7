/** What reassembly achieves: fragments of several messages may arrive in any order, interleaved and repeated; each
    message whose fragments all arrive is raised once, with its own bytes. */
module Arrivals {
  import opened Sequence
  import opened Packets
  import opened Fragments
  import opened Reassembly

  /** One packet arriving: a whole message, or fragment `index` of one. */
  datatype Arrival = Arrival(message: Message, channel: uint8, index: int)

  predicate WellFormed(a: Arrival) {
    Sendable(a.message) && (Splits(a.message) ==> 0 <= a.index < Total(a.message))
  }

  function PacketFor(a: Arrival): Packet
    requires WellFormed(a)
  {
    if Splits(a.message) then FragmentOf(a.message, a.index, a.channel)
    else Packet(a.channel, Whole, a.message.data)
  }

  /** A message some but not all of whose fragments have arrived. */
  datatype Flight = Flight(message: Message, channel: uint8, got: set<int>)

  type Open = map<uint16, Flight>

  function AllIndices(m: Message): set<int>
    requires Usable(m.mtu)
  {
    UpTo(Total(m))
  }

  /** The only demand on the senders: two incomplete messages never share a fragment id. */
  predicate Legal(o: Open, a: Arrival) {
    && WellFormed(a)
    && (Splits(a.message) && a.message.id in o ==>
          o[a.message.id].message == a.message && o[a.message.id].channel == a.channel)
  }

  function Got(o: Open, id: uint16): set<int> {
    if id in o then o[id].got else {}
  }

  predicate Completes(o: Open, a: Arrival)
    requires Legal(o, a)
  {
    Splits(a.message) ==> Got(o, a.message.id) + {a.index} == AllIndices(a.message)
  }

  function Track(o: Open, a: Arrival): Open
    requires Legal(o, a)
  {
    if !Splits(a.message) then o
    else if Completes(o, a) then o - {a.message.id}
    else o[a.message.id := Flight(a.message, a.channel, Got(o, a.message.id) + {a.index})]
  }

  ghost predicate LegalRun(o: Open, arrivals: seq<Arrival>)
    decreases |arrivals|
  {
    arrivals == [] || (Legal(o, arrivals[0]) && LegalRun(Track(o, arrivals[0]), arrivals[1..]))
  }

  /** The arrivals that complete their message, in order. */
  ghost function Completions(o: Open, arrivals: seq<Arrival>): seq<Arrival>
    requires LegalRun(o, arrivals)
    decreases |arrivals|
  {
    if arrivals == [] then []
    else (if Completes(o, arrivals[0]) then [arrivals[0]] else []) + Completions(Track(o, arrivals[0]), arrivals[1..])
  }

  function EventOf(a: Arrival): ReceiveEvent {
    ReceiveEvent(a.channel / CHANNEL_TYPE_COUNT, a.message.data)
  }

  function EventsOf(arrivals: seq<Arrival>): seq<ReceiveEvent> {
    seq(|arrivals|, i requires 0 <= i < |arrivals| => EventOf(arrivals[i]))
  }

  ghost function PacketsFor(o: Open, arrivals: seq<Arrival>): (ps: seq<Packet>)
    requires LegalRun(o, arrivals)
    ensures |ps| == |arrivals|
    decreases |arrivals|
  {
    if arrivals == [] then []
    else [PacketFor(arrivals[0])] + PacketsFor(Track(o, arrivals[0]), arrivals[1..])
  }

  function Expected(f: Flight): Incoming
    requires Splits(f.message)
  {
    Incoming(seq(Total(f.message), i requires 0 <= i < Total(f.message) =>
               if i in f.got then Some(FragmentOf(f.message, i, f.channel)) else None), f.channel)
  }

  ghost predicate Tracks(h: Held, o: Open) {
    && h.Keys == o.Keys
    && forall id :: id in o ==>
         && Splits(o[id].message) && o[id].message.id == id
         && o[id].got < AllIndices(o[id].message)
         && h[id] == Expected(o[id])
  }

  lemma JoinedIsBodies(fs: seq<Option<Packet>>, ps: seq<Packet>)
    requires |fs| == |ps| && forall i :: 0 <= i < |fs| ==> fs[i] == Some(ps[i])
    ensures AllPresent(fs) && Joined(fs) == Bodies(ps)
  {
    if fs != [] { JoinedIsBodies(fs[1..], ps[1..]); }
  }

  /** All fragments present, in their places, give back the message. */
  lemma CompleteMeansMessage(m: Message, channel: uint8)
    requires Splits(m)
    ensures var e := Expected(Flight(m, channel, AllIndices(m)));
            AllPresent(e.fragments) && Joined(e.fragments) == m.data
  {
    SplitExact(m, channel);
    JoinedIsBodies(Expected(Flight(m, channel, AllIndices(m))).fragments, PacketsOf(m, channel));
  }

  lemma StoredIsExpected(f: Flight, i: int)
    requires Splits(f.message) && 0 <= i < Total(f.message) && i !in f.got
    ensures var p := FragmentOf(f.message, i, f.channel);
            && !Rejects(Expected(f), p)
            && Stored(Expected(f), p) == Expected(f.(got := f.got + {i}))
  {}

  lemma ExpectedPresence(f: Flight)
    requires Splits(f.message) && f.got <= AllIndices(f.message)
    ensures AllPresent(Expected(f).fragments) <==> f.got == AllIndices(f.message)
  {
    if f.got != AllIndices(f.message) {
      var i :| i in AllIndices(f.message) && i !in f.got;
      assert Expected(f).fragments[i] == None;
    }
  }

  lemma TracksUpdate(h: Held, o: Open, f: Flight)
    requires Tracks(h, o) && Splits(f.message) && f.got < AllIndices(f.message)
    ensures Tracks(h[f.message.id := Expected(f)], o[f.message.id := f])
  {}

  lemma TracksRemove(h: Held, o: Open, id: uint16)
    requires Tracks(h, o)
    ensures Tracks(h - {id}, o - {id})
  {}

  // A fragment of message `f` arrives that is there already.
  lemma AddRepeated(h: Held, f: Flight, i: int)
    requires Splits(f.message) && 0 <= i < Total(f.message) && i in f.got
    requires EntryFor(h, FragmentOf(f.message, i, f.channel)) == Expected(f)
    ensures Add(h, FragmentOf(f.message, i, f.channel)) == (h[f.message.id := Expected(f)], [])
  {
    assert Rejects(Expected(f), FragmentOf(f.message, i, f.channel));
  }

  // A fragment of message `f` arrives that is not.
  lemma AddFresh(h: Held, o: Open, f: Flight, i: int)
    requires Tracks(h, o) && Splits(f.message) && f.got <= AllIndices(f.message) && 0 <= i < Total(f.message) && i !in f.got
    requires EntryFor(h, FragmentOf(f.message, i, f.channel)) == Expected(f)
    ensures var p, g := FragmentOf(f.message, i, f.channel), f.(got := f.got + {i});
            var (t, events) := Add(h, p);
            if g.got == AllIndices(f.message)
            then Tracks(t, o - {f.message.id}) && events == [ReceiveEvent(f.channel / CHANNEL_TYPE_COUNT, f.message.data)]
            else Tracks(t, o[f.message.id := g]) && events == []
  {
    var g := f.(got := f.got + {i});
    StoredIsExpected(f, i);
    ExpectedPresence(g);
    if g.got == AllIndices(f.message) {
      CompleteMeansMessage(f.message, f.channel);
      TracksRemove(h, o, f.message.id);
    } else {
      TracksUpdate(h, o, g);
    }
  }

  lemma TrackRepeated(o: Open, a: Arrival)
    requires Legal(o, a) && Splits(a.message)
    requires a.index in Got(o, a.message.id) && Got(o, a.message.id) < AllIndices(a.message)
    ensures Track(o, a) == o && !Completes(o, a)
  {
    var id := a.message.id;
    assert o[id].got + {a.index} == o[id].got;
    assert o[id := o[id]] == o;
  }

  lemma EntryIsExpected(h: Held, o: Open, a: Arrival)
    requires Tracks(h, o) && Legal(o, a) && Splits(a.message)
    ensures EntryFor(h, PacketFor(a)) == Expected(Flight(a.message, a.channel, Got(o, a.message.id)))
  {
    if a.message.id !in o {
      assert Expected(Flight(a.message, a.channel, {})).fragments == EmptySlots(Total(a.message));
    }
  }

  /** One arrival: the table follows the tracked messages, and an event is raised exactly on completion. */
  lemma AddTracks(h: Held, o: Open, a: Arrival)
    requires Tracks(h, o) && Legal(o, a)
    ensures var (h', events) := Add(h, PacketFor(a));
            Tracks(h', Track(o, a)) && events == (if Completes(o, a) then [EventOf(a)] else [])
  {
    if Splits(a.message) {
      var id := a.message.id;
      var f := Flight(a.message, a.channel, Got(o, id));
      TotalIsCeiling(a.message);
      EntryIsExpected(h, o, a);
      if a.index in f.got {
        AddRepeated(h, f, a.index);
        TracksUpdate(h, o, f);
        TrackRepeated(o, a);
      } else {
        AddFresh(h, o, f, a.index);
      }
    }
  }

  lemma FirstPacket(h: Held, o: Open, arrivals: seq<Arrival>)
    requires arrivals != [] && LegalRun(o, arrivals)
    ensures AddAll(h, PacketsFor(o, arrivals)).1 ==
              Add(h, PacketFor(arrivals[0])).1
              + AddAll(Add(h, PacketFor(arrivals[0])).0, PacketsFor(Track(o, arrivals[0]), arrivals[1..])).1
  {
    AddAllCons(h, PacketFor(arrivals[0]), PacketsFor(Track(o, arrivals[0]), arrivals[1..]));
  }

  lemma FirstEvent(o: Open, arrivals: seq<Arrival>)
    requires arrivals != [] && LegalRun(o, arrivals)
    ensures EventsOf(Completions(o, arrivals)) ==
              (if Completes(o, arrivals[0]) then [EventOf(arrivals[0])] else [])
              + EventsOf(Completions(Track(o, arrivals[0]), arrivals[1..]))
  {
    var first := if Completes(o, arrivals[0]) then [arrivals[0]] else [];
    EventsOfConcat(first, Completions(Track(o, arrivals[0]), arrivals[1..]));
    assert EventsOf(first) == if Completes(o, arrivals[0]) then [EventOf(arrivals[0])] else [];
  }

  /** Any legal run of arrivals raises exactly the completed messages, each with its original bytes. */
  lemma {:induction false} ReassemblyExact(h: Held, o: Open, arrivals: seq<Arrival>)
    requires Tracks(h, o) && LegalRun(o, arrivals)
    ensures AddAll(h, PacketsFor(o, arrivals)).1 == EventsOf(Completions(o, arrivals))
    decreases |arrivals|
  {
    if arrivals != [] {
      AddTracks(h, o, arrivals[0]);
      ReassemblyExact(Add(h, PacketFor(arrivals[0])).0, Track(o, arrivals[0]), arrivals[1..]);
      FirstPacket(h, o, arrivals);
      FirstEvent(o, arrivals);
    }
  }

  lemma AddAllCons(h: Held, p: Packet, ps: seq<Packet>)
    ensures AddAll(h, [p] + ps).1 == Add(h, p).1 + AddAll(Add(h, p).0, ps).1
  {
    assert ([p] + ps)[1..] == ps;
  }

  lemma EventsOfConcat(a: seq<Arrival>, b: seq<Arrival>)
    ensures EventsOf(a + b) == EventsOf(a) + EventsOf(b)
  {}

  // ---- Each message once ------------------------------------------------------------------------

  /** The fragment indices of one id, in order of arrival. */
  function Indices(arrivals: seq<Arrival>, id: uint16): seq<int> {
    if arrivals == [] then []
    else (if Splits(arrivals[0].message) && arrivals[0].message.id == id then [arrivals[0].index] else [])
         + Indices(arrivals[1..], id)
  }

  function Of(arrivals: seq<Arrival>, id: uint16): seq<Arrival> {
    if arrivals == [] then []
    else (if Splits(arrivals[0].message) && arrivals[0].message.id == id then [arrivals[0]] else [])
         + Of(arrivals[1..], id)
  }

  function SetOf(s: seq<int>): set<int> {
    set i | i in s
  }

  ghost predicate OnlyMessage(arrivals: seq<Arrival>, m: Message) {
    forall i :: 0 <= i < |arrivals| && Splits(arrivals[i].message) && arrivals[i].message.id == m.id ==>
      arrivals[i].message == m
  }

  lemma {:induction false} NoneArrives(o: Open, arrivals: seq<Arrival>, id: uint16)
    requires LegalRun(o, arrivals) && Indices(arrivals, id) == []
    ensures Of(Completions(o, arrivals), id) == []
    decreases |arrivals|
  {
    if arrivals != [] {
      NoneArrives(Track(o, arrivals[0]), arrivals[1..], id);
      OfCons(o, arrivals, id);
    }
  }

  lemma OfCons(o: Open, arrivals: seq<Arrival>, id: uint16)
    requires LegalRun(o, arrivals) && arrivals != []
    ensures var a := arrivals[0];
            Of(Completions(o, arrivals), id) ==
              (if Completes(o, a) && Splits(a.message) && a.message.id == id then [a] else [])
              + Of(Completions(Track(o, a), arrivals[1..]), id)
  {
    var a := arrivals[0];
    var rest := Completions(Track(o, a), arrivals[1..]);
    if Completes(o, a) {
      assert ([a] + rest)[1..] == rest;
    } else {
      assert [] + rest == rest;
    }
  }

  lemma SplitIndices(i: int, rest: seq<int>)
    requires rest != []
    ensures var init := rest[..|rest| - 1];
            && SetOf([i] + rest) == {i} + SetOf(rest)
            && SetOf([i] + init) == {i} + SetOf(init)
            && SetOf(init) <= SetOf(rest)
  {}

  lemma GotAfter(o: Open, a: Arrival, id: uint16)
    requires Legal(o, a)
    ensures Splits(a.message) && a.message.id == id && !Completes(o, a) ==> Got(Track(o, a), id) == Got(o, id) + {a.index}
    ensures !(Splits(a.message) && a.message.id == id) ==> Got(Track(o, a), id) == Got(o, id)
  {}

  // What is still to come of `m` after `got`: all that is missing, the last missing one at the very end.
  predicate Finishes(got: set<int>, s: seq<int>, m: Message)
    requires Usable(m.mtu)
  {
    s != [] && got + SetOf(s) == AllIndices(m) && got + SetOf(s[..|s| - 1]) != AllIndices(m)
  }

  lemma FinishesNext(got: set<int>, i: int, rest: seq<int>, m: Message)
    requires Usable(m.mtu) && Finishes(got, [i] + rest, m)
    ensures rest == [] ==> got + {i} == AllIndices(m)
    ensures rest != [] ==> got + {i} != AllIndices(m) && Finishes(got + {i}, rest, m)
  {
    if rest == [] {
      assert SetOf([i] + rest) == {i};
    } else {
      SplitIndices(i, rest);
      assert ([i] + rest)[..|rest|] == [i] + rest[..|rest| - 1];
      var init := SetOf(rest[..|rest| - 1]);
      assert got + ({i} + SetOf(rest)) == (got + {i}) + SetOf(rest);
      assert got + ({i} + init) == (got + {i}) + init;
      assert got + {i} <= (got + {i}) + init <= AllIndices(m);
    }
  }

  /** Whatever else arrives in between, a message all of whose fragments arrive, possibly repeated before the last
      missing one comes, is completed exactly once. */
  lemma {:induction false} CompletedOnce(o: Open, arrivals: seq<Arrival>, m: Message)
    requires LegalRun(o, arrivals) && Splits(m) && OnlyMessage(arrivals, m)
    requires Finishes(Got(o, m.id), Indices(arrivals, m.id), m)
    ensures var c := Of(Completions(o, arrivals), m.id); |c| == 1 && c[0].message == m
    decreases |arrivals|
  {
    var a, rest := arrivals[0], arrivals[1..];
    OfCons(o, arrivals, m.id);
    GotAfter(o, a, m.id);
    assert forall i :: 0 <= i < |rest| ==> rest[i] == arrivals[i + 1];
    if Splits(a.message) && a.message.id == m.id {
      var later := Indices(rest, m.id);
      assert a.message == m && Indices(arrivals, m.id) == [a.index] + later;
      FinishesNext(Got(o, m.id), a.index, later, m);
      if later == [] {
        NoneArrives(Track(o, a), rest, m.id);
      } else {
        CompletedOnce(Track(o, a), rest, m);
      }
    } else {
      assert Indices(arrivals, m.id) == Indices(rest, m.id);
      CompletedOnce(Track(o, a), rest, m);
    }
  }
}
