/** Fragmentation, the unordered reliable channel and reassembly together: packets arrive in any order within the window, so
    several messages may be incomplete at once; their 16-bit ids never clash. */
module UnorderedMessages {
  import opened Sequence
  import opened Packets
  import opened Fragments
  import opened Reassembly
  import opened Arrivals
  import opened ReliableSpec
  import opened Messages
  import R = ReliableProtocol

  // ---- The order of arrival ---------------------------------------------------------------------

  /** A number is accepted only if all more than a window below it have been. */
  ghost predicate Windowed(d: set<int>) {
    forall n, m :: n in d && 0 <= m < n - WINDOW_SIZE ==> m in d
  }

  function NumbersIn(log: seq<Delivery>): (d: set<int>)
    ensures forall n :: n in d <==> exists i :: 0 <= i < |log| && log[i].n == n
  {
    set i | 0 <= i < |log| :: log[i].n
  }

  ghost predicate AllWindowed(log: seq<Delivery>)
    decreases |log|
  {
    log == [] || (Windowed(NumbersIn(log)) && AllWindowed(log[..|log| - 1]))
  }

  lemma ReceiverIsWindowed(s: Receiver)
    requires ReceiverInv(s) && !s.ordered
    ensures Windowed(NumbersIn(s.log))
  {
    forall n, m | n in NumbersIn(s.log) && 0 <= m < n - WINDOW_SIZE
      ensures m in NumbersIn(s.log)
    {
      assert Logged(s.log, n) && Accepted(s, m) && Logged(s.log, m);
    }
  }

  lemma {:induction false} DrainKeepsLog(s: Receiver)
    requires !s.ordered
    ensures Drain(s).log == s.log
    decreases |s.early|
  {
    if s.r in s.early {
      DrainKeepsLog(s.(early := s.early - {s.r}, r := s.r + 1));
    }
  }

  lemma ReceiveKeepsWindowed(s: Receiver, n: int, p: Packet)
    requires ReceiverInv(s) && !s.ordered && AllWindowed(s.log)
    ensures AllWindowed(Receive(s, n, p).log)
  {
    var t := Receive(s, n, p);
    ReceiveKeepsInv(s, n, p);
    ReceiveKeepsKind(s, n, p);
    if n == s.r {
      DrainKeepsLog(s.(w := Slide(s.w, n), ackDue := true, log := s.log + [Delivery(n, p)], r := n + 1));
    }
    assert t.log == s.log || t.log == s.log + [Delivery(n, p)];
    if t.log != s.log {
      assert t.log[..|t.log| - 1] == s.log;
      ReceiverIsWindowed(t);
    }
  }

  lemma {:induction false} RunKeepsWindowed(s: R.System, actions: seq<R.Action>)
    requires R.Inv(s) && !s.rcv.ordered && AllWindowed(s.rcv.log)
    ensures AllWindowed(R.Run(s, actions).rcv.log)
    decreases |actions|
  {
    if actions != [] {
      var a := actions[0];
      R.ApplyKeepsInv(s, a);
      R.ApplyOffers(s, a);
      if a.DeliverToReceiver? && a.message.DataMessage? {
        ReceiveKeepsWindowed(s.rcv, a.message.n, a.message.packet);
      }
      RunKeepsWindowed(R.Apply(s, a), actions[1..]);
    }
  }

  // ---- Which packets are a message's ------------------------------------------------------------

  /** What matters of a message here: its id, how many packets it takes, and whether they are fragments. */
  datatype Item = Item(id: uint16, size: nat, split: bool)

  predicate AllFilled(xs: seq<Item>) {
    forall k :: 0 <= k < |xs| ==> xs[k].size >= 1
  }

  /** The number of the first packet of message `k`. */
  function StartOf(xs: seq<Item>, k: nat): nat
    requires k <= |xs|
  {
    if k == 0 then 0 else StartOf(xs, k - 1) + xs[k - 1].size
  }

  // The message that packet `n` belongs to, among the first `k`.
  function Owner(xs: seq<Item>, k: nat, n: int): (i: nat)
    requires k <= |xs| && 0 <= n < StartOf(xs, k)
    ensures i < k && StartOf(xs, i) <= n < StartOf(xs, i + 1)
  {
    if n >= StartOf(xs, k - 1) then k - 1 else Owner(xs, k - 1, n)
  }

  lemma {:induction false} Distance(xs: seq<Item>, j: nat, k: nat)
    requires AllFilled(xs) && j <= k <= |xs|
    ensures k - j <= StartOf(xs, k) - StartOf(xs, j)
    decreases k
  {
    if j < k { Distance(xs, j, k - 1); }
  }

  // Messages are at least as far apart in packets as in number.
  lemma {:induction false} OwnersApart(xs: seq<Item>, i: nat, n: int, j: nat, m: int)
    requires AllFilled(xs) && i < j < |xs|
    requires n < StartOf(xs, i + 1) && StartOf(xs, j) <= m
    ensures j - i <= m - n
  {
    Distance(xs, i + 1, j);
  }

  // ---- Fragment ids -----------------------------------------------------------------------------

  function SplitsBefore(xs: seq<Item>, k: nat): nat
    requires k <= |xs|
  {
    if k == 0 then 0 else SplitsBefore(xs, k - 1) + if xs[k - 1].split then 1 else 0
  }

  function IdOf(counter: int): uint16 {
    counter % 0x1_0000
  }

  /** Each message that is split gets the next id of a counter that stood at `before`, cut to 16 bits. */
  ghost predicate ConsecutiveIds(xs: seq<Item>, before: int) {
    forall k {:trigger xs[k].id} :: 0 <= k < |xs| ==> xs[k].id == IdOf(before + SplitsBefore(xs, k) + 1)
  }

  lemma {:induction false} SplitsBetween(xs: seq<Item>, j: nat, k: nat)
    requires j <= k <= |xs|
    ensures 0 <= SplitsBefore(xs, k) - SplitsBefore(xs, j) <= k - j
    ensures j < k && xs[j].split ==> SplitsBefore(xs, k) > SplitsBefore(xs, j)
    decreases k
  {
    if j < k { SplitsBetween(xs, j, k - 1); }
  }

  lemma NotCongruent(a: int, b: int)
    requires 0 < b - a < 0x1_0000
    ensures IdOf(a) != IdOf(b)
  {
    var i, j := a / 0x1_0000, b / 0x1_0000;
    assert a == 0x1_0000 * i + a % 0x1_0000 && b == 0x1_0000 * j + b % 0x1_0000;
  }

  lemma {:induction false} IdsDiffer(xs: seq<Item>, before: int, j: nat, k: nat)
    requires ConsecutiveIds(xs, before) && j < k < |xs| && k - j < 0x1_0000 && xs[j].split
    ensures xs[j].id != xs[k].id
  {
    SplitsBetween(xs, j, k);
    NotCongruent(before + SplitsBefore(xs, j) + 1, before + SplitsBefore(xs, k) + 1);
  }

  /** No two messages within a window of each other have the same id, if both are split. */
  ghost predicate IdsApart(xs: seq<Item>) {
    forall j, k :: 0 <= j < k < |xs| && k - j <= WINDOW_SIZE && xs[j].split && xs[k].split ==> xs[j].id != xs[k].id
  }

  /** So it is when no other channel of the peer splits messages: their ids are consecutive. */
  lemma {:induction false} ConsecutiveIdsApart(xs: seq<Item>, before: int)
    requires ConsecutiveIds(xs, before)
    ensures IdsApart(xs)
  {
    forall j, k | 0 <= j < k < |xs| && k - j <= WINDOW_SIZE && xs[j].split && xs[k].split
      ensures xs[j].id != xs[k].id
    {
      IdsDiffer(xs, before, j, k);
    }
  }

  // ---- Incomplete messages ----------------------------------------------------------------------

  /** The fragments of message `k` among the packets `d`. */
  function GotOf(xs: seq<Item>, k: nat, d: set<int>): set<int>
    requires k < |xs|
  {
    set i | i in UpTo(xs[k].size) && StartOf(xs, k) + i in d
  }

  predicate Partial(xs: seq<Item>, k: int, d: set<int>) {
    0 <= k < |xs| && xs[k].split && GotOf(xs, k, d) != {} && GotOf(xs, k, d) != UpTo(xs[k].size)
  }

  ghost predicate HasAll(xs: seq<Item>, k: int, d: set<int>) {
    0 <= k < |xs| && forall n :: StartOf(xs, k) <= n < StartOf(xs, k + 1) ==> n in d
  }

  datatype Entry = Entry(k: int, got: set<int>)

  type Table = map<uint16, Entry>

  /** The table holds exactly the incomplete messages, each under its id with the fragments that are there. */
  ghost predicate Holds(t: Table, xs: seq<Item>, d: set<int>) {
    && (forall k :: Partial(xs, k, d) ==> xs[k].id in t && t[xs[k].id] == Entry(k, GotOf(xs, k, d)))
    && (forall id :: id in t ==> Partial(xs, t[id].k, d) && xs[t[id].k].id == id)
  }

  lemma {:induction false} PartialHas(xs: seq<Item>, k: int, d: set<int>) returns (there: int, missing: int)
    requires Partial(xs, k, d)
    ensures StartOf(xs, k) <= there < StartOf(xs, k + 1) && there in d
    ensures StartOf(xs, k) <= missing < StartOf(xs, k + 1) && missing !in d
  {
    var i :| i in GotOf(xs, k, d);
    assert GotOf(xs, k, d) <= UpTo(xs[k].size);
    var j :| j in UpTo(xs[k].size) && j !in GotOf(xs, k, d);
    there, missing := StartOf(xs, k) + i, StartOf(xs, k) + j;
  }

  lemma WithinWindow(d: set<int>, n: int, there: int, missing: int)
    requires Windowed(d) && Windowed(d + {n}) && n !in d && there in d && missing !in d && missing != n
    requires 0 <= n && 0 <= missing
    ensures there - n <= WINDOW_SIZE && n - missing <= WINDOW_SIZE
  {
    assert n in d + {n} && missing !in d + {n};
  }

  // Packet `n` comes, after the packets `d`.
  ghost predicate Next(xs: seq<Item>, d: set<int>, n: int) {
    && AllFilled(xs) && IdsApart(xs) && 0 <= n < StartOf(xs, |xs|)
    && n !in d && Windowed(d) && Windowed(d + {n})
  }

  /** Two messages that are incomplete when a packet arrives are within a window of each other: their ids differ. */
  lemma {:induction false} NoClash(xs: seq<Item>, d: set<int>, n: int, k: int)
    requires Next(xs, d, n) && Partial(xs, k, d)
    requires k != Owner(xs, |xs|, n) && xs[Owner(xs, |xs|, n)].split
    ensures xs[k].id != xs[Owner(xs, |xs|, n)].id
  {
    var i := Owner(xs, |xs|, n);
    var there, missing := PartialHas(xs, k, d);
    if k < i {
      OwnersApart(xs, k, missing, i, n);
      WithinWindow(d, n, there, missing);
    } else {
      OwnersApart(xs, i, n, k, missing);
      OwnersApart(xs, i, n, k, there);
      WithinWindow(d, n, there, missing);
    }
  }

  lemma {:induction false} GotAfterOne(xs: seq<Item>, k: nat, d: set<int>, n: int)
    requires AllFilled(xs) && k < |xs| && 0 <= n < StartOf(xs, |xs|)
    ensures var i := Owner(xs, |xs|, n);
            GotOf(xs, k, d + {n}) == if k == i then GotOf(xs, k, d) + {n - StartOf(xs, i)} else GotOf(xs, k, d)
  {
    var i := Owner(xs, |xs|, n);
    if k < i { Distance(xs, k + 1, i); } else if k > i { Distance(xs, i + 1, k); }
  }

  lemma {:induction false} HasAllIsGot(xs: seq<Item>, k: nat, d: set<int>)
    requires k < |xs|
    ensures HasAll(xs, k, d) <==> GotOf(xs, k, d) == UpTo(xs[k].size)
  {
    if !HasAll(xs, k, d) {
      var n :| StartOf(xs, k) <= n < StartOf(xs, k + 1) && n !in d;
      assert n - StartOf(xs, k) !in GotOf(xs, k, d);
    }
  }

  function GotIn(t: Table, id: uint16): set<int> {
    if id in t then t[id].got else {}
  }

  /** What the arrival of packet `n` makes of the table. */
  function Entered(t: Table, xs: seq<Item>, n: int): Table
    requires 0 <= n < StartOf(xs, |xs|)
  {
    var k := Owner(xs, |xs|, n);
    var got := GotIn(t, xs[k].id) + {n - StartOf(xs, k)};
    if !xs[k].split then t
    else if got == UpTo(xs[k].size) then t - {xs[k].id}
    else t[xs[k].id := Entry(k, got)]
  }

  // Before packet `n` its message is not complete, and afterwards not empty.
  lemma {:induction false} OwnGot(xs: seq<Item>, d: set<int>, n: int)
    requires AllFilled(xs) && 0 <= n < StartOf(xs, |xs|) && n !in d
    ensures var k := Owner(xs, |xs|, n);
            && (xs[k].split && !Partial(xs, k, d) ==> GotOf(xs, k, d) == {})
            && GotOf(xs, k, d + {n}) == GotOf(xs, k, d) + {n - StartOf(xs, k)}
            && (xs[k].split ==> (Partial(xs, k, d + {n}) <==> GotOf(xs, k, d + {n}) != UpTo(xs[k].size)))
  {
    var k := Owner(xs, |xs|, n);
    GotAfterOne(xs, k, d, n);
    assert n - StartOf(xs, k) in UpTo(xs[k].size);
    assert n - StartOf(xs, k) !in GotOf(xs, k, d);
    assert n - StartOf(xs, k) in GotOf(xs, k, d + {n});
  }

  /** No message of the table is taken for the one that the packet belongs to. */
  lemma {:induction false} OwnEntry(t: Table, xs: seq<Item>, d: set<int>, n: int)
    requires Next(xs, d, n) && Holds(t, xs, d)
    ensures var k := Owner(xs, |xs|, n);
            xs[k].split ==> GotIn(t, xs[k].id) == GotOf(xs, k, d) && (xs[k].id in t ==> t[xs[k].id].k == k)
  {
    var k := Owner(xs, |xs|, n);
    OwnGot(xs, d, n);
    if xs[k].split && xs[k].id in t && t[xs[k].id].k != k { NoClash(xs, d, n, t[xs[k].id].k); }
  }

  lemma {:induction false} OthersStay(xs: seq<Item>, d: set<int>, n: int, j: int)
    requires Next(xs, d, n) && 0 <= j < |xs| && j != Owner(xs, |xs|, n)
    ensures GotOf(xs, j, d + {n}) == GotOf(xs, j, d) && (Partial(xs, j, d + {n}) <==> Partial(xs, j, d))
    ensures Partial(xs, j, d) && xs[Owner(xs, |xs|, n)].split ==> xs[j].id != xs[Owner(xs, |xs|, n)].id
  {
    GotAfterOne(xs, j, d, n);
    if Partial(xs, j, d) && xs[Owner(xs, |xs|, n)].split { NoClash(xs, d, n, j); }
  }

  lemma {:induction false} EnteredIs(t: Table, xs: seq<Item>, d: set<int>, n: int)
    requires AllFilled(xs) && 0 <= n < StartOf(xs, |xs|) && n !in d
    requires var k := Owner(xs, |xs|, n); xs[k].split ==> GotIn(t, xs[k].id) == GotOf(xs, k, d)
    ensures var k, e := Owner(xs, |xs|, n), d + {n};
            Entered(t, xs, n) == if !xs[k].split then t
                                 else if Partial(xs, k, e) then t[xs[k].id := Entry(k, GotOf(xs, k, e))]
                                 else t - {xs[k].id}
  {
    OwnGot(xs, d, n);
  }

  // Message `k` is entered, brought up to date or taken out; no other message is under its id.
  lemma {:induction false} OneEntry(t: Table, u: Table, xs: seq<Item>, d: set<int>, e: set<int>, k: nat)
    requires k < |xs| && Holds(t, xs, d)
    requires forall j :: 0 <= j < |xs| && j != k ==> GotOf(xs, j, e) == GotOf(xs, j, d)
    requires forall j :: 0 <= j < |xs| && j != k ==> (Partial(xs, j, e) <==> Partial(xs, j, d))
    requires xs[k].split ==> forall j :: 0 <= j < |xs| && j != k && Partial(xs, j, d) ==> xs[j].id != xs[k].id
    requires u == if !xs[k].split then t
                  else if Partial(xs, k, e) then t[xs[k].id := Entry(k, GotOf(xs, k, e))]
                  else t - {xs[k].id}
    ensures Holds(u, xs, e)
  {
    forall j | Partial(xs, j, e)
      ensures xs[j].id in u && u[xs[j].id] == Entry(j, GotOf(xs, j, e))
    {
      if j != k { assert Partial(xs, j, d); }
    }
    forall id | id in u
      ensures Partial(xs, u[id].k, e) && xs[u[id].k].id == id
    {
      if id in t { assert Partial(xs, t[id].k, d); }
    }
  }

  /** The table keeps up with the packets that arrive. */
  lemma {:induction false} TableKeepsUp(t: Table, xs: seq<Item>, d: set<int>, n: int)
    requires Next(xs, d, n) && Holds(t, xs, d)
    ensures Holds(Entered(t, xs, n), xs, d + {n})
  {
    forall j | 0 <= j < |xs| && j != Owner(xs, |xs|, n)
      ensures GotOf(xs, j, d + {n}) == GotOf(xs, j, d) && (Partial(xs, j, d + {n}) <==> Partial(xs, j, d))
      ensures Partial(xs, j, d) && xs[Owner(xs, |xs|, n)].split ==> xs[j].id != xs[Owner(xs, |xs|, n)].id
    {
      OthersStay(xs, d, n, j);
    }
    OwnEntry(t, xs, d, n);
    EnteredIs(t, xs, d, n);
    OneEntry(t, Entered(t, xs, n), xs, d, d + {n}, Owner(xs, |xs|, n));
  }

  // ---- Packets and messages ---------------------------------------------------------------------

  function Size(m: Message): (n: nat)
    requires Sendable(m)
    ensures n >= 1
  {
    TotalIsCeiling(m);
    if NeedsSplit(m) then Total(m) else 1
  }

  function ItemOf(m: Message): Item
    requires Sendable(m)
  {
    Item(m.id, Size(m), NeedsSplit(m))
  }

  function Items(ms: seq<Message>): (xs: seq<Item>)
    requires AllSendable(ms)
    ensures AllFilled(xs)
  {
    seq(|ms|, i requires 0 <= i < |ms| => ItemOf(ms[i]))
  }

  lemma {:induction false} StreamConcat(a: seq<Message>, b: seq<Message>, channel: uint8)
    requires AllSendable(a) && AllSendable(b)
    ensures Stream(a + b, channel) == Stream(a, channel) + Stream(b, channel)
    decreases |a|
  {
    if a == [] {
      assert a + b == b;
    } else {
      assert (a + b)[1..] == a[1..] + b;
      StreamConcat(a[1..], b, channel);
    }
  }

  lemma {:induction false} StreamOfOne(m: Message, channel: uint8)
    requires Sendable(m)
    ensures Stream([m], channel) == PacketsOf(m, channel) && |PacketsOf(m, channel)| == Size(m)
  {
    assert [m][1..] == [];
  }

  lemma {:induction false} StartIsLength(ms: seq<Message>, k: nat, channel: uint8)
    requires AllSendable(ms) && k <= |ms|
    ensures |Stream(ms[..k], channel)| == StartOf(Items(ms), k)
    decreases k
  {
    if k > 0 {
      StartIsLength(ms, k - 1, channel);
      assert ms[..k] == ms[..k - 1] + [ms[k - 1]];
      StreamConcat(ms[..k - 1], [ms[k - 1]], channel);
      StreamOfOne(ms[k - 1], channel);
    }
  }

  lemma {:induction false} StreamParts(ms: seq<Message>, channel: uint8, k: nat)
    requires AllSendable(ms) && k < |ms|
    ensures |Stream(ms[..k], channel)| == StartOf(Items(ms), k) && |PacketsOf(ms[k], channel)| == Size(ms[k])
    ensures Stream(ms, channel) == Stream(ms[..k], channel) + PacketsOf(ms[k], channel) + Stream(ms[k + 1..], channel)
  {
    assert ms == ms[..k + 1] + ms[k + 1..] && ms[..k + 1] == ms[..k] + [ms[k]];
    StreamConcat(ms[..k + 1], ms[k + 1..], channel);
    StreamConcat(ms[..k], [ms[k]], channel);
    StreamOfOne(ms[k], channel);
    StartIsLength(ms, k, channel);
  }

  // Packet `n` of the stream, as it arrives.
  function ArrivalOf(ms: seq<Message>, channel: uint8, n: int): Arrival
    requires AllSendable(ms) && 0 <= n < StartOf(Items(ms), |ms|)
  {
    var k := Owner(Items(ms), |ms|, n);
    Arrival(ms[k], channel, n - StartOf(Items(ms), k))
  }

  lemma {:induction false} PacketOfMessage(m: Message, channel: uint8, i: int)
    requires Sendable(m) && 0 <= i < Size(m)
    ensures WellFormed(Arrival(m, channel, i)) && |PacketsOf(m, channel)| == Size(m)
    ensures PacketsOf(m, channel)[i] == PacketFor(Arrival(m, channel, i))
  {}

  lemma {:induction false} StreamAt(ms: seq<Message>, channel: uint8, k: nat, i: nat)
    requires AllSendable(ms) && k < |ms| && i < Size(ms[k])
    ensures i < |PacketsOf(ms[k], channel)| && StartOf(Items(ms), k) + i < |Stream(ms, channel)|
    ensures Stream(ms, channel)[StartOf(Items(ms), k) + i] == PacketsOf(ms[k], channel)[i]
  {
    StreamParts(ms, channel, k);
  }

  lemma {:induction false} PacketOfStream(ms: seq<Message>, channel: uint8, n: int)
    requires AllSendable(ms) && 0 <= n < StartOf(Items(ms), |ms|)
    ensures n < |Stream(ms, channel)| && WellFormed(ArrivalOf(ms, channel, n))
    ensures Stream(ms, channel)[n] == PacketFor(ArrivalOf(ms, channel, n))
  {
    var k := Owner(Items(ms), |ms|, n);
    StreamAt(ms, channel, k, n - StartOf(Items(ms), k));
    PacketOfMessage(ms[k], channel, n - StartOf(Items(ms), k));
  }

  // ---- Reassembly -------------------------------------------------------------------------------

  predicate InPlace(t: Table, ms: seq<Message>) {
    forall id :: id in t ==> 0 <= t[id].k < |ms|
  }

  /** The table in terms of messages. */
  function OpenOf(t: Table, ms: seq<Message>, channel: uint8): Open
    requires InPlace(t, ms)
  {
    map id | id in t :: Flight(ms[t[id].k], channel, t[id].got)
  }

  // What arrival of fragment `i` of message `k` does, if the table has nothing else under its id.
  function Put(t: Table, m: Message, k: int, i: int): Table
    requires Sendable(m)
  {
    var got := GotIn(t, m.id) + {i};
    if !NeedsSplit(m) then t
    else if got == UpTo(Size(m)) then t - {m.id}
    else t[m.id := Entry(k, got)]
  }

  lemma {:induction false} OpenHas(t: Table, ms: seq<Message>, channel: uint8, id: uint16)
    requires InPlace(t, ms)
    ensures id in OpenOf(t, ms, channel) <==> id in t
    ensures Got(OpenOf(t, ms, channel), id) == GotIn(t, id)
    ensures id in t ==> OpenOf(t, ms, channel)[id] == Flight(ms[t[id].k], channel, t[id].got)
  {}

  lemma {:induction false} OpenWith(t: Table, ms: seq<Message>, channel: uint8, id: uint16, e: Entry)
    requires InPlace(t, ms) && 0 <= e.k < |ms|
    ensures InPlace(t[id := e], ms) && InPlace(t - {id}, ms)
    ensures OpenOf(t[id := e], ms, channel) == OpenOf(t, ms, channel)[id := Flight(ms[e.k], channel, e.got)]
    ensures OpenOf(t - {id}, ms, channel) == OpenOf(t, ms, channel) - {id}
  {}

  // The arrival is legal, makes `u` of the table, and completes its message if `done`.
  ghost predicate Follows(t: Table, u: Table, ms: seq<Message>, channel: uint8, a: Arrival, done: bool) {
    && InPlace(t, ms) && InPlace(u, ms)
    && Legal(OpenOf(t, ms, channel), a)
    && Completes(OpenOf(t, ms, channel), a) == done
    && Track(OpenOf(t, ms, channel), a) == OpenOf(u, ms, channel)
  }

  lemma {:induction false} PutTracks(t: Table, ms: seq<Message>, channel: uint8, k: nat, i: int)
    requires InPlace(t, ms) && k < |ms| && WellFormed(Arrival(ms[k], channel, i))
    requires NeedsSplit(ms[k]) && ms[k].id in t ==> t[ms[k].id].k == k
    ensures Follows(t, Put(t, ms[k], k, i), ms, channel, Arrival(ms[k], channel, i),
                    NeedsSplit(ms[k]) ==> GotIn(t, ms[k].id) + {i} == UpTo(Size(ms[k])))
  {
    OpenHas(t, ms, channel, ms[k].id);
    OpenWith(t, ms, channel, ms[k].id, Entry(k, GotIn(t, ms[k].id) + {i}));
  }

  // A message is complete when its last fragment comes, or at once if it has no fragments.
  lemma {:induction false} CompleteIsAll(t: Table, xs: seq<Item>, d: set<int>, n: int)
    requires AllFilled(xs) && 0 <= n < StartOf(xs, |xs|) && n !in d
    requires forall k :: 0 <= k < |xs| && !xs[k].split ==> xs[k].size == 1
    requires var k := Owner(xs, |xs|, n); xs[k].split ==> GotIn(t, xs[k].id) == GotOf(xs, k, d)
    ensures var k := Owner(xs, |xs|, n);
            HasAll(xs, k, d + {n}) <==> (xs[k].split ==> GotIn(t, xs[k].id) + {n - StartOf(xs, k)} == UpTo(xs[k].size))
  {
    var k := Owner(xs, |xs|, n);
    OwnGot(xs, d, n);
    HasAllIsGot(xs, k, d + {n});
  }

  lemma {:induction false} PutIsEntered(t: Table, ms: seq<Message>, n: int)
    requires AllSendable(ms) && 0 <= n < StartOf(Items(ms), |ms|)
    ensures var xs := Items(ms);
            var k := Owner(xs, |xs|, n);
            Put(t, ms[k], k, n - StartOf(xs, k)) == Entered(t, xs, n)
  {}

  /** The next packet is legal for reassembly, completes its message exactly when the message is all there, and is entered. */
  lemma {:induction false} NextArrival(t: Table, ms: seq<Message>, channel: uint8, d: set<int>, n: int)
    requires AllSendable(ms) && Next(Items(ms), d, n) && Holds(t, Items(ms), d)
    ensures var xs := Items(ms);
            Follows(t, Entered(t, xs, n), ms, channel, ArrivalOf(ms, channel, n), HasAll(xs, Owner(xs, |xs|, n), d + {n}))
  {
    var xs := Items(ms);
    var k := Owner(xs, |xs|, n);
    assert WellFormed(ArrivalOf(ms, channel, n)) by { PacketOfStream(ms, channel, n); }
    OwnEntry(t, xs, d, n);
    var i := n - StartOf(xs, k);
    var done := NeedsSplit(ms[k]) ==> GotIn(t, ms[k].id) + {i} == UpTo(Size(ms[k]));
    assert done == HasAll(xs, k, d + {n}) by { CompleteIsAll(t, xs, d, n); }
    assert Put(t, ms[k], k, i) == Entered(t, xs, n) by { PutIsEntered(t, ms, n); }
    assert Arrival(ms[k], channel, i) == ArrivalOf(ms, channel, n);
    PutTracks(t, ms, channel, k, i);
  }

  // ---- The events -------------------------------------------------------------------------------

  /** The messages that the packets complete, in the order in which their last packets came. */
  ghost function Finished(xs: seq<Item>, log: seq<Delivery>): seq<int>
    decreases |log|
  {
    if log == [] then []
    else
      var n := log[|log| - 1].n;
      Finished(xs, log[..|log| - 1])
      + if 0 <= n < StartOf(xs, |xs|) && HasAll(xs, Owner(xs, |xs|, n), NumbersIn(log)) then [Owner(xs, |xs|, n)] else []
  }

  function Chosen(ms: seq<Message>, ks: seq<int>): seq<Message>
    requires forall i :: 0 <= i < |ks| ==> 0 <= ks[i] < |ms|
  {
    seq(|ks|, i requires 0 <= i < |ks| => ms[ks[i]])
  }

  ghost predicate Distinct(ks: seq<int>) {
    forall i, j :: 0 <= i < j < |ks| ==> ks[i] != ks[j]
  }

  ghost predicate Within(xs: seq<Item>, log: seq<Delivery>) {
    LogHasNoRepeat(log) && forall i :: 0 <= i < |log| ==> 0 <= log[i].n < StartOf(xs, |xs|)
  }

  lemma LastNumber(log: seq<Delivery>)
    requires log != [] && LogHasNoRepeat(log)
    ensures var init, n := log[..|log| - 1], log[|log| - 1].n;
            LogHasNoRepeat(init) && n !in NumbersIn(init) && NumbersIn(log) == NumbersIn(init) + {n}
  {
    var init, n := log[..|log| - 1], log[|log| - 1].n;
    forall m | m in NumbersIn(log)
      ensures m in NumbersIn(init) + {n}
    {
      var i :| 0 <= i < |log| && log[i].n == m;
      if i < |init| { assert init[i].n == m; }
    }
    forall m | m in NumbersIn(init)
      ensures m in NumbersIn(log)
    {
      var i :| 0 <= i < |init| && init[i].n == m;
      assert log[i].n == m;
    }
  }

  lemma {:induction false} HasAllAfter(xs: seq<Item>, k: int, d: set<int>, n: int)
    requires AllFilled(xs) && 0 <= n < StartOf(xs, |xs|) && n !in d
    ensures k != Owner(xs, |xs|, n) ==> (HasAll(xs, k, d + {n}) <==> HasAll(xs, k, d))
    ensures !HasAll(xs, Owner(xs, |xs|, n), d)
  {
    var i := Owner(xs, |xs|, n);
    if 0 <= k < i { Distance(xs, k + 1, i); } else if i < k < |xs| { Distance(xs, i + 1, k); }
  }

  lemma {:induction false} NothingIsAll(xs: seq<Item>, k: int, d: set<int>)
    requires AllFilled(xs) && d == {}
    ensures !HasAll(xs, k, d)
  {
    if 0 <= k < |xs| {
      var n := StartOf(xs, k);
      assert n < StartOf(xs, k + 1) && n !in d;
    }
  }

  /** Each message that is all there is finished, once, and no other is. */
  lemma {:induction false} FinishedExact(xs: seq<Item>, log: seq<Delivery>)
    requires AllFilled(xs) && Within(xs, log)
    ensures Distinct(Finished(xs, log))
    ensures forall k :: k in Finished(xs, log) <==> HasAll(xs, k, NumbersIn(log))
    decreases |log|
  {
    if log == [] {
      forall k
        ensures !HasAll(xs, k, NumbersIn(log))
      {
        NothingIsAll(xs, k, NumbersIn(log));
      }
    } else {
      var init, n := log[..|log| - 1], log[|log| - 1].n;
      LastNumber(log);
      FinishedExact(xs, init);
      forall k
        ensures k in Finished(xs, log) <==> HasAll(xs, k, NumbersIn(log))
      {
        HasAllAfter(xs, k, NumbersIn(init), n);
      }
      HasAllAfter(xs, 0, NumbersIn(init), n);
      assert Owner(xs, |xs|, n) !in Finished(xs, init);
    }
  }

  ghost predicate FromStream(ms: seq<Message>, channel: uint8, log: seq<Delivery>)
    requires AllSendable(ms)
  {
    Within(Items(ms), log) && |Stream(ms, channel)| == StartOf(Items(ms), |ms|)
    && forall i :: 0 <= i < |log| ==> log[i].packet == Stream(ms, channel)[log[i].n]
  }

  ghost predicate AllIn(ks: seq<int>, ms: seq<Message>) {
    forall i :: 0 <= i < |ks| ==> 0 <= ks[i] < |ms|
  }

  lemma {:induction false} FinishedInRange(ms: seq<Message>, log: seq<Delivery>)
    requires AllSendable(ms)
    ensures AllIn(Finished(Items(ms), log), ms)
    decreases |log|
  {
    if log != [] { FinishedInRange(ms, log[..|log| - 1]); }
  }

  /** The events of the messages that the packets complete. */
  ghost function Completed(ms: seq<Message>, log: seq<Delivery>, channel: uint8): seq<ReceiveEvent>
    requires AllSendable(ms)
  {
    FinishedInRange(ms, log);
    Received(Chosen(ms, Finished(Items(ms), log)), channel)
  }

  lemma {:induction false} CompletedNext(ms: seq<Message>, log: seq<Delivery>, channel: uint8)
    requires AllSendable(ms) && Within(Items(ms), log) && log != []
    ensures var xs, init, n := Items(ms), log[..|log| - 1], log[|log| - 1].n;
            Completed(ms, log, channel) == Completed(ms, init, channel)
              + if HasAll(xs, Owner(xs, |xs|, n), NumbersIn(log)) then [EventOf(ArrivalOf(ms, channel, n))] else []
  {
    FinishedInRange(ms, log[..|log| - 1]);
  }

  lemma {:induction false} AddAllNextOf(log: seq<Delivery>)
    requires log != []
    ensures var (h, e) := AddAll(map[], Payloads(log[..|log| - 1]));
            var next := Add(h, log[|log| - 1].packet);
            AddAll(map[], Payloads(log)) == (next.0, e + next.1)
  {
    var init, p := Payloads(log[..|log| - 1]), log[|log| - 1].packet;
    assert Payloads(log) == init + [p];
    AddAllConcat(map[], init, [p]);
    AddAllOne(AddAll(map[], init).0, p);
  }

  // What reassembly raises for the packets handed on so far, and the table it is left with.
  ghost predicate Raised(t: Table, ms: seq<Message>, channel: uint8, log: seq<Delivery>)
    requires AllSendable(ms)
  {
    && Holds(t, Items(ms), NumbersIn(log)) && InPlace(t, ms)
    && Tracks(AddAll(map[], Payloads(log)).0, OpenOf(t, ms, channel))
    && AddAll(map[], Payloads(log)).1 == Completed(ms, log, channel)
  }

  lemma {:induction false} OneRaised(t: Table, ms: seq<Message>, channel: uint8, log: seq<Delivery>)
    requires AllSendable(ms) && IdsApart(Items(ms)) && FromStream(ms, channel, log)
    requires log != [] && AllWindowed(log) && Windowed(NumbersIn(log[..|log| - 1])) && Raised(t, ms, channel, log[..|log| - 1])
    ensures Raised(Entered(t, Items(ms), log[|log| - 1].n), ms, channel, log)
  {
    var xs, init, n := Items(ms), log[..|log| - 1], log[|log| - 1].n;
    var d, h := NumbersIn(init), AddAll(map[], Payloads(init)).0;
    LastNumber(log);
    TableKeepsUp(t, xs, d, n);
    NextArrival(t, ms, channel, d, n);
    AddAllNextOf(log);
    CompletedNext(ms, log, channel);
    PacketOfStream(ms, channel, n);
    AddTracks(h, OpenOf(t, ms, channel), ArrivalOf(ms, channel, n));
  }

  lemma {:induction false} AllRaised(ms: seq<Message>, channel: uint8, log: seq<Delivery>) returns (t: Table)
    requires AllSendable(ms) && IdsApart(Items(ms)) && FromStream(ms, channel, log) && AllWindowed(log)
    ensures Raised(t, ms, channel, log)
    decreases |log|
  {
    if log == [] {
      t := map[];
      assert NumbersIn(log) == {};
    } else {
      LastNumber(log);
      t := AllRaised(ms, channel, log[..|log| - 1]);
      OneRaised(t, ms, channel, log);
      t := Entered(t, Items(ms), log[|log| - 1].n);
    }
  }

  lemma {:induction false} LogIsFromStream(s: R.System, ms: seq<Message>, channel: uint8)
    requires R.DeliveredOnce(s) && AllSendable(ms) && s.snd.packets <= Stream(ms, channel)
    ensures FromStream(ms, channel, s.rcv.log)
  {
    assert ms[..|ms|] == ms;
    StartIsLength(ms, |ms|, channel);
  }

  /** Every packet of message `k` has been accepted. */
  ghost predicate AllAccepted(xs: seq<Item>, k: int, s: Receiver) {
    0 <= k < |xs| && forall n :: StartOf(xs, k) <= n < StartOf(xs, k + 1) ==> Accepted(s, n)
  }

  // What is logged is what was accepted.
  lemma {:induction false} AllIsAccepted(s: Receiver, xs: seq<Item>, k: int)
    requires !s.ordered && LogExact(s)
    ensures HasAll(xs, k, NumbersIn(s.log)) <==> AllAccepted(xs, k, s)
  {
    forall n
      ensures n in NumbersIn(s.log) <==> Accepted(s, n)
    {
      assert Logged(s.log, n) <==> Accepted(s, n);
    }
    if AllAccepted(xs, k, s) {
      assert forall n :: StartOf(xs, k) <= n < StartOf(xs, k + 1) ==> Accepted(s, n) && n in NumbersIn(s.log);
    }
    if HasAll(xs, k, NumbersIn(s.log)) {
      assert forall n :: StartOf(xs, k) <= n < StartOf(xs, k + 1) ==> n in NumbersIn(s.log) && Accepted(s, n);
    }
  }

  lemma {:induction false} RunIsFromStream(actions: seq<R.Action>, id: uint8, ms: seq<Message>)
    requires AllSendable(ms) && R.Given(actions, id) <= Stream(ms, id)
    ensures var s := R.Run(R.Start(false, id), actions);
            FromStream(ms, id, s.rcv.log) && AllWindowed(s.rcv.log) && !s.rcv.ordered && LogExact(s.rcv)
  {
    var s0 := R.Start(false, id);
    R.UnorderedDelivery(actions, id);
    R.RunKeepsInv(s0, actions);
    R.RunOffers(s0, actions);
    RunKeepsWindowed(s0, actions);
    LogIsFromStream(R.Run(s0, actions), ms, id);
  }

  /** Message-level reliable unordered delivery, in every run of the protocol: the events are exactly the messages all of whose
      packets were accepted, each once, byte for byte, in the order in which they became complete. */
  lemma {:induction false} MessagesExact(actions: seq<R.Action>, id: uint8, ms: seq<Message>)
    requires AllSendable(ms) && IdsApart(Items(ms)) && R.Given(actions, id) <= Stream(ms, id)
    ensures var rcv := R.Run(R.Start(false, id), actions).rcv;
            var done := Finished(Items(ms), rcv.log);
            && AllIn(done, ms) && Distinct(done)
            && AddAll(map[], Payloads(rcv.log)).1 == Received(Chosen(ms, done), id)
            && (forall k :: k in done <==> AllAccepted(Items(ms), k, rcv))
  {
    RunIsFromStream(actions, id, ms);
    LogMessages(R.Run(R.Start(false, id), actions).rcv, id, ms);
  }

  lemma {:induction false} LogMessages(rcv: Receiver, id: uint8, ms: seq<Message>)
    requires AllSendable(ms) && IdsApart(Items(ms))
    requires FromStream(ms, id, rcv.log) && AllWindowed(rcv.log) && !rcv.ordered && LogExact(rcv)
    ensures var done := Finished(Items(ms), rcv.log);
            && AllIn(done, ms) && Distinct(done)
            && AddAll(map[], Payloads(rcv.log)).1 == Received(Chosen(ms, done), id)
            && (forall k :: k in done <==> AllAccepted(Items(ms), k, rcv))
  {
    var xs := Items(ms);
    FinishedInRange(ms, rcv.log);
    FinishedExact(xs, rcv.log);
    forall k
      ensures k in Finished(xs, rcv.log) <==> AllAccepted(xs, k, rcv)
    {
      AllIsAccepted(rcv, xs, k);
    }
    var t := AllRaised(ms, id, rcv.log);
  }
}
