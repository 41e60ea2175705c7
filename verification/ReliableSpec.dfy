/** The reliable channel over unbounded sequence numbers: what each end does in one step, and what it keeps
    no matter what the other end sends. */
module ReliableSpec {
  import opened Sequence
  import opened Packets

  // ---- Receiver ---------------------------------------------------------------------------------

  datatype Delivery = Delivery(n: int, packet: Packet)

  /** `w` is the start of the acknowledgement window, `r` the least number not yet received, `early` what was
      accepted above `r` (held back if `ordered`), and `log` everything handed to the peer, in order. */
  datatype Receiver = Receiver(ordered: bool, w: int, r: int, early: map<int, Packet>, log: seq<Delivery>, ackDue: bool)

  function Payloads(log: seq<Delivery>): seq<Packet> {
    seq(|log|, i requires 0 <= i < |log| => log[i].packet)
  }

  lemma PayloadsConcat(a: seq<Delivery>, b: seq<Delivery>)
    ensures Payloads(a + b) == Payloads(a) + Payloads(b)
  {}

  predicate Accepted(s: Receiver, n: int) {
    0 <= n < s.r || n in s.early
  }

  predicate Admits(s: Receiver, n: int) {
    n <= s.r + WINDOW_SIZE && s.w <= n < s.w + 2 * WINDOW_SIZE
  }

  function Slide(w: int, n: int): int {
    if n - w >= WINDOW_SIZE then n - WINDOW_SIZE + 1 else w
  }

  function Drain(s: Receiver): Receiver
    decreases |s.early|
  {
    if s.r in s.early then
      Drain(s.(early := s.early - {s.r},
               log := if s.ordered then s.log + [Delivery(s.r, s.early[s.r])] else s.log,
               r := s.r + 1))
    else s
  }

  function Accept(s: Receiver, n: int, p: Packet): Receiver {
    if n == s.r then
      Drain(s.(log := s.log + [Delivery(n, p)], r := n + 1))
    else
      s.(early := s.early[n := p], log := if s.ordered then s.log else s.log + [Delivery(n, p)])
  }

  function Receive(s: Receiver, n: int, p: Packet): Receiver {
    if !Admits(s, n) then s
    else
      var slid := s.(w := Slide(s.w, n), ackDue := true);
      if Accepted(slid, n) then slid else Accept(slid, n, p)
  }

  /** What an acknowledgement sent now reports: the accepted numbers of the current window. */
  function Acknowledged(s: Receiver): set<int> {
    set n | s.w <= n < s.w + WINDOW_SIZE && Accepted(s, n)
  }

  ghost predicate LogHasNoRepeat(log: seq<Delivery>) {
    forall i, j :: 0 <= i < j < |log| ==> log[i].n != log[j].n
  }

  ghost predicate Logged(log: seq<Delivery>, n: int) {
    exists i :: 0 <= i < |log| && log[i].n == n
  }

  ghost predicate LogExact(s: Receiver) {
    if s.ordered then
      |s.log| == s.r && forall i :: 0 <= i < |s.log| ==> s.log[i].n == i
    else
      LogHasNoRepeat(s.log) && forall n :: Logged(s.log, n) <==> Accepted(s, n)
  }

  /** Every early packet has its own slot in the hold buffer, and never that of the next number expected,
      unless the window has already left that number behind. */
  ghost predicate ReceiverInv(s: Receiver) {
    && 0 <= s.w <= s.r + 1
    && 0 <= s.r <= s.w + WINDOW_SIZE
    && (forall n :: n in s.early ==> s.r < n < s.w + WINDOW_SIZE)
    && LogExact(s)
  }

  function Initial(ordered: bool): (s: Receiver)
    ensures ReceiverInv(s)
  {
    Receiver(ordered, 0, 0, map[], [], false)
  }

  /** Draining removes exactly the maximal run that starts at the expected number, in order. */
  lemma {:induction false} DrainExact(s: Receiver)
    requires forall n :: n in s.early ==> s.r <= n
    ensures var d := Drain(s);
            && s.r <= d.r && d.r !in s.early && (forall n :: s.r <= n < d.r ==> n in s.early)
            && d == s.(r := d.r, early := d.early, log := d.log)
            && d.early == (map n | n in s.early && n > d.r :: s.early[n])
            && d.log == s.log + (if s.ordered then seq(d.r - s.r, i requires 0 <= i < d.r - s.r => Delivery(s.r + i, s.early[s.r + i]))
                                 else [])
    decreases |s.early|
  {
    if s.r in s.early {
      var t := s.(early := s.early - {s.r},
                  log := if s.ordered then s.log + [Delivery(s.r, s.early[s.r])] else s.log,
                  r := s.r + 1);
      DrainExact(t);
      var d := Drain(s);
      forall n | s.r <= n < d.r
        ensures n in s.early
      {
        if n > s.r { assert n in t.early; }
      }
      assert d.early == (map n | n in s.early && n > d.r :: s.early[n]);
    }
  }

  lemma AckDueIrrelevant(s: Receiver)
    requires ReceiverInv(s)
    ensures ReceiverInv(s.(ackDue := false)) && Acknowledged(s.(ackDue := false)) == Acknowledged(s)
  {
    assert forall m :: Accepted(s.(ackDue := false), m) == Accepted(s, m);
  }

  lemma SlideKeepsInv(s: Receiver, n: int)
    requires ReceiverInv(s) && Admits(s, n)
    ensures ReceiverInv(s.(w := Slide(s.w, n))) && ReceiverInv(s.(w := Slide(s.w, n), ackDue := true))
  {
    assert forall m :: Accepted(s.(w := Slide(s.w, n)), m) == Accepted(s, m);
    assert forall m :: Accepted(s.(w := Slide(s.w, n), ackDue := true), m) == Accepted(s, m);
  }

  /** The receiver keeps its invariant whatever packets arrive, from a conforming sender or not. */
  lemma ReceiveKeepsInv(s: Receiver, n: int, p: Packet)
    requires ReceiverInv(s)
    ensures ReceiverInv(Receive(s, n, p))
  {
    var slid := s.(w := Slide(s.w, n), ackDue := true);
    if Admits(s, n) && !Accepted(slid, n) {
      if n == s.r {
        var t := slid.(log := slid.log + [Delivery(n, p)], r := n + 1);
        DrainExact(t);
        AcceptedByDrain(slid, n, p);
        var d := Drain(t);
        assert t.r < d.r ==> d.r - 1 in s.early;
      }
      if !s.ordered {
        LogExtended(s, Receive(s, n, p), n, p);
      }
    }
  }

  lemma AcceptedByDrain(s: Receiver, n: int, p: Packet)
    requires n == s.r >= 0 && forall m :: m in s.early ==> s.r < m
    ensures forall m :: Accepted(Accept(s, n, p), m) <==> Accepted(s, m) || m == n
  {
    var t := s.(log := s.log + [Delivery(n, p)], r := n + 1);
    DrainExact(t);
    var d := Drain(t);
    forall m
      ensures Accepted(d, m) <==> Accepted(s, m) || m == n
    {
      if t.r <= m < d.r { assert m in t.early; }
    }
  }

  /** What one admitted packet changes: it alone becomes accepted, and only it or packets held back are handed on. */
  lemma ReceiveExact(s: Receiver, n: int, p: Packet)
    requires ReceiverInv(s) && Admits(s, n)
    ensures var t := Receive(s, n, p);
            && t.w == Slide(s.w, n) && t.ackDue && s.r <= t.r
            && (forall m :: Accepted(t, m) <==> Accepted(s, m) || m == n)
            && (forall m :: m in t.early ==> t.early[m] == if m in s.early then s.early[m] else p)
            && s.log <= t.log
            && (forall i :: |s.log| <= i < |t.log| ==>
                  t.log[i] == Delivery(n, p) || (t.log[i].n in s.early && t.log[i].packet == s.early[t.log[i].n]))
  {
    var slid := s.(w := Slide(s.w, n), ackDue := true);
    if !Accepted(slid, n) && n == s.r {
      AcceptedByDrain(slid, n, p);
      DrainExact(slid.(log := slid.log + [Delivery(n, p)], r := n + 1));
    }
  }

  /** The guard, and the window: a packet in reach makes an acknowledgement due and moves the window just as far as it takes
      to cover it; any other packet changes nothing, and takes away no acknowledgement that is due. */
  lemma ReceiveGuard(s: Receiver, n: int, p: Packet)
    requires ReceiverInv(s)
    ensures var t := Receive(s, n, p);
            if s.w <= n < s.w + 128 && n <= s.r + 64 then
              t.ackDue && s.w <= t.w && n < t.w + 64 && (t.w == s.w || n == t.w + 63)
            else t == s
  {
    if Admits(s, n) { ReceiveExact(s, n, p); }
  }

  lemma {:induction false} DrainKeepsKind(s: Receiver)
    ensures Drain(s).ordered == s.ordered
    decreases |s.early|
  {
    if s.r in s.early {
      var log := if s.ordered then s.log + [Delivery(s.r, s.early[s.r])] else s.log;
      DrainKeepsKind(s.(early := s.early - {s.r}, log := log, r := s.r + 1));
    }
  }

  lemma ReceiveKeepsKind(s: Receiver, n: int, p: Packet)
    ensures Receive(s, n, p).ordered == s.ordered
  {
    if n == s.r {
      DrainKeepsKind(s.(w := Slide(s.w, n), ackDue := true, log := s.log + [Delivery(n, p)], r := n + 1));
    }
  }

  lemma LogExtended(s: Receiver, d: Receiver, n: int, p: Packet)
    requires !s.ordered && !d.ordered && LogExact(s) && !Accepted(s, n)
    requires d.log == s.log + [Delivery(n, p)]
    requires forall m :: Accepted(d, m) <==> Accepted(s, m) || m == n
    ensures LogExact(d)
  {
    assert d.log[|s.log|].n == n;
    forall m
      ensures Logged(d.log, m) <==> Accepted(d, m)
    {
      if Logged(s.log, m) {
        var i :| 0 <= i < |s.log| && s.log[i].n == m;
        assert d.log[i].n == m;
      }
    }
    assert !Logged(s.log, n);
  }

  // ---- Sender -----------------------------------------------------------------------------------

  /** `packets` are all packets ever dequeued, so packet `n` is `packets[n]`; those in [lws, ls) occupy the pending
      slots unless they are in `cleared`, which lists the freed ones in the order they were freed. `tried` are
      the numbers transmitted at least once. */
  datatype Sender = Sender(id: uint8, lws: int, ls: int, queue: seq<Packet>, packets: seq<Packet>,
                           cleared: seq<int>, tried: set<int>)

  ghost predicate SenderShape(s: Sender) {
    && 0 <= s.lws <= s.ls <= s.lws + WINDOW_SIZE
    && |s.packets| == s.ls
    && (forall n :: n in s.cleared ==> 0 <= n < s.ls)
    && (forall n :: n in s.tried ==> 0 <= n < s.ls)
  }

  ghost predicate SenderInv(s: Sender) {
    && SenderShape(s)
    && (forall i, j :: 0 <= i < j < |s.cleared| ==> s.cleared[i] != s.cleared[j])
    && (forall n :: 0 <= n < s.lws ==> n in s.cleared)
    && (forall n :: 0 <= n < s.ls ==> n in s.tried)
  }

  function Silent(id: uint8): (s: Sender)
    ensures SenderInv(s)
  {
    Sender(id, 0, 0, [], [], [], {})
  }

  function Stamp(p: Packet, id: uint8): Packet {
    p.(channel := id)
  }

  /** Every packet given to the channel so far, as it is or will be sent. */
  function Offered(s: Sender): seq<Packet> {
    s.packets + seq(|s.queue|, i requires 0 <= i < |s.queue| => Stamp(s.queue[i], s.id))
  }

  function Fill(s: Sender): Sender
    decreases |s.queue|
  {
    if s.queue != [] && s.ls - s.lws < WINDOW_SIZE then
      Fill(s.(queue := s.queue[1..], packets := s.packets + [Stamp(s.queue[0], s.id)], ls := s.ls + 1))
    else s
  }

  predicate Sends(s: Sender, n: int, due: set<int>) {
    n !in s.cleared && (n !in s.tried || n % WINDOW_SIZE in due)
  }

  /** The numbers in [n, ls) that one pass over the pending slots transmits; `due` are the slots whose resend
      delay has elapsed. */
  function Outgoing(s: Sender, n: int, due: set<int>): seq<int>
    decreases s.ls - n
  {
    if n >= s.ls then [] else (if Sends(s, n, due) then [n] else []) + Outgoing(s, n + 1, due)
  }

  function Transmitted(s: Sender, due: set<int>): seq<int> {
    var f := Fill(s);
    Outgoing(f, f.lws, due)
  }

  function Transmit(s: Sender, due: set<int>): Sender {
    var f := Fill(s);
    f.(tried := f.tried + set n | n in Transmitted(s, due))
  }

  function Clear(s: Sender, n: int): Sender {
    s.(lws := if n == s.lws then n + 1 else s.lws,
       cleared := if n in s.cleared then s.cleared else s.cleared + [n])
  }

  function AckFrom(s: Sender, n: int, start: int, acked: set<int>): Sender
    decreases s.ls - n
  {
    if n >= s.ls || n - start >= WINDOW_SIZE then s
    else AckFrom(if n in acked then Clear(s, n) else s, n + 1, start, acked)
  }

  /** `start` and `acked` are what the acknowledgement says: its window start and the numbers it reports. */
  function ProcessAck(s: Sender, start: int, acked: set<int>): Sender {
    if 0 <= s.lws - start < WINDOW_SIZE then AckFrom(s, s.lws, start, acked) else s
  }

  lemma {:induction false} FillExact(s: Sender)
    requires 0 <= s.ls - s.lws <= WINDOW_SIZE && |s.packets| == s.ls
    ensures var f := Fill(s);
            && Offered(f) == Offered(s)
            && f == s.(queue := f.queue, packets := f.packets, ls := f.ls)
            && s.ls <= f.ls == |f.packets| && s.packets <= f.packets
            && f.ls - s.ls == (if |s.queue| <= WINDOW_SIZE - (s.ls - s.lws) then |s.queue| else WINDOW_SIZE - (s.ls - s.lws))
    decreases |s.queue|
  {
    if s.queue != [] && s.ls - s.lws < WINDOW_SIZE {
      var t := s.(queue := s.queue[1..], packets := s.packets + [Stamp(s.queue[0], s.id)], ls := s.ls + 1);
      FillExact(t);
      assert Offered(t) == Offered(s);
      assert s.packets <= t.packets;
    }
  }

  ghost predicate Increasing(ns: seq<int>) {
    forall i, j :: 0 <= i < j < |ns| ==> ns[i] < ns[j]
  }

  lemma {:induction false} OutgoingMembers(s: Sender, n: int, due: set<int>)
    ensures forall m :: m in Outgoing(s, n, due) <==> n <= m < s.ls && Sends(s, m, due)
    decreases s.ls - n
  {
    if n < s.ls {
      OutgoingMembers(s, n + 1, due);
      var rest := Outgoing(s, n + 1, due);
      forall m
        ensures m in Outgoing(s, n, due) <==> n <= m < s.ls && Sends(s, m, due)
      {
        if Sends(s, n, due) { InCons(n, rest, m); }
      }
    }
  }

  lemma InCons(n: int, rest: seq<int>, m: int)
    ensures m in [n] + rest <==> m == n || m in rest
  {}

  lemma {:induction false} OutgoingIncreases(s: Sender, n: int, due: set<int>)
    ensures Increasing(Outgoing(s, n, due))
    decreases s.ls - n
  {
    if n < s.ls {
      OutgoingIncreases(s, n + 1, due);
      OutgoingMembers(s, n + 1, due);
      IncreasingCons(n, Outgoing(s, n + 1, due));
    }
  }

  lemma OutgoingExact(s: Sender, n: int, due: set<int>)
    ensures forall m :: m in Outgoing(s, n, due) <==> n <= m < s.ls && Sends(s, m, due)
    ensures Increasing(Outgoing(s, n, due))
  {
    OutgoingMembers(s, n, due);
    OutgoingIncreases(s, n, due);
  }

  lemma IncreasingCons(n: int, rest: seq<int>)
    requires Increasing(rest) && forall m :: m in rest ==> n < m
    ensures Increasing([n] + rest)
  {
    assert forall i :: 0 <= i < |rest| ==> rest[i] in rest;
  }

  lemma TransmitKeepsInv(s: Sender, due: set<int>)
    requires SenderInv(s)
    ensures var t := Transmit(s, due);
            && SenderInv(t) && Offered(t) == Offered(s) && t.cleared == s.cleared && t.lws == s.lws
            && s.packets <= t.packets
            && (forall n :: n in Transmitted(s, due) <==> t.lws <= n < t.ls && Sends(Fill(s), n, due))
  {
    FillExact(s);
    var f := Fill(s);
    OutgoingExact(f, f.lws, due);
    var t := Transmit(s, due);
    assert forall n :: 0 <= n < t.ls && n !in s.tried ==> Sends(f, n, due);
  }

  /** What a turn sends: the pending packets that are new or whose resend delay has elapsed, those that the turn has numbered
      among them, and no other, whatever else is queued. */
  lemma TransmittedExactly(s: Sender, due: set<int>)
    requires SenderInv(s)
    ensures var room := 64 - (s.ls - s.lws);
            var end := s.ls + if |s.queue| <= room then |s.queue| else room;
            && Transmit(s, due).ls == end && Increasing(Transmitted(s, due))
            && forall n :: n in Transmitted(s, due) <==>
                 s.lws <= n < end && n !in s.cleared && (n >= s.ls || n % 64 in due)
  {
    FillExact(s);
    TransmitKeepsInv(s, due);
    OutgoingExact(Fill(s), Fill(s).lws, due);
  }

  lemma {:induction false} AckFromFrees(s: Sender, n: int, start: int, acked: set<int>)
    requires SenderInv(s) && s.lws <= n <= s.ls
    ensures var t := AckFrom(s, n, start, acked);
            && SenderInv(t) && t == s.(lws := t.lws, cleared := t.cleared) && s.cleared <= t.cleared
            && (forall m :: m in t.cleared <==> m in s.cleared || (n <= m < s.ls && m - start < WINDOW_SIZE && m in acked))
    decreases s.ls - n
  {
    if n < s.ls && n - start < WINDOW_SIZE {
      AckFromFrees(if n in acked then Clear(s, n) else s, n + 1, start, acked);
    }
  }

  lemma {:induction false} AckFromMoves(s: Sender, n: int, start: int, acked: set<int>)
    requires s.lws <= n <= s.ls
    ensures var t := AckFrom(s, n, start, acked);
            && s.lws <= t.lws
            && (s.lws == n ==> forall m :: n <= m < t.lws ==> m in acked)
            && (s.lws == n ==> t.lws == s.ls || t.lws - start >= WINDOW_SIZE || t.lws !in acked)
            && (s.lws < n ==> t.lws == s.lws)
    decreases s.ls - n
  {
    if n < s.ls && n - start < WINDOW_SIZE {
      AckFromMoves(if n in acked then Clear(s, n) else s, n + 1, start, acked);
    }
  }

  /** An acknowledgement frees exactly the reported numbers it covers, each once, and moves the window start over
      the run of reported numbers it begins with. */
  lemma AckFromExact(s: Sender, start: int, acked: set<int>)
    requires SenderInv(s)
    ensures var t := AckFrom(s, s.lws, start, acked);
            && SenderInv(t) && t == s.(lws := t.lws, cleared := t.cleared) && s.cleared <= t.cleared
            && (forall m :: m in t.cleared <==>
                  m in s.cleared || (s.lws <= m < s.ls && m - start < WINDOW_SIZE && m in acked))
            && s.lws <= t.lws && (forall m :: s.lws <= m < t.lws ==> m in acked)
            && (t.lws == s.ls || t.lws - start >= WINDOW_SIZE || t.lws !in acked)
  {
    AckFromFrees(s, s.lws, start, acked);
    AckFromMoves(s, s.lws, start, acked);
  }

  /** An acknowledgement whose window holds the sender's start frees exactly the pending packets it reports, wherever in the
      window they are, and the start stops at the first one it does not report; any other changes nothing. */
  lemma ProcessAckExactly(s: Sender, start: int, acked: set<int>)
    requires SenderInv(s) && forall n :: n in acked ==> start <= n < start + 64
    ensures var t, covers := ProcessAck(s, start, acked), start <= s.lws < start + 64;
            && t == s.(lws := t.lws, cleared := t.cleared) && s.cleared <= t.cleared
            && (forall m :: m in t.cleared <==> m in s.cleared || (covers && s.lws <= m < s.ls && m in acked))
            && s.lws <= t.lws && (forall m :: s.lws <= m < t.lws ==> m in acked)
            && (covers ==> t.lws == s.ls || t.lws !in acked)
            && (!covers ==> t == s)
  {
    AckFromExact(s, start, acked);
  }

  // ---- When a sending channel keeps its turn ----------------------------------------------------

  predicate KeepsTurn(s: Sender, due: set<int>) {
    Transmitted(s, due) != [] || Transmit(s, due).queue != []
  }

  ghost predicate Unacknowledged(s: Sender) {
    exists n :: s.lws <= n < s.ls && n !in s.cleared
  }

  predicate SomeResendDue(s: Sender, due: set<int>) {
    exists n | s.lws <= n < s.ls :: n !in s.cleared && n % WINDOW_SIZE in due
  }

  lemma NothingQueued(s: Sender, due: set<int>)
    requires SenderInv(s) && s.queue == []
    ensures Transmitted(s, due) != [] <==> SomeResendDue(s, due)
    ensures Transmit(s, due).queue == []
  {
    TransmitKeepsInv(s, due);
    var ns := Transmitted(s, due);
    assert Fill(s) == s;
    if ns != [] {
      assert ns[0] in ns;
      assert Sends(s, ns[0], due);
    }
    if n :| s.lws <= n < s.ls && n !in s.cleared && n % WINDOW_SIZE in due {
      assert n in ns;
    }
  }

  /** A turn is followed by another exactly if something was queued or some resend delay had elapsed. */
  lemma KeepsTurnExactly(s: Sender, due: set<int>)
    requires SenderInv(s)
    ensures KeepsTurn(s, due) <==> s.queue != [] || SomeResendDue(s, due)
  {
    if s.queue == [] {
      NothingQueued(s, due);
    } else {
      FillExact(s);
      TransmittedExactly(s, due);
      if s.ls - s.lws < 64 {
        assert s.ls !in s.cleared && s.ls in Transmitted(s, due);
      }
    }
  }

  /** An unacknowledged packet does not by itself keep the channel in the send queue: it does so exactly if something
      is queued or the resend delay of some unacknowledged packet has elapsed by the turn. */
  lemma UnacknowledgedKeepsTurn(s: Sender, due: set<int>)
    requires SenderInv(s)
    ensures (Unacknowledged(Transmit(s, due)) ==> KeepsTurn(s, due)) <==>
            (s.queue != [] || !Unacknowledged(s) || SomeResendDue(s, due))
  {
    TransmitKeepsInv(s, due);
    FillExact(s);
    var f := Fill(s);
    if s.queue != [] {
      if f.ls > s.ls { assert Sends(f, s.ls, due) && s.ls in Transmitted(s, due); }
    } else {
      NothingQueued(s, due);
      assert Transmit(s, due).cleared == s.cleared && Transmit(s, due).ls == s.ls;
    }
  }

  /** One packet sent and lost: at the next turn, with its resend delay still running, the channel gives up its place
      in the send queue although the packet is unacknowledged. */
  lemma LostPacketLosesTurn(p: Packet)
    ensures var s := Transmit(Silent(0).(queue := [p]), {});
            SenderInv(s) && Unacknowledged(Transmit(s, {})) && !KeepsTurn(s, {})
  {
    var s0 := Silent(0).(queue := [p]);
    var s := Transmit(s0, {});
    TransmitKeepsInv(s0, {});
    TransmitKeepsInv(s, {});
    FillExact(s0);
    assert Fill(s0).ls == 1;
    assert 0 !in s.cleared;
    UnacknowledgedKeepsTurn(s, {});
    assert Unacknowledged(s) && Unacknowledged(Transmit(s, {}));
  }
}
