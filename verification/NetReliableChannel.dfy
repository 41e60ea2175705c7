/** The reliable channel as it is implemented: counters modulo 32768, a byte bitmap and 64-slot buffers. The ghost
    fields `rcv` and `snd` are the unbounded states of module ReliableSpec, and every method is proved to take
    the step defined there, for any datagram whatsoever. */
module NetReliableChannel {
  import opened Sequence
  import opened Packets
  import opened Bitmap
  import opened ReliableSpec

  datatype PendingPacket = PendingPacket(packet: Option<Packet>, isSent: bool)

  // ---- Slot buffers against unbounded numbers ---------------------------------------------------

  ghost predicate Holds(slots: seq<Option<Packet>>, early: map<int, Packet>, from: int) {
    |slots| == WINDOW_SIZE &&
    forall n :: from <= n < from + WINDOW_SIZE ==>
      slots[n % WINDOW_SIZE] == if n in early then Some(early[n]) else None
  }

  ghost predicate Flags(slots: seq<bool>, early: map<int, Packet>, from: int) {
    |slots| == WINDOW_SIZE &&
    forall n :: from <= n < from + WINDOW_SIZE ==> slots[n % WINDOW_SIZE] == (n in early)
  }

  ghost predicate Marks(data: seq<bits>, s: Receiver, from: int) {
    |data| == ACK_PACKET_SIZE &&
    forall n :: from <= n < from + WINDOW_SIZE ==> BitAt(data, n % WINDOW_SIZE) == Accepted(s, n)
  }

  ghost predicate Pending(slots: seq<PendingPacket>, s: Sender) {
    |slots| == WINDOW_SIZE &&
    forall n :: s.lws <= n < s.lws + WINDOW_SIZE ==>
      && slots[n % WINDOW_SIZE].packet == (if n < |s.packets| && n !in s.cleared && n >= 0 then Some(s.packets[n]) else None)
      && (n < s.ls && n !in s.cleared ==> slots[n % WINDOW_SIZE].isSent == (n in s.tried))
  }

  // The relative number of two numbers less than the whole space apart.
  lemma RelativeWithin(n: int, m: int)
    requires -MAX_SEQUENCE < n - m < MAX_SEQUENCE
    ensures Relative(Wrap(n), Wrap(m)) == n - m + (if n - m >= HALF_MAX_SEQUENCE then -MAX_SEQUENCE
                                                   else if n - m < -HALF_MAX_SEQUENCE then MAX_SEQUENCE else 0)
  {
    WrapIsPeriodic(n);
    if n - m >= HALF_MAX_SEQUENCE {
      RelativeOfWrapped(n - MAX_SEQUENCE, m);
    } else if n - m < -HALF_MAX_SEQUENCE {
      RelativeOfWrapped(n + MAX_SEQUENCE, m);
    } else {
      RelativeOfWrapped(n, m);
    }
  }

  /** The three guards of the implementation decide as the unbounded receiver does, for every sequence number. */
  lemma GuardsAgree(s: Receiver, sequence: int)
    requires 0 <= s.w <= s.r + 1 && s.r <= s.w + WINDOW_SIZE && 0 <= sequence < MAX_SEQUENCE
    ensures var n := Unwrap(sequence, s.r);
            var relate := Relative(sequence, Wrap(s.w));
            && Wrap(n) == sequence
            && ((Relative(sequence, Wrap(s.r)) <= WINDOW_SIZE && 0 <= relate < 2 * WINDOW_SIZE) <==> Admits(s, n))
            && (Admits(s, n) ==> relate == n - s.w)
  {
    var n := Unwrap(sequence, s.r);
    UnwrapIsCongruent(sequence, s.r);
    RelativeWithin(n, s.r);
    RelativeWithin(n, s.w);
  }

  /** So does the guard on acknowledgements. */
  lemma AckGuardAgrees(lws: int, sequence: int)
    requires 0 <= sequence < MAX_SEQUENCE
    ensures var start := Unwrap(sequence, lws);
            var windowRel := Relative(Wrap(lws), sequence);
            && Wrap(start) == sequence
            && (0 <= windowRel < WINDOW_SIZE <==> 0 <= lws - start < WINDOW_SIZE)
            && (0 <= windowRel < WINDOW_SIZE ==> windowRel == lws - start)
  {
    var start := Unwrap(sequence, lws);
    UnwrapIsCongruent(sequence, lws);
    if lws - start < HALF_MAX_SEQUENCE {
      RelativeOfWrapped(lws, start);
    } else {
      RelativeOfWrapped(lws - MAX_SEQUENCE, start);
    }
  }

  lemma MarkOne(data: seq<bits>, s: Receiver, t: Receiver, n: int)
    requires Marks(data, s, s.w) && s.w == t.w && s.w <= n < s.w + WINDOW_SIZE
    requires forall m :: Accepted(t, m) <==> Accepted(s, m) || m == n
    ensures Marks(SetBit(data, n % WINDOW_SIZE), t, t.w)
  {
    forall m | s.w <= m < s.w + WINDOW_SIZE
      ensures BitAt(SetBit(data, n % WINDOW_SIZE), m % WINDOW_SIZE) == Accepted(t, m)
    {
      BitSet(data, n % WINDOW_SIZE, m % WINDOW_SIZE);
      if m != n { SlotsAreDistinct(m, n); }
    }
  }

  /** Sliding by one clears the bit of the number that leaves, which is the bit of the number that enters. */
  lemma SlideOne(data: seq<bits>, s: Receiver, u: int)
    requires Marks(data, s, u) && !Accepted(s, u + WINDOW_SIZE)
    ensures Marks(ClearBit(data, u % WINDOW_SIZE), s, u + 1)
  {
    forall m | u + 1 <= m < u + 1 + WINDOW_SIZE
      ensures BitAt(ClearBit(data, u % WINDOW_SIZE), m % WINDOW_SIZE) == Accepted(s, m)
    {
      BitCleared(data, u % WINDOW_SIZE, m % WINDOW_SIZE);
      if m < u + WINDOW_SIZE { SlotsAreDistinct(m, u); } else { SlotComesRound(u); }
    }
  }

  lemma SlotComesRound(u: int)
    ensures (u + WINDOW_SIZE) % WINDOW_SIZE == u % WINDOW_SIZE
  {}

  lemma MarksReport(data: seq<bits>, s: Receiver)
    requires Marks(data, s, s.w)
    ensures Reported(data, s.w) == Acknowledged(s)
  {}

  lemma MarksDetermine(data: seq<bits>, s: Receiver, i: int) returns (n: int)
    requires Marks(data, s, s.w) && 0 <= i < WINDOW_SIZE
    ensures s.w <= n < s.w + WINDOW_SIZE && n % WINDOW_SIZE == i && BitAt(data, i) == Accepted(s, n)
    ensures forall m :: s.w <= m < s.w + WINDOW_SIZE && m % WINDOW_SIZE == i ==> m == n
  {
    n := s.w + (i - s.w) % WINDOW_SIZE;
    assert n == i + WINDOW_SIZE * (s.w / WINDOW_SIZE) || n == i + WINDOW_SIZE * (s.w / WINDOW_SIZE + 1);
  }

  lemma MarksDependOnAccepted(data: seq<bits>, s: Receiver, t: Receiver, from: int)
    requires Marks(data, s, from) && s.r == t.r && s.early == t.early
    ensures Marks(data, t, from)
  {
    assert forall n :: Accepted(s, n) == Accepted(t, n);
  }

  lemma SameWrapped(n: int, m: int)
    requires -HALF_MAX_SEQUENCE <= n - m < HALF_MAX_SEQUENCE
    ensures Wrap(n) == Wrap(m) <==> n == m
  {
    RelativeOfWrapped(n, m);
    RelativeOfWrapped(m, m);
  }

  /** The slot read for a wrapped number is that of the number it stands for, and the next one follows. */
  lemma SlotOfNext(sequence: int, r: int)
    requires sequence == Wrap(r)
    ensures 0 <= sequence % WINDOW_SIZE == r % WINDOW_SIZE < WINDOW_SIZE
    ensures (sequence + 1) % MAX_SEQUENCE == Wrap(r + 1)
    ensures 0 <= ((sequence + 1) % MAX_SEQUENCE) % WINDOW_SIZE == (r + 1) % WINDOW_SIZE < WINDOW_SIZE
  {
    SlotOfWrapped(r);
    WrapSuccessor(r);
    SlotOfWrapped(r + 1);
  }

  lemma HeldAt(slots: seq<Option<Packet>>, early: map<int, Packet>, r: int)
    requires Holds(slots, early, r)
    ensures 0 <= r % WINDOW_SIZE < |slots| && (slots[r % WINDOW_SIZE] != None <==> r in early)
  {}

  lemma HeldShift(slots: seq<Option<Packet>>, early: map<int, Packet>, r: int)
    requires Holds(slots, early, r) && r !in early && forall n :: n in early ==> n < r + WINDOW_SIZE
    ensures Holds(slots, early, r + 1)
  {
    assert (r + WINDOW_SIZE) % WINDOW_SIZE == r % WINDOW_SIZE;
    assert slots[r % WINDOW_SIZE] == None;
  }

  lemma FlagShift(slots: seq<bool>, early: map<int, Packet>, r: int)
    requires Flags(slots, early, r) && r !in early && forall n :: n in early ==> n < r + WINDOW_SIZE
    ensures Flags(slots, early, r + 1)
  {
    assert (r + WINDOW_SIZE) % WINDOW_SIZE == r % WINDOW_SIZE;
    assert !slots[r % WINDOW_SIZE];
  }

  lemma HeldRemoved(slots: seq<Option<Packet>>, early: map<int, Packet>, r: int)
    requires Holds(slots, early, r) && forall n :: n in early ==> n < r + WINDOW_SIZE
    ensures Holds(slots[r % WINDOW_SIZE := None], early - {r}, r + 1)
  {
    forall n | r < n < r + WINDOW_SIZE
      ensures n % WINDOW_SIZE != r % WINDOW_SIZE
    {
      SlotsAreDistinct(n, r);
    }
  }

  lemma HeldAdded(slots: seq<Option<Packet>>, early: map<int, Packet>, r: int, n: int, p: Packet)
    requires Holds(slots, early, r) && r <= n < r + WINDOW_SIZE
    ensures Holds(slots[n % WINDOW_SIZE := Some(p)], early[n := p], r)
  {
    forall m | r <= m < r + WINDOW_SIZE && m != n
      ensures m % WINDOW_SIZE != n % WINDOW_SIZE
    {
      SlotsAreDistinct(m, n);
    }
  }

  lemma FlagRemoved(slots: seq<bool>, early: map<int, Packet>, r: int)
    requires Flags(slots, early, r) && forall n :: n in early ==> n < r + WINDOW_SIZE
    ensures Flags(slots[r % WINDOW_SIZE := false], early - {r}, r + 1)
  {
    forall n | r < n < r + WINDOW_SIZE
      ensures n % WINDOW_SIZE != r % WINDOW_SIZE
    {
      SlotsAreDistinct(n, r);
    }
  }

  lemma FlagAdded(slots: seq<bool>, early: map<int, Packet>, r: int, n: int, p: Packet)
    requires Flags(slots, early, r) && r <= n < r + WINDOW_SIZE
    ensures Flags(slots[n % WINDOW_SIZE := true], early[n := p], r)
  {
    forall m | r <= m < r + WINDOW_SIZE && m != n
      ensures m % WINDOW_SIZE != n % WINDOW_SIZE
    {
      SlotsAreDistinct(m, n);
    }
  }

  lemma StillPending(n: int, ls: int, start: int)
    requires n <= ls <= n + WINDOW_SIZE && 0 <= n - start < 2 * WINDOW_SIZE
    ensures Wrap(n) != Wrap(ls) <==> n < ls
    ensures Relative(Wrap(n), Wrap(start)) == n - start
  {
    RelativeOfWrapped(n, start);
    RelativeOfWrapped(n, ls);
    RelativeOfWrapped(ls, ls);
  }

  lemma PendingCleared(slots: seq<PendingPacket>, s: Sender, n: int)
    requires Pending(slots, s) && SenderInv(s) && s.lws <= n < s.ls
    ensures Pending(slots[n % WINDOW_SIZE := slots[n % WINDOW_SIZE].(packet := None)], Clear(s, n))
  {
    forall m | s.lws <= m < s.lws + WINDOW_SIZE && m != n
      ensures m % WINDOW_SIZE != n % WINDOW_SIZE
    {
      SlotsAreDistinct(m, n);
    }
    assert (s.lws + WINDOW_SIZE) % WINDOW_SIZE == s.lws % WINDOW_SIZE;
  }

  lemma PendingAdded(slots: seq<PendingPacket>, s: Sender, p: Packet, queue: seq<Packet>)
    requires Pending(slots, s) && SenderShape(s) && s.ls < s.lws + WINDOW_SIZE
    ensures Pending(slots[s.ls % WINDOW_SIZE := PendingPacket(Some(p), false)],
                    s.(queue := queue, packets := s.packets + [p], ls := s.ls + 1))
  {
    forall m | s.lws <= m < s.lws + WINDOW_SIZE && m != s.ls
      ensures m % WINDOW_SIZE != s.ls % WINDOW_SIZE
    {
      SlotsAreDistinct(m, s.ls);
    }
  }

  lemma PendingSent(slots: seq<PendingPacket>, s: Sender, n: int)
    requires Pending(slots, s) && SenderShape(s) && s.lws <= n < s.ls
    ensures Pending(slots[n % WINDOW_SIZE := slots[n % WINDOW_SIZE].(isSent := true)], s.(tried := s.tried + {n}))
  {
    forall m | s.lws <= m < s.lws + WINDOW_SIZE && m != n
      ensures m % WINDOW_SIZE != n % WINDOW_SIZE
    {
      SlotsAreDistinct(m, n);
    }
  }

  ghost predicate InRange(ns: seq<int>, bound: int) {
    forall i :: 0 <= i < |ns| ==> 0 <= ns[i] < bound
  }

  /** The datagrams that carry the numbers `ns`. */
  function Wire(s: Sender, ns: seq<int>): seq<Datagram>
    requires InRange(ns, |s.packets|)
  {
    seq(|ns|, i requires 0 <= i < |ns| => Channeled(Wrap(ns[i]), s.packets[ns[i]]))
  }

  ghost predicate IsAckOf(d: Datagram, s: Receiver, id: uint8) {
    d.Ack? && d.channel == id && d.sequence == Wrap(s.w) && |d.data| == ACK_PACKET_SIZE && Reported(d.data, s.w) == Acknowledged(s)
  }

  lemma TransmittedInRange(s: Sender, due: set<int>)
    requires SenderInv(s)
    ensures InRange(Transmitted(s, due), |Transmit(s, due).packets|)
    ensures Fill(s).lws == s.lws && Fill(s).queue == Transmit(s, due).queue
  {
    TransmitKeepsInv(s, due);
    FillExact(s);
    var ns := Transmitted(s, due);
    assert forall i :: 0 <= i < |ns| ==> ns[i] in ns;
  }

  // The state of the sender half after the numbers `done` of a pass have been transmitted.
  ghost function After(f: Sender, done: seq<int>): Sender {
    f.(tried := f.tried + set n | n in done)
  }

  // A pass that has come to `n` has transmitted `done` as the datagrams `out` and left the sender half at `cur`.
  ghost predicate PassAt(f: Sender, due: set<int>, n: int, done: seq<int>, cur: Sender, out: seq<Datagram>) {
    && f.lws <= n <= f.ls <= |f.packets|
    && InRange(done, n)
    && cur == After(f, done)
    && done + Outgoing(f, n, due) == Outgoing(f, f.lws, due)
    && out == Wire(cur, done)
  }

  lemma PassStep(f: Sender, due: set<int>, n: int, done: seq<int>, cur: Sender, out: seq<Datagram>)
    requires PassAt(f, due, n, done, cur, out) && 0 <= n < f.ls
    ensures Sends(cur, n, due) ==>
              PassAt(f, due, n + 1, done + [n], cur.(tried := cur.tried + {n}), out + Wire(cur, [n]))
    ensures !Sends(cur, n, due) ==> PassAt(f, due, n + 1, done, cur, out)
  {
    assert Sends(cur, n, due) == Sends(f, n, due);
    if Sends(cur, n, due) {
      assert (set m | m in done + [n]) == (set m | m in done) + {n};
      assert done + [n] + Outgoing(f, n + 1, due) == done + Outgoing(f, n, due);
    }
  }

  lemma PassStart(f: Sender, due: set<int>)
    requires SenderShape(f)
    ensures PassAt(f, due, f.lws, [], f, [])
  {
    assert (set m: int | m in []) == {};
  }

  lemma PassEnd(f: Sender, due: set<int>, done: seq<int>, cur: Sender, out: seq<Datagram>)
    requires PassAt(f, due, f.ls, done, cur, out)
    ensures done == Outgoing(f, f.lws, due) && InRange(done, |cur.packets|) && cur == After(f, done) && out == Wire(cur, done)
  {
    assert done + [] == done;
  }

  class ReliableChannel {
    const id: uint8
    const ordered: bool

    var localSequence: int
    var remoteSequence: int
    var localWindowStart: int
    var remoteWindowStart: int
    var mustSendAcks: bool

    var ackSequence: int
    const acks: array<bits>
    const pending: array<PendingPacket>
    const received: array<Option<Packet>>
    const earlyReceived: array<bool>

    var outgoingQueue: seq<Packet>
    var isAddedToSendQueue: bool

    ghost var rcv: Receiver
    ghost var snd: Sender

    ghost predicate ReceiverTied()
      reads this, acks, received, earlyReceived
    {
      && ReceiverInv(rcv) && rcv.ordered == ordered && rcv.ackDue == mustSendAcks
      && remoteWindowStart == ackSequence == Wrap(rcv.w)
      && remoteSequence == Wrap(rcv.r)
      && Marks(acks[..], rcv, rcv.w)
      && BuffersTied()
    }

    // While packets are being numbered some have not been transmitted yet.
    ghost predicate SenderShaped()
      reads this, pending
    {
      && SenderShape(snd) && snd.id == id && snd.queue == outgoingQueue
      && localWindowStart == Wrap(snd.lws)
      && localSequence == Wrap(snd.ls)
      && Pending(pending[..], snd)
    }

    ghost predicate SenderTied()
      reads this, pending
    {
      SenderShaped() && SenderInv(snd)
    }

    /** A channel with queued packets or an acknowledgement to send always waits for its turn to send. */
    ghost predicate Valid()
      reads this, acks, pending, received, earlyReceived
    {
      && ReceiverTied() && SenderTied()
      && (outgoingQueue != [] || mustSendAcks ==> isAddedToSendQueue)
    }

    constructor (ordered: bool, id: uint8)
      ensures Valid() && fresh(acks) && fresh(pending) && fresh(received) && fresh(earlyReceived)
      ensures this.ordered == ordered && this.id == id && !isAddedToSendQueue
      ensures rcv == Initial(ordered) && snd == Silent(id)
    {
      this.ordered, this.id := ordered, id;
      localSequence, remoteSequence, localWindowStart, remoteWindowStart := 0, 0, 0, 0;
      mustSendAcks, ackSequence := false, 0;
      acks := new bits[ACK_PACKET_SIZE](_ => 0);
      pending := new PendingPacket[WINDOW_SIZE](_ => PendingPacket(None, false));
      received := new Option<Packet>[if ordered then WINDOW_SIZE else 0](_ => None);
      earlyReceived := new bool[if ordered then 0 else WINDOW_SIZE](_ => false);
      outgoingQueue, isAddedToSendQueue := [], false;
      rcv, snd := Initial(ordered), Silent(id);
    }

    method AddToQueue(p: Packet)
      requires Valid()
      modifies this`outgoingQueue, this`isAddedToSendQueue, this`snd
      ensures Valid() && isAddedToSendQueue
      ensures snd == old(snd).(queue := old(snd.queue) + [p])
    {
      outgoingQueue := outgoingQueue + [p];
      snd := snd.(queue := snd.queue + [p]);
      isAddedToSendQueue := true;
    }

    method ClearAckBit(ackIdx: int)
      requires acks.Length == ACK_PACKET_SIZE && 0 <= ackIdx < WINDOW_SIZE
      modifies acks
      ensures acks[..] == ClearBit(old(acks[..]), ackIdx)
    {
      var ackByte := CHANNELED_HEADER_SIZE + ackIdx / BITS_IN_BYTE;
      MaskIsShift(ackIdx % BITS_IN_BYTE);
      acks[ackByte] := acks[ackByte] & !(1 << (ackIdx % BITS_IN_BYTE));
    }

    /** Reads the bit of a slot and sets it. */
    method TestAndSetAckBit(ackIdx: int) returns (wasSet: bool)
      requires acks.Length == ACK_PACKET_SIZE && 0 <= ackIdx < WINDOW_SIZE
      modifies acks
      ensures wasSet == BitAt(old(acks[..]), ackIdx)
      ensures acks[..] == if wasSet then old(acks[..]) else SetBit(old(acks[..]), ackIdx)
    {
      var ackByte := CHANNELED_HEADER_SIZE + ackIdx / BITS_IN_BYTE;
      MaskIsShift(ackIdx % BITS_IN_BYTE);
      wasSet := acks[ackByte] & (1 << (ackIdx % BITS_IN_BYTE)) != 0;
      if !wasSet {
        acks[ackByte] := acks[ackByte] | (1 << (ackIdx % BITS_IN_BYTE));
      }
    }

    /** The slide loop: clears the bits of the numbers below `target`, which are those of the numbers that enter. */
    method ClearLeaving(newWindowStart: int, ghost target: int)
      requires remoteWindowStart == Wrap(rcv.w) && newWindowStart == Wrap(target)
      requires rcv.w <= target <= rcv.w + WINDOW_SIZE && Marks(acks[..], rcv, rcv.w)
      requires forall n :: Accepted(rcv, n) ==> n < rcv.w + WINDOW_SIZE
      modifies this`remoteWindowStart, acks
      ensures remoteWindowStart == newWindowStart && Marks(acks[..], rcv, target)
    {
      ghost var u := rcv.w;
      while remoteWindowStart != newWindowStart
        invariant rcv.w <= u <= target && remoteWindowStart == Wrap(u)
        invariant Marks(acks[..], rcv, u)
        decreases target - u
      {
        SlotOfNext(remoteWindowStart, u);
        SlideOne(acks[..], rcv, u);
        ClearAckBit(remoteWindowStart % WINDOW_SIZE);
        remoteWindowStart := (remoteWindowStart + 1) % MAX_SEQUENCE;
        u := u + 1;
      }
      RelativeOfWrapped(u, target);
      RelativeOfWrapped(target, target);
    }

    /** Moves the acknowledgement window so that the number `relate` past its start becomes its last. */
    method SlideWindow(relate: int)
      requires ReceiverTied() && WINDOW_SIZE <= relate && Admits(rcv, rcv.w + relate)
      modifies this`remoteWindowStart, this`ackSequence, this`rcv, acks
      ensures rcv == old(rcv).(w := Slide(old(rcv.w), old(rcv.w) + relate))
      ensures ReceiverTied()
    {
      ghost var target := rcv.w + relate - WINDOW_SIZE + 1;
      var newWindowStart := (remoteWindowStart + relate - WINDOW_SIZE + 1) % MAX_SEQUENCE;
      ackSequence := newWindowStart;
      WrapSum(rcv.w, relate - WINDOW_SIZE + 1);
      SlideKeepsInv(rcv, rcv.w + relate);
      ClearLeaving(newWindowStart, target);
      rcv := rcv.(w := target);
      MarksDependOnAccepted(acks[..], old(rcv), rcv, target);
    }

    // The hold buffer is right from the expected number on, and so is what its slot says.
    ghost predicate HoldsFrom()
      reads this, received
    {
      && received.Length == WINDOW_SIZE && remoteSequence == Wrap(rcv.r)
      && Holds(received[..], rcv.early, rcv.r)
      && 0 <= remoteSequence % WINDOW_SIZE < WINDOW_SIZE
      && (received[remoteSequence % WINDOW_SIZE] != None <==> rcv.r in rcv.early)
    }

    /** One turn of the drain loop: takes the packet held for the expected number out of its slot. */
    method TakeHeld() returns (p: Packet)
      requires HoldsFrom() && rcv.ordered && rcv.r in rcv.early
      requires forall n :: n in rcv.early ==> n < rcv.r + WINDOW_SIZE
      modifies this`remoteSequence, this`rcv, received
      ensures p == old(rcv).early[old(rcv.r)] && HoldsFrom()
      ensures var s := old(rcv); rcv == s.(early := s.early - {s.r}, log := s.log + [Delivery(s.r, p)], r := s.r + 1)
    {
      SlotOfNext(remoteSequence, rcv.r);
      var idx := remoteSequence % WINDOW_SIZE;
      assert received[..][idx] == Some(rcv.early[rcv.r]);
      p := received[idx].value;
      HeldRemoved(received[..], rcv.early, rcv.r);
      ghost var removed := received[..][idx := None];
      received[idx] := None;
      assert received[..] == removed;
      remoteSequence := (remoteSequence + 1) % MAX_SEQUENCE;
      rcv := rcv.(early := rcv.early - {rcv.r}, log := rcv.log + [Delivery(rcv.r, p)], r := rcv.r + 1);
      HeldAt(received[..], rcv.early, rcv.r);
    }

    /** The drain loop of the ordered mode: hands on the held run that starts at the expected number. */
    method DrainHeld() returns (delivered: seq<Packet>)
      requires ordered && rcv.ordered && received.Length == WINDOW_SIZE && remoteSequence == Wrap(rcv.r)
      requires Holds(received[..], rcv.early, rcv.r)
      requires forall n :: n in rcv.early ==> rcv.r <= n < rcv.r + WINDOW_SIZE - 1
      modifies this`remoteSequence, this`rcv, received
      ensures rcv == Drain(old(rcv)) && remoteSequence == Wrap(rcv.r)
      ensures Payloads(rcv.log) == Payloads(old(rcv.log)) + delivered
      ensures Holds(received[..], rcv.early, rcv.r + 1)
    {
      delivered := [];
      ghost var end := rcv.r + WINDOW_SIZE - 1;
      SlotOfNext(remoteSequence, rcv.r);
      HeldAt(received[..], rcv.early, rcv.r);
      while received[remoteSequence % WINDOW_SIZE] != None
        invariant rcv.ordered && HoldsFrom()
        invariant end <= rcv.r + WINDOW_SIZE - 1 && forall n :: n in rcv.early ==> n < end
        invariant Drain(rcv) == Drain(old(rcv))
        invariant Payloads(rcv.log) == Payloads(old(rcv.log)) + delivered
        decreases |rcv.early|
      {
        ghost var before := rcv;
        var p := TakeHeld();
        delivered := delivered + [p];
        PayloadsConcat(before.log, [Delivery(before.r, p)]);
      }
      HeldShift(received[..], rcv.early, rcv.r);
    }

    /** One turn of the loop below: clears the flag of the expected number. */
    method DropFlag()
      requires earlyReceived.Length == WINDOW_SIZE && remoteSequence == Wrap(rcv.r) && Flags(earlyReceived[..], rcv.early, rcv.r)
      requires 0 <= remoteSequence % WINDOW_SIZE == rcv.r % WINDOW_SIZE < WINDOW_SIZE
      requires earlyReceived[remoteSequence % WINDOW_SIZE] && forall n :: n in rcv.early ==> n < rcv.r + WINDOW_SIZE
      modifies this`remoteSequence, this`rcv, earlyReceived
      ensures rcv == old(rcv).(early := old(rcv.early) - {old(rcv.r)}, r := old(rcv.r) + 1) && old(rcv.r) in old(rcv.early)
      ensures remoteSequence == Wrap(rcv.r) && Flags(earlyReceived[..], rcv.early, rcv.r)
      ensures 0 <= remoteSequence % WINDOW_SIZE == rcv.r % WINDOW_SIZE < WINDOW_SIZE
    {
      var idx := remoteSequence % WINDOW_SIZE;
      assert earlyReceived[..][idx];
      FlagRemoved(earlyReceived[..], rcv.early, rcv.r);
      ghost var removed := earlyReceived[..][idx := false];
      earlyReceived[idx] := false;
      assert earlyReceived[..] == removed;
      WrapSuccessor(rcv.r);
      remoteSequence := (remoteSequence + 1) % MAX_SEQUENCE;
      rcv := rcv.(early := rcv.early - {rcv.r}, r := rcv.r + 1);
      SlotOfNext(remoteSequence, rcv.r);
    }

    /** The drain loop of the unordered mode: the early packets were handed on when they came. */
    method DrainEarly()
      requires !ordered && !rcv.ordered && earlyReceived.Length == WINDOW_SIZE && remoteSequence == Wrap(rcv.r)
      requires Flags(earlyReceived[..], rcv.early, rcv.r)
      requires forall n :: n in rcv.early ==> rcv.r <= n < rcv.r + WINDOW_SIZE - 1
      modifies this`remoteSequence, this`rcv, earlyReceived
      ensures rcv == Drain(old(rcv)) && remoteSequence == Wrap(rcv.r)
      ensures rcv.log == old(rcv.log)
      ensures Flags(earlyReceived[..], rcv.early, rcv.r + 1)
    {
      ghost var end := rcv.r + WINDOW_SIZE - 1;
      SlotOfNext(remoteSequence, rcv.r);
      while earlyReceived[remoteSequence % WINDOW_SIZE]
        invariant !rcv.ordered && remoteSequence == Wrap(rcv.r) && rcv.log == old(rcv.log)
        invariant 0 <= remoteSequence % WINDOW_SIZE == rcv.r % WINDOW_SIZE < WINDOW_SIZE
        invariant Flags(earlyReceived[..], rcv.early, rcv.r)
        invariant end <= rcv.r + WINDOW_SIZE - 1 && forall n :: n in rcv.early ==> n < end
        invariant Drain(rcv) == Drain(old(rcv))
        decreases |rcv.early|
      {
        DropFlag();
      }
      assert !earlyReceived[..][rcv.r % WINDOW_SIZE];
      FlagShift(earlyReceived[..], rcv.early, rcv.r);
    }

    // The packet is the one expected: it is handed on, and what is held behind it.
    method TakeExpected(packet: Packet, ghost n: int) returns (delivered: seq<Packet>)
      requires ReceiverTied0(n) && n == rcv.r
      modifies this`remoteSequence, this`rcv, received, earlyReceived
      ensures rcv == Accept(old(rcv), n, packet) && remoteSequence == Wrap(rcv.r)
      ensures BuffersTied()
      ensures Payloads(rcv.log) == Payloads(old(rcv.log)) + delivered
    {
      ghost var one := [Delivery(n, packet)];
      PayloadsConcat(rcv.log, one);
      SlotOfNext(remoteSequence, n);
      remoteSequence := (remoteSequence + 1) % MAX_SEQUENCE;
      rcv := rcv.(log := rcv.log + one, r := n + 1);
      if ordered {
        var run := DrainHeld();
        delivered := [packet] + run;
      } else {
        DrainEarly();
        delivered := [packet];
      }
    }

    // The packet is early: the ordered mode holds it, the other hands it on and notes that it did.
    method TakeAhead(ackIdx: int, packet: Packet, ghost n: int) returns (delivered: seq<Packet>)
      requires ReceiverTied0(n) && n != rcv.r && 0 <= ackIdx == n % WINDOW_SIZE < WINDOW_SIZE
      modifies this`rcv, received, earlyReceived
      ensures rcv == Accept(old(rcv), n, packet) && remoteSequence == Wrap(rcv.r)
      ensures BuffersTied()
      ensures Payloads(rcv.log) == Payloads(old(rcv.log)) + delivered
    {
      ghost var one := [Delivery(n, packet)];
      PayloadsConcat(rcv.log, one);
      delivered := [];
      if ordered {
        HeldAdded(received[..], rcv.early, rcv.r + 1, n, packet);
        ghost var slots := received[..][ackIdx := Some(packet)];
        received[ackIdx] := Some(packet);
        assert received[..] == slots;
        rcv := rcv.(early := rcv.early[n := packet]);
      } else {
        FlagAdded(earlyReceived[..], rcv.early, rcv.r + 1, n, packet);
        ghost var slots := earlyReceived[..][ackIdx := true];
        earlyReceived[ackIdx] := true;
        assert earlyReceived[..] == slots;
        rcv := rcv.(early := rcv.early[n := packet], log := rcv.log + one);
        delivered := [packet];
      }
    }

    /** Stores or hands on a packet whose bit has just been set. */
    method TakeNew(sequence: uint16, packet: Packet, ghost n: int) returns (delivered: seq<Packet>)
      requires ReceiverTied0(n) && Wrap(n) == sequence
      modifies this`remoteSequence, this`rcv, received, earlyReceived
      ensures rcv == Accept(old(rcv), n, packet) && remoteSequence == Wrap(rcv.r)
      ensures BuffersTied()
      ensures Payloads(rcv.log) == Payloads(old(rcv.log)) + delivered
    {
      SlotOfNext(sequence, n);
      SameWrapped(n, rcv.r);
      if sequence == remoteSequence {
        delivered := TakeExpected(packet, n);
      } else {
        delivered := TakeAhead(sequence % WINDOW_SIZE, packet, n);
      }
    }

    ghost predicate BuffersTied()
      reads this, received, earlyReceived
    {
      && received.Length == (if ordered then WINDOW_SIZE else 0)
      && earlyReceived.Length == (if ordered then 0 else WINDOW_SIZE)
      && (ordered ==> Holds(received[..], rcv.early, rcv.r + 1))
      && (!ordered ==> Flags(earlyReceived[..], rcv.early, rcv.r + 1))
    }

    // The receiving side when `n` is admitted, new, and the window has been slid.
    ghost predicate ReceiverTied0(n: int)
      reads this, received, earlyReceived
    {
      && ReceiverInv(rcv) && rcv.ordered == ordered && BuffersTied()
      && remoteSequence == Wrap(rcv.r)
      && rcv.w <= n < rcv.w + WINDOW_SIZE && n <= rcv.r + WINDOW_SIZE && !Accepted(rcv, n)
    }

    method MakeRoom(relate: int, ghost n: int)
      requires ReceiverTied() && Admits(rcv, n) && relate == n - rcv.w
      modifies this`remoteWindowStart, this`ackSequence, this`rcv, acks
      ensures ReceiverTied() && ReceiverInv(rcv.(ackDue := true)) && rcv == old(rcv).(w := Slide(old(rcv.w), n))
    {
      SlideKeepsInv(rcv, n);
      if relate >= WINDOW_SIZE {
        SlideWindow(relate);
      }
    }

    /** Slides the window if needed, notes that an answer is owed, and tests and sets the packet's bit. */
    method MarkArrival(sequence: uint16, relate: int, ghost n: int, ghost after: Receiver) returns (isNew: bool)
      requires after.w == Slide(rcv.w, n) && forall m :: Accepted(after, m) <==> Accepted(rcv, m) || m == n
      requires ReceiverTied() && Admits(rcv, n) && Wrap(n) == sequence && relate == n - rcv.w
      modifies this`remoteWindowStart, this`ackSequence, this`mustSendAcks, this`rcv, acks
      ensures rcv == old(rcv).(w := Slide(old(rcv.w), n), ackDue := true) && mustSendAcks
      ensures isNew == !Accepted(rcv, n)
      ensures !isNew ==> ReceiverTied()
      ensures isNew ==> ReceiverTied0(n) && remoteWindowStart == ackSequence == Wrap(rcv.w)
      ensures isNew ==> Marks(acks[..], after, after.w)
    {
      MakeRoom(relate, n);
      mustSendAcks := true;
      ghost var slid := rcv.(ackDue := true);
      MarksDependOnAccepted(acks[..], rcv, slid, rcv.w);
      rcv := slid;
      SlotOfNext(sequence, n);
      ghost var bits := acks[..];
      var wasSet := TestAndSetAckBit(sequence % WINDOW_SIZE);
      isNew := !wasSet;
      if isNew {
        MarkOne(bits, rcv, after, n);
      }
    }

    method Admit(sequence: uint16, packet: Packet, relate: int, ghost n: int) returns (taken: bool, delivered: seq<Packet>)
      requires ReceiverTied() && Admits(rcv, n) && Wrap(n) == sequence && relate == n - rcv.w
      modifies this`remoteWindowStart, this`ackSequence, this`mustSendAcks, this`rcv, this`remoteSequence
      modifies acks, received, earlyReceived
      ensures ReceiverTied()
      ensures rcv == Receive(old(rcv), n, packet)
      ensures Payloads(rcv.log) == Payloads(old(rcv.log)) + delivered
      ensures taken == !Accepted(old(rcv), n)
    {
      delivered := [];
      ReceiveKeepsInv(rcv, n, packet);
      ReceiveExact(rcv, n, packet);
      ReceiveKeepsKind(rcv, n, packet);
      taken := MarkArrival(sequence, relate, n, Receive(rcv, n, packet));
      if taken {
        delivered := TakeNew(sequence, packet, n);
      }
    }

    method ProcessChanneled(sequence: uint16, packet: Packet) returns (taken: bool, delivered: seq<Packet>)
      requires Valid()
      modifies this, acks, received, earlyReceived
      ensures Valid() && snd == old(snd)
      ensures sequence >= MAX_SEQUENCE ==>
                rcv == old(rcv) && !taken && delivered == [] && isAddedToSendQueue == old(isAddedToSendQueue)
      ensures sequence < MAX_SEQUENCE ==>
                var n := Unwrap(sequence, old(rcv.r));
                && rcv == Receive(old(rcv), n, packet)
                && Payloads(rcv.log) == Payloads(old(rcv.log)) + delivered
                && taken == (Admits(old(rcv), n) && !Accepted(old(rcv), n))
                && isAddedToSendQueue == (old(isAddedToSendQueue) || Admits(old(rcv), n))
    {
      taken, delivered := false, [];
      if sequence >= MAX_SEQUENCE { return; }
      var relate := Relative(sequence, remoteWindowStart);
      var relateSeq := Relative(sequence, remoteSequence);
      ghost var n := Unwrap(sequence, rcv.r);
      GuardsAgree(rcv, sequence);
      if relateSeq > WINDOW_SIZE { return; }
      if relate < 0 { return; }
      if relate >= WINDOW_SIZE * 2 { return; }
      taken, delivered := Admit(sequence, packet, relate, n);
      isAddedToSendQueue := true;
    }

    /** Frees one acknowledged slot, and moves the window start if it was the first. */
    method ClearPending(pendingSeq: int, ghost n: int)
      requires SenderTied() && snd.lws <= n < snd.ls && pendingSeq == Wrap(n)
      modifies this`localWindowStart, this`snd, pending
      ensures SenderTied() && snd == Clear(old(snd), n)
    {
      SlotOfNext(pendingSeq, n);
      SameWrapped(n, snd.lws);
      var idx := pendingSeq % WINDOW_SIZE;
      if pendingSeq == localWindowStart {
        localWindowStart := (localWindowStart + 1) % MAX_SEQUENCE;
      }
      PendingCleared(pending[..], snd, n);
      ghost var slots := pending[..][idx := pending[idx].(packet := None)];
      pending[idx] := pending[idx].(packet := None);
      assert pending[..] == slots;
      snd := Clear(snd, n);
    }

    /** The acknowledgement loop. It reads the window start as it was, and moves it as it goes. */
    method ClearAcknowledged(ackWindowStart: int, data: seq<bits>, ghost start: int)
      requires SenderTied() && |data| == ACK_PACKET_SIZE && Wrap(start) == ackWindowStart
      requires 0 <= snd.lws - start < WINDOW_SIZE
      modifies this`localWindowStart, this`snd, pending
      ensures SenderTied()
      ensures snd == AckFrom(old(snd), old(snd.lws), start, Reported(data, start))
    {
      var pendingSeq := localWindowStart;
      ghost var n := snd.lws;
      ghost var acked := Reported(data, start);
      while pendingSeq != localSequence
        invariant SenderTied() && snd.ls == old(snd.ls)
        invariant pendingSeq == Wrap(n) && snd.lws <= n <= snd.ls <= old(snd.lws) + WINDOW_SIZE
        invariant AckFrom(snd, n, start, acked) == AckFrom(old(snd), old(snd.lws), start, acked)
        invariant old(snd.lws) <= n
        decreases snd.ls - n
      {
        StillPending(n, snd.ls, start);
        var rel := Relative(pendingSeq, ackWindowStart);
        if rel >= WINDOW_SIZE {
          break;
        }
        SlotOfNext(pendingSeq, n);
        var pendingIdx := pendingSeq % WINDOW_SIZE;
        if BitAt(data, pendingIdx) {
          ClearPending(pendingSeq, n);
        }
        pendingSeq := (pendingSeq + 1) % MAX_SEQUENCE;
        n := n + 1;
      }
      StillPending(n, snd.ls, start);
    }

    method ProcessAck(sequence: uint16, data: seq<bits>)
      requires Valid()
      modifies this`localWindowStart, this`snd, pending
      ensures Valid()
      ensures snd == if |data| == ACK_PACKET_SIZE && sequence < MAX_SEQUENCE then
                       var start := Unwrap(sequence, old(snd.lws));
                       ReliableSpec.ProcessAck(old(snd), start, Reported(data, start))
                     else old(snd)
    {
      if |data| != ACK_PACKET_SIZE {
        return;
      }
      var windowRel := Relative(localWindowStart, sequence);
      if sequence >= MAX_SEQUENCE || windowRel < 0 {
        if sequence < MAX_SEQUENCE { AckGuardAgrees(snd.lws, sequence); }
        return;
      }
      AckGuardAgrees(snd.lws, sequence);
      if windowRel >= WINDOW_SIZE {
        return;
      }
      ClearAcknowledged(sequence, data, Unwrap(sequence, snd.lws));
    }

    /** Both ends of process_packet: an acknowledgement goes to the sender half, a numbered packet to the receiver.
        `delivered` is what is handed to the peer, in order; `taken` says whether the channel kept the packet. */
    method ProcessPacket(d: Datagram) returns (taken: bool, delivered: seq<Packet>)
      requires Valid()
      modifies this, acks, pending, received, earlyReceived
      ensures Valid()
      ensures Payloads(rcv.log) == Payloads(old(rcv.log)) + delivered
      ensures rcv == match d
                     case Ack(_, _, _) => old(rcv)
                     case Channeled(sequence, p) =>
                       if sequence < MAX_SEQUENCE then Receive(old(rcv), Unwrap(sequence, old(rcv.r)), p) else old(rcv)
      ensures snd == match d
                     case Channeled(_, _) => old(snd)
                     case Ack(sequence, _, data) =>
                       if |data| == ACK_PACKET_SIZE && sequence < MAX_SEQUENCE then
                         var start := Unwrap(sequence, old(snd.lws));
                         ReliableSpec.ProcessAck(old(snd), start, Reported(data, start))
                       else old(snd)
      ensures taken ==> d.Channeled? && d.sequence < MAX_SEQUENCE && !Accepted(old(rcv), Unwrap(d.sequence, old(rcv.r)))
      ensures isAddedToSendQueue ==
                (old(isAddedToSendQueue)
                 || (d.Channeled? && d.sequence < MAX_SEQUENCE && Admits(old(rcv), Unwrap(d.sequence, old(rcv.r)))))
    {
      match d
      case Ack(sequence, _, data) =>
        ProcessAck(sequence, data);
        taken, delivered := false, [];
      case Channeled(sequence, p) =>
        taken, delivered := ProcessChanneled(sequence, p);
    }

    /** Numbers queued packets while the window has room. */
    method FillWindow()
      requires SenderTied()
      modifies this`outgoingQueue, this`localSequence, this`snd, pending
      ensures SenderShaped() && snd == Fill(old(snd))
    {
      while outgoingQueue != []
        invariant SenderShaped() && Fill(snd) == Fill(old(snd))
        decreases |outgoingQueue|
      {
        RelativeOfWrapped(snd.ls, snd.lws);
        var relate := Relative(localSequence, localWindowStart);
        if relate >= WINDOW_SIZE {
          break;
        }
        var netPacket := Stamp(outgoingQueue[0], id);
        outgoingQueue := outgoingQueue[1..];
        SlotOfNext(localSequence, snd.ls);
        PendingAdded(pending[..], snd, netPacket, outgoingQueue);
        var idx := localSequence % WINDOW_SIZE;
        ghost var slots := pending[..][idx := PendingPacket(Some(netPacket), false)];
        pending[idx] := PendingPacket(Some(netPacket), false);
        assert pending[..] == slots;
        localSequence := (localSequence + 1) % MAX_SEQUENCE;
        snd := snd.(queue := outgoingQueue, packets := snd.packets + [netPacket], ls := snd.ls + 1);
      }
    }

    /** Sends the packet of one slot unless it is free, or was sent and its resend delay has not elapsed. */
    method TrySend(pendingSeq: int, due: set<int>, ghost n: int) returns (out: seq<Datagram>)
      requires SenderShaped() && snd.lws <= n < snd.ls && pendingSeq == Wrap(n)
      modifies this`snd, pending
      ensures SenderShaped()
      ensures out == if Sends(old(snd), n, due) then Wire(old(snd), [n]) else []
      ensures snd == if Sends(old(snd), n, due) then old(snd).(tried := old(snd.tried) + {n}) else old(snd)
    {
      SlotOfNext(pendingSeq, n);
      var idx := pendingSeq % WINDOW_SIZE;
      out := [];
      if pending[idx].packet.None? {
        return;
      }
      if pending[idx].isSent && idx !in due {
        return;
      }
      PendingSent(pending[..], snd, n);
      ghost var slots := pending[..][idx := pending[idx].(isSent := true)];
      pending[idx] := pending[idx].(isSent := true);
      assert pending[..] == slots;
      out := [Channeled(pendingSeq, pending[idx].packet.value)];
      snd := snd.(tried := snd.tried + {n});
    }

    // One turn of the loop below: `done` are the numbers sent so far, `sent` the datagrams that carry them.
    method SendPending(pendingSeq: int, due: set<int>, sent: seq<Datagram>, ghost f: Sender, ghost n: int, ghost done: seq<int>)
        returns (out: seq<Datagram>, ghost more: seq<int>)
      requires SenderShaped() && pendingSeq == Wrap(n) && 0 <= n < f.ls && PassAt(f, due, n, done, snd, sent)
      modifies this`snd, pending
      ensures SenderShaped() && PassAt(f, due, n + 1, more, snd, out)
    {
      PassStep(f, due, n, done, snd, sent);
      more := if Sends(snd, n, due) then done + [n] else done;
      var one := TrySend(pendingSeq, due, n);
      out := sent + one;
    }

    /** One pass over the pending slots. */
    method TransmitPending(due: set<int>) returns (out: seq<Datagram>)
      requires SenderShaped()
      modifies this`snd, pending
      ensures SenderShaped()
      ensures var ns := Outgoing(old(snd), old(snd.lws), due);
              && InRange(ns, |snd.packets|)
              && snd == After(old(snd), ns)
              && out == Wire(snd, ns)
    {
      ghost var f, n, done := snd, snd.lws, [];
      var pendingSeq := localWindowStart;
      out := [];
      PassStart(f, due);
      StillPending(n, f.ls, n);
      while pendingSeq != localSequence
        invariant SenderShaped() && pendingSeq == Wrap(n)
        invariant n <= f.ls <= n + WINDOW_SIZE && (pendingSeq != localSequence <==> n < f.ls)
        invariant PassAt(f, due, n, done, snd, out)
        decreases f.ls - n
      {
        out, done := SendPending(pendingSeq, due, out, f, n, done);
        WrapSuccessor(n);
        pendingSeq := (pendingSeq + 1) % MAX_SEQUENCE;
        n := n + 1;
        StillPending(n, f.ls, n);
      }
      PassEnd(f, due, done, snd, out);
    }

    method SendAckIfOwed() returns (out: seq<Datagram>)
      requires ReceiverTied()
      modifies this`mustSendAcks, this`rcv
      ensures ReceiverTied() && !mustSendAcks
      ensures rcv == old(rcv).(ackDue := false)
      ensures old(rcv.ackDue) ==> |out| == 1 && IsAckOf(out[0], rcv, id)
      ensures !old(rcv.ackDue) ==> out == []
    {
      out := [];
      ghost var s := rcv.(ackDue := false);
      AckDueIrrelevant(rcv);
      MarksDependOnAccepted(acks[..], rcv, s, s.w);
      if mustSendAcks {
        MarksReport(acks[..], s);
        out := [Ack(ackSequence, id, acks[..])];
        mustSendAcks := false;
        rcv := s;
      }
    }

    method SendPackets(due: set<int>) returns (sent: seq<Datagram>)
      requires SenderTied()
      modifies this`outgoingQueue, this`localSequence, this`snd, pending
      ensures SenderTied() && snd == Transmit(old(snd), due)
      ensures var ns := Transmitted(old(snd), due); InRange(ns, |snd.packets|) && sent == Wire(snd, ns)
    {
      TransmitKeepsInv(snd, due);
      TransmittedInRange(snd, due);
      FillWindow();
      sent := TransmitPending(due);
    }

    /** send_next_packets: the acknowledgement if one is owed, then everything the window and the resend delays
        allow. `due` are the slots whose resend delay has elapsed, `out` the datagrams sent, in order. */
    method SendNextPackets(due: set<int>) returns (again: bool, out: seq<Datagram>)
      requires ReceiverTied() && SenderTied()
      modifies this`mustSendAcks, this`rcv, this`outgoingQueue, this`localSequence, this`snd, pending
      ensures ReceiverTied() && SenderTied() && !mustSendAcks
      ensures rcv == old(rcv).(ackDue := false)
      ensures snd == Transmit(old(snd), due)
      ensures var ns := Transmitted(old(snd), due);
              && InRange(ns, |snd.packets|)
              && (old(rcv.ackDue) ==> out != [] && IsAckOf(out[0], rcv, id) && out[1..] == Wire(snd, ns))
              && (!old(rcv.ackDue) ==> out == Wire(snd, ns))
              && (again <==> ns != [] || outgoingQueue != [])
    {
      out := SendAckIfOwed();
      var sent := SendPackets(due);
      out := out + sent;
      again := sent != [] || mustSendAcks || outgoingQueue != [];
    }

    /** send_and_check_queue: the channel keeps its place in the peer's send queue only if there is more to send. */
    method SendAndCheckQueue(due: set<int>) returns (again: bool, out: seq<Datagram>)
      requires Valid()
      modifies this`mustSendAcks, this`rcv, this`outgoingQueue, this`localSequence, this`snd, this`isAddedToSendQueue, pending
      ensures Valid()
      ensures rcv == old(rcv).(ackDue := false)
      ensures snd == Transmit(old(snd), due)
      ensures var ns := Transmitted(old(snd), due);
              && InRange(ns, |snd.packets|)
              && (old(rcv.ackDue) ==> out != [] && IsAckOf(out[0], rcv, id) && out[1..] == Wire(snd, ns))
              && (!old(rcv.ackDue) ==> out == Wire(snd, ns))
              && (again <==> ns != [] || snd.queue != [])
      ensures isAddedToSendQueue == (again && old(isAddedToSendQueue))
    {
      again, out := SendNextPackets(due);
      if !again {
        isAddedToSendQueue := false;
      }
    }
  }
}
