/** Packing small packets into one datagram and taking them out again. */
module Merge {
  import opened Sequence
  import opened Packets
  import opened Header

  type Bytes = seq<byte>

  const SIZE_THRESHOLD := 20
  const MAX_PACKET_SIZE := 1432
  const MERGE_BUFFER_SIZE := 2048

  // ---- What is packed together ------------------------------------------------------------------

  predicate Large(p: Bytes, mtu: int) {
    1 + |p| + 2 + SIZE_THRESHOLD >= mtu
  }

  function Frame(p: Bytes): Bytes
    requires |p| < 0x1_0000
  {
    LittleEndian16(|p|) + p
  }

  predicate Short(ps: seq<Bytes>) {
    forall i :: 0 <= i < |ps| ==> |ps[i]| < 0x1_0000
  }

  function Frames(ps: seq<Bytes>): Bytes
    requires Short(ps)
  {
    if ps == [] then [] else Frame(ps[0]) + Frames(ps[1..])
  }

  predicate Overflows(batch: seq<Bytes>, p: Bytes, mtu: int)
    requires Short(batch)
  {
    |Frames(batch)| + 1 + |p| + 2 > mtu
  }

  function Flush(batch: seq<Bytes>): seq<seq<Bytes>> {
    if batch == [] then [] else [batch]
  }

  /** How the packets `ps`, given one after another, are grouped into datagrams; `batch` waits in the merge buffer. */
  function Groups(batch: seq<Bytes>, ps: seq<Bytes>, mtu: int): seq<seq<Bytes>>
    requires Short(batch) && Short(ps)
    decreases |ps|
  {
    if ps == [] then Flush(batch)
    else if Large(ps[0], mtu) then [[ps[0]]] + Groups(batch, ps[1..], mtu)
    else if Overflows(batch, ps[0], mtu) then Flush(batch) + Groups([ps[0]], ps[1..], mtu)
    else Groups(batch + [ps[0]], ps[1..], mtu)
  }

  function Wire(g: seq<Bytes>): Bytes
    requires Short(g) && g != []
  {
    if |g| == 1 then g[0] else [MERGED] + Frames(g)
  }

  predicate AllShort(gs: seq<seq<Bytes>>) {
    forall i :: 0 <= i < |gs| ==> gs[i] != [] && Short(gs[i])
  }

  function WireAll(gs: seq<seq<Bytes>>): seq<Bytes>
    requires AllShort(gs)
  {
    seq(|gs|, i requires 0 <= i < |gs| => Wire(gs[i]))
  }

  function Flatten(gs: seq<seq<Bytes>>): seq<Bytes> {
    if gs == [] then [] else gs[0] + Flatten(gs[1..])
  }

  lemma {:induction false} FramesAppend(ps: seq<Bytes>, p: Bytes)
    requires Short(ps) && |p| < 0x1_0000
    ensures Short(ps + [p]) && Frames(ps + [p]) == Frames(ps) + Frame(p)
  {
    if ps == [] {
      assert Frames([p]) == Frame(p) + Frames([]);
    } else {
      FramesAppend(ps[1..], p);
      assert (ps + [p])[1..] == ps[1..] + [p];
    }
  }

  lemma FlattenCons(g: seq<Bytes>, gs: seq<seq<Bytes>>)
    ensures Flatten([g] + gs) == g + Flatten(gs)
  {
    assert ([g] + gs)[1..] == gs;
  }

  lemma FlattenFlush(batch: seq<Bytes>, gs: seq<seq<Bytes>>)
    ensures Flatten(Flush(batch) + gs) == batch + Flatten(gs)
  {
    if batch == [] {
      assert Flush(batch) + gs == gs;
    } else {
      FlattenCons(batch, gs);
    }
  }

  function Select(ps: seq<Bytes>, large: bool, mtu: int): seq<Bytes> {
    if ps == [] then [] else (if Large(ps[0], mtu) == large then [ps[0]] else []) + Select(ps[1..], large, mtu)
  }

  lemma {:induction false} SelectConcat(a: seq<Bytes>, b: seq<Bytes>, large: bool, mtu: int)
    ensures Select(a + b, large, mtu) == Select(a, large, mtu) + Select(b, large, mtu)
  {
    if a == [] {
      assert a + b == b;
    } else {
      SelectConcat(a[1..], b, large, mtu);
      SelectCons(a[0], a[1..], large, mtu);
      SelectCons(a[0], a[1..] + b, large, mtu);
      assert [a[0]] + a[1..] == a && [a[0]] + (a[1..] + b) == a + b;
    }
  }

  lemma SelectCons(p: Bytes, ps: seq<Bytes>, large: bool, mtu: int)
    ensures Select([p] + ps, large, mtu) == (if Large(p, mtu) == large then [p] else []) + Select(ps, large, mtu)
  {
    assert ([p] + ps)[1..] == ps;
  }

  predicate AllSmall(batch: seq<Bytes>, mtu: int) {
    forall i :: 0 <= i < |batch| ==> !Large(batch[i], mtu)
  }

  lemma {:induction false} SelectSmall(batch: seq<Bytes>, mtu: int)
    requires AllSmall(batch, mtu)
    ensures Select(batch, true, mtu) == [] && Select(batch, false, mtu) == batch
  {
    if batch != [] {
      SelectSmall(batch[1..], mtu);
    }
  }

  /** Nothing is lost, added or repeated. */
  lemma {:induction false} GroupsKeepPackets(batch: seq<Bytes>, ps: seq<Bytes>, mtu: int)
    requires Short(batch) && Short(ps)
    ensures multiset(Flatten(Groups(batch, ps, mtu))) == multiset(batch) + multiset(ps)
    decreases |ps|
  {
    if ps == [] {
      FlattenFlush(batch, []);
      assert Flush(batch) + [] == Flush(batch);
    } else {
      var p, rest := ps[0], ps[1..];
      assert ps == [p] + rest;
      if Large(p, mtu) {
        GroupsKeepPackets(batch, rest, mtu);
        FlattenCons([p], Groups(batch, rest, mtu));
      } else if Overflows(batch, p, mtu) {
        GroupsKeepPackets([p], rest, mtu);
        FlattenFlush(batch, Groups([p], rest, mtu));
      } else {
        GroupsKeepPackets(batch + [p], rest, mtu);
      }
    }
  }

  // A packet that is not merged goes ahead of those that wait.
  lemma LargeFirst(batch: seq<Bytes>, p: Bytes, rest: seq<Bytes>, all: seq<Bytes>, mtu: int, large: bool)
    requires Large(p, mtu) && AllSmall(batch, mtu)
    requires Select(all, large, mtu) == Select(batch, large, mtu) + Select(rest, large, mtu)
    ensures Select([p] + all, large, mtu) == Select(batch, large, mtu) + Select([p] + rest, large, mtu)
  {
    SelectSmall(batch, mtu);
    SelectCons(p, all, large, mtu);
    SelectCons(p, rest, large, mtu);
  }

  lemma FlushFirst(batch: seq<Bytes>, p: Bytes, rest: seq<Bytes>, all: seq<Bytes>, mtu: int, large: bool)
    requires Select(all, large, mtu) == Select([p], large, mtu) + Select(rest, large, mtu)
    ensures Select(batch + all, large, mtu) == Select(batch, large, mtu) + Select([p] + rest, large, mtu)
  {
    SelectConcat(batch, all, large, mtu);
    SelectConcat([p], rest, large, mtu);
  }

  lemma JoinFirst(batch: seq<Bytes>, p: Bytes, rest: seq<Bytes>, mtu: int, large: bool)
    ensures Select(batch + [p], large, mtu) + Select(rest, large, mtu)
            == Select(batch, large, mtu) + Select([p] + rest, large, mtu)
  {
    SelectConcat(batch, [p], large, mtu);
    SelectConcat([p], rest, large, mtu);
  }

  lemma FlattenGroups(batch: seq<Bytes>, p: Bytes, rest: seq<Bytes>, mtu: int)
    requires Short(batch) && Short([p] + rest) && Short(rest)
    ensures Short([p]) && Short(batch + [p])
    ensures Flatten(Groups(batch, [p] + rest, mtu)) ==
              if Large(p, mtu) then [p] + Flatten(Groups(batch, rest, mtu))
              else if Overflows(batch, p, mtu) then batch + Flatten(Groups([p], rest, mtu))
              else Flatten(Groups(batch + [p], rest, mtu))
  {
    assert ([p] + rest)[0] == p && ([p] + rest)[1..] == rest;
    FlattenCons([p], Groups(batch, rest, mtu));
    FlattenFlush(batch, Groups([p], rest, mtu));
  }

  /** The packets that go through the merge buffer stay in order, and so do those that do not. */
  lemma {:induction false} GroupsKeepOrder(batch: seq<Bytes>, ps: seq<Bytes>, mtu: int, large: bool)
    requires Short(batch) && Short(ps) && AllSmall(batch, mtu)
    ensures Select(Flatten(Groups(batch, ps, mtu)), large, mtu) == Select(batch, large, mtu) + Select(ps, large, mtu)
    decreases |ps|
  {
    if ps == [] {
      FlattenFlush(batch, []);
      assert Flush(batch) + [] == Flush(batch) && batch + Flatten([]) == batch;
      assert Select(batch, large, mtu) + [] == Select(batch, large, mtu);
    } else {
      var p, rest := ps[0], ps[1..];
      assert ps == [p] + rest;
      FlattenGroups(batch, p, rest, mtu);
      if Large(p, mtu) {
        GroupsKeepOrder(batch, rest, mtu, large);
        LargeFirst(batch, p, rest, Flatten(Groups(batch, rest, mtu)), mtu, large);
      } else if Overflows(batch, p, mtu) {
        GroupsKeepOrder([p], rest, mtu, large);
        FlushFirst(batch, p, rest, Flatten(Groups([p], rest, mtu)), mtu, large);
      } else {
        GroupsKeepOrder(batch + [p], rest, mtu, large);
        JoinFirst(batch, p, rest, mtu, large);
      }
    }
  }

  // ---- Sizes ------------------------------------------------------------------------------------

  ghost predicate FitsAll(batch: seq<Bytes>, mtu: int)
    requires Short(batch)
  {
    1 + |Frames(batch)| <= mtu
  }

  /** Every datagram fits the MTU. */
  lemma {:induction false} GroupsFit(batch: seq<Bytes>, ps: seq<Bytes>, mtu: int)
    requires Short(batch) && Short(ps) && FitsAll(batch, mtu) && forall i :: 0 <= i < |ps| ==> |ps[i]| <= mtu
    ensures var gs := Groups(batch, ps, mtu);
            AllShort(gs) && forall i :: 0 <= i < |gs| ==> |Wire(gs[i])| <= mtu
    decreases |ps|
  {
    WireFits(batch, mtu);
    if ps != [] {
      var p, rest := ps[0], ps[1..];
      FramesAppend(batch, p);
      FramesAppend([], p);
      assert [] + [p] == [p];
      if Large(p, mtu) {
        GroupsFit(batch, rest, mtu);
      } else if Overflows(batch, p, mtu) {
        GroupsFit([p], rest, mtu);
      } else {
        GroupsFit(batch + [p], rest, mtu);
      }
    }
  }

  lemma WireFits(batch: seq<Bytes>, mtu: int)
    requires Short(batch) && FitsAll(batch, mtu)
    ensures batch != [] ==> |Wire(batch)| <= mtu
  {
    if |batch| == 1 {
      assert Frames(batch) == Frame(batch[0]) + Frames([]);
    }
  }

  // ---- No datagram is closed early --------------------------------------------------------------

  // The datagrams of packets that went through the merge buffer.
  function Buffered(gs: seq<seq<Bytes>>, mtu: int): seq<seq<Bytes>> {
    if gs == [] then []
    else (if gs[0] != [] && !Large(gs[0][0], mtu) then [gs[0]] else []) + Buffered(gs[1..], mtu)
  }

  // The datagram before had no room for the packet that datagram `i` begins with.
  predicate NoRoomBefore(gs: seq<seq<Bytes>>, i: int, mtu: int)
    requires 1 <= i < |gs| && gs[i] != [] && Short(gs[i - 1])
  {
    1 + |Frames(gs[i - 1])| + 2 + |gs[i][0]| > mtu
  }

  ghost predicate Tight(gs: seq<seq<Bytes>>, mtu: int) {
    && (forall i :: 0 <= i < |gs| ==> gs[i] != [] && Short(gs[i]))
    && forall i :: 1 <= i < |gs| ==> NoRoomBefore(gs, i, mtu)
  }

  lemma BufferedCons(g: seq<Bytes>, gs: seq<seq<Bytes>>, mtu: int)
    ensures Buffered([g] + gs, mtu) == (if g != [] && !Large(g[0], mtu) then [g] else []) + Buffered(gs, mtu)
  {
    assert ([g] + gs)[1..] == gs;
  }

  lemma TightCons(g: seq<Bytes>, gs: seq<seq<Bytes>>, mtu: int)
    requires g != [] && Short(g) && Tight(gs, mtu)
    requires gs != [] ==> 1 + |Frames(g)| + 2 + |gs[0][0]| > mtu
    ensures Tight([g] + gs, mtu)
  {
    var all := [g] + gs;
    forall i | 1 <= i < |all|
      ensures NoRoomBefore(all, i, mtu)
    {
      if i > 1 { assert NoRoomBefore(gs, i - 1, mtu); }
    }
  }

  /** A datagram of the merge buffer goes out before the end of the update only because the next packet does not fit into it. */
  lemma {:induction false} GroupsTight(batch: seq<Bytes>, ps: seq<Bytes>, mtu: int)
    requires Short(batch) && Short(ps) && AllSmall(batch, mtu)
    ensures var gs := Buffered(Groups(batch, ps, mtu), mtu);
            Tight(gs, mtu) && (batch != [] ==> gs != [] && batch <= gs[0])
    decreases |ps|
  {
    if ps == [] {
      if batch != [] {
        assert Flush(batch) == [batch] + [];
        BufferedCons(batch, [], mtu);
      }
    } else {
      var p, rest := ps[0], ps[1..];
      if Large(p, mtu) {
        GroupsTight(batch, rest, mtu);
        BufferedCons([p], Groups(batch, rest, mtu), mtu);
        assert [] + Buffered(Groups(batch, rest, mtu), mtu) == Buffered(Groups(batch, rest, mtu), mtu);
      } else if Overflows(batch, p, mtu) {
        GroupsTight([p], rest, mtu);
        var later := Groups([p], rest, mtu);
        if batch != [] {
          BufferedCons(batch, later, mtu);
          TightCons(batch, Buffered(later, mtu), mtu);
        }
      } else {
        GroupsTight(batch + [p], rest, mtu);
      }
    }
  }

  /** Two packets share a datagram exactly if each is more than 23 bytes shorter than the MTU and both with their lengths and one
      header fit. */
  lemma TwoShareExactly(p: Bytes, q: Bytes, mtu: int)
    requires |p| < 0x1_0000 && |q| < 0x1_0000
    ensures Groups([], [p, q], mtu) == [[p, q]] <==> |p| + 23 < mtu && |q| + 23 < mtu && 5 + |p| + |q| <= mtu
  {
    var gs := Groups([], [p, q], mtu);
    assert [p, q][1..] == [q] && [q][1..] == [] && [] + [p] == [p] && [p] + [q] == [p, q];
    assert Frames([p]) == Frame(p) + Frames([]);
    if Large(p, mtu) {
      assert gs == [[p]] + Groups([], [q], mtu);
      assert gs[0] == [p];
    } else {
      assert gs == Groups([p], [q], mtu);
      if Large(q, mtu) {
        assert gs == [[q]] + Groups([p], [], mtu);
        assert gs[0] == [q];
      } else if Overflows([p], q, mtu) {
        assert gs == Flush([p]) + Groups([q], [], mtu);
        assert gs[0] == [p];
      } else {
        assert gs == Groups([p, q], [], mtu) == [[p, q]];
      }
    }
  }

  /** On the wire a packet in a merged datagram is its length, low byte first, and its bytes. */
  lemma FrameBytes(p: Bytes)
    requires |p| < 0x1_0000
    ensures var f := Frame(p); |f| == |p| + 2 && f[0] as int + 256 * f[1] as int == |p| && f[2..] == p
  {}

  // ---- Taking them out --------------------------------------------------------------------------

  /** The MERGED loop. `buffer` is the packet's whole buffer, of which only `size` bytes were received: the loop reads
      lengths up to `size` but checks them against the buffer. */
  function ParseFrom(buffer: Bytes, size: int, pos: int): seq<Bytes>
    requires 0 <= pos && size + 2 <= |buffer|
    decreases |buffer| - pos
  {
    if pos >= size then []
    else
      var n := FromLittleEndian16(buffer[pos], buffer[pos + 1]);
      if |buffer| - (pos + 2) < n then []
      else
        var p := buffer[pos + 2..pos + 2 + n];
        if !Verify(p) then [] else [p] + ParseFrom(buffer, size, pos + 2 + n)
  }

  /** Packets are taken out as long as there is a next length in the datagram, that many bytes in the buffer, whether received or
      not, and a sound packet in them. */
  lemma ParsesExactly(buffer: Bytes, size: int, pos: int)
    requires 0 <= pos && size + 2 <= |buffer|
    ensures var ps := ParseFrom(buffer, size, pos);
            if pos < size && pos + 2 + buffer[pos] as int + 256 * buffer[pos + 1] as int <= |buffer|
               && Verify(buffer[pos + 2..pos + 2 + buffer[pos] as int + 256 * buffer[pos + 1] as int]) then
              var end := pos + 2 + buffer[pos] as int + 256 * buffer[pos + 1] as int;
              ps != [] && ps[0] == buffer[pos + 2..end] && ps[1..] == ParseFrom(buffer, size, end)
            else ps == []
  {}

  /** The packets a datagram is taken apart into; `padding` is what lies behind it in the buffer. */
  function Unpack(d: Bytes, padding: Bytes): seq<Bytes>
    requires d != [] && |padding| >= 2
  {
    if Property(d[0]) == MERGED then ParseFrom(d + padding, |d|, 1) else [d]
  }

  predicate Mergeable(p: Bytes) {
    Verify(p) && Property(p[0]) != MERGED && |p| < 0x1_0000
  }

  predicate AllMergeable(ps: seq<Bytes>) {
    forall i :: 0 <= i < |ps| ==> Mergeable(ps[i])
  }

  lemma FrameAt(buffer: Bytes, pos: int, p: Bytes, rest: Bytes)
    requires |p| < 0x1_0000 && 0 <= pos <= pos + |Frame(p) + rest| <= |buffer|
    requires buffer[pos..pos + |Frame(p) + rest|] == Frame(p) + rest
    ensures FromLittleEndian16(buffer[pos], buffer[pos + 1]) == |p|
    ensures buffer[pos + 2..pos + 2 + |p|] == p
    ensures buffer[pos + 2 + |p|..pos + 2 + |p| + |rest|] == rest
  {
    var s := buffer[pos..pos + |Frame(p) + rest|];
    assert s[0] == LittleEndian16(|p|)[0] && s[1] == LittleEndian16(|p|)[1];
    assert s[2..2 + |p|] == p && s[2 + |p|..] == rest;
    assert forall k :: 0 <= k < |s| ==> s[k] == buffer[pos + k];
    assert buffer[pos + 2..pos + 2 + |p|] == s[2..2 + |p|];
    assert buffer[pos + 2 + |p|..pos + 2 + |p| + |rest|] == s[2 + |p|..];
  }

  lemma {:induction false} ParseFrames(buffer: Bytes, size: int, pos: int, ps: seq<Bytes>)
    requires AllMergeable(ps) && 0 <= pos && size == pos + |Frames(ps)| && size + 2 <= |buffer|
    requires buffer[pos..size] == Frames(ps)
    ensures ParseFrom(buffer, size, pos) == ps
    decreases |ps|
  {
    if ps != [] {
      FrameAt(buffer, pos, ps[0], Frames(ps[1..]));
      ParseFrames(buffer, size, pos + 2 + |ps[0]|, ps[1..]);
    }
  }

  /** Unpacking undoes packing, whatever lies behind the datagram in the receive buffer. */
  lemma UnpackWire(g: seq<Bytes>, padding: Bytes)
    requires AllMergeable(g) && g != [] && |padding| >= 2
    ensures Unpack(Wire(g), padding) == g
  {
    if |g| > 1 {
      UnpackMany(g, padding);
    } else {
      assert g == [g[0]] && Mergeable(g[0]);
    }
  }

  lemma UnpackMany(g: seq<Bytes>, padding: Bytes)
    requires AllMergeable(g) && |padding| >= 2
    ensures Unpack([MERGED] + Frames(g), padding) == g
  {
    var d := [MERGED] + Frames(g);
    assert (d + padding)[1..|d|] == Frames(g);
    ParseFrames(d + padding, |d|, 1, g);
  }

  // ---- What the receiving peer accepts ----------------------------------------------------------

  function Keep(ps: seq<Bytes>, number: int): seq<Bytes> {
    if ps == [] then []
    else (if ps[0] != [] && ConnectionNumber(ps[0][0]) == number then [ps[0]] else []) + Keep(ps[1..], number)
  }

  /** A datagram, and then each packet in it, is dropped unless it carries the peer's connection number. */
  function Receive(d: Bytes, padding: Bytes, number: int): seq<Bytes>
    requires d != [] && |padding| >= 2
  {
    if ConnectionNumber(d[0]) != number then [] else Keep(Unpack(d, padding), number)
  }

  predicate Carries(ps: seq<Bytes>, number: int) {
    forall i :: 0 <= i < |ps| ==> ps[i] != [] && ConnectionNumber(ps[i][0]) == number
  }

  lemma {:induction false} KeepAll(ps: seq<Bytes>, number: int)
    requires Carries(ps, number)
    ensures Keep(ps, number) == ps
  {
    if ps != [] { KeepAll(ps[1..], number); }
  }

  function ReceiveAll(gs: seq<seq<Bytes>>, paddings: seq<Bytes>, number: int): seq<Bytes>
    requires AllShort(gs) && |paddings| == |gs|
    requires forall i :: 0 <= i < |gs| ==> |paddings[i]| >= 2 && Wire(gs[i]) != []
  {
    if gs == [] then []
    else Receive(Wire(gs[0]), paddings[0], number) + ReceiveAll(gs[1..], paddings[1..], number)
  }

  ghost predicate GoodGroups(gs: seq<seq<Bytes>>, number: int) {
    forall i :: 0 <= i < |gs| ==> gs[i] != [] && AllMergeable(gs[i]) && Carries(gs[i], number)
  }

  ghost predicate NoneMerged(gs: seq<seq<Bytes>>) {
    forall i :: 0 <= i < |gs| ==> |gs[i]| == 1
  }

  lemma WireNotEmpty(g: seq<Bytes>)
    requires g != [] && AllMergeable(g)
    ensures Short(g) && Wire(g) != []
  {}

  lemma {:induction false} GroupsGood(batch: seq<Bytes>, ps: seq<Bytes>, mtu: int, number: int)
    requires AllMergeable(batch) && AllMergeable(ps) && Carries(batch, number) && Carries(ps, number)
    ensures GoodGroups(Groups(batch, ps, mtu), number)
    decreases |ps|
  {
    if ps != [] {
      var p, rest := ps[0], ps[1..];
      GroupsGood(batch, rest, mtu, number);
      GroupsGood([p], rest, mtu, number);
      GroupsGood(batch + [p], rest, mtu, number);
    }
  }

  lemma ReceiveOne(g: seq<Bytes>, padding: Bytes, number: int)
    requires g != [] && AllMergeable(g) && Carries(g, number) && |padding| >= 2 && Wire(g) != []
    ensures Receive(Wire(g), padding, number) == if number == 0 || |g| == 1 then g else []
  {
    UnpackWire(g, padding);
    KeepAll(g, number);
    FirstOfWire(g);
  }

  lemma FirstOfWire(g: seq<Bytes>)
    requires g != [] && Short(g) && (|g| == 1 ==> g[0] != [])
    ensures Wire(g) != [] && Wire(g)[0] == if |g| == 1 then g[0][0] else MERGED
    ensures ConnectionNumber(MERGED) == 0
  {}

  /** With connection number 0 the receiver gets exactly the packets sent. With any other it gets them all exactly
      if no datagram was merged: the header of a merged datagram always carries 0. */
  lemma {:induction false} ReceivedExactly(gs: seq<seq<Bytes>>, paddings: seq<Bytes>, number: int)
    requires GoodGroups(gs, number) && AllShort(gs) && |paddings| == |gs|
    requires forall i :: 0 <= i < |gs| ==> |paddings[i]| >= 2 && Wire(gs[i]) != []
    ensures var got := ReceiveAll(gs, paddings, number);
            && (got == Flatten(gs) <==> number == 0 || NoneMerged(gs))
            && (number == 0 || NoneMerged(gs) <==> |got| == |Flatten(gs)|)
            && |got| <= |Flatten(gs)|
    decreases |gs|
  {
    if gs != [] {
      var g, rest := gs[0], gs[1..];
      assert forall i :: 0 <= i < |rest| ==> rest[i] == gs[i + 1] && paddings[1..][i] == paddings[i + 1];
      ReceivedExactly(rest, paddings[1..], number);
      ReceiveOne(g, paddings[0], number);
      assert NoneMerged(gs) <==> |g| == 1 && NoneMerged(rest);
    }
  }

  // ---- When datagrams are merged ----------------------------------------------------------------

  /** No two packets that follow each other in the merge buffer would fit into one datagram together. */
  predicate Sparse(small: seq<Bytes>, mtu: int) {
    forall i :: 0 <= i < |small| - 1 ==> |small[i]| + |small[i + 1]| + 5 > mtu
  }

  lemma SparseCons(p: Bytes, q: Bytes, rest: seq<Bytes>, mtu: int)
    ensures Sparse([p] + ([q] + rest), mtu) <==> |p| + |q| + 5 > mtu && Sparse([q] + rest, mtu)
  {
    var s, t := [p] + ([q] + rest), [q] + rest;
    assert forall i :: 0 <= i < |t| ==> t[i] == s[i + 1];
    if Sparse(s, mtu) {
      assert |s[0]| + |s[0 + 1]| + 5 > mtu;
      forall i | 0 <= i < |t| - 1
        ensures |t[i]| + |t[i + 1]| + 5 > mtu
      {
        var k := i + 1;
        assert |s[k]| + |s[k + 1]| + 5 > mtu;
      }
    }
    if |p| + |q| + 5 > mtu && Sparse(t, mtu) {
      forall i | 0 <= i < |s| - 1
        ensures |s[i]| + |s[i + 1]| + 5 > mtu
      {
        if i > 0 { assert s[i] == t[i - 1] && s[i + 1] == t[i]; }
      }
    }
  }

  lemma NoneMergedCons(g: seq<Bytes>, gs: seq<seq<Bytes>>)
    ensures NoneMerged([g] + gs) <==> |g| == 1 && NoneMerged(gs)
  {
    assert forall i :: 0 <= i < |gs| ==> gs[i] == ([g] + gs)[i + 1];
    assert ([g] + gs)[0] == g;
  }

  lemma {:induction false} TwoAreMerged(batch: seq<Bytes>, ps: seq<Bytes>, mtu: int)
    requires Short(batch) && Short(ps) && |batch| >= 2
    ensures !NoneMerged(Groups(batch, ps, mtu))
    decreases |ps|
  {
    if ps == [] {
      assert Flush(batch)[0] == batch;
    } else if Large(ps[0], mtu) {
      TwoAreMerged(batch, ps[1..], mtu);
      NoneMergedCons([ps[0]], Groups(batch, ps[1..], mtu));
    } else if Overflows(batch, ps[0], mtu) {
      NoneMergedCons(batch, Groups([ps[0]], ps[1..], mtu));
    } else {
      TwoAreMerged(batch + [ps[0]], ps[1..], mtu);
    }
  }

  // The same, with one packet waiting in the merge buffer.
  lemma {:induction false} NoneMergedAfter(b: Bytes, ps: seq<Bytes>, mtu: int)
    requires Short([b]) && Short(ps)
    ensures NoneMerged(Groups([b], ps, mtu)) <==> Sparse([b] + Select(ps, false, mtu), mtu)
    decreases |ps|
  {
    if ps == [] {
      NoneMergedCons([b], []);
      assert [[b]] + [] == [[b]];
    } else {
      var p, rest := ps[0], ps[1..];
      SelectCons(p, rest, false, mtu);
      assert ps == [p] + rest;
      if Large(p, mtu) {
        NoneMergedAfter(b, rest, mtu);
        NoneMergedCons([p], Groups([b], rest, mtu));
        assert [] + Select(rest, false, mtu) == Select(rest, false, mtu);
      } else {
        SparseCons(b, p, Select(rest, false, mtu), mtu);
        OverflowOfOne(b, p, mtu);
        if Overflows([b], p, mtu) {
          NoneMergedAfter(p, rest, mtu);
          NoneMergedCons([b], Groups([p], rest, mtu));
        } else {
          TwoAreMerged([b] + [p], rest, mtu);
        }
      }
    }
  }

  lemma OverflowOfOne(b: Bytes, p: Bytes, mtu: int)
    requires Short([b])
    ensures Overflows([b], p, mtu) <==> |b| + |p| + 5 > mtu
  {
    assert [b][0] == b && [b][1..] == [];
    assert Frames([b]) == Frame(b) + Frames([]);
  }

  /** No datagram of an update is merged if and only if no two packets that follow each other in the merge buffer fit
      together. */
  lemma {:induction false} NoneMergedExactly(ps: seq<Bytes>, mtu: int)
    requires Short(ps)
    ensures NoneMerged(Groups([], ps, mtu)) <==> Sparse(Select(ps, false, mtu), mtu)
    decreases |ps|
  {
    if ps != [] {
      var p, rest := ps[0], ps[1..];
      SelectCons(p, rest, false, mtu);
      assert ps == [p] + rest;
      if Large(p, mtu) {
        NoneMergedExactly(rest, mtu);
        NoneMergedCons([p], Groups([], rest, mtu));
        assert [] + Select(rest, false, mtu) == Select(rest, false, mtu);
      } else {
        NoneMergedAfter(p, rest, mtu);
        assert !Overflows([], p, mtu);
        assert [] + [p] == [p];
      }
    }
  }

  /** The whole exchange: the packets given to send_user_data in one update, then send_merged, then the receiver. */
  lemma MergeRoundTrip(ps: seq<Bytes>, mtu: int, number: int, paddings: seq<Bytes>)
    requires AllMergeable(ps) && Carries(ps, number) && 1 <= mtu && forall i :: 0 <= i < |ps| ==> |ps[i]| <= mtu
    requires |paddings| == |Groups([], ps, mtu)| && forall i :: 0 <= i < |paddings| ==> |paddings[i]| >= 2
    ensures var gs := Groups([], ps, mtu);
            && GoodGroups(gs, number) && AllShort(gs)
            && (forall i :: 0 <= i < |gs| ==> Wire(gs[i]) != [] && |Wire(gs[i])| <= mtu)
            && multiset(Flatten(gs)) == multiset(ps)
            && Select(Flatten(gs), false, mtu) == Select(ps, false, mtu)
            && Select(Flatten(gs), true, mtu) == Select(ps, true, mtu)
            && (ReceiveAll(gs, paddings, number) == Flatten(gs) <==> number == 0 || Sparse(Select(ps, false, mtu), mtu))
            && (multiset(ReceiveAll(gs, paddings, number)) == multiset(ps)
                <==> number == 0 || Sparse(Select(ps, false, mtu), mtu))
  {
    NoneMergedExactly(ps, mtu);
    var gs := Groups([], ps, mtu);
    GroupsGood([], ps, mtu, number);
    GroupsFit([], ps, mtu);
    forall i | 0 <= i < |gs|
      ensures Wire(gs[i]) != []
    {
      WireNotEmpty(gs[i]);
    }
    GroupsKeepPackets([], ps, mtu);
    GroupsKeepOrder([], ps, mtu, false);
    GroupsKeepOrder([], ps, mtu, true);
    ReceivedExactly(gs, paddings, number);
    assert |multiset(ReceiveAll(gs, paddings, number))| == |ReceiveAll(gs, paddings, number)|;
    assert |multiset(ps)| == |multiset(Flatten(gs))| == |Flatten(gs)|;
  }

  /** With a connection number other than 0 the exchange does lose packets: two small ones are enough. */
  lemma MergedPacketsLost(padding: Bytes)
    requires |padding| >= 2
    ensures var p: Bytes := [32, 7]; // an unreliable packet of connection number 1
            && Groups([], [p, p], 508) == [[p, p]]
            && AllMergeable([p, p]) && Carries([p, p], 1)
            && Receive(Wire([p, p]), padding, 1) == []
  {
    var p: Bytes := [32, 7];
    FramesAppend([], p);
    assert [] + [p] == [p];
    assert !Overflows([], p, 508) && !Overflows([p], p, 508);
    assert [p, p][1..] == [p] && [p][1..] == [];
    assert Groups([], [p, p], 508) == Groups([] + [p], [p], 508) == Groups([p] + [p], [], 508);
    assert [p] + [p] == [p, p];
    ReceiveOne([p, p], padding, 1);
  }

  // ---- The merge buffer -------------------------------------------------------------------------

  lemma WireAllConcat(a: seq<seq<Bytes>>, b: seq<seq<Bytes>>)
    requires AllShort(a) && AllShort(b)
    ensures AllShort(a + b) && WireAll(a + b) == WireAll(a) + WireAll(b)
  {}

  function StampNumber(p: Bytes, number: int): Bytes
    requires p != [] && 0 <= number < CONNECTION_NUMBERS
  {
    p[0 := WithConnectionNumber(p[0], number)]
  }

  function StampAll(ps: seq<Bytes>, number: int): (r: seq<Bytes>)
    requires 0 <= number < CONNECTION_NUMBERS && forall i :: 0 <= i < |ps| ==> 0 < |ps[i]| < 0x1_0000
    ensures |r| == |ps| && Short(r)
  {
    seq(|ps|, i requires 0 <= i < |ps| => StampNumber(ps[i], number))
  }

  // The datagrams that giving one more packet causes, and what then waits in the buffer.
  function Emitted(batch: seq<Bytes>, p: Bytes, mtu: int): seq<seq<Bytes>>
    requires Short(batch)
  {
    if Large(p, mtu) then [[p]] else if Overflows(batch, p, mtu) then Flush(batch) else []
  }

  function Waiting(batch: seq<Bytes>, p: Bytes, mtu: int): seq<Bytes>
    requires Short(batch)
  {
    if Large(p, mtu) then batch else if Overflows(batch, p, mtu) then [p] else batch + [p]
  }

  // `done` has been sent as `out` for the first `i` packets, and `batch` waits.
  ghost predicate UpdateAt(all: seq<Bytes>, i: int, mtu: int, batch: seq<Bytes>, done: seq<seq<Bytes>>, out: seq<Bytes>) {
    && 0 <= i <= |all| && Short(all) && Short(all[i..]) && Short(batch)
    && AllShort(done) && out == WireAll(done)
    && done + Groups(batch, all[i..], mtu) == Groups([], all, mtu)
  }

  lemma UpdateStep(all: seq<Bytes>, i: int, mtu: int, batch: seq<Bytes>, done: seq<seq<Bytes>>, out: seq<Bytes>)
    requires UpdateAt(all, i, mtu, batch, done, out) && i < |all|
    ensures var g := Emitted(batch, all[i], mtu);
            && AllShort(g)
            && UpdateAt(all, i + 1, mtu, Waiting(batch, all[i], mtu), done + g, out + WireAll(g))
  {
    var p, g, rest := all[i], Emitted(batch, all[i], mtu), Groups(Waiting(batch, all[i], mtu), all[i + 1..], mtu);
    assert all[i..][1..] == all[i + 1..];
    assert Groups(batch, all[i..], mtu) == g + rest;
    assert done + (g + rest) == (done + g) + rest;
    WireAllConcat(done, g);
  }

  lemma UpdateEnd(all: seq<Bytes>, mtu: int, batch: seq<Bytes>, done: seq<seq<Bytes>>, out: seq<Bytes>)
    requires UpdateAt(all, |all|, mtu, batch, done, out)
    ensures var gs := Groups([], all, mtu); AllShort(gs) && WireAll(gs) == out + WireAll(Flush(batch))
  {
    assert all[|all|..] == [];
    WireAllConcat(done, Flush(batch));
  }

  class MergeBuffer {
    const mtu: int
    const connectNumber: int
    const mergeData: array<byte>
    var mergePos: int
    var mergeCount: int

    ghost var batch: seq<Bytes>

    ghost predicate Valid()
      reads this, mergeData
    {
      && 1 <= mtu <= MAX_PACKET_SIZE && 0 <= connectNumber < CONNECTION_NUMBERS
      && mergeData.Length == MERGE_BUFFER_SIZE && mergeData[0] == MERGED
      && Short(batch) && mergeCount == |batch|
      && mergePos == |Frames(batch)| && 1 + mergePos <= mtu
      && mergeData[1..1 + mergePos] == Frames(batch)
    }

    constructor (mtu: int, connectNumber: int)
      requires 1 <= mtu <= MAX_PACKET_SIZE && 0 <= connectNumber < CONNECTION_NUMBERS
      ensures Valid() && fresh(mergeData) && batch == [] && this.mtu == mtu && this.connectNumber == connectNumber
    {
      this.mtu, this.connectNumber := mtu, connectNumber;
      mergeData := new byte[MERGE_BUFFER_SIZE](i => if i == 0 then MERGED else 0);
      mergePos, mergeCount, batch := 0, 0, [];
    }

    method SendMerged() returns (out: seq<Bytes>)
      requires Valid()
      modifies this`mergePos, this`mergeCount, this`batch
      ensures Valid() && batch == [] && out == WireAll(Flush(old(batch)))
    {
      if mergeCount == 0 {
        assert WireAll(Flush(batch)) == [];
        return [];
      }
      assert WireAll(Flush(batch)) == [Wire(batch)];
      if mergeCount > 1 {
        assert mergeData[0..1 + mergePos] == [MERGED] + mergeData[1..1 + mergePos];
        out := [mergeData[0..1 + mergePos]];
      } else {
        assert Frames(batch) == Frame(batch[0]) + Frames([]);
        assert mergeData[3..3 + mergePos - 2] == mergeData[1..1 + mergePos][2..] == batch[0];
        out := [mergeData[3..3 + mergePos - 2]];
      }
      mergePos, mergeCount, batch := 0, 0, [];
    }

    /** Writes a length-prefixed packet behind those already in the buffer. */
    method AppendFrame(p: Bytes)
      requires Valid() && |p| < 0x1_0000 && !Overflows(batch, p, mtu)
      modifies this`mergePos, this`mergeCount, this`batch, mergeData
      ensures Valid() && batch == old(batch) + [p]
    {
      FramesAppend(batch, p);
      ghost var before := mergeData[1..1 + mergePos];
      var at := mergePos + 1;
      mergeData[at] := |p| % 256;
      mergeData[at + 1] := |p| / 256;
      forall k | 0 <= k < |p| {
        mergeData[at + 2 + k] := p[k];
      }
      assert mergeData[1..at] == before;
      assert mergeData[at..at + 2] == LittleEndian16(|p|) && mergeData[at + 2..at + 2 + |p|] == p;
      assert mergeData[at..at + 2 + |p|] == mergeData[at..at + 2] + mergeData[at + 2..at + 2 + |p|] == Frame(p);
      assert mergeData[1..at + 2 + |p|] == mergeData[1..at] + mergeData[at..at + 2 + |p|];
      mergePos := mergePos + |p| + 2;
      mergeCount := mergeCount + 1;
      batch := batch + [p];
    }

    method SendUserData(packet: Bytes) returns (out: seq<Bytes>)
      requires Valid() && 0 < |packet| < 0x1_0000
      modifies this`mergePos, this`mergeCount, this`batch, mergeData
      ensures Valid()
      ensures var p := StampNumber(packet, connectNumber);
              out == WireAll(Emitted(old(batch), p, mtu)) && batch == Waiting(old(batch), p, mtu)
    {
      var p := StampNumber(packet, connectNumber);
      var mergedPacketSize := 1 + |p| + 2;
      out := [];
      if mergedPacketSize + SIZE_THRESHOLD >= mtu {
        return [p];
      }
      if mergePos + mergedPacketSize > mtu {
        out := SendMerged();
      }
      AppendFrame(p);
    }

    /** What one update does with the packets its channels have to send. */
    method SendUpdate(packets: seq<Bytes>) returns (out: seq<Bytes>)
      requires Valid() && batch == [] && forall i :: 0 <= i < |packets| ==> 0 < |packets[i]| < 0x1_0000
      modifies this`mergePos, this`mergeCount, this`batch, mergeData
      ensures Valid() && batch == []
      ensures var gs := Groups([], StampAll(packets, connectNumber), mtu);
              AllShort(gs) && out == WireAll(gs)
    {
      ghost var all := StampAll(packets, connectNumber);
      ghost var done: seq<seq<Bytes>> := [];
      out := [];
      assert all[0..] == all && done + Groups([], all, mtu) == Groups([], all, mtu);
      for i := 0 to |packets|
        invariant Valid() && UpdateAt(all, i, mtu, batch, done, out)
      {
        UpdateStep(all, i, mtu, batch, done, out);
        ghost var g := Emitted(batch, all[i], mtu);
        var one := SendUserData(packets[i]);
        done := done + g;
        out := out + one;
      }
      UpdateEnd(all, mtu, batch, done, out);
      var one := SendMerged();
      out := out + one;
    }
  }

  /** The MERGED loop of process_packet. */
  method UnpackMerged(buffer: Bytes, size: int) returns (packets: seq<Bytes>)
    requires 1 <= size && size + 2 <= |buffer|
    ensures packets == ParseFrom(buffer, size, 1)
  {
    packets := [];
    var pos := 1;
    while pos < size
      invariant 1 <= pos && packets + ParseFrom(buffer, size, pos) == ParseFrom(buffer, size, 1)
      decreases |buffer| - pos
    {
      var n := FromLittleEndian16(buffer[pos], buffer[pos + 1]);
      ghost var start := pos;
      pos := pos + 2;
      if |buffer| - pos < n {
        break;
      }
      var p := buffer[pos..pos + n];
      if !Verify(p) {
        break;
      }
      pos := pos + n;
      assert ParseFrom(buffer, size, start) == [p] + ParseFrom(buffer, size, pos);
      packets := packets + [p];
    }
  }
}
