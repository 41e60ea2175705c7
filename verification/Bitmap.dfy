/** The acknowledgement bitmap: 64 bits in eight bytes that follow the four header bytes of an ACK packet. */
module Bitmap {
  import opened Sequence
  import opened Packets

  const BITS_IN_BYTE := 8
  const ACK_PACKET_SIZE := CHANNELED_HEADER_SIZE + (WINDOW_SIZE - 1) / BITS_IN_BYTE + 2

  function Mask(bit: nat): bits
    requires bit < BITS_IN_BYTE
  {
    if bit == 0 then 1 else if bit == 1 then 2 else if bit == 2 then 4 else if bit == 3 then 8
    else if bit == 4 then 16 else if bit == 5 then 32 else if bit == 6 then 64 else 128
  }

  lemma MaskIsShift(bit: nat)
    requires bit < BITS_IN_BYTE
    ensures Mask(bit) == 1 << bit
  {}

  predicate Has(b: bits, bit: nat)
    requires bit < BITS_IN_BYTE
  {
    b & Mask(bit) != 0
  }

  function With(b: bits, bit: nat): bits
    requires bit < BITS_IN_BYTE
  {
    b | Mask(bit)
  }

  function Without(b: bits, bit: nat): bits
    requires bit < BITS_IN_BYTE
  {
    b & !Mask(bit)
  }

  lemma BitsOfByte(b: bits, i: nat, j: nat)
    requires i < BITS_IN_BYTE && j < BITS_IN_BYTE
    ensures Has(With(b, i), j) == (i == j || Has(b, j))
    ensures Has(Without(b, i), j) == (i != j && Has(b, j))
  {}

  function ByteOf(index: int): int
    requires 0 <= index < WINDOW_SIZE
  {
    CHANNELED_HEADER_SIZE + index / BITS_IN_BYTE
  }

  predicate BitAt(data: seq<bits>, index: int)
    requires |data| == ACK_PACKET_SIZE && 0 <= index < WINDOW_SIZE
  {
    Has(data[ByteOf(index)], index % BITS_IN_BYTE)
  }

  /** The bit of slot `i` is bit `i % 8` of byte `i / 8` behind the header, and the packet has one byte more than the bits take. */
  lemma BitAtExactly(data: seq<bits>, i: int)
    requires |data| == ACK_PACKET_SIZE && 0 <= i < 64
    ensures BitAt(data, i) <==> data[4 + i / 8] & (1 << (i % 8)) != 0
    ensures |data| == 4 + 64 / 8 + 1
  {
    MaskIsShift(i % 8);
  }

  function SetBit(data: seq<bits>, i: int): (r: seq<bits>)
    requires |data| == ACK_PACKET_SIZE && 0 <= i < WINDOW_SIZE
    ensures |r| == |data|
  {
    data[ByteOf(i) := With(data[ByteOf(i)], i % BITS_IN_BYTE)]
  }

  function ClearBit(data: seq<bits>, i: int): (r: seq<bits>)
    requires |data| == ACK_PACKET_SIZE && 0 <= i < WINDOW_SIZE
    ensures |r| == |data|
  {
    data[ByteOf(i) := Without(data[ByteOf(i)], i % BITS_IN_BYTE)]
  }

  lemma PositionIsUnique(i: int, j: int)
    requires 0 <= i < WINDOW_SIZE && 0 <= j < WINDOW_SIZE
    requires ByteOf(i) == ByteOf(j) && i % BITS_IN_BYTE == j % BITS_IN_BYTE
    ensures i == j
  {}

  // A bitmap with one byte replaced.
  lemma ByteReplaced(data: seq<bits>, at: int, b: bits, j: int)
    requires |data| == ACK_PACKET_SIZE && 0 <= at < |data| && 0 <= j < WINDOW_SIZE
    ensures BitAt(data[at := b], j) == if at == ByteOf(j) then Has(b, j % BITS_IN_BYTE) else BitAt(data, j)
  {}

  /** Setting or clearing one bit leaves the other 63 alone. */
  lemma BitSet(data: seq<bits>, i: int, j: int)
    requires |data| == ACK_PACKET_SIZE && 0 <= i < WINDOW_SIZE && 0 <= j < WINDOW_SIZE
    ensures BitAt(SetBit(data, i), j) == (i == j || BitAt(data, j))
  {
    ByteReplaced(data, ByteOf(i), With(data[ByteOf(i)], i % BITS_IN_BYTE), j);
    BitsOfByte(data[ByteOf(i)], i % BITS_IN_BYTE, j % BITS_IN_BYTE);
    if ByteOf(i) == ByteOf(j) && i % BITS_IN_BYTE == j % BITS_IN_BYTE { PositionIsUnique(i, j); }
  }

  lemma BitCleared(data: seq<bits>, i: int, j: int)
    requires |data| == ACK_PACKET_SIZE && 0 <= i < WINDOW_SIZE && 0 <= j < WINDOW_SIZE
    ensures BitAt(ClearBit(data, i), j) == (i != j && BitAt(data, j))
  {
    ByteReplaced(data, ByteOf(i), Without(data[ByteOf(i)], i % BITS_IN_BYTE), j);
    BitsOfByte(data[ByteOf(i)], i % BITS_IN_BYTE, j % BITS_IN_BYTE);
    if ByteOf(i) == ByteOf(j) && i % BITS_IN_BYTE == j % BITS_IN_BYTE { PositionIsUnique(i, j); }
  }

  /** The numbers an acknowledgement with window start `start` reports. */
  function Reported(data: seq<bits>, start: int): set<int>
    requires |data| == ACK_PACKET_SIZE
  {
    set n | start <= n < start + WINDOW_SIZE && BitAt(data, n % WINDOW_SIZE)
  }
}
