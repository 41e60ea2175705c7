/** The first header byte of a packet, and the check every packet passes before it is processed. Bytes are numbers
    here; `BitFieldsAreDigits` shows that the digits taken are the bit fields the implementation masks out. */
module Header {
  import opened Sequence
  import opened Packets

  const MTU_CHECK := 9
  const MTU_OK := 10
  const MERGED := 12
  const COUNT := 18
  const CONNECTION_NUMBERS := 4

  // The header table lists 17 sizes for its 18 packet kinds (net_packet.h:20-38): the last entry is zero.
  const HEADER_SIZES: seq<int> := [1, 4, 4, 3, 11, 18, 15, 9, 1, 1, 1, 1, 1, 1, 1, 1, 1, 0]

  function Property(first: byte): int {
    first % 32
  }

  function ConnectionNumber(first: byte): int {
    first / 32 % CONNECTION_NUMBERS
  }

  function WithConnectionNumber(first: byte, number: int): byte
    requires 0 <= number < CONNECTION_NUMBERS
  {
    first - 32 * ConnectionNumber(first) + 32 * number
  }

  function WithProperty(first: byte, property: int): byte
    requires 0 <= property < 32
  {
    first - Property(first) + property
  }

  function Fragmented(first: byte): bool {
    first >= 128
  }

  /** The same fields as they are masked and shifted. */
  lemma BitFieldsAreDigits(first: bits, number: bits, property: bits)
    requires number < 4 && property < 32
    ensures first & 0x1F == first % 32
    ensures (first & 0x60) >> 5 == first / 32 % 4
    ensures (first & 0x9F) | (number << 5) == first - 32 * (first / 32 % 4) + 32 * number
    ensures (first & 0xE0) | property == first - first % 32 + property
    ensures first & 0x80 != 0 <==> first >= 128
  {}

  /** So what is read from the byte is its masked fields. */
  lemma FieldsAreMasked(first: bits)
    ensures Property(first as int) == (first & 0x1F) as int
    ensures ConnectionNumber(first as int) == ((first & 0x60) >> 5) as int
    ensures Fragmented(first as int) <==> first & 0x80 != 0
  {
    BitFieldsAreDigits(first, 0, 0);
    assert (first % 32) as int == first as int % 32;
    assert (first / 32 % 4) as int == first as int / 32 % 4;
  }

  lemma ConnectionNumberSet(first: byte, number: int)
    requires 0 <= number < CONNECTION_NUMBERS
    ensures var f := WithConnectionNumber(first, number);
            ConnectionNumber(f) == number && Property(f) == Property(first) && Fragmented(f) == Fragmented(first)
  {}

  lemma PropertySet(first: byte, property: int)
    requires 0 <= property < 32
    ensures var f := WithProperty(first, property);
            Property(f) == property && ConnectionNumber(f) == ConnectionNumber(first) && Fragmented(f) == Fragmented(first)
  {}

  predicate Verify(p: seq<byte>) {
    |p| > 0 && Property(p[0]) < COUNT &&
    |p| >= HEADER_SIZES[Property(p[0])] + (if Fragmented(p[0]) then 6 else 0)
  }

  // The bytes a header of the kind takes.
  function HeaderSize(kind: int): int {
    match kind
    case 1 => 4 case 2 => 4 case 3 => 3 case 4 => 11 case 5 => 18 case 6 => 15 case 7 => 9 case 17 => 0 case _ => 1
  }

  /** A packet passes the check exactly if it is of one of the 18 kinds and as long as a header of its kind, with six bytes more
      for a fragment. */
  lemma VerifyExactly(p: seq<byte>)
    requires |p| > 0
    ensures Verify(p) <==> p[0] % 32 < 18 && |p| >= HeaderSize(p[0] % 32) + if p[0] >= 128 then 6 else 0
  {
    if p[0] % 32 < COUNT { assert HEADER_SIZES[p[0] % 32] == HeaderSize(p[0] % 32); }
  }

  function LittleEndian16(n: int): seq<byte>
    requires 0 <= n < 0x1_0000
  {
    [n % 256, n / 256]
  }

  function FromLittleEndian16(lo: byte, hi: byte): int {
    lo + 256 * hi
  }
}
