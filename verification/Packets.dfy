/** Packets as the channels see them. The header bytes they are written to are in module Header. */
module Packets {
  import opened Sequence

  type uint8 = x: int | 0 <= x < 0x100
  type byte = uint8
  type bits = bv8 // a byte read as eight bits

  const CHANNELED_HEADER_SIZE := 4
  const CHANNEL_TYPE_COUNT := 4 // channel ids are user channel * 4 + delivery method

  /** The raw bytes of a socket address: IP address and port. */
  type Address = s: seq<byte> | |s| == ADDRESS_SIZE witness seq(ADDRESS_SIZE, _ => 0)
  const ADDRESS_SIZE := 16

  datatype Option<+T> = None | Some(value: T)

  datatype Fragment = Whole | Part(id: uint16, index: uint16, total: uint16)

  /** A channeled packet without its sequence number, which only the sending channel gives it. */
  datatype Packet = Packet(channel: uint8, fragment: Fragment, body: seq<byte>)

  /** What travels between two channels: a numbered packet, or an acknowledgement with its raw bytes. */
  datatype Datagram =
    | Channeled(sequence: uint16, packet: Packet)
    | Ack(sequence: uint16, channel: uint8, data: seq<bits>)
}
