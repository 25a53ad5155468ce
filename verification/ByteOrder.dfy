// Host integers as they lie in memory, and the byte swaps to and from network order.
module ByteOrder {
  import opened Prelude

  datatype Endian = Little | Big

  // ---- 16 bits ----

  function Number16(high: byte, low: byte): u16 {
    high * 0x100 + low
  }

  function Swap16(x: u16): u16 {
    x % 0x100 * 0x100 + x / 0x100
  }

  /** `u16::to_be` and `u16::from_be` on a host of the given order. */
  function Be16(host: Endian, x: u16): u16 {
    if host.Little? then Swap16(x) else x
  }

  /** The two bytes a host integer occupies. */
  function Store16(host: Endian, x: u16): seq<byte> {
    if host.Little? then [x % 0x100, x / 0x100] else [x / 0x100, x % 0x100]
  }

  function Load16(host: Endian, b: seq<byte>): u16
    requires |b| == 2
  {
    if host.Little? then Number16(b[1], b[0]) else Number16(b[0], b[1])
  }

  /** The network form of a 16-bit number: the high byte first, on every host. */
  function Net16(x: u16): seq<byte> {
    [x / 0x100, x % 0x100]
  }

  function FromNet16(b: seq<byte>): u16
    requires |b| == 2
  {
    Number16(b[0], b[1])
  }

  lemma NetworkOrder16(host: Endian, x: u16)
    ensures Store16(host, Be16(host, x)) == Net16(x)
    ensures Be16(host, Load16(host, Net16(x))) == x == FromNet16(Net16(x))
  {
  }

  lemma LoadNet16(host: Endian, b: seq<byte>)
    requires |b| == 2
    ensures Be16(host, Load16(host, b)) == FromNet16(b) && Net16(FromNet16(b)) == b
  {
  }

  /** A swapped segment is stored as its two octets in order. */
  lemma SegmentOctets(host: Endian, high: byte, low: byte)
    ensures Store16(host, Be16(host, Number16(high, low))) == [high, low]
  {
    NetworkOrder16(host, Number16(high, low));
    LoadNet16(host, [high, low]);
  }

  // ---- 32 bits ----

  function Number32(b0: byte, b1: byte, b2: byte, b3: byte): u32 {
    b0 * 0x100_0000 + b1 * 0x1_0000 + b2 * 0x100 + b3
  }

  /** Byte `i` of a 32-bit number, the most significant one first. */
  function Byte32(x: u32, i: nat): byte
    requires i < 4
  {
    if i == 0 then x / 0x100_0000
    else if i == 1 then x / 0x1_0000 % 0x100
    else if i == 2 then x / 0x100 % 0x100
    else x % 0x100
  }

  function Be32(host: Endian, x: u32): u32 {
    if host.Little? then Number32(Byte32(x, 3), Byte32(x, 2), Byte32(x, 1), Byte32(x, 0)) else x
  }

  function Store32(host: Endian, x: u32): seq<byte> {
    if host.Little? then [Byte32(x, 3), Byte32(x, 2), Byte32(x, 1), Byte32(x, 0)]
    else [Byte32(x, 0), Byte32(x, 1), Byte32(x, 2), Byte32(x, 3)]
  }

  function Load32(host: Endian, b: seq<byte>): u32
    requires |b| == 4
  {
    if host.Little? then Number32(b[3], b[2], b[1], b[0]) else Number32(b[0], b[1], b[2], b[3])
  }

  /** The 32-bit number whose most significant byte comes first. */
  function FromNet32(b: seq<byte>): u32
    requires |b| == 4
  {
    Number32(b[0], b[1], b[2], b[3])
  }

  lemma BytesOfNumber32(b0: byte, b1: byte, b2: byte, b3: byte)
    ensures var x := Number32(b0, b1, b2, b3);
            Byte32(x, 0) == b0 && Byte32(x, 1) == b1 && Byte32(x, 2) == b2 && Byte32(x, 3) == b3
  {
    var x := Number32(b0, b1, b2, b3);
    assert x / 0x1_0000 == b0 * 0x100 + b1;
    assert x / 0x100 == (b0 * 0x100 + b1) * 0x100 + b2;
  }

  /** Swapping on store and on load is the identity on the octets, on either host. */
  lemma NetworkOrder32(host: Endian, o: seq<byte>)
    requires |o| == 4
    ensures Store32(host, Be32(host, FromNet32(o))) == o
    ensures Be32(host, Load32(host, o)) == FromNet32(o)
  {
    BytesOfNumber32(o[0], o[1], o[2], o[3]);
    BytesOfNumber32(o[3], o[2], o[1], o[0]);
  }
}
