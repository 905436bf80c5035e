/**
 Octets, 16- and 32-bit integers, and how a host lays integers out in memory. The protocol
 itself is big-endian.
 */
module Bytes {
  type byte = x: int | 0 <= x < 0x100
  type uint16 = x: int | 0 <= x < 0x1_0000
  type uint32 = x: int | 0 <= x < 0x1_0000_0000

  datatype Host = BigEndian | LittleEndian

  /** The protocol's representation of an integer, most significant octet first. */
  function Be16(v: uint16): (s: seq<byte>)
    ensures |s| == 2
  {
    [v / 0x100, v % 0x100]
  }

  function Be32(v: uint32): (s: seq<byte>)
    ensures |s| == 4
  {
    [v / 0x100_0000, v / 0x1_0000 % 0x100, v / 0x100 % 0x100, v % 0x100]
  }

  function Of16(s: seq<byte>): uint16
    requires |s| == 2
  {
    s[0] as int * 0x100 + s[1] as int
  }

  function Of32(s: seq<byte>): uint32
    requires |s| == 4
  {
    s[0] as int * 0x100_0000 + s[1] as int * 0x1_0000 + s[2] as int * 0x100 + s[3] as int
  }

  /** The octets of an integer in the host's memory, and the integer the host reads from them. */
  function Stored16(h: Host, v: uint16): seq<byte> {
    var b := Be16(v);
    if h.BigEndian? then b else [b[1], b[0]]
  }

  function Stored32(h: Host, v: uint32): seq<byte> {
    var b := Be32(v);
    if h.BigEndian? then b else [b[3], b[2], b[1], b[0]]
  }

  function Loaded16(h: Host, s: seq<byte>): uint16
    requires |s| == 2
  {
    if h.BigEndian? then Of16(s) else Of16([s[1], s[0]])
  }

  function Loaded32(h: Host, s: seq<byte>): uint32
    requires |s| == 4
  {
    if h.BigEndian? then Of32(s) else Of32([s[3], s[2], s[1], s[0]])
  }

  /** BYTE_SWAP_16 and BYTE_SWAP_32. */
  function Swap16(v: uint16): uint16 {
    v / 0x100 + v % 0x100 * 0x100
  }

  function Swap32(v: uint32): uint32 {
    v / 0x100_0000 + v / 0x1_0000 % 0x100 * 0x100 + v / 0x100 % 0x100 * 0x1_0000 + v % 0x100 * 0x100_0000
  }

  /** The octets of an integer are its only base-256 digits. */
  lemma Digits16(s: seq<byte>)
    requires |s| == 2
    ensures Be16(Of16(s)) == s
  {
  }

  lemma Digits32(s: seq<byte>)
    requires |s| == 4
    ensures Be32(Of32(s)) == s
  {
    var high := s[0] as int * 0x100 + s[1] as int;
    var low := s[2] as int * 0x100 + s[3] as int;
    assert Of32(s) == high * 0x1_0000 + low;
    assert Of32(s) / 0x1_0000 == high && Of32(s) / 0x100 == high * 0x100 + s[2] as int;
  }

  lemma Value16(v: uint16)
    ensures Of16(Be16(v)) == v
  {
  }

  lemma Value32(v: uint32)
    ensures Of32(Be32(v)) == v
  {
    assert v / 0x1_0000 / 0x100 == v / 0x100_0000 && v / 0x100 / 0x100 == v / 0x1_0000;
  }

  /** Swapping on a little-endian host, and not swapping on a big-endian one, both write network order... */
  lemma SwappedStore16(v: uint16)
    ensures Stored16(LittleEndian, Swap16(v)) == Be16(v)
  {
    var b := Be16(v);
    Digits16([b[1], b[0]]);
  }

  lemma SwappedStore32(v: uint32)
    ensures Stored32(LittleEndian, Swap32(v)) == Be32(v)
  {
    var b := Be32(v);
    var r := [b[3], b[2], b[1], b[0]];
    assert Swap32(v) == Of32(r);
    Digits32(r);
    hide Be32, Of32;
  }

  /** ... and both read it back. */
  lemma SwappedLoad(s: seq<byte>)
    ensures |s| == 4 ==> Swap32(Loaded32(LittleEndian, s)) == Of32(s)
    ensures |s| == 2 ==> Swap16(Loaded16(LittleEndian, s)) == Of16(s)
  {
    if |s| == 4 {
      Digits32([s[3], s[2], s[1], s[0]]);
    }
  }
}
