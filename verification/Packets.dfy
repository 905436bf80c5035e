/** The cursor-based packet reader and writer of imcomm/packet.c. */
module Packets {
  import opened Bytes

  /** One value of a packet, as the writers and readers name them. */
  datatype Field = U8(v8: byte) | U16(v16: uint16) | U32(v32: uint32) | Raw(raw: seq<byte>)

  /** What a reader has to be told in advance. */
  datatype Shape = S8 | S16 | S32 | SRaw(n: nat)

  function ShapeOf(f: Field): Shape {
    match f
    case U8(_) => S8
    case U16(_) => S16
    case U32(_) => S32
    case Raw(r) => SRaw(|r|)
  }

  function Size(s: Shape): nat {
    match s
    case S8 => 1
    case S16 => 2
    case S32 => 4
    case SRaw(n) => n
  }

  /** The octets of a field in network order. */
  function Encoded(f: Field): (s: seq<byte>)
    ensures |s| == Size(ShapeOf(f))
  {
    match f
    case U8(v) => [v]
    case U16(v) => Be16(v)
    case U32(v) => Be32(v)
    case Raw(r) => r
  }

  function Encode(fs: seq<Field>): seq<byte> {
    if fs == [] then [] else Encode(fs[..|fs| - 1]) + Encoded(fs[|fs| - 1])
  }

  /** The field that the octets s stand for. */
  function Decoded(shape: Shape, s: seq<byte>): Field
    requires |s| == Size(shape)
  {
    match shape
    case S8 => U8(s[0])
    case S16 => U16(Of16(s))
    case S32 => U32(Of32(s))
    case SRaw(_) => Raw(s)
  }

  lemma DecodedEncoded(f: Field)
    ensures Decoded(ShapeOf(f), Encoded(f)) == f
  {
    if f.U32? {
      Value32(f.v32);
    }
  }

  /** Where field k starts is where the fields before it end. */
  lemma {:induction false} ReadsBack(fs: seq<Field>, k: nat)
    requires k < |fs|
    ensures var start := |Encode(fs[..k])|;
            var size := Size(ShapeOf(fs[k]));
            && start + size <= |Encode(fs)|
            && Decoded(ShapeOf(fs[k]), Encode(fs)[start..start + size]) == fs[k]
  {
    hide Encoded, Decoded, Size;
    var front := fs[..|fs| - 1];
    if k == |fs| - 1 {
      assert fs[..k] == front;
      DecodedEncoded(fs[k]);
      assert Encode(fs)[|Encode(front)|..|Encode(fs)|] == Encoded(fs[k]);
    } else {
      ReadsBack(front, k);
      assert front[..k] == fs[..k];
      var start := |Encode(fs[..k])|;
      var size := Size(ShapeOf(fs[k]));
      assert Encode(fs)[start..start + size] == Encode(front)[start..start + size];
    }
  }

  class Packet {
    const data: array<byte>
    var offset: nat
    const host: Host

    /** pkt_init. */
    constructor (host: Host, len: nat)
      ensures data.Length == len && offset == 0 && fresh(data) && this.host == host
    {
      data := new byte[len];
      offset := 0;
      this.host := host;
    }

    /** pkt_initP: read a buffer that already exists. */
    constructor Over(host: Host, buffer: array<byte>)
      ensures data == buffer && offset == 0 && this.host == host
    {
      data := buffer;
      offset := 0;
      this.host := host;
    }

    /** What has been written so far. */
    ghost function Written(): seq<byte>
      requires offset <= data.Length
      reads this, data
    {
      data[..offset]
    }

    /** The bounds test and memcpy that every writer performs. */
    method Put(bytes: seq<byte>) returns (ok: bool)
      requires offset <= data.Length
      modifies this, data
      ensures offset <= data.Length
      ensures ok <==> old(offset) + |bytes| <= data.Length
      ensures Written() == old(Written()) + (if ok then bytes else [])
    {
      if data.Length - offset < |bytes| {
        return false;
      }
      forall k | 0 <= k < |bytes| {
        data[offset + k] := bytes[k];
      }
      offset := offset + |bytes|;
      return true;
    }

    method Add8(v: byte) returns (ok: bool)
      requires offset <= data.Length
      modifies this, data
      ensures offset <= data.Length
      ensures ok <==> old(offset) + 1 <= data.Length
      ensures Written() == old(Written()) + (if ok then Encoded(U8(v)) else [])
    {
      ok := Put([v]);
    }

    method Add16(v: uint16) returns (ok: bool)
      requires offset <= data.Length
      modifies this, data
      ensures offset <= data.Length
      ensures ok <==> old(offset) + 2 <= data.Length
      ensures Written() == old(Written()) + (if ok then Encoded(U16(v)) else [])
    {
      SwappedStore16(v);
      ok := Put(Stored16(host, if host.BigEndian? then v else Swap16(v)));
    }

    method Add32(v: uint32) returns (ok: bool)
      requires offset <= data.Length
      modifies this, data
      ensures offset <= data.Length
      ensures ok <==> old(offset) + 4 <= data.Length
      ensures Written() == old(Written()) + (if ok then Encoded(U32(v)) else [])
    {
      SwappedStore32(v);
      ok := Put(Stored32(host, if host.BigEndian? then v else Swap32(v)));
    }

    method AddRaw(bytes: seq<byte>) returns (ok: bool)
      requires offset <= data.Length
      modifies this, data
      ensures offset <= data.Length
      ensures ok <==> old(offset) + |bytes| <= data.Length
      ensures Written() == old(Written()) + (if ok then Encoded(Raw(bytes)) else [])
    {
      ok := Put(bytes);
    }

    /** The readers do not test bounds; their callers must. */
    method Get8() returns (v: byte)
      requires offset + 1 <= data.Length
      modifies this
      ensures offset == old(offset) + 1
      ensures U8(v) == Decoded(S8, data[old(offset)..offset])
    {
      v := data[offset];
      offset := offset + 1;
    }

    method Get16() returns (v: uint16)
      requires offset + 2 <= data.Length
      modifies this
      ensures offset == old(offset) + 2
      ensures U16(v) == Decoded(S16, data[old(offset)..offset])
    {
      var s := data[offset..offset + 2];
      SwappedLoad(s);
      v := Loaded16(host, s);
      if host.LittleEndian? {
        v := Swap16(v);
      }
      offset := offset + 2;
    }

    method Get32() returns (v: uint32)
      requires offset + 4 <= data.Length
      modifies this
      ensures offset == old(offset) + 4
      ensures U32(v) == Decoded(S32, data[old(offset)..offset])
    {
      var s := data[offset..offset + 4];
      SwappedLoad(s);
      v := Loaded32(host, s);
      if host.LittleEndian? {
        v := Swap32(v);
      }
      offset := offset + 4;
    }

    /** pkt_getraw and pkt_getstr: the cursor moves by a length truncated to 16 bits. */
    method GetRaw(len: nat) returns (bytes: seq<byte>)
      requires offset + len <= data.Length
      modifies this
      ensures offset == old(offset) + len % 0x1_0000
      ensures bytes == data[old(offset)..old(offset) + len]
    {
      bytes := data[offset..offset + len];
      offset := offset + len % 0x1_0000;
    }

    /** pkt_skip. */
    method Skip(n: nat)
      modifies this
      ensures offset == old(offset) + n
    {
      offset := offset + n;
    }
  }
}
