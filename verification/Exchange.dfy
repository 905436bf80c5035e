/** Writing a sequence of values into a packet and reading them back (imcomm/packet.c). */
module Exchange {
  import opened Bytes
  import opened Packets

  function Shapes(fs: seq<Field>): (ss: seq<Shape>)
    ensures |ss| == |fs|
  {
    seq(|fs|, k requires 0 <= k < |fs| => ShapeOf(fs[k]))
  }

  function Length(ss: seq<Shape>): nat {
    if ss == [] then 0 else Length(ss[..|ss| - 1]) + Size(ss[|ss| - 1])
  }

  /** How far a read moves the cursor: pkt_getraw truncates the length to 16 bits. */
  function Advance(s: Shape): (n: nat)
    ensures n <= Size(s)
  {
    if s.SRaw? then s.n % 0x1_0000 else Size(s)
  }

  /** Where the cursor stands after reads of these shapes. */
  function Cursor(ss: seq<Shape>): nat {
    if ss == [] then 0 else Cursor(ss[..|ss| - 1]) + Advance(ss[|ss| - 1])
  }

  predicate Long(s: Shape) { s.SRaw? && s.n >= 0x1_0000 }

  lemma {:induction false} CursorBehind(ss: seq<Shape>, k: nat)
    requires k <= |ss|
    ensures Cursor(ss[..k]) <= Length(ss[..k]) <= Length(ss)
    decreases |ss|
  {
    if k == |ss| {
      assert ss[..k] == ss;
      if ss != [] {
        var front := ss[..k - 1];
        CursorBehind(front, k - 1);
        assert front[..k - 1] == front;
      }
    } else {
      CursorBehind(ss[..|ss| - 1], k);
      assert ss[..|ss| - 1][..k] == ss[..k];
    }
  }

  /** The k-th read happens where the k-th value starts exactly if no value before it was a long one. */
  lemma {:induction false} CursorInStep(ss: seq<Shape>, k: nat)
    requires k <= |ss|
    ensures Cursor(ss[..k]) == Length(ss[..k]) <==> forall j | 0 <= j < k :: !Long(ss[j])
  {
    if k > 0 {
      CursorInStep(ss, k - 1);
      CursorBehind(ss[..k - 1], k - 1);
      assert ss[..k][..k - 1] == ss[..k - 1] && ss[..k - 1][..k - 1] == ss[..k - 1];
    }
  }

  lemma {:induction false} EncodeLength(fs: seq<Field>)
    ensures |Encode(fs)| == Length(Shapes(fs))
  {
    if fs != [] {
      EncodeLength(fs[..|fs| - 1]);
      assert Shapes(fs)[..|fs| - 1] == Shapes(fs[..|fs| - 1]);
    }
  }

  /** Every read stays within the octets. */
  ghost predicate InBounds(data: seq<byte>, ss: seq<Shape>) {
    forall k | 0 <= k < |ss| :: Cursor(ss[..k]) + Size(ss[k]) <= |data|
  }

  /** The k-th value read, from where the cursor then stands. */
  ghost function FieldAt(data: seq<byte>, ss: seq<Shape>, k: nat): Field
    requires InBounds(data, ss) && k < |ss|
  {
    var c := Cursor(ss[..k]);
    Decoded(ss[k], data[c..c + Size(ss[k])])
  }

  ghost function ReadFields(data: seq<byte>, ss: seq<Shape>): (fs: seq<Field>)
    requires InBounds(data, ss)
    ensures |fs| == |ss|
  {
    seq(|ss|, k requires 0 <= k < |ss| => FieldAt(data, ss, k))
  }

  lemma ReadNext(data: seq<byte>, ss: seq<Shape>, k: nat)
    requires InBounds(data, ss) && k < |ss|
    ensures ReadFields(data, ss)[..k] + [FieldAt(data, ss, k)] == ReadFields(data, ss)[..k + 1]
  {
    hide FieldAt, InBounds;
  }

  lemma LengthNext(ss: seq<Shape>, k: nat)
    requires k < |ss|
    ensures Length(ss[..k + 1]) == Length(ss[..k]) + Size(ss[k]) <= Length(ss)
    ensures Cursor(ss[..k + 1]) == Cursor(ss[..k]) + Advance(ss[k])
    ensures Cursor(ss[..k]) <= Length(ss[..k])
  {
    CursorBehind(ss, k);
    CursorBehind(ss, k + 1);
    assert ss[..k + 1][..k] == ss[..k];
  }

  lemma WrittenInBounds(fs: seq<Field>)
    ensures InBounds(Encode(fs), Shapes(fs))
  {
    EncodeLength(fs);
    var ss := Shapes(fs);
    forall k | 0 <= k < |ss|
      ensures Cursor(ss[..k]) + Size(ss[k]) <= |Encode(fs)|
    {
      LengthNext(ss, k);
    }
  }

  /** No long value is followed by one that takes any room. */
  predicate Safe(ss: seq<Shape>) {
    forall j, k | 0 <= j < k < |ss| :: Long(ss[j]) ==> Size(ss[k]) == 0
  }

  ghost predicate ReadsBackExactly(fs: seq<Field>) {
    InBounds(Encode(fs), Shapes(fs)) && ReadFields(Encode(fs), Shapes(fs)) == fs
  }

  lemma ShapesAt(fs: seq<Field>, k: nat)
    requires k < |fs|
    ensures Shapes(fs)[k] == ShapeOf(fs[k]) && Shapes(fs[..k]) == Shapes(fs)[..k]
  {
    hide ShapeOf;
  }

  lemma InStep(fs: seq<Field>, k: nat)
    requires Safe(Shapes(fs)) && k < |fs| && Size(Shapes(fs)[k]) > 0
    ensures Cursor(Shapes(fs)[..k]) == |Encode(fs[..k])|
  {
    CursorInStep(Shapes(fs), k);
    EncodeLength(fs[..k]);
    ShapesAt(fs, k);
    hide Cursor, Length, Encode, Shapes, Size;
  }

  lemma NothingToRead(f: Field, bytes: seq<byte>)
    requires |bytes| == Size(ShapeOf(f)) == 0
    ensures Decoded(ShapeOf(f), bytes) == f
  {
  }

  lemma SafeFieldAt(fs: seq<Field>, k: nat)
    requires Safe(Shapes(fs)) && k < |fs| && InBounds(Encode(fs), Shapes(fs))
    ensures FieldAt(Encode(fs), Shapes(fs), k) == fs[k]
  {
    hide *;
    var data, ss := Encode(fs), Shapes(fs);
    FieldStays(data, ss, k);
    ShapesAt(fs, k);
    if Size(ss[k]) > 0 {
      InStep(fs, k);
      ReadsBack(fs, k);
    } else {
      var c := Cursor(ss[..k]);
      NothingToRead(fs[k], data[c..c + Size(ss[k])]);
    }
  }

  lemma SafeReadsBack(fs: seq<Field>)
    requires Safe(Shapes(fs))
    ensures ReadsBackExactly(fs)
  {
    WrittenInBounds(fs);
    hide Encode, FieldAt, InBounds, Safe;
    forall k | 0 <= k < |fs|
      ensures ReadFields(Encode(fs), Shapes(fs))[k] == fs[k]
    {
      SafeFieldAt(fs, k);
    }
  }

  /** Values of these shapes that are all zeros, but for a first octet 1 in the k-th. */
  function Marked(ss: seq<Shape>, k: nat): (fs: seq<Field>)
    ensures |fs| == |ss|
  {
    seq(|ss|, i requires 0 <= i < |ss| => if i == k then One(ss[i]) else Zero(ss[i]))
  }

  function Zero(s: Shape): (f: Field)
    ensures ShapeOf(f) == s && forall i | 0 <= i < Size(s) :: Encoded(f)[i] == 0
  {
    match s
    case S8 => U8(0)
    case S16 => U16(0)
    case S32 => U32(0)
    case SRaw(n) => Raw(seq(n, _ => 0))
  }

  function One(s: Shape): (f: Field)
    ensures ShapeOf(f) == s
  {
    match s
    case S8 => U8(1)
    case S16 => U16(0x100)
    case S32 => U32(0x100_0000)
    case SRaw(n) => Raw(if n == 0 then [] else [1] + seq(n - 1, _ => 0))
  }

  lemma NotOne(s: Shape, bytes: seq<byte>)
    requires |bytes| == Size(s) > 0 && bytes[0] == 0
    ensures Decoded(s, bytes) != One(s)
  {
  }

  lemma {:induction false} ZeroOctets(fs: seq<Field>, i: nat)
    requires i < |Encode(fs)| && forall j | 0 <= j < |fs| :: fs[j] == Zero(ShapeOf(fs[j]))
    ensures Encode(fs)[i] == 0
  {
    var front, last := fs[..|fs| - 1], fs[|fs| - 1];
    assert Encode(fs) == Encode(front) + Encoded(last) && last == Zero(ShapeOf(last));
    hide Encode, Encoded, Zero, ShapeOf;
    if i < |Encode(front)| {
      ZeroOctets(front, i);
    }
  }

  lemma {:induction false} EncodePrefix(fs: seq<Field>, k: nat)
    requires k <= |fs|
    ensures Encode(fs[..k]) <= Encode(fs)
  {
    hide Encoded;
    if k == |fs| {
      assert fs[..k] == fs;
    } else {
      EncodePrefix(fs[..|fs| - 1], k);
      assert fs[..|fs| - 1][..k] == fs[..k];
    }
  }

  lemma MarkedFails(ss: seq<Shape>, j: nat, k: nat)
    requires j < k < |ss| && Long(ss[j]) && Size(ss[k]) > 0
    ensures Shapes(Marked(ss, k)) == ss && !ReadsBackExactly(Marked(ss, k))
  {
    var fs := Marked(ss, k);
    hide Encoded, Zero, One, Encode, Decoded, Size;
    assert Shapes(fs) == ss;
    WrittenInBounds(fs);
    CursorInStep(ss, k);
    CursorBehind(ss, k);
    MarkedAt(ss, k);
    hide Cursor, Length, Marked, InBounds, FieldAt;
    assert ReadFields(Encode(fs), ss)[k] != fs[k];
  }

  lemma MarkedIs(ss: seq<Shape>, k: nat)
    requires k < |ss|
    ensures Marked(ss, k)[k] == One(ss[k])
    ensures forall i | 0 <= i < k :: Marked(ss, k)[i] == Zero(ShapeOf(Marked(ss, k)[i]))
  {
    hide Zero, One;
  }

  lemma MarkedAt(ss: seq<Shape>, k: nat)
    requires k < |ss| && Size(ss[k]) > 0 && Cursor(ss[..k]) < Length(ss[..k])
    requires Shapes(Marked(ss, k)) == ss && InBounds(Encode(Marked(ss, k)), ss)
    ensures FieldAt(Encode(Marked(ss, k)), ss, k) != Marked(ss, k)[k]
  {
    hide *;
    var fs, c := Marked(ss, k), Cursor(ss[..k]);
    EncodeLength(fs[..k]);
    ShapesAt(fs, k);
    EncodePrefix(fs, k);
    MarkedIs(ss, k);
    ZeroOctets(fs[..k], c);
    FieldStays(Encode(fs), ss, k);
    NotOne(ss[k], Encode(fs)[c..c + Size(ss[k])]);
  }

  /**
   Whatever values of these shapes are written, they are read back, if and only if no raw value of
   65536 octets or more is followed by a value that takes any room.
   */
  lemma WritesReadBack(ss: seq<Shape>)
    ensures Safe(ss) <==> forall fs: seq<Field> | Shapes(fs) == ss :: ReadsBackExactly(fs)
  {
    if Safe(ss) {
      forall fs: seq<Field> | Shapes(fs) == ss
        ensures ReadsBackExactly(fs)
      {
        SafeReadsBack(fs);
      }
    } else {
      var j, k :| 0 <= j < k < |ss| && Long(ss[j]) && Size(ss[k]) > 0;
      MarkedFails(ss, j, k);
    }
  }

  /** A value behind 65536 octets is read from their start. */
  lemma LongValueMisleads()
    ensures var fs := [Raw(seq(0x1_0000, _ => 7)), U8(5)];
            && InBounds(Encode(fs), Shapes(fs))
            && ReadFields(Encode(fs), Shapes(fs)) == [fs[0], U8(7)]
  {
    var raw: seq<byte> := seq(0x1_0000, _ => 7);
    var fs := [Raw(raw), U8(5)];
    WrittenInBounds(fs);
    var ss, data := Shapes(fs), Encode(fs);
    assert ss == [SRaw(0x1_0000), S8];
    assert ss[..0] == [] && ss[..1] == [ss[0]] && [ss[0]][..0] == [];
    assert fs[..1] == [fs[0]] && [fs[0]][..0] == [];
    assert data == Encode([fs[0]]) + [5] && Encode([fs[0]]) == [] + raw == raw;
    assert data[0..0x1_0000] == raw && data[0..1] == [7];
  }

  // On packets.

  /** One pkt_add. */
  method WriteField(p: Packet, f: Field) returns (ok: bool)
    requires p.offset <= p.data.Length
    modifies p, p.data
    ensures p.offset <= p.data.Length
    ensures ok <==> old(p.offset) + |Encoded(f)| <= p.data.Length
    ensures ok ==> p.Written() == old(p.Written()) + Encoded(f)
  {
    match f
    case U8(v) => ok := p.Add8(v);
    case U16(v) => ok := p.Add16(v);
    case U32(v) => ok := p.Add32(v);
    case Raw(bytes) => ok := p.AddRaw(bytes);
  }

  /** Any sequence of pkt_add calls: all of them succeed exactly if everything fits. */
  method WriteAll(p: Packet, fs: seq<Field>) returns (ok: bool)
    requires p.offset == 0
    modifies p, p.data
    ensures p.offset <= p.data.Length
    ensures ok <==> |Encode(fs)| <= p.data.Length
    ensures ok ==> p.Written() == Encode(fs)
  {
    ok := true;
    hide Encoded;
    for k := 0 to |fs|
      invariant p.offset <= p.data.Length
      invariant ok <==> |Encode(fs[..k])| <= p.data.Length
      invariant ok ==> p.Written() == Encode(fs[..k])
    {
      assert fs[..k + 1][..k] == fs[..k];
      var fits := WriteField(p, fs[k]);
      ok := ok && fits;
    }
    assert fs[..|fs|] == fs;
  }

  /** One pkt_get. */
  method ReadField(p: Packet, s: Shape) returns (f: Field)
    requires p.offset + Size(s) <= p.data.Length
    modifies p
    ensures p.offset == old(p.offset) + Advance(s)
    ensures f == Decoded(s, p.data[old(p.offset)..old(p.offset) + Size(s)])
  {
    match s
    case S8 =>
      var v := p.Get8();
      f := U8(v);
    case S16 =>
      var v := p.Get16();
      f := U16(v);
    case S32 =>
      var v := p.Get32();
      f := U32(v);
    case SRaw(n) =>
      var bytes := p.GetRaw(n);
      f := Raw(bytes);
  }

  lemma CursorStarts(ss: seq<Shape>)
    ensures Cursor(ss[..0]) == 0
  {
  }

  lemma FieldStays(data: seq<byte>, ss: seq<Shape>, k: nat)
    requires InBounds(data, ss) && k < |ss|
    ensures var c := Cursor(ss[..k]);
            c + Size(ss[k]) <= |data| && FieldAt(data, ss, k) == Decoded(ss[k], data[c..c + Size(ss[k])])
  {
  }

  /** Any sequence of pkt_get calls. */
  method ReadAll(p: Packet, ss: seq<Shape>) returns (fs: seq<Field>)
    requires p.offset == 0 && InBounds(p.data[..], ss)
    modifies p
    ensures p.offset == Cursor(ss) && fs == ReadFields(p.data[..], ss)
  {
    fs := [];
    ghost var data := p.data[..];
    hide Advance, ReadFields, InBounds, Cursor, Size, Decoded;
    assert Cursor(ss[..0]) == 0 by { CursorStarts(ss); }
    for k := 0 to |ss|
      invariant p.offset == Cursor(ss[..k])
      invariant |fs| == k && fs == ReadFields(data, ss)[..k]
    {
      LengthNext(ss, k);
      ReadNext(data, ss, k);
      FieldStays(data, ss, k);
      var f := ReadField(p, ss[k]);
      fs := fs + [f];
    }
    assert ss[..|ss|] == ss;
  }

  lemma ReadPrefix(data: seq<byte>, written: seq<byte>, ss: seq<Shape>)
    requires written <= data && InBounds(written, ss)
    ensures InBounds(data, ss) && ReadFields(data, ss) == ReadFields(written, ss)
  {
    forall k | 0 <= k < |ss|
      ensures Cursor(ss[..k]) + Size(ss[k]) <= |data|
      ensures var c := Cursor(ss[..k]); data[c..c + Size(ss[k])] == written[c..c + Size(ss[k])]
    {
      assert Cursor(ss[..k]) + Size(ss[k]) <= |written|;
    }
    hide Decoded, Cursor, Size;
    assert InBounds(data, ss);
    forall k | 0 <= k < |ss|
      ensures FieldAt(data, ss, k) == FieldAt(written, ss, k)
    {
    }
    hide FieldAt;
  }

  /** Written on one host and read on another. */
  method WriteAndRead(writer: Host, reader: Host, len: nat, fs: seq<Field>) returns (ok: bool, gs: seq<Field>)
    ensures ok <==> |Encode(fs)| <= len
    ensures ok ==> InBounds(Encode(fs), Shapes(fs)) && gs == ReadFields(Encode(fs), Shapes(fs))
    ensures ok && Safe(Shapes(fs)) ==> gs == fs
  {
    var p := new Packet(writer, len);
    ok := WriteAll(p, fs);
    gs := [];
    if ok {
      hide Encode, Shapes, InBounds, Safe;
      WrittenInBounds(fs);
      var q := new Packet.Over(reader, p.data);
      ReadPrefix(p.data[..], Encode(fs), Shapes(fs));
      gs := ReadAll(q, Shapes(fs));
      if Safe(Shapes(fs)) {
        SafeReadsBack(fs);
      }
    }
  }
}
