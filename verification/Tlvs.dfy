/** Type-length-value lists: how they are written, and tlv_split and count_tlv of imcomm/snac.c. */
module Tlvs {
  import opened Bytes
  import opened Packets
  import opened Wrappers

  datatype Tlv = Tlv(kind: uint16, value: seq<byte>)

  predicate Fits(t: Tlv) { |t.value| < 0x1_0000 }

  predicate AllFit(ts: seq<Tlv>) { forall t | t in ts :: Fits(t) }

  function Print1(t: Tlv): (s: seq<byte>)
    requires Fits(t)
    ensures |s| == 4 + |t.value|
  {
    Be16(t.kind) + Be16(|t.value|) + t.value
  }

  function Print(ts: seq<Tlv>): seq<byte>
    requires AllFit(ts)
  {
    if ts == [] then [] else Print1(ts[0]) + Print(ts[1..])
  }

  /** The TLV that s begins with, if it is complete. */
  function Head(s: seq<byte>): (r: Option<Tlv>)
    ensures r.Some? ==> 4 + |r.value.value| <= |s|
  {
    if |s| < 4 then None
    else
      var len := Of16(s[2..4]);
      if |s| < 4 + len then None else Some(Tlv(Of16(s[..2]), s[4..4 + len]))
  }

  /** The list that s is the print of, if there is one. */
  function Parse(s: seq<byte>): Option<seq<Tlv>> {
    if s == [] then Some([])
    else if Head(s).None? then None
    else
      var t := Head(s).value;
      var rest := Parse(s[4 + |t.value|..]);
      if rest.None? then None else Some([t] + rest.value)
  }

  lemma PrintHead(s: seq<byte>)
    requires Head(s).Some?
    ensures var t := Head(s).value; Fits(t) && s == Print1(t) + s[4 + |t.value|..]
  {
    Digits16(s[..2]);
    Digits16(s[2..4]);
  }

  lemma {:induction false} PrintParse(s: seq<byte>)
    requires Parse(s).Some?
    ensures AllFit(Parse(s).value) && Print(Parse(s).value) == s
  {
    if s != [] {
      hide Head, Print1, Fits;
      PrintHead(s);
      var t := Head(s).value;
      var rest := Parse(s[4 + |t.value|..]).value;
      PrintParse(s[4 + |t.value|..]);
      assert ([t] + rest)[1..] == rest;
    }
  }

  lemma HeadPrint(t: Tlv, s: seq<byte>)
    requires Fits(t)
    ensures Head(Print1(t) + s) == Some(t) && (Print1(t) + s)[4 + |t.value|..] == s
  {
    var all, n := Print1(t) + s, |t.value|;
    assert all[..2] == Be16(t.kind) && all[2..4] == Be16(n) && all[4..4 + n] == t.value;
  }

  lemma {:induction false} ParsePrint(ts: seq<Tlv>)
    requires AllFit(ts)
    ensures Parse(Print(ts)) == Some(ts)
  {
    if ts != [] {
      hide Head, Print1, Fits;
      HeadPrint(ts[0], Print(ts[1..]));
      ParsePrint(ts[1..]);
      assert [ts[0]] + ts[1..] == ts;
    }
  }

  lemma {:induction false} PrintAppend(ts: seq<Tlv>, us: seq<Tlv>)
    requires AllFit(ts) && AllFit(us)
    ensures AllFit(ts + us) && Print(ts + us) == Print(ts) + Print(us)
  {
    if ts == [] {
      assert ts + us == us;
    } else {
      hide Print1, Fits;
      PrintAppend(ts[1..], us);
      assert (ts + us)[0] == ts[0] && (ts + us)[1..] == ts[1..] + us;
      assert Print1(ts[0]) + (Print(ts[1..]) + Print(us)) == Print1(ts[0]) + Print(ts[1..]) + Print(us);
    }
  }

  /** two_to_16. */
  function TwoTo16(host: Host, s: seq<byte>): (v: uint16)
    requires |s| >= 2
    ensures v == Of16(s[..2])
  {
    SwappedLoad(s[..2]);
    var v := Loaded16(host, s[..2]);
    if host.LittleEndian? then Swap16(v) else v
  }

  /** four_to_32. */
  function FourTo32(host: Host, s: seq<byte>): (v: uint32)
    requires |s| >= 4
    ensures v == Of32(s[..4])
  {
    SwappedLoad(s[..4]);
    var v := Loaded32(host, s[..4]);
    if host.LittleEndian? then Swap32(v) else v
  }

  /** A reader at position x has read exactly list, and the rest of data is well formed. */
  ghost predicate Reading(data: seq<byte>, x: nat, list: seq<Tlv>) {
    && x <= |data| && Parse(data).Some? && Parse(data[x..]).Some?
    && Parse(data).value == list + Parse(data[x..]).value
  }

  lemma ReadingStarts(data: seq<byte>)
    requires Parse(data).Some?
    ensures Reading(data, 0, [])
  {
    assert data[0..] == data;
  }

  lemma ReadingEnds(data: seq<byte>, list: seq<Tlv>)
    requires Reading(data, |data|, list)
    ensures Parse(data) == Some(list)
  {
    assert data[|data|..] == [] && list + [] == list;
  }

  lemma ReadingStep(data: seq<byte>, x: nat, list: seq<Tlv>)
    requires Reading(data, x, list) && x < |data|
    ensures Head(data[x..]).Some?
    ensures var t := Head(data[x..]).value; Reading(data, x + 4 + |t.value|, list + [t])
  {
    var t := Head(data[x..]).value;
    assert data[x..][4 + |t.value|..] == data[x + 4 + |t.value|..];
    var rest := Parse(data[x + 4 + |t.value|..]).value;
    assert list + ([t] + rest) == (list + [t]) + rest;
  }

  /** x += n on a uint16_t. */
  function Advance(x: uint16, n: uint16): (y: uint16)
    ensures x + n < 0x1_0000 ==> y == x + n
  {
    (x + n) % 0x1_0000
  }

  /**
   tlv_split. The cursor x is a uint16_t, so only lists of at most 65535 octets come to an end;
   the numtlv argument is ignored.
   */
  method Split(host: Host, data: seq<byte>, numtlv: nat) returns (list: seq<Tlv>)
    requires Parse(data).Some? && |data| < 0x1_0000
    ensures Parse(data) == Some(list)
  {
    hide *;
    var x: uint16 := 0;
    list := [];
    ReadingStarts(data);
    while x < |data|
      invariant x <= |data| && Reading(data, x, list)
      decreases |data| - x
    {
      ReadingStep(data, x, list);
      var t := ReadTlv(host, data, x);
      x := Advance(x, 4);
      list := list + [t];
      if |t.value| != 0 {
        x := Advance(x, |t.value|);
      }
    }
    ReadingEnds(data, list);
  }

  /** The fields of one list node, read at position x. */
  method ReadTlv(host: Host, data: seq<byte>, x: nat) returns (t: Tlv)
    requires x <= |data| && Head(data[x..]).Some?
    ensures Head(data[x..]) == Some(t) && x + 4 + |t.value| <= |data|
  {
    var len := TwoTo16(host, data[x + 2..]);
    assert data[x + 2..][..2] == data[x..][2..4];
    assert data[x + 4..x + 4 + len] == data[x..][4..4 + len];
    hide Of16;
    t := Tlv(TwoTo16(host, data[x..]), if len != 0 then data[x + 4..x + 4 + len] else []);
  }

  /** One turn of count_tlv_pkt. */
  method SkipTlv(p: Packet, ghost data: seq<byte>)
    requires data == p.data[..] && p.offset <= |data| && Head(data[p.offset..]).Some?
    modifies p
    ensures p.offset == old(p.offset) + 4 + |Head(data[old(p.offset)..]).value.value| <= |data|
  {
    var kind := p.Get16();
    var len := p.Get16();
    assert data[old(p.offset)..][2..4] == p.data[old(p.offset) + 2..p.offset];
    p.Skip(len);
  }

  /** count_tlv_pkt. */
  method CountTlvs(p: Packet) returns (num: nat)
    requires p.offset == 0 && Parse(p.data[..]).Some?
    modifies p
    ensures num == |Parse(p.data[..]).value|
  {
    hide *;
    num := 0;
    ghost var data, list := p.data[..], [];
    ReadingStarts(data);
    while p.offset < p.data.Length
      invariant p.offset <= |data| && Reading(data, p.offset, list) && num == |list|
      decreases |data| - p.offset
    {
      ReadingStep(data, p.offset, list);
      list := list + [Head(data[p.offset..]).value];
      SkipTlv(p, data);
      num := num + 1;
    }
    ReadingEnds(data, list);
  }
}
