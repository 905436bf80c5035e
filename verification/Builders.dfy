/**
 The packets the client composes: login (imcomm/bos_signon.c), location and instant messages
 (imcomm/snac.c). Each reserves its whole length first and then fills it.
 */
module Builders {
  import opened Bytes
  import opened Packets
  import opened Tlvs
  import opened Wrappers

  /** The octets of a C string. */
  function Octets(s: string): (b: seq<byte>)
    ensures |b| == |s|
  {
    seq(|s|, k requires 0 <= k < |s| => s[k] as int % 0x100)
  }

  lemma PrintSnoc(ts: seq<Tlv>, t: Tlv)
    requires AllFit(ts) && Fits(t)
    ensures AllFit(ts + [t]) && Print(ts + [t]) == Print(ts) + Print1(t)
  {
    assert forall u | u in ts + [t] :: u in ts || u == t;
    PrintAppend(ts, [t]);
    assert Print([t]) == Print1(t) + Print([]) == Print1(t);
  }

  /** pkt_add16, pkt_add16, pkt_addraw: every builder's way of writing one TLV. */
  method AddTlv(p: Packet, kind: uint16, value: seq<byte>) returns (ok: bool)
    requires p.offset <= p.data.Length && |value| < 0x1_0000
    modifies p, p.data
    ensures p.offset <= p.data.Length
    ensures ok <==> old(p.offset) + 4 + |value| <= p.data.Length
    ensures ok ==> p.Written() == old(p.Written()) + Print1(Tlv(kind, value))
  {
    hide Be16;
    var ok0 := p.Add16(kind);
    var ok1 := p.Add16(|value|);
    var ok2 := p.AddRaw(value);
    ok := ok0 && ok1 && ok2;
  }

  const CLIENT_IDENT := Octets("Apple iChat")
  const LANGUAGE := Octets("en")
  const COUNTRY := Octets("us")
  lemma ConstantLengths()
    ensures |CLIENT_IDENT| == 11 && |LANGUAGE| == |COUNTRY| == 2
  {
  }

  const CLIENT_V1: uint16 := 0x311a
  const CLIENT_V2: uint16 := 0x0001
  const CLIENT_V3: uint16 := 0x0000
  const CLIENT_V4: uint16 := 0x0000
  const CLIENT_V5: uint16 := 0x003c
  const CLIENT_V6: uint32 := 0x00000c6

  /** What the login packet has to say. */
  ghost predicate IsLogin(all: seq<Tlv>, sn: seq<byte>, hash: seq<byte>) {
    && |all| == 12
    && all[0] == Tlv(0x0001, sn) && all[1] == Tlv(0x0025, hash) && all[2] == Tlv(0x0003, CLIENT_IDENT)
    && all[3] == Tlv(0x0016, Be16(CLIENT_V1)) && all[4] == Tlv(0x0017, Be16(CLIENT_V2))
    && all[5] == Tlv(0x0018, Be16(CLIENT_V3)) && all[6] == Tlv(0x0019, Be16(CLIENT_V4))
    && all[7] == Tlv(0x001a, Be16(CLIENT_V5)) && all[8] == Tlv(0x0014, Be32(CLIENT_V6))
    && all[9] == Tlv(0x000f, LANGUAGE) && all[10] == Tlv(0x000e, COUNTRY) && all[11] == Tlv(0x004a, [0x01])
  }

  /** A packet that holds the print of ts so far. */
  ghost predicate Holds(p: Packet, ts: seq<Tlv>)
    reads p, p.data
  {
    p.offset <= p.data.Length && AllFit(ts) && p.Written() == Print(ts)
  }

  /** A full packet whose octets tlv_split reads as ts. */
  ghost predicate Complete(p: Packet, ts: seq<Tlv>)
    reads p, p.data
  {
    p.offset == p.data.Length && Parse(p.data[..]) == Some(ts)
  }

  lemma HoldsAll(p: Packet, ts: seq<Tlv>, n: nat)
    requires n == |ts| && Holds(p, ts[..n]) && p.offset == p.data.Length
    ensures Complete(p, ts)
  {
    assert ts[..n] == ts && p.data[..p.offset] == p.data[..];
    ParsePrint(ts);
  }

  lemma HoldsNothing(p: Packet, ts: seq<Tlv>)
    requires p.offset == 0
    ensures Holds(p, ts[..0])
  {
  }

  /** Writes the k-th of all the TLVs a packet is to hold, given that the ones before it are there. */
  method AppendTlv(p: Packet, kind: uint16, value: seq<byte>, ghost all: seq<Tlv>, ghost k: nat)
    requires k < |all| && all[k] == Tlv(kind, value) && |value| < 0x1_0000
    requires Holds(p, all[..k]) && p.offset + 4 + |value| <= p.data.Length
    modifies p, p.data
    ensures p.offset == old(p.offset) + 4 + |value|
    ensures Holds(p, all[..k + 1])
  {
    var ok := AddTlv(p, kind, value);
    PrintSnoc(all[..k], Tlv(kind, value));
    assert all[..k] + [Tlv(kind, value)] == all[..k + 1];
  }

  /** Screen name, hash, client identity. */
  method LoginNames(p: Packet, sn: seq<byte>, hash: seq<byte>, ghost all: seq<Tlv>)
    requires |sn| < 0x1_0000 && |hash| == 16 && IsLogin(all, sn, hash)
    requires Holds(p, all[..0]) && p.offset + 4 + |sn| + 20 + 15 <= p.data.Length
    modifies p, p.data
    ensures p.offset == old(p.offset) + 4 + |sn| + 20 + 15 && Holds(p, all[..3])
  {
    ConstantLengths();
    hide Holds, CLIENT_IDENT, LANGUAGE, COUNTRY, Be16, Be32;
    AppendTlv(p, 0x0001, sn, all, 0);
    AppendTlv(p, 0x0025, hash, all, 1);
    AppendTlv(p, 0x0003, CLIENT_IDENT, all, 2);
  }

  /** Client versions. */
  method LoginVersions(p: Packet, ghost sn: seq<byte>, ghost hash: seq<byte>, ghost all: seq<Tlv>)
    requires IsLogin(all, sn, hash)
    requires Holds(p, all[..3]) && p.offset + 38 <= p.data.Length
    modifies p, p.data
    ensures p.offset == old(p.offset) + 38 && Holds(p, all[..9])
  {
    hide Holds, CLIENT_IDENT, LANGUAGE, COUNTRY, Be16, Be32;
    AppendTlv(p, 0x0016, Be16(CLIENT_V1), all, 3);
    AppendTlv(p, 0x0017, Be16(CLIENT_V2), all, 4);
    AppendTlv(p, 0x0018, Be16(CLIENT_V3), all, 5);
    AppendTlv(p, 0x0019, Be16(CLIENT_V4), all, 6);
    AppendTlv(p, 0x001a, Be16(CLIENT_V5), all, 7);
    AppendTlv(p, 0x0014, Be32(CLIENT_V6), all, 8);
  }

  /** Language and country, and a final flag. */
  method LoginLocale(p: Packet, ghost sn: seq<byte>, ghost hash: seq<byte>, ghost all: seq<Tlv>)
    requires IsLogin(all, sn, hash)
    requires Holds(p, all[..9]) && p.offset + 17 <= p.data.Length
    modifies p, p.data
    ensures p.offset == old(p.offset) + 17 && Holds(p, all[..12])
  {
    ConstantLengths();
    hide Holds, CLIENT_IDENT, LANGUAGE, COUNTRY, Be16, Be32;
    AppendTlv(p, 0x000f, LANGUAGE, all, 9);
    AppendTlv(p, 0x000e, COUNTRY, all, 10);
    AppendTlv(p, 0x004a, [0x01], all, 11);
  }

  /** The body that bos_md5snac sends, in exactly the space it reserved. */
  method LoginBody(host: Host, sn: seq<byte>, hash: seq<byte>) returns (p: Packet, ghost all: seq<Tlv>)
    requires |sn| < 0x1_0000 && |hash| == 16
    ensures fresh(p) && fresh(p.data)
    ensures IsLogin(all, sn, hash) && Complete(p, all)
  {
    ConstantLengths();
    p := new Packet(host, 67 + |CLIENT_IDENT| + 16 + |sn|);
    all := [Tlv(0x0001, sn), Tlv(0x0025, hash), Tlv(0x0003, CLIENT_IDENT),
            Tlv(0x0016, Be16(CLIENT_V1)), Tlv(0x0017, Be16(CLIENT_V2)), Tlv(0x0018, Be16(CLIENT_V3)),
            Tlv(0x0019, Be16(CLIENT_V4)), Tlv(0x001a, Be16(CLIENT_V5)), Tlv(0x0014, Be32(CLIENT_V6)),
            Tlv(0x000f, LANGUAGE), Tlv(0x000e, COUNTRY), Tlv(0x004a, [0x01])];
    assert IsLogin(all, sn, hash);
    HoldsNothing(p, all);
    hide *;
    LoginNames(p, sn, hash, all);
    LoginVersions(p, sn, hash, all);
    LoginLocale(p, sn, hash, all);
    HoldsAll(p, all, 12);
  }

  const ENCODING := Octets("text/aolrtf; charset=\"iso-8859-1\"")

  lemma EncodingLength()
    ensures |ENCODING| == 33
  {
  }

  const CAPABILITIES: seq<byte> := [
    0x09, 0x46, 0x13, 0x46, 0x4c, 0x7f, 0x11, 0xd1, 0x82, 0x22, 0x44, 0x45, 0x53, 0x54, 0x00, 0x00,
    0x09, 0x46, 0x13, 0x4d, 0x4c, 0x7f, 0x11, 0xd1, 0x82, 0x22, 0x44, 0x45, 0x53, 0x54, 0x00, 0x00,
    0x09, 0x46, 0x00, 0x00, 0x4c, 0x7f, 0x11, 0xd1, 0x82, 0x22, 0x44, 0x45, 0x53, 0x54, 0x00, 0x00]

  /** What a location packet with a profile has to say. */
  function LocationTlvs(profile: seq<byte>, away: Option<seq<byte>>): seq<Tlv> {
    [Tlv(0x0001, ENCODING), Tlv(0x0002, profile), Tlv(0x0003, ENCODING),
     Tlv(0x0004, if away.Some? then away.value else []), Tlv(0x0005, CAPABILITIES),
     Tlv(0x0006, Be16(0x0004) + Be32(0x00020002))]
  }

  function Length(s: Option<seq<byte>>): nat {
    if s.Some? then |s.value| else 0
  }

  /** The length snac_set_location_info reserves. */
  function LocationLength(profile: Option<seq<byte>>, away: Option<seq<byte>>): nat {
    (if profile.Some? then 8 + |ENCODING| + |profile.value| else 0) + Length(away)
    + 10 + 8 + 4 + |ENCODING| + |CAPABILITIES|
  }

  /**
   snac_set_location_info. The reserved length counts the second encoding string only together
   with a profile, so every part fits exactly when there is a profile.
   */
  method LocationBody(host: Host, profile: Option<seq<byte>>, away: Option<seq<byte>>)
    returns (p: Packet, allFit: bool)
    requires Length(profile) < 0x1_0000 && Length(away) < 0x1_0000
    ensures fresh(p) && fresh(p.data)
    ensures allFit <==> profile.Some?
    ensures profile.Some? ==> Complete(p, LocationTlvs(profile.value, away))
  {
    EncodingLength();
    assert |CAPABILITIES| == 48;
    p := new Packet(host, LocationLength(profile, away));
    if profile.Some? {
      LocationWithProfile(p, profile.value, away);
      allFit := true;
    } else {
      hide ENCODING, CAPABILITIES, Print1, Be16, Be32;
      var ok0 := AddTlv(p, 0x0001, ENCODING);
      var ok1 := AddTlv(p, 0x0003, ENCODING);
      var ok2 := AddTlv(p, 0x0004, if away.Some? then away.value else []);
      var ok3 := AddTlv(p, 0x0005, CAPABILITIES);
      var ok4 := AddTlv(p, 0x0006, Be16(0x0004) + Be32(0x00020002));
      allFit := ok0 && ok1 && ok2 && ok3 && ok4;
    }
  }

  /** The profile, between two copies of its encoding. */
  method LocationTexts(p: Packet, profile: seq<byte>, ghost away: Option<seq<byte>>, ghost all: seq<Tlv>)
    requires |profile| < 0x1_0000 && all == LocationTlvs(profile, away) && Holds(p, all[..0])
    requires p.offset + 12 + 2 * |ENCODING| + |profile| <= p.data.Length
    modifies p, p.data
    ensures p.offset == old(p.offset) + 12 + 2 * |ENCODING| + |profile| && Holds(p, all[..3])
  {
    EncodingLength();
    hide ENCODING, CAPABILITIES, Be16, Be32, Holds, Print;
    AppendTlv(p, 0x0001, ENCODING, all, 0);
    AppendTlv(p, 0x0002, profile, all, 1);
    AppendTlv(p, 0x0003, ENCODING, all, 2);
  }

  method LocationWithProfile(p: Packet, profile: seq<byte>, away: Option<seq<byte>>)
    requires |profile| < 0x1_0000 && Length(away) < 0x1_0000
    requires p.offset == 0 && p.data.Length == LocationLength(Some(profile), away)
    modifies p, p.data
    ensures Complete(p, LocationTlvs(profile, away))
  {
    EncodingLength();
    assert |CAPABILITIES| == 48;
    ghost var all := LocationTlvs(profile, away);
    HoldsNothing(p, all);
    hide ENCODING, CAPABILITIES, Be16, Be32, Holds, Print;
    LocationTexts(p, profile, away, all);
    AppendTlv(p, 0x0004, if away.Some? then away.value else [], all, 3);
    AppendTlv(p, 0x0005, CAPABILITIES, all, 4);
    AppendTlv(p, 0x0006, Be16(0x0004) + Be32(0x00020002), all, 5);
    HoldsAll(p, all, 6);
  }
}
