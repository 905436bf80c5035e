/** Instant messages: what imcomm_im_send_message writes and what snac_get_incoming_im makes of it. */
module Im {
  import opened Bytes
  import opened Packets
  import opened Tlvs
  import opened Wrappers
  import opened Builders

  /** The TLV inside the message TLV that carries the text, after a charset of four octets. */
  function TextTlvs(msg: seq<byte>): seq<Tlv> {
    [Tlv(0x0501, [0x01]), Tlv(0x0101, [0, 0, 0, 0] + msg)]
  }

  lemma TextTlvsFit(msg: seq<byte>)
    requires |msg| + 13 < 0x1_0000
    ensures AllFit(TextTlvs(msg))
    ensures Print(TextTlvs(msg)) ==
            (Be16(0x0501) + Be16(1) + [0x01]) + (Be16(0x0101) + Be16(|msg| + 4) + ([0, 0, 0, 0] + msg))
    ensures |Print(TextTlvs(msg))| == |msg| + 13
  {
    var t := TextTlvs(msg);
    assert t[1..] == [t[1]] && [t[1]][1..] == [];
    assert Print([t[1]]) == Print1(t[1]) + Print([]) == Print1(t[1]);
    assert Print(t) == Print1(t[0]) + Print1(t[1]);
  }

  /** The TLVs of an outgoing message: the text, and an empty TLV 4 when it is automatic. */
  function ImTlvs(msg: seq<byte>, auto: bool): seq<Tlv>
    requires |msg| + 13 < 0x1_0000
  {
    TextTlvsFit(msg);
    [Tlv(0x0002, Print(TextTlvs(msg)))] + (if auto then [Tlv(0x0004, [])] else [])
  }

  function ImHeader(whom: seq<byte>): seq<byte> {
    Be32(0x01020304) + Be32(0x05060708) + Be16(0x0001) + [|whom| % 0x100] + whom
  }

  /** The text part as it is written: the nested lengths run ahead of their contents. */
  function TextOctets(msg: seq<byte>): seq<byte>
    requires |msg| + 13 < 0x1_0000
  {
    Be16(0x0002) + Be16(|msg| + 13)
    + ((Be32(0x05010001) + [0x01]) + (Be16(0x0101) + Be16(|msg| + 4) + (Be32(0) + msg)))
  }

  lemma TextIsTlv(msg: seq<byte>)
    requires |msg| + 13 < 0x1_0000
    ensures var t := ImTlvs(msg, false)[0]; Fits(t) && TextOctets(msg) == Print1(t)
  {
    TextTlvsFit(msg);
    assert Be32(0x05010001) == Be16(0x0501) + Be16(1) && Be32(0) == [0, 0, 0, 0];
    hide Be16, Be32;
    assert (Be16(0x0501) + Be16(1) + [0x01]) == Be32(0x05010001) + [0x01];
  }

  lemma Regroup(w: seq<byte>, a: seq<byte>, b: seq<byte>, c: seq<byte>, d: seq<byte>,
                e: seq<byte>, f: seq<byte>, g: seq<byte>, h: seq<byte>)
    ensures w + a + b + c + d + e + f + g + h == w + (a + b + ((c + d) + (e + f + (g + h))))
  {
  }

  method AddHeader(p: Packet, whom: seq<byte>)
    requires p.offset == 0 && 11 + |whom| <= p.data.Length
    modifies p, p.data
    ensures p.offset == 11 + |whom| <= p.data.Length && p.Written() == ImHeader(whom)
  {
    hide Be16, Be32;
    var ok;
    ok := p.Add32(0x01020304);
    ok := p.Add32(0x05060708);
    ok := p.Add16(0x0001);
    ok := p.Add8(|whom| % 0x100);
    ok := p.AddRaw(whom);
  }

  /** The outer TLV's header and the feature TLV. */
  method AddTextStart(p: Packet, length: uint16)
    requires p.offset + 9 <= p.data.Length
    modifies p, p.data
    ensures p.offset == old(p.offset) + 9 <= p.data.Length
    ensures p.Written() == old(p.Written()) + Be16(0x0002) + Be16(length) + Be32(0x05010001) + [0x01]
  {
    hide Be16, Be32;
    var ok;
    ok := p.Add16(0x0002);
    ok := p.Add16(length);
    ok := p.Add32(0x05010001);
    ok := p.Add8(0x01);
  }

  /** The text TLV. */
  method AddTextEnd(p: Packet, length: uint16, msg: seq<byte>)
    requires p.offset + 8 + |msg| <= p.data.Length
    modifies p, p.data
    ensures p.offset == old(p.offset) + 8 + |msg| <= p.data.Length
    ensures p.Written() == old(p.Written()) + Be16(0x0101) + Be16(length) + Be32(0x00000000) + msg
  {
    hide Be16, Be32;
    var ok;
    ok := p.Add16(0x0101);
    ok := p.Add16(length);
    ok := p.Add32(0x00000000);
    ok := p.AddRaw(msg);
  }

  function ImBody(whom: seq<byte>, msg: seq<byte>, auto: bool): seq<byte>
    requires |msg| + 13 < 0x1_0000
  {
    ImTlvsFit(msg, auto);
    ImHeader(whom) + Print(ImTlvs(msg, auto))
  }

  lemma ImTlvsFit(msg: seq<byte>, auto: bool)
    requires |msg| + 13 < 0x1_0000
    ensures AllFit(ImTlvs(msg, auto))
    ensures Print(ImTlvs(msg, auto)) == TextOctets(msg) + (if auto then Be16(0x0004) + Be16(0x0000) else [])
  {
    var ts := ImTlvs(msg, auto);
    TextIsTlv(msg);
    PrintSnoc([], ts[0]);
    assert [] + [ts[0]] == [ts[0]];
    if auto {
      PrintSnoc([ts[0]], ts[1]);
    }
  }

  lemma BodyParts(whom: seq<byte>, msg: seq<byte>, auto: bool)
    requires |msg| + 13 < 0x1_0000
    ensures var body := ImBody(whom, msg, auto);
            && |body| >= 11 + |whom| && body[..10] == [1, 2, 3, 4, 5, 6, 7, 8, 0, 1]
            && body[10] == |whom| % 0x100 && body[11..11 + |whom|] == whom
            && Parse(body[11 + |whom|..]) == Some(ImTlvs(msg, auto))
  {
    ImTlvsFit(msg, auto);
    ParsePrint(ImTlvs(msg, auto));
    HeaderParts(whom, Print(ImTlvs(msg, auto)));
    hide ImHeader, ImTlvs, Print, Parse;
  }

  lemma HeaderParts(whom: seq<byte>, rest: seq<byte>)
    ensures var body := ImHeader(whom) + rest;
            && |body| == 11 + |whom| + |rest| && body[..10] == [1, 2, 3, 4, 5, 6, 7, 8, 0, 1]
            && body[10] == |whom| % 0x100 && body[11..11 + |whom|] == whom && body[11 + |whom|..] == rest
  {
    assert Be32(0x01020304) == [1, 2, 3, 4] && Be32(0x05060708) == [5, 6, 7, 8] && Be16(1) == [0, 1];
    hide Be16, Be32;
    assert Be32(0x01020304) + Be32(0x05060708) + Be16(0x0001) == [1, 2, 3, 4, 5, 6, 7, 8, 0, 1];
  }

  method AddText(p: Packet, msg: seq<byte>)
    requires |msg| + 13 < 0x1_0000 && p.offset + 17 + |msg| <= p.data.Length
    modifies p, p.data
    ensures p.offset == old(p.offset) + 17 + |msg| <= p.data.Length
    ensures p.Written() == old(p.Written()) + TextOctets(msg)
  {
    hide Be16, Be32, Packet.Written;
    Regroup(p.Written(), Be16(2), Be16(|msg| + 13), Be32(0x05010001), [0x01],
            Be16(0x0101), Be16(|msg| + 4), Be32(0), msg);
    AddTextStart(p, |msg| + 13);
    AddTextEnd(p, |msg| + 4, msg);
  }

  method AddEmpty(p: Packet)
    requires p.offset + 4 <= p.data.Length
    modifies p, p.data
    ensures p.offset == old(p.offset) + 4 <= p.data.Length
    ensures p.Written() == old(p.Written()) + (Be16(0x0004) + Be16(0x0000))
  {
    hide Be16, Be32;
    var ok;
    ok := p.Add16(0x0004);
    ok := p.Add16(0x0000);
  }

  /** The octets, part by part. */
  method WriteBody(host: Host, whom: seq<byte>, msg: seq<byte>, automsg: bool) returns (p: Packet)
    requires |msg| + 13 < 0x1_0000
    ensures p.offset == p.data.Length == 28 + |whom| + |msg| + (if automsg then 4 else 0)
    ensures p.data[..] == ImBody(whom, msg, automsg)
  {
    ImTlvsFit(msg, automsg);
    hide Be16, Be32, Print, ImTlvs, ImHeader, TextOctets;
    p := new Packet(host, 28 + |whom| + |msg| + (if automsg then 4 else 0));
    AddHeader(p, whom);
    AddText(p, msg);
    if automsg {
      AddEmpty(p);
    }
    assert p.data[..p.offset] == p.data[..];
  }

  /**
   imcomm_im_send_message, up to the snac_sendpkt: the body in exactly the space it reserved. A reader
   finds the cookie, channel 1, the length of the recipient's name in front of it, and the TLVs.
   */
  method SendMessage(host: Host, whom: seq<byte>, msg: seq<byte>, automsg: bool) returns (p: Packet)
    requires |msg| + 13 < 0x1_0000
    ensures p.offset == p.data.Length == 28 + |whom| + |msg| + (if automsg then 4 else 0)
    ensures p.data[..10] == [1, 2, 3, 4, 5, 6, 7, 8, 0, 1]
    ensures p.data[10] == |whom| % 0x100 && p.data[11..11 + |whom|] == whom
    ensures Parse(p.data[11 + |whom|..]) == Some(ImTlvs(msg, automsg))
  {
    hide *;
    p := WriteBody(host, whom, msg, automsg);
    BodyParts(whom, msg, automsg);
    ghost var body, n := p.data[..], 11 + |whom|;
    assert body[..10] == p.data[..10] && body[11..n] == p.data[11..n] && body[n..] == p.data[n..];
  }

  /** What the IMCOMM_IM_INCOMING callback is given. */
  datatype Delivery = Nothing | Message(sender: seq<byte>, auto: bool, text: seq<byte>)

  /** The effects of an incoming message on the roster: new sign-on times, and whether idle time is reset. */
  datatype Effects = Effects(onlineTimes: seq<uint32>, resetIdle: bool)

  function First(ts: seq<Tlv>, kind: uint16): Option<Tlv> {
    if ts == [] then None else if ts[0].kind == kind then Some(ts[0]) else First(ts[1..], kind)
  }

  predicate HasEmpty4(ts: seq<Tlv>) { Tlv(0x0004, []) in ts }

  /** The message in a list of TLVs: the text TLV of the first message TLV. */
  function Text(ts: seq<Tlv>): Option<seq<byte>> {
    var outer := First(ts, 0x0002);
    if outer.None? || Parse(outer.value.value).None? then None
    else
      var inner := First(Parse(outer.value.value).value, 0x0101);
      if inner.None? || |inner.value.value| < 4 then None else Some(inner.value.value[4..])
  }

  /** Where the parts of an incoming message lie. */
  function SenderOf(data: seq<byte>): seq<byte>
    requires |data| > 20 && |data| >= 25 + data[20] as int
  {
    data[21..21 + data[20]]
  }

  function TlvsOf(data: seq<byte>): seq<byte>
    requires |data| > 20 && |data| >= 25 + data[20] as int
  {
    data[25 + data[20] as int..]
  }

  /** What snac_get_incoming_im takes for granted: it checks no lengths. */
  ghost predicate Readable(data: seq<byte>) {
    && 20 < |data| < 0x1_0000 && |data| >= 25 + data[20] as int
    && var list := Parse(TlvsOf(data));
    && list.Some?
    && TimesReadable(list.value)
    && var outer := First(list.value, 0x0002);
    && (outer.Some? ==>
          && Parse(outer.value.value).Some? && |outer.value.value| < 0x1_0000
          && var inner := First(Parse(outer.value.value).value, 0x0101);
          && (inner.Some? ==> |inner.value.value| >= 4))
  }

  function OnlineTimes(ts: seq<Tlv>): seq<uint32>
    requires TimesReadable(ts)
  {
    if ts == [] then []
    else
      var front := OnlineTimes(ts[..|ts| - 1]);
      var t := ts[|ts| - 1];
      if t.kind == 0x0003 then front + [Of32(t.value[..4])] else front
  }

  /** The search loops: the first node of a kind. */
  method Find(ts: seq<Tlv>, kind: uint16) returns (r: Option<Tlv>)
    ensures r == First(ts, kind)
  {
    var k := 0;
    assert ts[0..] == ts;
    while k < |ts|
      invariant k <= |ts| && First(ts, kind) == First(ts[k..], kind)
    {
      if ts[k].kind == kind {
        return Some(ts[k]);
      }
      assert ts[k..][1..] == ts[k + 1..];
      k := k + 1;
    }
    return None;
  }

  /** The first loop of snac_get_incoming_im. */
  method Scan(host: Host, ts: seq<Tlv>) returns (auto: bool, times: seq<uint32>)
    requires TimesReadable(ts)
    ensures auto <==> HasEmpty4(ts)
    ensures times == OnlineTimes(ts)
  {
    auto, times := false, [];
    for k := 0 to |ts|
      invariant auto <==> HasEmpty4(ts[..k])
      invariant times == OnlineTimes(ts[..k])
    {
      assert ts[..k + 1] == ts[..k] + [ts[k]];
      if ts[k].kind == 0x0004 && |ts[k].value| == 0 {
        auto := true;
      }
      if ts[k].kind == 0x0003 {
        times := times + [FourTo32(host, ts[k].value)];
      }
    }
    assert ts[..|ts|] == ts;
  }

  /** snac_get_incoming_im. */
  method GetIncomingIm(host: Host, data: seq<byte>) returns (d: Delivery, e: Effects)
    requires Readable(data)
    ensures var ts := Parse(TlvsOf(data)).value;
            && e == Effects(OnlineTimes(ts), !HasEmpty4(ts))
            && d == match Text(ts)
                    case None => Nothing
                    case Some(text) => Message(SenderOf(data), HasEmpty4(ts), text)
  {
    hide Parse, First, TimesReadable, OnlineTimes, HasEmpty4;
    var n: nat := data[20];
    var numtlv: nat := TwoTo16(host, data[n + 23..]);
    var sn := data[21..21 + n];
    var ts := Split(host, data[25 + n..], numtlv + 1);
    var auto, times := Scan(host, ts);
    e := Effects(times, !auto);
    var outer := Find(ts, 0x0002);
    if outer.None? {
      return Nothing, e;
    }
    var sub := Split(host, outer.value.value, 2);
    var inner := Find(sub, 0x0101);
    if inner.None? {
      return Nothing, e;
    }
    d := Message(sn, auto, inner.value.value[4..]);
  }

  lemma {:induction false} FirstAppend(ts: seq<Tlv>, us: seq<Tlv>, kind: uint16)
    ensures First(ts + us, kind) == if First(ts, kind).Some? then First(ts, kind) else First(us, kind)
  {
    if ts == [] {
      assert ts + us == us;
    } else {
      assert (ts + us)[1..] == ts[1..] + us;
      FirstAppend(ts[1..], us, kind);
    }
  }

  lemma FirstText(msg: seq<byte>)
    ensures First(TextTlvs(msg), 0x0101) == Some(Tlv(0x0101, [0, 0, 0, 0] + msg))
  {
    var inner := TextTlvs(msg);
    assert inner[1..] == [inner[1]] && First([inner[1]], 0x0101) == Some(inner[1]);
  }

  lemma TextOfOutgoing(msg: seq<byte>, auto: bool)
    requires |msg| + 13 < 0x1_0000
    ensures Text(ImTlvs(msg, auto)) == Some(msg)
  {
    var ts, inner := ImTlvs(msg, auto), TextTlvs(msg);
    TextTlvsFit(msg);
    ParsePrint(inner);
    assert First(ts, 0x0002) == Some(ts[0]);
    FirstText(msg);
    assert inner[1].value[4..] == msg;
  }

  /** An SNAC(04,07): the sender's user information, and the sender's own TLVs as they were sent. */
  function Relayed(front: seq<byte>, sender: seq<byte>, warning: seq<byte>, count: uint16, info: seq<byte>,
                   own: seq<byte>): seq<byte>
    requires |sender| < 0x100
  {
    front + [|sender|] + sender + warning + Be16(count) + (info + own)
  }

  lemma RelayedParts(front: seq<byte>, sender: seq<byte>, warning: seq<byte>, count: uint16, info: seq<byte>,
                     own: seq<byte>)
    requires |front| == 20 && |sender| < 0x100 && |warning| == 2
    ensures var data := Relayed(front, sender, warning, count, info, own);
            && |data| == 25 + |sender| + |info| + |own| && data[20] == |sender|
            && SenderOf(data) == sender && TlvsOf(data) == info + own
  {
    var data := Relayed(front, sender, warning, count, info, own);
    assert data[20] == |sender| && data[21..21 + |sender|] == sender;
    assert data[25 + |sender|..] == info + own;
  }

  predicate TimesReadable(ts: seq<Tlv>) {
    forall t | t in ts && t.kind == 0x0003 :: |t.value| >= 4
  }

  lemma TimesSnoc(ts: seq<Tlv>, t: Tlv)
    requires TimesReadable(ts) && t.kind != 0x0003
    ensures TimesReadable(ts + [t]) && OnlineTimes(ts + [t]) == OnlineTimes(ts)
  {
    assert (ts + [t])[..|ts|] == ts;
  }

  /** The sign-on times are the values of the TLVs 3, in order, read in network order. */
  lemma TimesNext(ts: seq<Tlv>, t: Tlv)
    requires TimesReadable(ts + [t])
    ensures TimesReadable(ts) && (t.kind == 0x0003 ==> |t.value| >= 4)
    ensures OnlineTimes([]) == []
    ensures OnlineTimes(ts + [t]) == OnlineTimes(ts) +
            if t.kind != 0x0003 then []
            else [0x100_0000 * t.value[0] as int + 0x1_0000 * t.value[1] as int
                  + 0x100 * t.value[2] as int + t.value[3] as int]
  {
    assert t in ts + [t] && forall u | u in ts :: u in ts + [t];
    assert (ts + [t])[..|ts|] == ts && OnlineTimes(ts) + [] == OnlineTimes(ts);
  }

  /** User information in front of the sender's TLVs: what each reader of the list sees. */
  lemma BehindUserInfo(info: seq<Tlv>, msg: seq<byte>, auto: bool)
    requires |msg| + 13 < 0x1_0000 && TimesReadable(info) && First(info, 0x0002).None?
    ensures var ts := info + ImTlvs(msg, auto);
            && TimesReadable(ts) && OnlineTimes(ts) == OnlineTimes(info)
            && (HasEmpty4(ts) <==> auto || HasEmpty4(info))
            && First(ts, 0x0002) == Some(Tlv(0x0002, Print(TextTlvs(msg))))
            && Text(ts) == Some(msg)
  {
    var ours := ImTlvs(msg, auto);
    TextTlvsFit(msg);
    FirstAppend(info, ours, 0x0002);
    TextOfOutgoing(msg, auto);
    TimesSnoc(info, ours[0]);
    if auto {
      TimesSnoc(info + [ours[0]], ours[1]);
      assert info + ours == info + [ours[0]] + [ours[1]];
    } else {
      assert ours == [ours[0]];
    }
  }

  lemma ReadableText(data: seq<byte>, ts: seq<Tlv>, msg: seq<byte>)
    requires 20 < |data| < 0x1_0000 && |data| >= 25 + data[20] as int && |msg| + 13 < 0x1_0000
    requires Parse(TlvsOf(data)) == Some(ts) && TimesReadable(ts) && AllFit(TextTlvs(msg))
    requires First(ts, 0x0002) == Some(Tlv(0x0002, Print(TextTlvs(msg))))
    ensures Readable(data)
  {
    ParsePrint(TextTlvs(msg));
    TextTlvsFit(msg);
    FirstText(msg);
    hide Parse, Print, First, AllFit, TimesReadable, TlvsOf, TextTlvs;
  }

  /**
   A message arrives: the TLVs that SendMessage wrote, relayed behind any user information without a
   message TLV of its own, are read as their text, the flag being set also by an empty TLV 4 in the
   user information.
   */
  lemma MessageArrives(front: seq<byte>, sender: seq<byte>, warning: seq<byte>, count: uint16,
                       info: seq<Tlv>, own: seq<byte>, msg: seq<byte>, auto: bool)
    requires |front| == 20 && |sender| < 0x100 && |warning| == 2 && AllFit(info) && |msg| + 13 < 0x1_0000
    requires TimesReadable(info) && First(info, 0x0002).None?
    requires Parse(own) == Some(ImTlvs(msg, auto)) && |sender| + |Print(info)| + |own| + 25 < 0x1_0000
    ensures var data := Relayed(front, sender, warning, count, Print(info), own);
            && Readable(data) && SenderOf(data) == sender
            && var ts := Parse(TlvsOf(data)).value;
            && Text(ts) == Some(msg)
            && (HasEmpty4(ts) <==> auto || HasEmpty4(info))
            && OnlineTimes(ts) == OnlineTimes(info)
  {
    hide *;
    TextTlvsFit(msg);
    var ours := ImTlvs(msg, auto);
    PrintParse(own);
    PrintAppend(info, ours);
    ParsePrint(info + ours);
    RelayedParts(front, sender, warning, count, Print(info), own);
    BehindUserInfo(info, msg, auto);
    ReadableText(Relayed(front, sender, warning, count, Print(info), own), info + ours, msg);
  }

  lemma EmptyIs(ts: seq<Tlv>)
    ensures HasEmpty4(ts) <==> Tlv(0x0004, []) in ts
  {
  }

  /** From one host to another: the server takes the recipient and the TLVs from the octets it is sent. */
  method SendAndReceive(from: Host, to: Host, whom: seq<byte>, msg: seq<byte>, automsg: bool, front: seq<byte>,
                        sender: seq<byte>, warning: seq<byte>, count: uint16,
                        ghost info: seq<Tlv>, infoOctets: seq<byte>)
    returns (reached: seq<byte>, d: Delivery, e: Effects)
    requires |whom| < 0x100 && |msg| + 13 < 0x1_0000
    requires |front| == 20 && |sender| < 0x100 && |warning| == 2 && AllFit(info) && infoOctets == Print(info)
    requires TimesReadable(info) && First(info, 0x0002).None?
    requires |sender| + |infoOctets| + |msg| + 46 < 0x1_0000
    ensures reached == whom && d == Message(sender, automsg || Tlv(0x0004, []) in info, msg)
    ensures e == Effects(OnlineTimes(info), !automsg && Tlv(0x0004, []) !in info)
  {
    var p := SendMessage(from, whom, msg, automsg);
    var n: nat := p.data[10];
    assert n == |whom|;
    hide *;
    reached := p.data[11..11 + n];
    var own := p.data[11 + n..];
    MessageArrives(front, sender, warning, count, info, own, msg, automsg);
    d, e := GetIncomingIm(to, Relayed(front, sender, warning, count, infoOctets, own));
    EmptyIs(info);
  }
}
