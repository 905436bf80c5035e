/** FLAP frames and the numbering of frames and SNACs: imcomm/flap.c and the senders of imcomm/snac.c. */
module Flap {
  import opened Bytes
  import Receive

  /** A packet to be sent as the payload of one frame. */
  datatype Outgoing = Outgoing(channel: byte, payload: seq<byte>)

  predicate Fits(o: Outgoing) { |o.payload| < 0x1_0000 }

  predicate AllFit(os: seq<Outgoing>) { forall k | 0 <= k < |os| :: Fits(os[k]) }

  function Header(n: uint16, o: Outgoing): (s: seq<byte>)
    ensures |s| == 6
  {
    [0x2a, o.channel] + Be16(n) + Be16(|o.payload| % 0x1_0000)
  }

  function Frame(n: uint16, o: Outgoing): seq<byte> {
    Header(n, o) + o.payload
  }

  /** The sequence number k frames after n. */
  function Number(n: nat, k: nat): uint16 { (n + k) % 0x1_0000 }

  /** The octets of frames numbered from n on. */
  function Wire(n: nat, os: seq<Outgoing>): seq<byte> {
    if os == [] then [] else Wire(n, os[..|os| - 1]) + Frame(Number(n, |os| - 1), os[|os| - 1])
  }

  /** What a receiver makes of them: the k-th frame carries the k-th number. */
  function Received(n: nat, os: seq<Outgoing>): (us: seq<Receive.Unit>)
    ensures |us| == |os|
  {
    seq(|os|, k requires 0 <= k < |os| => Receive.Unit(Header(Number(n, k), os[k]), os[k].payload))
  }

  lemma FrameShape(n: uint16, o: Outgoing)
    requires Fits(o)
    ensures var s := Frame(n, o);
            && |s| == 6 + |o.payload| && s[..6] == Header(n, o) && s[6..] == o.payload
            && Receive.DataLength(s) == |o.payload|
  {
    var s := Frame(n, o);
    assert s[4..6] == Header(n, o)[4..6] == Be16(|o.payload|);
  }

  lemma FrameParses(n: uint16, o: Outgoing)
    requires Fits(o)
    ensures Receive.Units(Frame(n, o)) == [Receive.Unit(Header(n, o), o.payload)]
    ensures Receive.Rest(Frame(n, o)) == []
    ensures Receive.Positive(Frame(n, o)) <==> o.payload != []
  {
    var s := Frame(n, o);
    FrameShape(n, o);
    hide Header, Frame, Receive.DataLength;
    assert s[6..6 + |o.payload|] == s[6..] && Receive.Tail(s) == [];
    assert Receive.Units(s) == [Receive.Head(s)] + Receive.Units([]);
  }

  function Consecutive(n: nat, len: nat): (numbers: seq<nat>)
    ensures |numbers| == len
  {
    seq(len, k requires 0 <= k < len => n + k)
  }

  /** The octets of frames that carry these numbers, modulo 65536. */
  function WireOf(numbers: seq<nat>, os: seq<Outgoing>): seq<byte>
    requires |numbers| == |os|
  {
    if os == [] then []
    else
      var k := |os| - 1;
      WireOf(numbers[..k], os[..k]) + Frame(Number(numbers[k], 0), os[k])
  }

  lemma WireOfSnoc(numbers: seq<nat>, os: seq<Outgoing>, number: nat, o: Outgoing)
    requires |numbers| == |os|
    ensures WireOf(numbers + [number], os + [o]) == WireOf(numbers, os) + Frame(Number(number, 0), o)
  {
    assert (os + [o])[..|os|] == os && (numbers + [number])[..|os|] == numbers;
    hide Frame;
  }

  lemma ConsecutiveSnoc(n: nat, k: nat)
    ensures Consecutive(n, k) + [n + k] == Consecutive(n, k + 1)
  {
  }

  lemma WireSnoc(n: nat, os: seq<Outgoing>, o: Outgoing)
    ensures Wire(n, os + [o]) == Wire(n, os) + Frame(Number(n, |os|), o)
  {
    hide Frame, Number;
    assert (os + [o])[..|os|] == os;
  }

  lemma {:induction false} WireOfConsecutive(n: nat, os: seq<Outgoing>)
    ensures WireOf(Consecutive(n, |os|), os) == Wire(n, os)
  {
    if os != [] {
      var k := |os| - 1;
      var front, last := os[..k], os[k];
      WireOfConsecutive(n, front);
      WireOfSnoc(Consecutive(n, k), front, n + k, last);
      WireSnoc(n, front, last);
      ConsecutiveSnoc(n, k);
      assert Number(n + k, 0) == Number(n, k);
      hide *;
      assert front + [last] == os;
    }
  }

  function ReceivedOf(numbers: seq<nat>, os: seq<Outgoing>): (us: seq<Receive.Unit>)
    requires |numbers| == |os|
    ensures |us| == |os|
  {
    seq(|os|, k requires 0 <= k < |os| => Receive.Unit(Header(Number(numbers[k], 0), os[k]), os[k].payload))
  }

  lemma ReceivedOfSnoc(numbers: seq<nat>, os: seq<Outgoing>, number: nat, o: Outgoing)
    requires |numbers| == |os|
    ensures ReceivedOf(numbers + [number], os + [o])
         == ReceivedOf(numbers, os) + [Receive.Unit(Header(Number(number, 0), o), o.payload)]
  {
  }

  /** Frames are received one for one, whatever numbers they carry. */
  lemma {:induction false} WireOfParses(numbers: seq<nat>, os: seq<Outgoing>)
    requires |numbers| == |os| && AllFit(os)
    ensures Receive.Units(WireOf(numbers, os)) == ReceivedOf(numbers, os) && Receive.Rest(WireOf(numbers, os)) == []
    ensures (forall k | 0 <= k < |os| :: os[k].payload != []) ==> Receive.Positive(WireOf(numbers, os))
  {
    if os != [] {
      var k := |os| - 1;
      var ns, front, number, last := numbers[..k], os[..k], Number(numbers[k], 0), os[k];
      var frame := Frame(number, last);
      ReceivedOfSnoc(ns, front, numbers[k], last);
      assert os == front + [last] && numbers == ns + [numbers[k]];
      FrameParses(number, last);
      hide Header, Frame, ReceivedOf, Receive.Units, Receive.Rest, Receive.Positive;
      WireOfParses(ns, front);
      Receive.Extend(WireOf(ns, front), frame);
      assert [] + frame == frame;
    }
  }

  /** The frames of a run are received one for one. */
  lemma WireParses(n: nat, os: seq<Outgoing>)
    requires AllFit(os)
    ensures Receive.Units(Wire(n, os)) == Received(n, os) && Receive.Rest(Wire(n, os)) == []
    ensures (forall k | 0 <= k < |os| :: os[k].payload != []) ==> Receive.Positive(Wire(n, os))
  {
    hide *;
    WireOfConsecutive(n, os);
    WireOfParses(Consecutive(n, |os|), os);
    ReceivedOfConsecutive(n, os);
  }

  lemma ReceivedOfConsecutive(n: nat, os: seq<Outgoing>)
    ensures ReceivedOf(Consecutive(n, |os|), os) == Received(n, os)
  {
    hide Header;
  }

  /** What a receiver reads in the k-th frame: the mark, the channel, the k-th number, the length and the payload. */
  lemma UnitsSay(n: nat, os: seq<Outgoing>, k: nat)
    requires AllFit(os) && k < |os|
    ensures |Receive.Units(Wire(n, os))| == |os|
    ensures var u := Receive.Units(Wire(n, os))[k];
            && |u.header| == 6
            && u.header[0] == 0x2a && u.header[1] == os[k].channel && u.data == os[k].payload
            && Of16(u.header[2..4]) == (n + k) % 0x1_0000 && Of16(u.header[4..6]) == |os[k].payload|
  {
    WireParses(n, os);
    HeaderSays(Number(n, k), os[k]);
  }

  /** The same for frames that carry any numbers. */
  lemma UnitsSayOf(numbers: seq<nat>, os: seq<Outgoing>, k: nat)
    requires |numbers| == |os| && AllFit(os) && k < |os|
    ensures |Receive.Units(WireOf(numbers, os))| == |os|
    ensures var u := Receive.Units(WireOf(numbers, os))[k];
            && |u.header| == 6 && u.header[1] == os[k].channel && u.data == os[k].payload
            && Of16(u.header[2..4]) == numbers[k] % 0x1_0000
  {
    WireOfParses(numbers, os);
    HeaderSays(Number(numbers[k], 0), os[k]);
  }

  lemma HeaderSays(n: uint16, o: Outgoing)
    requires Fits(o)
    ensures var h := Header(n, o);
            h[0] == 0x2a && h[1] == o.channel && Of16(h[2..4]) == n && Of16(h[4..6]) == |o.payload|
  {
    var h := Header(n, o);
    Value16(n);
    Value16(|o.payload|);
    assert h[2..4] == Be16(n) && h[4..6] == Be16(|o.payload|);
  }

  /** So the octets on the wire determine the packets. */
  lemma WireInjective(n: nat, os: seq<Outgoing>, qs: seq<Outgoing>)
    requires AllFit(os) && AllFit(qs) && Wire(n, os) == Wire(n, qs)
    ensures os == qs
  {
    WireParses(n, os);
    WireParses(n, qs);
    assert |os| == |Received(n, os)| == |qs|;
    forall k | 0 <= k < |os|
      ensures os[k] == qs[k]
    {
      var u := Received(n, os)[k];
      assert u == Received(n, qs)[k];
      assert u.header[1] == os[k].channel && u.header[1] == qs[k].channel;
    }
  }

  lemma {:induction false} WireAppend(n: nat, os: seq<Outgoing>, qs: seq<Outgoing>)
    ensures Wire(n, os + qs) == Wire(n, os) + Wire(n + |os|, qs)
  {
    if qs == [] {
      assert os + qs == os;
    } else {
      hide Frame;
      var front, last := qs[..|qs| - 1], qs[|qs| - 1];
      assert (os + qs)[..|os + qs| - 1] == os + front;
      WireAppend(n, os, front);
      var frame := Frame(Number(n, |os + front|), last);
      assert frame == Frame(Number(n + |os|, |front|), last);
      assert Wire(n, os) + Wire(n + |os|, front) + frame == Wire(n, os) + (Wire(n + |os|, front) + frame);
    }
  }

  /** One wire begins another exactly if its frames begin the other's. */
  lemma WirePrefix(n: nat, os: seq<Outgoing>, qs: seq<Outgoing>)
    requires AllFit(os) && AllFit(qs)
    ensures Wire(n, os) <= Wire(n, qs) <==> os <= qs
  {
    hide Wire, AllFit;
    if os <= qs {
      WireAppend(n, os, qs[|os|..]);
      assert os + qs[|os|..] == qs;
    }
    if Wire(n, os) <= Wire(n, qs) {
      PrefixReceived(n, os, qs);
      ReceivedPrefix(n, os, qs);
    }
  }

  lemma PrefixReceived(n: nat, os: seq<Outgoing>, qs: seq<Outgoing>)
    requires AllFit(os) && AllFit(qs) && Wire(n, os) <= Wire(n, qs)
    ensures Received(n, os) <= Received(n, qs)
  {
    hide *;
    WireParses(n, os);
    WireParses(n, qs);
    var a, b := Wire(n, os), Wire(n, qs);
    Receive.Extend(a, b[|a|..]);
    assert a + b[|a|..] == b;
  }

  lemma ReceivedPrefix(n: nat, os: seq<Outgoing>, qs: seq<Outgoing>)
    requires Received(n, os) <= Received(n, qs)
    ensures os <= qs
  {
    assert |os| == |Received(n, os)| <= |Received(n, qs)| == |qs|;
    forall k | 0 <= k < |os|
      ensures os[k] == qs[k]
    {
      var u := Received(n, os)[k];
      assert u == Received(n, qs)[k];
      assert u.header[1] == os[k].channel && u.header[1] == qs[k].channel;
    }
  }
}
