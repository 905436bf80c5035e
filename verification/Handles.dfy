/** The sending half of a connection handle, in its two builds: sending at once, and queueing. */
module Handles {
  import opened Bytes
  import opened Packets
  import opened Flap
  import opened Senders
  import opened Numbering

  lemma FrameGroups(w: seq<byte>, n: uint16, o: Outgoing)
    ensures w + [0x2a] + [o.channel] + Be16(n) + Be16(|o.payload| % 0x1_0000) + o.payload == w + Frame(n, o)
  {
    hide Be16;
  }

  /** pkt_add8, pkt_add8, pkt_add16, pkt_add16, pkt_addraw: one frame. */
  method AddFrame(p: Packet, seqnum: uint16, o: Outgoing)
    requires p.offset + 6 + |o.payload| <= p.data.Length
    modifies p, p.data
    ensures p.offset == old(p.offset) + 6 + |o.payload| <= p.data.Length
    ensures p.Written() == old(p.Written()) + Frame(seqnum, o)
  {
    FrameGroups(p.Written(), seqnum, o);
    hide Be16, Frame;
    var ok := p.Add8(0x2a);
    ok := p.Add8(o.channel);
    ok := p.Add16(seqnum);
    ok := p.Add16(|o.payload| % 0x1_0000);
    ok := p.AddRaw(o.payload);
  }

  /** pkt_add16, pkt_add16, pkt_add16, pkt_add32, pkt_addraw: the payload of a SNAC frame. */
  method BuildSnac(host: Host, r: Request, snacreq: uint32) returns (payload: seq<byte>)
    ensures payload == Snac(r.family, r.subtype, snacreq, r.data)
  {
    var p := new Packet(host, |r.data| + 10);
    hide Be16, Be32;
    var ok := p.Add16(r.family);
    ok := p.Add16(r.subtype);
    ok := p.Add16(0);
    ok := p.Add32(snacreq);
    ok := p.AddRaw(r.data);
    payload := p.data[..];
    assert payload == p.Written();
    assert [] + Be16(r.family) == Be16(r.family);
  }

  function NextNumber(seqnum: uint16): uint16 {
    if seqnum < 0xffff then seqnum + 1 else 0
  }

  lemma NumberNext(n: nat)
    ensures NextNumber(Number(n, 0)) == Number(n + 1, 0)
  {
  }

  lemma StillIdle(st: State)
    ensures !st.idle ==> forall ok :: IdleTimeIf(st, 0, ok) == st
  {
  }

  class Handle {
    const host: Host
    var seqnum: uint16
    var snacreq: uint32
    var isidle: bool
    var srv_pause: bool
    var wire: seq<byte>
    var writes: nat
    const works: nat -> bool  // whether the n-th write to the connection succeeds
    ghost var frames: seq<Outgoing>
    ghost var numbers: seq<nat>  // the numbers of the frames, not yet cut to 16 bits
    ghost var next: nat          // the number of the next frame

    ghost function View(): State
      reads this
    {
      State(frames, snacreq, isidle, srv_pause)
    }

    /** The wire holds the frames with their numbers, and seqnum is the next number. */
    ghost predicate Valid()
      reads this
    {
      |numbers| == |frames| && wire == WireOf(numbers, frames) && seqnum == Number(next, 0)
    }

    /** Since the numbers were ns and the next one n, no number has been left out. */
    ghost predicate Follows(ns: seq<nat>, n: nat)
      reads this
    {
      && |ns| <= |numbers| && numbers == ns + Consecutive(n, |numbers| - |ns|)
      && next == n + (|numbers| - |ns|)
    }

    constructor (host: Host, works: nat -> bool)
      ensures Valid() && View() == State([], 0, false, false)
      ensures numbers == [] && next == FIRST && writes == 0 && this.works == works
    {
      this.host, this.works := host, works;
      seqnum, snacreq, isidle, srv_pause := 0x1000, 0, false, false;
      wire, writes, frames, numbers, next := [], 0, [], [], FIRST;
    }

    /** As long as no number is left out, the k-th frame carries 0x1000 + k modulo 65536. */
    lemma NumberedFromFirst()
      requires Valid() && Follows([], FIRST)
      ensures wire == Wire(FIRST, frames)
    {
      assert numbers == Consecutive(FIRST, |frames|);
      WireOfConsecutive(FIRST, frames);
    }

    /** SSL_write or send: all of the octets, or an error. */
    method Transmit(bytes: seq<byte>) returns (ok: bool)
      modifies `wire, `writes
      ensures wire == old(wire) + (if ok then bytes else [])
      ensures ok == works(old(writes)) && writes == old(writes) + 1
    {
      ok := works(writes);
      writes := writes + 1;
      if ok {
        wire := wire + bytes;
      }
    }

    /** flap_send without the note of activity; on an error nothing has changed. */
    method SendFrame(o: Outgoing) returns (ok: bool)
      requires Valid()
      modifies this
      ensures Valid() && ok == works(old(writes)) && writes == old(writes) + 1
      ensures View() == if ok then old(View()).(frames := old(frames) + [o]) else old(View())
      ensures Follows(old(numbers), old(next))
    {
      hide WireOf, Frame, Number, NextNumber;
      var p := new Packet(host, |o.payload| + 6);
      AddFrame(p, seqnum, o);
      assert p.data[..] == p.Written() == [] + Frame(seqnum, o) == Frame(seqnum, o);
      ok := Transmit(p.data[..]);
      if ok {
        WireOfSnoc(numbers, frames, next, o);
        NumberNext(next);
        frames := frames + [o];
        numbers := numbers + [next];
        next := next + 1;
        seqnum := NextNumber(seqnum);
      }
    }

    /** flap_send: when its own write fails, nothing has changed. */
    method FlapSend(item: Item) returns (ok: bool)
      requires Valid()
      modifies this
      ensures Valid() && Follows(old(numbers), old(next)) && ok == works(old(writes))
      ensures View() == SingleIf(old(View()), item, works(old(writes)), works(old(writes) + 1))
      ensures writes == old(writes) + 1
                        + (if ok && item.update && Reports(old(View()), 0) && !old(srv_pause) then 1 else 0)
      decreases if item.update then 3 else 0
    {
      hide WireOf, Number;
      ok := SendFrame(item.out);
      if ok && item.update && isidle {
        SetIdleTime(0);
      }
    }

    /** imcomm_set_idle_time. */
    method SetIdleTime(seconds: uint32)
      requires Valid()
      modifies this
      ensures Valid() && Follows(old(numbers), old(next))
      ensures View() == IdleTimeIf(old(View()), seconds, works(old(writes)))
      ensures writes == old(writes) + (if Reports(old(View()), seconds) && !old(srv_pause) then 1 else 0)
      decreases 2
    {
      hide WireOf, Number;
      var r := Request(0x01, 0x11, Be32(seconds), false);
      if seconds > 600 {
        if !isidle {
          isidle := true;
          var ok := SnacSend(r);
        }
      } else if isidle && seconds == 0 {
        isidle := false;
        var ok := SnacSend(r);
      }
    }

    /** snac_send; a paused connection swallows the SNAC. */
    method SnacSend(r: Request) returns (ok: bool)
      requires Valid()
      modifies this
      ensures Valid() && Follows(old(numbers), old(next)) && ok == (old(srv_pause) || works(old(writes)))
      ensures View() == Step(old(View()), Attempt(One(r), works(old(writes)), works(old(writes) + 1)))
      ensures writes == old(writes) + (if old(srv_pause) then 0 else 1)
                        + (if !old(srv_pause) && ok && r.update && Reports(old(View()), 0) then 1 else 0)
      decreases if r.update then 4 else 1
    {
      hide WireOf, Number, Snac;
      if srv_pause {
        return true;
      }
      var payload := BuildSnac(host, r, snacreq);
      snacreq := (snacreq as int + 1) % 0x1_0000_0000;
      ok := FlapSend(Item(Outgoing(0x02, payload), r.update));
    }

    /** The second loop of flap_sendMulti: every frame of the batch into one packet. */
    method BuildBatch(items: seq<Item>, totallen: nat) returns (bytes: seq<byte>)
      requires Valid() && totallen == Total(items)
      modifies `seqnum
      ensures wire + bytes == WireOf(numbers + Consecutive(next, |items|), frames + Outs(items))
      ensures seqnum == Number(next + |items|, 0)
    {
      hide WireOf, Frame, Number, NextNumber, Outs, Total, Batched, Consecutive;
      var p := new Packet(host, totallen);
      BatchStarts(wire, p.Written(), frames, numbers, next, items);
      for k := 0 to |items|
        invariant p.offset == Total(items[..k]) <= Total(items) == p.data.Length
        invariant Batched(wire, p.Written(), seqnum, frames, numbers, next, items, k)
      {
        TotalGrows(items, k);
        BatchStep(wire, p.Written(), seqnum, frames, numbers, next, items, k);
        AddFrame(p, seqnum, items[k].out);
        seqnum := NextNumber(seqnum);
      }
      bytes := p.data[..];
      assert items[..|items|] == items && bytes == p.Written();
      BatchEnds(wire, bytes, seqnum, frames, numbers, next, items);
    }

    /**
     flap_sendMulti. A failed write leaves the wire alone, but the numbers of the batch are
     used up: the next frame will not carry the number the receiver expects.
     */
    method SendMulti(items: seq<Item>) returns (ok: bool)
      requires Valid() && items != []
      modifies this
      ensures Valid() && ok == works(old(writes))
      ensures View() == MultiIf(old(View()), items, works(old(writes)), works(old(writes) + 1))
      ensures if ok then Follows(old(numbers), old(next))
              else numbers == old(numbers) && next == old(next) + |items|
      ensures writes == old(writes) + 1
                        + (if ok && Updates(items) && Reports(old(View()), 0) && !old(srv_pause) then 1 else 0)
    {
      hide WireOf, Number, Outs, Updates, Consecutive, Follows, IdleTimeIf;
      var totallen, updateidle := Measure(items);
      var bytes := BuildBatch(items, totallen);
      ok := Transmit(bytes);
      next := next + |items|;
      if ok {
        frames := frames + Outs(items);
        numbers := numbers + Consecutive(next - |items|, |items|);
        StillIdle(View());
        if updateidle && isidle {
          SetIdleTime(0);
        } else {
          FollowsNow();
        }
        FollowsOn(old(numbers), old(next), |items|);
      }
    }

    lemma FollowsNow()
      ensures Follows(numbers, next)
    {
      assert numbers + [] == numbers;
    }

    lemma FollowsOn(ns: seq<nat>, n: nat, len: nat)
      requires Follows(ns + Consecutive(n, len), n + len)
      ensures Follows(ns, n)
    {
    }

    /** snac_addToMulti for each request, then flap_sendMulti. A failed write uses up the request ids. */
    method SnacMulti(rs: seq<Request>) returns (ok: bool)
      requires Valid() && rs != []
      modifies this
      ensures Valid() && ok == works(old(writes))
      ensures View() == Step(old(View()), Attempt(Several(rs), works(old(writes)), works(old(writes) + 1)))
      ensures if ok then Follows(old(numbers), old(next)) else numbers == old(numbers) && next == old(next) + |rs|
      ensures writes == old(writes) + 1
                        + (if ok && Updates(Batch(rs, old(snacreq))) && Reports(old(View()), 0) && !old(srv_pause)
                           then 1 else 0)
    {
      hide WireOf, Number, Snac, Outs, Updates;
      var items := [];
      ghost var first := snacreq;
      for k := 0 to |rs|
        invariant items == Batch(rs[..k], first) && snacreq == After(first, k)
        invariant Valid() && View() == old(View()).(snacreq := snacreq) && writes == old(writes)
        invariant numbers == old(numbers) && next == old(next)
      {
        assert rs[..k + 1][..k] == rs[..k];
        AfterNext(first, k);
        var payload := BuildSnac(host, rs[k], snacreq);
        items := items + [Item(Outgoing(0x02, payload), rs[k].update)];
        snacreq := (snacreq as int + 1) % 0x1_0000_0000;
      }
      assert rs[..|rs|] == rs;
      ok := SendMulti(items);
    }

    /** One operation, by the function for it. */
    method Perform(op: Op) returns (ghost a: Attempt)
      requires Valid() && Allowed(op)
      modifies this
      ensures Valid() && a == Attempt(op, works(old(writes)), works(old(writes) + 1))
      ensures View() == Step(old(View()), a)
      ensures if FailedBatch(a) then numbers == old(numbers) && next == old(next) + |op.requests|
              else Follows(old(numbers), old(next))
    {
      hide WireOf, Number, Snac, SingleIf, IdleTimeIf, MultiIf;
      a := Attempt(op, works(writes), works(writes + 1));
      match op
      case Raw(item) => var ok := FlapSend(item);
      case One(r) => var ok := SnacSend(r);
      case Several(rs) => var ok := SnacMulti(rs);
      case Idle(seconds) => SetIdleTime(seconds);
      case Pause(on) =>
        srv_pause := on;
        FollowsNow();
    }

    /** The numbers of the frames, and the next one, are those of these slots. */
    ghost predicate NumberedBy(slots: seq<bool>)
      reads this
    {
      numbers == Numbers(slots) && next == FIRST + |slots|
    }

    lemma NumberedOn(slots: seq<bool>, st: State, a: Attempt)
      requires Valid() && View() == Step(st, a)
      requires if FailedBatch(a) then numbers == Numbers(slots) && next == FIRST + |slots| + |a.op.requests|
               else Follows(Numbers(slots), FIRST + |slots|) && |Numbers(slots)| == |st.frames|
      ensures NumberedBy(slots + Slots(st, a))
    {
      SlotsAreFrames(st, a);
      NumbersOn(slots, if FailedBatch(a) then |a.op.requests| else |frames| - |st.frames|);
      hide Slots, Step, Numbers, WireOf;
    }

    /**
     Whatever is done with a new handle, and whichever writes fail. The k-th SNAC carries request id
     k modulo 2^32 if and only if no SNAC gets out after ids have been lost; and the k-th frame, as a
     receiver reads it, carries 0x1000 + k modulo 65536 if and only if no frame gets out after
     numbers have been lost, in a batch whose write failed.
     */
    method PerformAll(ops: seq<Op>) returns (ghost attempts: seq<Attempt>)
      requires Valid() && View() == State([], 0, false, false) && next == FIRST
      requires forall op | op in ops :: Allowed(op)
      modifies this
      ensures Valid() && |attempts| == |ops| && forall k | 0 <= k < |ops| :: attempts[k].op == ops[k]
      ensures View() == Run(old(View()), attempts)
      ensures InSequence(View()) <==> OnTime(RunFates(old(View()), attempts), 0x1_0000_0000)
      ensures InStep(numbers) <==> OnTime(RunSlots(old(View()), attempts), 0x1_0000)
      ensures AllFit(frames) ==>
                && |Receive.Units(wire)| == |frames|
                && (ReadsInStep(wire) <==> OnTime(RunSlots(old(View()), attempts), 0x1_0000))
      ensures (forall a | a in attempts :: !FailedBatch(a)) ==> wire == Wire(FIRST, frames)
    {
      hide Valid, Step, Fates, InSequence, OnTime, RunFates, Slots, Follows, NumberedBy;
      attempts := [];
      ghost var st0 := View();
      StartsNumbered();
      for k := 0 to |ops|
        invariant Valid() && |attempts| == k && forall i | 0 <= i < k :: attempts[i].op == ops[i]
        invariant View() == Run(st0, attempts) && NumberedBy(RunSlots(st0, attempts))
      {
        ghost var st, slots := View(), RunSlots(st0, attempts);
        ghost var ns, n := numbers, next;
        NumberedMeans(slots);
        var a := Perform(ops[k]);
        assert (attempts + [a])[..k] == attempts;
        NumberedOn(slots, st, a);
        attempts := attempts + [a];
      }
      RunInSequence(attempts, false, false);
      WholeRun(st0, attempts);
    }

    lemma StartsNumbered()
      requires Valid() && frames == [] && next == FIRST
      ensures NumberedBy([])
    {
    }

    lemma NumberedMeans(slots: seq<bool>)
      requires Valid() && NumberedBy(slots)
      ensures numbers == Numbers(slots) && next == FIRST + |slots| && |Numbers(slots)| == |frames|
    {
    }

    lemma WholeRun(st0: State, attempts: seq<Attempt>)
      requires Valid() && NumberedBy(RunSlots(st0, attempts))
      ensures InStep(numbers) <==> OnTime(RunSlots(st0, attempts), 0x1_0000)
      ensures AllFit(frames) ==>
                && |Receive.Units(wire)| == |frames|
                && (ReadsInStep(wire) <==> OnTime(RunSlots(st0, attempts), 0x1_0000))
      ensures (forall a | a in attempts :: !FailedBatch(a)) ==> wire == Wire(FIRST, frames)
    {
      var slots := RunSlots(st0, attempts);
      NumbersInStep(slots);
      hide OnTime, InStep, ReadsInStep, RunSlots, Numbers, AllFit, WireOf, Receive.Units;
      if AllFit(frames) {
        InStepOnWire(numbers, frames);
      }
      if forall a | a in attempts :: !FailedBatch(a) {
        BatchesSucceed(st0, attempts);
        NothingLostNumbers(slots);
        NumberedFromFirst();
      }
    }
  }

  /** The octets built so far are those of the first k items, and continue the wire. */
  ghost predicate Batched(wire: seq<byte>, built: seq<byte>, seqnum: uint16, frames: seq<Outgoing>,
                          numbers: seq<nat>, next: nat, items: seq<Item>, k: nat)
    requires k <= |items| && |numbers| == |frames|
  {
    && wire + built == WireOf(numbers + Consecutive(next, k), frames + Outs(items[..k]))
    && seqnum == Number(next + k, 0)
  }

  lemma BatchStarts(wire: seq<byte>, built: seq<byte>, frames: seq<Outgoing>,
                    numbers: seq<nat>, next: nat, items: seq<Item>)
    requires |numbers| == |frames| && wire == WireOf(numbers, frames) && built == []
    ensures Batched(wire, built, Number(next, 0), frames, numbers, next, items, 0)
    ensures Total(items[..0]) == 0
  {
    assert frames + Outs(items[..0]) == frames && numbers + Consecutive(next, 0) == numbers && wire + built == wire;
  }

  lemma BatchStep(wire: seq<byte>, built: seq<byte>, seqnum: uint16, frames: seq<Outgoing>,
                  numbers: seq<nat>, next: nat, items: seq<Item>, k: nat)
    requires k < |items| && |numbers| == |frames| && Batched(wire, built, seqnum, frames, numbers, next, items, k)
    ensures Batched(wire, built + Frame(seqnum, items[k].out), NextNumber(seqnum), frames, numbers, next, items, k + 1)
  {
    hide WireOf, Frame, Number, NextNumber, Outs;
    var sent, o, ns := frames + Outs(items[..k]), items[k].out, numbers + Consecutive(next, k);
    WireOfSnoc(ns, sent, next + k, o);
    NumberNext(next + k);
    OutsSnoc(items[..k], items[k]);
    assert items[..k + 1] == items[..k] + [items[k]];
    assert sent + [o] == frames + Outs(items[..k + 1]);
    assert ns + [next + k] == numbers + Consecutive(next, k + 1);
    assert wire + (built + Frame(seqnum, o)) == wire + built + Frame(seqnum, o);
  }

  lemma BatchEnds(wire: seq<byte>, built: seq<byte>, seqnum: uint16, frames: seq<Outgoing>,
                  numbers: seq<nat>, next: nat, items: seq<Item>)
    requires |numbers| == |frames| && Batched(wire, built, seqnum, frames, numbers, next, items, |items|)
    ensures wire + built == WireOf(numbers + Consecutive(next, |items|), frames + Outs(items))
    ensures seqnum == Number(next + |items|, 0)
  {
    assert items[..|items|] == items;
  }

  /** The first loop of flap_sendMulti: the length of the batch, and whether it counts as activity. */
  method Measure(items: seq<Item>) returns (totallen: nat, updateidle: bool)
    ensures totallen == Total(items)
    ensures updateidle <==> Updates(items)
  {
    totallen, updateidle := 0, false;
    for k := 0 to |items|
      invariant totallen == Total(items[..k])
      invariant updateidle || Updates(items[k..]) <==> Updates(items)
    {
      assert items[..k + 1][..k] == items[..k] && items[k..][1..] == items[k + 1..];
      totallen := totallen + 6 + |items[k].out.payload|;
      if items[k].update {
        updateidle := true;
      }
    }
    assert items[..|items|] == items;
  }

  /** The length flap_sendMulti reserves. */
  function Total(items: seq<Item>): nat {
    if items == [] then 0 else Total(items[..|items| - 1]) + 6 + |items[|items| - 1].out.payload|
  }

  lemma {:induction false} TotalGrows(items: seq<Item>, k: nat)
    requires k < |items|
    ensures Total(items[..k + 1]) == Total(items[..k]) + 6 + |items[k].out.payload| <= Total(items)
  {
    assert items[..k + 1][..k] == items[..k];
    if k + 1 == |items| {
      assert items[..k + 1] == items;
    } else {
      var front := items[..|items| - 1];
      TotalGrows(front, k);
      assert front[..k] == items[..k] && front[..k + 1] == items[..k + 1];
    }
  }

  /** A batch of one SNAC fails, and the next frame, the first on the wire, carries 0x1001. */
  method SkippedNumber(host: Host, r: Request, o: Outgoing) returns (h: Handle)
    ensures h.Valid() && h.frames == [o] && h.wire == Frame(0x1001, o) && !InStep(h.numbers)
  {
    hide Frame, Step, MultiIf, WireOf, Consecutive, SingleIf, IdleTimeIf, InStep;
    h := new Handle(host, n => n != 0);
    var ok := h.SnacMulti([r]);
    FailedBatchKeeps(State([], 0, false, false), Attempt(Several([r]), false, true));
    ok := h.FlapSend(Item(o, false));
    OneFrame(State([], 1, false, false), o);
    OneNumber(h.numbers, o);
  }

  lemma OneFrame(st: State, o: Outgoing)
    requires st.frames == []
    ensures SingleIf(st, Item(o, false), true, true).frames == [o]
  {
    assert [] + [o] == [o];
  }

  lemma OneNumber(numbers: seq<nat>, o: Outgoing)
    requires |numbers| == 1 && numbers == [] + Consecutive(0x1001, 1 - 0)
    ensures WireOf(numbers, [o]) == Frame(0x1001, o) && !InStep(numbers)
  {
    hide Frame;
    assert numbers == [0x1001];
    assert WireOf([0x1001], [o]) == WireOf([], []) + Frame(0x1001, o) == [] + Frame(0x1001, o);
  }

  lemma FailedBatchKeeps(st: State, a: Attempt)
    requires FailedBatch(a)
    ensures Step(st, a) == st.(snacreq := After(st.snacreq, |a.op.requests|))
  {
  }
}
