/**
 The senders of imcomm/flap.c: one frame at once, a batch in one write, or a queue drained one
 frame at a time; and the numbering of SNACs in imcomm/snac.c.
 */
module Senders {
  import opened Bytes
  import opened Flap

  /** A frame to be sent, and whether sending it counts as activity of the user. */
  datatype Item = Item(out: Outgoing, update: bool)

  /** What a handle has put on the wire, and what decides what it sends next. */
  datatype State = State(frames: seq<Outgoing>, snacreq: uint32, idle: bool, paused: bool)

  const FIRST := 0x1000  // seqnum of a new handle

  function Snac(family: uint16, subtype: uint16, request: uint32, data: seq<byte>): seq<byte> {
    Be16(family) + Be16(subtype) + Be16(0) + Be32(request) + data
  }

  function After(id: uint32, n: nat): uint32 { (id + n) % 0x1_0000_0000 }

  /**
   snac_send: a paused connection swallows the SNAC; otherwise its id is used up whether or not the
   write succeeds.
   */
  function SendSnac(st: State, family: uint16, subtype: uint16, data: seq<byte>, ok: bool): State {
    if st.paused then st
    else
      var sent := if ok then [Outgoing(0x02, Snac(family, subtype, st.snacreq, data))] else [];
      st.(frames := st.frames + sent, snacreq := After(st.snacreq, 1))
  }

  /** Whether a change of idle time is worth a report. */
  predicate Reports(st: State, seconds: uint32) {
    if seconds > 600 then !st.idle else st.idle && seconds == 0
  }

  /** imcomm_set_idle_time, with a report whose write succeeds or not. */
  function IdleTimeIf(st: State, seconds: uint32, ok: bool): State {
    if Reports(st, seconds) then SendSnac(st.(idle := seconds > 600), 0x01, 0x11, Be32(seconds), ok) else st
  }

  /** flap_send, given whether its own write and that of the report it may cause succeed. */
  function SingleIf(st: State, item: Item, first: bool, second: bool): State {
    if !first then st
    else
      var sent := st.(frames := st.frames + [item.out]);
      if item.update then IdleTimeIf(sent, 0, second) else sent
  }

  function Single(st: State, item: Item): State { SingleIf(st, item, true, true) }

  function Singles(st: State, items: seq<Item>): State
    decreases items
  {
    if items == [] then st else Singles(Single(st, items[0]), items[1..])
  }

  function Outs(items: seq<Item>): (os: seq<Outgoing>)
    ensures |os| == |items|
  {
    if items == [] then [] else [items[0].out] + Outs(items[1..])
  }

  predicate Updates(items: seq<Item>) { items != [] && (items[0].update || Updates(items[1..])) }

  /** One write for all the items, and activity noted once, after it. */
  function MultiIf(st: State, items: seq<Item>, first: bool, second: bool): State {
    if !first then st
    else
      var sent := st.(frames := st.frames + Outs(items));
      if Updates(items) then IdleTimeIf(sent, 0, second) else sent
  }

  function Multi(st: State, items: seq<Item>): State { MultiIf(st, items, true, true) }

  /** The report that the user is back. */
  function WakeUp(st: State): Outgoing { Outgoing(0x02, Snac(0x01, 0x11, st.snacreq, Be32(0))) }

  /** The frames behind the first one that counts as activity. */
  function Later(items: seq<Item>): seq<Outgoing> {
    if items == [] then [] else if items[0].update then Outs(items[1..]) else Later(items[1..])
  }

  /**
   A batch leaves the handle in the same state as sending its items one by one, with the same
   frames, unless the handle is reporting idle time and some frame would have followed the
   report that ends it. (A frame equal to that report is no exception: it reads the same.)
   */
  predicate Harmless(st: State, items: seq<Item>) {
    st.idle && !st.paused ==> forall o | o in Later(items) :: o == WakeUp(st)
  }

  /** The flag says whether the idle time exceeds 600 seconds; the server is told exactly when it changes. */
  lemma IdleSays(st: State, seconds: uint32, ok: bool)
    ensures var after := IdleTimeIf(st, seconds, ok);
            var told := after.idle != st.idle && !st.paused;
            && after.idle == (seconds > 600 || (seconds > 0 && st.idle)) && after.paused == st.paused
            && after.snacreq == (if told then (st.snacreq + 1) % 0x1_0000_0000 else st.snacreq)
            && after.frames == st.frames + (if told && ok then [Outgoing(2, Snac(1, 17, st.snacreq, Be32(seconds)))]
                                            else [])
  {
    hide Snac, Be32;
    assert st.frames + [] == st.frames;
  }

  /** A frame that gets out and is activity ends the idle time, behind it. */
  lemma SingleSays(st: State, item: Item, first: bool, second: bool)
    ensures var after := SingleIf(st, item, first, second);
            var ends := first && item.update && st.idle;
            && after.idle == (st.idle && !ends) && after.paused == st.paused
            && after.snacreq == (if ends && !st.paused then (st.snacreq + 1) % 0x1_0000_0000 else st.snacreq)
            && after.frames == st.frames + (if first then [item.out] else [])
                               + (if ends && !st.paused && second then [WakeUp(st)] else [])
  {
    hide Snac, Be32;
    assert st.frames + [] + [] == st.frames && st.frames + [item.out] + [] == st.frames + [item.out];
  }

  lemma {:induction false} UpdatesIs(items: seq<Item>)
    ensures Updates(items) <==> exists i | 0 <= i < |items| :: items[i].update
  {
    if items != [] {
      UpdatesIs(items[1..]);
      assert items[0].update || !items[0].update;
      if i :| 0 <= i < |items[1..]| && items[1..][i].update {
        assert items[i + 1].update;
      }
      if i :| 0 <= i < |items| && items[i].update {
        assert i > 0 ==> items[1..][i - 1].update;
      }
    }
  }

  lemma {:induction false} OutsAre(items: seq<Item>)
    ensures forall i | 0 <= i < |items| :: Outs(items)[i] == items[i].out
  {
    if items != [] {
      OutsAre(items[1..]);
    }
  }

  /** A batch that gets out and has any activity in it ends the idle time, behind all of its frames. */
  lemma MultiSays(st: State, items: seq<Item>, first: bool, second: bool)
    ensures var after := MultiIf(st, items, first, second);
            var ends := first && st.idle && exists i | 0 <= i < |items| :: items[i].update;
            && after.idle == (st.idle && !ends) && after.paused == st.paused
            && after.snacreq == (if ends && !st.paused then (st.snacreq + 1) % 0x1_0000_0000 else st.snacreq)
            && after.frames == st.frames + (if first then Outs(items) else [])
                               + (if ends && !st.paused && second then [WakeUp(st)] else [])
  {
    UpdatesIs(items);
    MultiIs(st, items, first, second);
    IdleSays(st.(frames := st.frames + Outs(items)), 0, second);
    hide MultiIf, Snac, Be32, Updates, Outs, IdleTimeIf;
    if !first {
      assert st.frames + [] + [] == st.frames;
    } else {
      assert st.frames + Outs(items) + [] == st.frames + Outs(items);
    }
  }

  lemma {:induction false} SinglesAwake(st: State, items: seq<Item>)
    requires !st.idle
    ensures Singles(st, items) == st.(frames := st.frames + Outs(items))
    decreases items
  {
    if items == [] {
      assert st.frames + [] == st.frames;
    } else {
      hide Snac;
      var st1 := st.(frames := st.frames + [items[0].out]);
      assert Single(st, items[0]) == st1;
      SinglesAwake(st1, items[1..]);
      assert st.frames + [items[0].out] + Outs(items[1..]) == st.frames + ([items[0].out] + Outs(items[1..]));
    }
  }

  lemma {:induction false} Rotated(w: Outgoing, q: seq<Outgoing>)
    ensures [w] + q == q + [w] <==> forall k | 0 <= k < |q| :: q[k] == w
  {
    if q != [] {
      var r := q[1..];
      Rotated(w, r);
      if [w] + q == q + [w] {
        assert ([w] + q)[0] == w && (q + [w])[0] == q[0];
        assert q == ([w] + q)[1..] && (q + [w])[1..] == r + [w];
        assert [w] + r == r + [w];
        assert forall k | 1 <= k < |q| :: q[k] == r[k - 1];
      }
    }
  }

  lemma RotatedAfter(base: seq<Outgoing>, w: Outgoing, q: seq<Outgoing>)
    ensures base + q + [w] == base + [w] + q <==> forall o | o in q :: o == w
  {
    Rotated(w, q);
    assert forall k | 0 <= k < |q| :: q[k] in q;
    assert (base + q + [w])[|base|..] == q + [w] && (base + [w] + q)[|base|..] == [w] + q;
    assert base + (q + [w]) == base + q + [w] && base + ([w] + q) == base + [w] + q;
  }

  /** The state after a report that the user is back has been sent between front and back. */
  function Woken(st: State, front: seq<Outgoing>, back: seq<Outgoing>): State {
    if st.paused then State(front + back, st.snacreq, false, true)
    else State(front + [WakeUp(st)] + back, After(st.snacreq, 1), false, false)
  }

  lemma MultiWakes(st: State, items: seq<Item>)
    requires st.idle && items != [] && items[0].update
    ensures Multi(st, items) == Woken(st, st.frames + [items[0].out] + Outs(items[1..]), [])
  {
    hide Snac;
    assert st.frames + Outs(items) == st.frames + [items[0].out] + Outs(items[1..]);
  }

  lemma SinglesWake(st: State, items: seq<Item>)
    requires st.idle && items != [] && items[0].update
    ensures Singles(st, items) == Woken(st, st.frames + [items[0].out], Outs(items[1..]))
  {
    hide Snac;
    SinglesAwake(Single(st, items[0]), items[1..]);
  }

  /** The batch when its first item ends the idle report. */
  lemma BatchWakes(st: State, items: seq<Item>)
    requires st.idle && items != [] && items[0].update
    ensures Multi(st, items) == Singles(st, items) <==> Harmless(st, items)
    ensures Multi(st, items) == Singles(st, items).(frames := Multi(st, items).frames)
  {
    MultiWakes(st, items);
    SinglesWake(st, items);
    var base, w, q := st.frames + [items[0].out], WakeUp(st), Outs(items[1..]);
    RotatedAfter(base, w, q);
    hide Multi, Singles, WakeUp, Outs;
    assert Later(items) == q;
    if st.paused {
      assert base + q + [] == base + q;
    } else {
      assert Harmless(st, items) <==> forall o | o in q :: o == w;
      assert base + q + [w] + [] == base + q + [w];
    }
  }

  lemma MultiIs(st: State, items: seq<Item>, first: bool, second: bool)
    ensures MultiIf(st, items, first, second) ==
            if !first then st
            else if Updates(items) then IdleTimeIf(st.(frames := st.frames + Outs(items)), 0, second)
            else st.(frames := st.frames + Outs(items))
  {
  }

  lemma HeadOf(items: seq<Item>)
    requires items != [] && !items[0].update
    ensures Outs(items) == [items[0].out] + Outs(items[1..])
    ensures Updates(items) == Updates(items[1..]) && Later(items) == Later(items[1..])
  {
  }

  lemma SinglesHead(st: State, items: seq<Item>)
    requires items != [] && !items[0].update
    ensures Singles(st, items) == Singles(st.(frames := st.frames + [items[0].out]), items[1..])
  {
    hide IdleTimeIf;
  }

  lemma HarmlessHead(st: State, items: seq<Item>)
    requires items != [] && !items[0].update
    ensures Harmless(st, items) <==> Harmless(st.(frames := st.frames + [items[0].out]), items[1..])
  {
    HeadOf(items);
    hide Outs, Updates, Later, Snac;
  }

  lemma MultiHead(st: State, items: seq<Item>)
    requires items != [] && !items[0].update
    ensures Multi(st, items) == Multi(st.(frames := st.frames + [items[0].out]), items[1..])
  {
    HeadOf(items);
    var st1 := st.(frames := st.frames + [items[0].out]);
    MultiIs(st, items, true, true);
    MultiIs(st1, items[1..], true, true);
    hide Outs, Updates, Later, MultiIf, IdleTimeIf;
    Regroup(st.frames, [items[0].out], Outs(items[1..]));
  }

  lemma Regroup<T>(a: seq<T>, b: seq<T>, c: seq<T>)
    ensures a + b + c == a + (b + c)
  {
  }

  lemma {:induction false} BatchIsSingles(st: State, items: seq<Item>)
    ensures Multi(st, items) == Singles(st, items) <==> Harmless(st, items)
    ensures Multi(st, items) == Singles(st, items).(frames := Multi(st, items).frames)
    decreases items
  {
    hide Snac;
    if items == [] {
      assert st.frames + [] == st.frames;
    } else if !st.idle {
      SinglesAwake(st, items);
    } else if items[0].update {
      BatchWakes(st, items);
    } else {
      HarmlessHead(st, items);
      MultiHead(st, items);
      SinglesHead(st, items);
      hide *;
      BatchIsSingles(st.(frames := st.frames + [items[0].out]), items[1..]);
    }
  }

  /** The same, read off the octets on the wire. */
  lemma BatchOnWire(st: State, items: seq<Item>)
    requires AllFit(Multi(st, items).frames) && AllFit(Singles(st, items).frames)
    ensures Wire(FIRST, Multi(st, items).frames) == Wire(FIRST, Singles(st, items).frames) <==> Harmless(st, items)
  {
    BatchIsSingles(st, items);
    if Wire(FIRST, Multi(st, items).frames) == Wire(FIRST, Singles(st, items).frames) {
      WireInjective(FIRST, Multi(st, items).frames, Singles(st, items).frames);
    }
  }

  /** A SNAC as its callers hand it over, before it gets its request id. */
  datatype Request = Request(family: uint16, subtype: uint16, data: seq<byte>, update: bool)

  function Numbered(r: Request, id: uint32): Item {
    Item(Outgoing(0x02, Snac(r.family, r.subtype, id, r.data)), r.update)
  }

  /** snac_addToMulti, once for each of rs. */
  function Batch(rs: seq<Request>, id: uint32): (items: seq<Item>)
    ensures |items| == |rs|
  {
    if rs == [] then [] else Batch(rs[..|rs| - 1], id) + [Numbered(rs[|rs| - 1], After(id, |rs| - 1))]
  }

  // Runs.

  /** What a client does with a handle. Channel 2 is reserved for SNACs, and a batch has something in it. */
  datatype Op =
    | Raw(item: Item)
    | One(request: Request)
    | Several(requests: seq<Request>)
    | Idle(seconds: uint32)
    | Pause(on: bool)

  predicate Allowed(op: Op) {
    (op.Raw? ==> op.item.out.channel != 0x02) && (op.Several? ==> op.requests != [])
  }

  /** An operation, and whether the first and the second write it makes succeed. */
  datatype Attempt = Attempt(op: Op, first: bool, second: bool)

  function Step(st: State, a: Attempt): State {
    match a.op
    case Raw(item) => SingleIf(st, item, a.first, a.second)
    case One(r) =>
      if st.paused then st
      else SingleIf(st.(snacreq := After(st.snacreq, 1)), Numbered(r, st.snacreq), a.first, a.second)
    case Several(rs) => MultiIf(st.(snacreq := After(st.snacreq, |rs|)), Batch(rs, st.snacreq), a.first, a.second)
    case Idle(seconds) => IdleTimeIf(st, seconds, a.first)
    case Pause(on) => st.(paused := on)
  }

  function Run(st: State, attempts: seq<Attempt>): State {
    if attempts == [] then st else Step(Run(st, attempts[..|attempts| - 1]), attempts[|attempts| - 1])
  }

  /** What becomes of the request id of a report: whether its SNAC gets out. */
  function ReportFate(st: State, seconds: uint32, ok: bool): seq<bool> {
    if Reports(st, seconds) && !st.paused then [ok] else []
  }

  function Repeat(ok: bool, n: nat): seq<bool> { seq(n, _ => ok) }

  /** What becomes of the request ids that an attempt uses, in order. */
  function Fates(st: State, a: Attempt): seq<bool> {
    match a.op
    case Raw(item) => if a.first && item.update then ReportFate(st, 0, a.second) else []
    case One(r) =>
      if st.paused then []
      else [a.first] + (if a.first && r.update then ReportFate(st, 0, a.second) else [])
    case Several(rs) =>
      Repeat(a.first, |rs|)
      + (if a.first && Updates(Batch(rs, st.snacreq)) then ReportFate(st, 0, a.second) else [])
    case Idle(seconds) => ReportFate(st, seconds, a.first)
    case Pause(_) => []
  }

  function RunFates(st: State, attempts: seq<Attempt>): seq<bool> {
    if attempts == [] then []
    else
      var front := attempts[..|attempts| - 1];
      RunFates(st, front) + Fates(Run(st, front), attempts[|attempts| - 1])
  }

  /** The numbers of the ids whose SNACs got out. */
  function Kept(fates: seq<bool>): seq<nat> {
    if fates == [] then [] else Kept(fates[..|fates| - 1]) + (if fates[|fates| - 1] then [|fates| - 1] else [])
  }

  function Lost(fates: seq<bool>): (n: nat)
    ensures n <= |fates|
  {
    if fates == [] then 0 else Lost(fates[..|fates| - 1]) + (if fates[|fates| - 1] then 0 else 1)
  }

  /** The SNACs among the frames, in order. */
  function Snacs(os: seq<Outgoing>): seq<Outgoing> {
    if os == [] then []
    else Snacs(os[..|os| - 1]) + (if os[|os| - 1].channel == 0x02 then [os[|os| - 1]] else [])
  }

  /** The request id of a SNAC. */
  predicate Carries(o: Outgoing, id: uint32) {
    |o.payload| >= 10 && o.payload[6..10] == Be32(id)
  }

  /** Ids are used one after the other, and the SNACs on the wire carry those whose writes succeeded. */
  ghost predicate Accounts(st: State, fates: seq<bool>) {
    var s, kept := Snacs(st.frames), Kept(fates);
    && st.snacreq == After(0, |fates|) && |s| == |kept|
    && forall k | 0 <= k < |s| :: Carries(s[k], After(0, kept[k]))
  }

  /** The k-th SNAC carries request id k. */
  ghost predicate InSequence(st: State) {
    var s := Snacs(st.frames);
    forall k | 0 <= k < |s| :: Carries(s[k], After(0, k))
  }

  /** Whatever gets out does so before anything is lost (or when the modulus has been lost, or twice as many). */
  ghost predicate OnTime(fates: seq<bool>, modulus: nat)
    requires modulus > 0
  {
    forall i | 0 <= i < |fates| && fates[i] :: Lost(fates[..i]) % modulus == 0
  }

  /** What a receiver reads in a SNAC. */
  lemma SnacSays(family: uint16, subtype: uint16, id: uint32, data: seq<byte>)
    ensures var s := Snac(family, subtype, id, data);
            && |s| == 10 + |data| && Of16(s[..2]) == family && Of16(s[2..4]) == subtype && s[4..6] == [0, 0]
            && Of32(s[6..10]) == id && s[10..] == data
  {
    var s := Snac(family, subtype, id, data);
    Value16(family);
    Value16(subtype);
    Value32(id);
    assert s[..2] == Be16(family) && s[2..4] == Be16(subtype) && s[4..6] == Be16(0) && s[6..10] == Be32(id);
    assert Be16(0) == [0, 0];
    hide Be16, Be32;
  }

  lemma SnacCarries(family: uint16, subtype: uint16, id: uint32, data: seq<byte>)
    ensures Carries(Outgoing(0x02, Snac(family, subtype, id, data)), id)
  {
    assert Snac(family, subtype, id, data)[6..10] == Be32(id);
  }

  lemma AfterNext(id: uint32, n: nat)
    ensures After(After(id, n), 1) == After(id, n + 1)
  {
  }

  lemma KeptSnoc(fates: seq<bool>, ok: bool)
    ensures Kept(fates + [ok]) == Kept(fates) + (if ok then [|fates|] else [])
  {
    assert (fates + [ok])[..|fates|] == fates;
  }

  lemma SnacsSnoc(os: seq<Outgoing>, o: Outgoing)
    ensures Snacs(os + [o]) == Snacs(os) + (if o.channel == 0x02 then [o] else [])
  {
    assert (os + [o])[..|os|] == os;
  }

  /** One id used: its SNAC gets out, or not. */
  lemma OneAccounts(st: State, fates: seq<bool>, o: Outgoing, ok: bool)
    requires Accounts(st, fates) && o.channel == 0x02 && Carries(o, st.snacreq)
    ensures Accounts(st.(frames := st.frames + (if ok then [o] else []), snacreq := After(st.snacreq, 1)), fates + [ok])
  {
    KeptSnoc(fates, ok);
    SnacsSnoc(st.frames, o);
    AfterNext(0, |fates|);
    assert st.frames + [] == st.frames;
    hide Carries, Kept, Snacs, After;
  }

  lemma OtherAccounts(st: State, fates: seq<bool>, o: Outgoing)
    requires Accounts(st, fates) && o.channel != 0x02
    ensures Accounts(st.(frames := st.frames + [o]), fates)
  {
    SnacsSnoc(st.frames, o);
    hide Carries, Kept, Snacs, After;
  }

  lemma FlagsAccount(st: State, fates: seq<bool>, idle: bool, paused: bool)
    requires Accounts(st, fates)
    ensures Accounts(st.(idle := idle, paused := paused), fates)
  {
  }

  lemma IdleAccounts(st: State, fates: seq<bool>, seconds: uint32, ok: bool)
    requires Accounts(st, fates)
    ensures Accounts(IdleTimeIf(st, seconds, ok), fates + ReportFate(st, seconds, ok))
  {
    var data := Be32(seconds);
    var o := Outgoing(0x02, Snac(0x01, 0x11, st.snacreq, data));
    SnacCarries(0x01, 0x11, st.snacreq, data);
    FlagsAccount(st, fates, seconds > 600, st.paused);
    OneAccounts(st.(idle := seconds > 600), fates, o, ok);
    hide Accounts, Snac, Carries;
    assert fates + [] == fates;
  }

  lemma SingleAccounts(st: State, fates: seq<bool>, item: Item, first: bool, second: bool)
    requires item.out.channel != 0x02 && Accounts(st, fates)
    ensures Accounts(SingleIf(st, item, first, second),
                     fates + if first && item.update then ReportFate(st, 0, second) else [])
  {
    hide Accounts;
    OtherAccounts(st, fates, item.out);
    IdleAccounts(st.(frames := st.frames + [item.out]), fates, 0, second);
    assert fates + [] == fates;
  }

  lemma SnacAccounts(st: State, fates: seq<bool>, r: Request, first: bool, second: bool)
    requires Accounts(st, fates)
    ensures Accounts(SingleIf(st.(snacreq := After(st.snacreq, 1)), Numbered(r, st.snacreq), first, second),
                     fates + ([first] + if first && r.update then ReportFate(st, 0, second) else []))
  {
    var o := Numbered(r, st.snacreq).out;
    SnacCarries(r.family, r.subtype, st.snacreq, r.data);
    hide Accounts, Snac, Carries, After;
    OneAccounts(st, fates, o, first);
    assert st.frames + [] == st.frames;
    var after := st.(frames := st.frames + (if first then [o] else []), snacreq := After(st.snacreq, 1));
    if first && r.update {
      IdleAccounts(after, fates + [first], 0, second);
      assert fates + [first] + ReportFate(st, 0, second) == fates + ([first] + ReportFate(st, 0, second));
    } else {
      assert fates + ([first] + []) == fates + [first];
    }
  }

  lemma {:induction false} BatchAccounts(st: State, fates: seq<bool>, rs: seq<Request>)
    requires Accounts(st, fates)
    ensures Accounts(st.(frames := st.frames + Outs(Batch(rs, st.snacreq)), snacreq := After(st.snacreq, |rs|)),
                     fates + Repeat(true, |rs|))
  {
    if rs == [] {
      assert st.frames + [] == st.frames && fates + [] == fates && After(st.snacreq, 0) == st.snacreq;
    } else {
      var front, last, id := rs[..|rs| - 1], rs[|rs| - 1], After(st.snacreq, |rs| - 1);
      var items, item := Batch(front, st.snacreq), Numbered(last, id);
      assert Batch(rs, st.snacreq) == items + [item];
      AfterNext(st.snacreq, |rs| - 1);
      assert item.out == Outgoing(0x02, Snac(last.family, last.subtype, id, last.data));
      assert fates + Repeat(true, |rs| - 1) + [true] == fates + Repeat(true, |rs|);
      hide *;
      BatchAccounts(st, fates, front);
      SnacCarries(last.family, last.subtype, id, last.data);
      var sent := st.(frames := st.frames + Outs(items), snacreq := id);
      OneAccounts(sent, fates + Repeat(true, |rs| - 1), item.out, true);
      OutsSnoc(items, item);
      assert st.frames + Outs(items) + [item.out] == st.frames + (Outs(items) + [item.out]);
    }
  }

  lemma {:induction false} OutsSnoc(items: seq<Item>, item: Item)
    ensures Outs(items + [item]) == Outs(items) + [item.out]
  {
    if items != [] {
      assert (items + [item])[1..] == items[1..] + [item];
      OutsSnoc(items[1..], item);
    }
  }

  lemma {:induction false} BatchLost(st: State, fates: seq<bool>, n: nat)
    requires Accounts(st, fates)
    ensures Accounts(st.(snacreq := After(st.snacreq, n)), fates + Repeat(false, n))
  {
    if n == 0 {
      assert fates + [] == fates && After(st.snacreq, 0) == st.snacreq;
    } else {
      BatchLost(st, fates, n - 1);
      AfterNext(st.snacreq, n - 1);
      var lost := st.(snacreq := After(st.snacreq, n - 1));
      assert fates + Repeat(false, n - 1) + [false] == fates + Repeat(false, n);
      var o := Outgoing(0x02, Snac(0, 0, lost.snacreq, []));
      SnacCarries(0, 0, lost.snacreq, []);
      OneAccounts(lost, fates + Repeat(false, n - 1), o, false);
      assert lost.frames + [] == lost.frames;
    }
  }

  lemma FateStays(st: State, sent: State, seconds: uint32, ok: bool)
    requires st.idle == sent.idle && st.paused == sent.paused
    ensures ReportFate(st, seconds, ok) == ReportFate(sent, seconds, ok)
  {
  }

  lemma MultiAccounts(st: State, fates: seq<bool>, rs: seq<Request>, first: bool, second: bool)
    requires Accounts(st, fates)
    ensures var items := Batch(rs, st.snacreq);
            Accounts(MultiIf(st.(snacreq := After(st.snacreq, |rs|)), items, first, second),
                     fates + (Repeat(first, |rs|) + if first && Updates(items) then ReportFate(st, 0, second) else []))
  {
    hide *;
    var items, used := Batch(rs, st.snacreq), Repeat(first, |rs|);
    var numbered := st.(snacreq := After(st.snacreq, |rs|));
    var sent := numbered.(frames := st.frames + Outs(items));
    var fate := ReportFate(st, 0, second);
    MultiIs(numbered, items, first, second);
    if first {
      BatchAccounts(st, fates, rs);
      FateStays(st, sent, 0, second);
      IdleAccounts(sent, fates + used, 0, second);
      assert fates + used + fate == fates + (used + fate);
    } else {
      BatchLost(st, fates, |rs|);
    }
    assert fates + (used + []) == fates + used;
  }

  lemma StepAccounts(st: State, fates: seq<bool>, a: Attempt)
    requires Accounts(st, fates) && Allowed(a.op)
    ensures Accounts(Step(st, a), fates + Fates(st, a))
  {
    hide Accounts, SingleIf, MultiIf, IdleTimeIf, ReportFate, After;
    assert fates + [] == fates;
    match a.op
    case Raw(item) => SingleAccounts(st, fates, item, a.first, a.second);
    case One(r) => SnacAccounts(st, fates, r, a.first, a.second);
    case Several(rs) => MultiAccounts(st, fates, rs, a.first, a.second);
    case Idle(seconds) => IdleAccounts(st, fates, seconds, a.first);
    case Pause(on) => FlagsAccount(st, fates, st.idle, on);
  }

  /** A new handle accounts for every request id of every run, whichever writes fail. */
  lemma {:induction false} RunAccounts(attempts: seq<Attempt>, idle: bool, paused: bool)
    requires forall a | a in attempts :: Allowed(a.op)
    ensures var st0 := State([], 0, idle, paused);
            Accounts(Run(st0, attempts), RunFates(st0, attempts))
  {
    if attempts != [] {
      var st0, front := State([], 0, idle, paused), attempts[..|attempts| - 1];
      RunAccounts(front, idle, paused);
      hide Accounts, Step, Fates;
      StepAccounts(Run(st0, front), RunFates(st0, front), attempts[|attempts| - 1]);
    }
  }

  /** The k-th id kept comes after as many lost ones as it is ahead of k. */
  lemma {:induction false} KeptIs(fates: seq<bool>, k: nat)
    requires k < |Kept(fates)|
    ensures var i := Kept(fates)[k]; i < |fates| && fates[i] && i == k + Lost(fates[..i])
    ensures |Kept(fates)| + Lost(fates) == |fates|
  {
    var front := fates[..|fates| - 1];
    KeptAndLost(fates);
    KeptAndLost(front);
    if k < |Kept(front)| {
      KeptIs(front, k);
      var i := Kept(front)[k];
      assert front[..i] == fates[..i];
    }
  }

  lemma {:induction false} KeptAndLost(fates: seq<bool>)
    ensures |Kept(fates)| + Lost(fates) == |fates|
  {
    if fates != [] {
      KeptAndLost(fates[..|fates| - 1]);
    }
  }

  lemma {:induction false} KeptHas(fates: seq<bool>, i: nat)
    requires i < |fates| && fates[i]
    ensures var k := i - Lost(fates[..i]); k < |Kept(fates)| && Kept(fates)[k] == i
  {
    var front := fates[..|fates| - 1];
    KeptAndLost(front);
    if i < |front| {
      KeptHas(front, i);
      assert front[..i] == fates[..i];
    }
  }

  lemma SameId(i: nat, k: nat)
    requires k <= i
    ensures Be32(After(0, i)) == Be32(After(0, k)) <==> (i - k) % 0x1_0000_0000 == 0
  {
    Value32(After(0, i));
    Value32(After(0, k));
    hide Be32;
    Congruent(i, k);
  }

  lemma Congruent(i: nat, k: nat)
    requires k <= i
    ensures i % 0x1_0000_0000 == k % 0x1_0000_0000 <==> (i - k) % 0x1_0000_0000 == 0
  {
    var m := 0x1_0000_0000;
    assert i == i / m * m + i % m && k == k / m * m + k % m;
    assert i - k == (i / m - k / m) * m + (i % m - k % m);
  }

  lemma AccountsAt(st: State, fates: seq<bool>, k: nat)
    requires Accounts(st, fates) && k < |Kept(fates)|
    ensures |Snacs(st.frames)| == |Kept(fates)|
    ensures var i := Kept(fates)[k];
            && i < |fates| && fates[i]
            && (Carries(Snacs(st.frames)[k], After(0, k)) <==> Lost(fates[..i]) % 0x1_0000_0000 == 0)
  {
    KeptIs(fates, k);
    SameId(Kept(fates)[k], k);
    hide Kept, Snacs, After, Be32, Lost;
  }

  lemma AccountsInSequence(st: State, fates: seq<bool>)
    requires Accounts(st, fates)
    ensures InSequence(st) <==> OnTime(fates, 0x1_0000_0000)
  {
    var s, kept := Snacs(st.frames), Kept(fates);
    assert |s| == |kept|;
    hide Carries, Snacs, Kept, After, Be32, Lost, Accounts;
    if OnTime(fates, 0x1_0000_0000) {
      forall k | 0 <= k < |s|
        ensures Carries(s[k], After(0, k))
      {
        AccountsAt(st, fates, k);
      }
    }
    if InSequence(st) {
      forall i | 0 <= i < |fates| && fates[i]
        ensures Lost(fates[..i]) % 0x1_0000_0000 == 0
      {
        KeptHas(fates, i);
        AccountsAt(st, fates, i - Lost(fates[..i]));
      }
    }
  }

  /**
   Over every run of a new handle, whichever writes fail, the k-th SNAC carries request id k modulo
   2^32 if and only if no SNAC gets out after ids have been lost.
   */
  lemma RunInSequence(attempts: seq<Attempt>, idle: bool, paused: bool)
    requires forall a | a in attempts :: Allowed(a.op)
    ensures var st0 := State([], 0, idle, paused);
            InSequence(Run(st0, attempts)) <==> OnTime(RunFates(st0, attempts), 0x1_0000_0000)
  {
    var st0 := State([], 0, idle, paused);
    RunAccounts(attempts, idle, paused);
    AccountsInSequence(Run(st0, attempts), RunFates(st0, attempts));
  }

  lemma CleanStep(st: State, a: Attempt)
    requires a.first && a.second
    ensures false !in Fates(st, a)
  {
    hide Batch, Updates;
  }

  /** So when no write fails, every SNAC is in sequence. */
  lemma {:induction false} CleanRun(st: State, attempts: seq<Attempt>)
    requires forall a | a in attempts :: a.first && a.second
    ensures false !in RunFates(st, attempts) && OnTime(RunFates(st, attempts), 0x1_0000_0000)
  {
    var fates := RunFates(st, attempts);
    if attempts != [] {
      var front := attempts[..|attempts| - 1];
      hide Fates, Run, OnTime;
      CleanRun(st, front);
      CleanStep(Run(st, front), attempts[|attempts| - 1]);
    }
    CleanOnTime(fates, 0x1_0000_0000);
  }

  lemma CleanOnTime(fates: seq<bool>, modulus: nat)
    requires false !in fates && modulus > 0
    ensures OnTime(fates, modulus)
  {
    forall i | 0 <= i < |fates|
      ensures Lost(fates[..i]) == 0
    {
      NothingLost(fates[..i]);
    }
    hide Lost;
  }

  lemma {:induction false} NothingLost(fates: seq<bool>)
    requires false !in fates
    ensures Lost(fates) == 0
  {
    if fates != [] {
      NothingLost(fates[..|fates| - 1]);
    }
  }
}
