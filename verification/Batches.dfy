/**
 Batches of SNACs against SNACs sent one by one (imcomm/snac.c), and what shows that batches and lost
 writes make a difference.
 */
module Batches {
  import opened Bytes
  import opened Flap
  import opened Senders

  /** The requests handed to snac_send one after the other, with no write failing. */
  function Ones(st: State, rs: seq<Request>): State
    decreases |rs|
  {
    if rs == [] then st else Ones(Step(st, Attempt(One(rs[0]), true, true)), rs[1..])
  }

  /** The same requests in one batch: snac_addToMulti for each of them, and flap_sendMulti. */
  function Together(st: State, rs: seq<Request>): State { Step(st, Attempt(Several(rs), true, true)) }

  /** A request that is worded like the report of renewed activity. */
  predicate IsReport(r: Request) { r.family == 0x01 && r.subtype == 0x11 && r.data == Be32(0) }

  /** The requests behind the first one that counts as activity. */
  function LaterRequests(rs: seq<Request>): seq<Request> {
    if rs == [] then [] else if rs[0].update then rs[1..] else LaterRequests(rs[1..])
  }

  function Report(id: uint32): Outgoing { Outgoing(0x02, Snac(0x01, 0x11, id, Be32(0))) }

  /** A state after one SNAC that has no report behind it. */
  function Next(st: State, r: Request): State {
    st.(frames := st.frames + [Numbered(r, st.snacreq).out], snacreq := After(st.snacreq, 1))
  }

  /** A state after the SNACs of a batch, before activity is noted. */
  function Sent(st: State, rs: seq<Request>): State {
    st.(frames := st.frames + Outs(Batch(rs, st.snacreq)), snacreq := After(st.snacreq, |rs|))
  }

  lemma BatchSnoc(rs: seq<Request>, r: Request, id: uint32)
    ensures Batch(rs + [r], id) == Batch(rs, id) + [Numbered(r, After(id, |rs|))]
  {
    hide Numbered, After;
    assert (rs + [r])[..|rs|] == rs;
  }

  lemma SplitLast<T>(r: T, s: seq<T>)
    requires s != []
    ensures s == s[..|s| - 1] + [s[|s| - 1]] && [r] + s == [r] + s[..|s| - 1] + [s[|s| - 1]]
  {
  }

  lemma {:induction false} BatchCons(r: Request, rs: seq<Request>, id: uint32)
    ensures Batch([r] + rs, id) == [Numbered(r, id)] + Batch(rs, After(id, 1))
    decreases |rs|
  {
    if rs == [] {
      BatchSnoc([], r, id);
      assert [r] + rs == [] + [r] && After(id, 0) == id;
    } else {
      BatchCons(r, rs[..|rs| - 1], id);
      BatchConsSnoc(r, rs[..|rs| - 1], rs[|rs| - 1], id);
      SplitLast(r, rs);
      hide *;
    }
  }

  lemma BatchConsSnoc(r: Request, front: seq<Request>, last: Request, id: uint32)
    requires Batch([r] + front, id) == [Numbered(r, id)] + Batch(front, After(id, 1))
    ensures Batch([r] + front + [last], id) == [Numbered(r, id)] + Batch(front + [last], After(id, 1))
  {
    AfterOn(id, 1, |front|);
    BatchSnoc([r] + front, last, id);
    BatchSnoc(front, last, After(id, 1));
    hide *;
    Regroup([Numbered(r, id)], Batch(front, After(id, 1)), [Numbered(last, After(id, 1 + |front|))]);
  }

  lemma BatchHead(rs: seq<Request>, id: uint32)
    requires rs != []
    ensures Batch(rs, id) == [Numbered(rs[0], id)] + Batch(rs[1..], After(id, 1))
  {
    hide *;
    BatchCons(rs[0], rs[1..], id);
    assert rs == [rs[0]] + rs[1..];
  }

  lemma AfterOn(id: uint32, n: nat, m: nat)
    ensures After(After(id, n), m) == After(id, n + m)
  {
  }

  /** What the head of a batch contributes. */
  lemma OutsHead(rs: seq<Request>, id: uint32)
    requires rs != []
    ensures Outs(Batch(rs, id)) == [Numbered(rs[0], id).out] + Outs(Batch(rs[1..], After(id, 1)))
    ensures Updates(Batch(rs, id)) <==> rs[0].update || Updates(Batch(rs[1..], After(id, 1)))
  {
    BatchHead(rs, id);
    var items, tail := Batch(rs, id), Batch(rs[1..], After(id, 1));
    assert items[1..] == tail;
    hide Batch, Snac, After;
  }

  lemma SentHead(st: State, rs: seq<Request>)
    requires rs != []
    ensures Sent(st, rs) == Sent(Next(st, rs[0]), rs[1..])
  {
    var id := st.snacreq;
    OutsHead(rs, id);
    AfterOn(id, 1, |rs| - 1);
    hide Outs, Batch, Numbered, After;
    Regroup(st.frames, [Numbered(rs[0], id).out], Outs(Batch(rs[1..], After(id, 1))));
  }

  lemma SentNone(st: State)
    ensures Sent(st, []) == st
  {
    assert st.frames + [] == st.frames && After(st.snacreq, 0) == st.snacreq;
  }

  lemma StepOne(st: State, r: Request)
    requires !st.paused && (r.update ==> !st.idle)
    ensures Step(st, Attempt(One(r), true, true)) == Next(st, r)
  {
    hide Snac, After;
  }

  lemma OnesHead(st: State, rs: seq<Request>)
    requires rs != [] && !st.paused && (rs[0].update ==> !st.idle)
    ensures Ones(st, rs) == Ones(Next(st, rs[0]), rs[1..])
  {
    StepOne(st, rs[0]);
    hide Step, Next;
  }

  lemma {:induction false} OnesPaused(st: State, rs: seq<Request>)
    requires st.paused
    ensures Ones(st, rs) == st
    decreases |rs|
  {
    if rs != [] {
      OnesPaused(st, rs[1..]);
    }
  }

  lemma {:induction false} OnesAwake(st: State, rs: seq<Request>)
    requires !st.idle && !st.paused
    ensures Ones(st, rs) == Sent(st, rs)
    decreases |rs|
  {
    if rs == [] {
      SentNone(st);
    } else {
      OnesHead(st, rs);
      SentHead(st, rs);
      hide Ones, Sent, Numbered, After;
      OnesAwake(Next(st, rs[0]), rs[1..]);
    }
  }

  lemma TogetherIs(st: State, rs: seq<Request>)
    ensures Together(st, rs) ==
            if Updates(Batch(rs, st.snacreq)) then IdleTimeIf(Sent(st, rs), 0, true) else Sent(st, rs)
  {
    MultiIs(st.(snacreq := After(st.snacreq, |rs|)), Batch(rs, st.snacreq), true, true);
    hide MultiIf, IdleTimeIf, Batch, Outs, Updates, After;
  }

  lemma TogetherAwake(st: State, rs: seq<Request>)
    requires !st.idle
    ensures Together(st, rs) == Sent(st, rs)
  {
    TogetherIs(st, rs);
    hide Together, Batch, Outs, Updates, After, Snac;
  }

  /** A first request that is no activity goes out first either way. */
  lemma TogetherHead(st: State, rs: seq<Request>)
    requires rs != [] && !rs[0].update
    ensures Together(st, rs) == Together(Next(st, rs[0]), rs[1..])
  {
    var st1 := Next(st, rs[0]);
    TogetherIs(st, rs);
    TogetherIs(st1, rs[1..]);
    SentHead(st, rs);
    OutsHead(rs, st.snacreq);
    assert st1.snacreq == After(st.snacreq, 1);
    hide *;
  }

  lemma ReportWords(r: Request, id: uint32)
    ensures Numbered(r, id).out == Report(id) <==> IsReport(r)
  {
    SnacSays(r.family, r.subtype, id, r.data);
    SnacSays(0x01, 0x11, id, Be32(0));
    hide Snac, Be32;
  }

  lemma AllHead(rs: seq<Request>)
    requires rs != []
    ensures (forall r | r in rs :: IsReport(r)) <==> IsReport(rs[0]) && forall r | r in rs[1..] :: IsReport(r)
  {
    hide IsReport;
    assert rs == [rs[0]] + rs[1..];
  }

  /** A report in front of requests numbered one later reads as a report behind them. */
  predicate Shifts(rs: seq<Request>, id: uint32) {
    [Report(id)] + Outs(Batch(rs, After(id, 1))) == Outs(Batch(rs, id)) + [Report(After(id, |rs|))]
  }

  lemma ShiftsHead(rs: seq<Request>, id: uint32)
    requires rs != []
    ensures Shifts(rs, id) <==> IsReport(rs[0]) && Shifts(rs[1..], After(id, 1))
  {
    hide Outs, Batch, Numbered, Report, IsReport, After;
    var id1, tail := After(id, 1), rs[1..];
    ReportWords(rs[0], id);
    ReportWords(rs[0], id1);
    AfterOn(id, 1, |tail|);
    OutsHead(rs, id);
    OutsHead(rs, id1);
    Interchange(Report(id), Numbered(rs[0], id).out, Numbered(rs[0], id1).out,
                Outs(Batch(tail, After(id1, 1))), Outs(Batch(tail, id1)), Report(After(id, |rs|)));
  }

  lemma {:induction false} ShiftsIs(rs: seq<Request>, id: uint32)
    ensures Shifts(rs, id) <==> forall r | r in rs :: IsReport(r)
    decreases |rs|
  {
    if rs == [] {
      assert After(id, 0) == id;
    } else {
      hide *;
      ShiftsHead(rs, id);
      ShiftsIs(rs[1..], After(id, 1));
      AllHead(rs);
    }
  }

  lemma Interchange<T>(x: T, y: T, z: T, a: seq<T>, b: seq<T>, w: T)
    ensures [x] + ([z] + a) == [y] + b + [w] <==> x == y && [z] + a == b + [w]
  {
    Regroup([y], b, [w]);
    SameHead(x, y, [z] + a, b + [w]);
  }

  lemma SameHead<T>(x: T, y: T, a: seq<T>, b: seq<T>)
    ensures [x] + a == [y] + b <==> x == y && a == b
  {
    if [x] + a == [y] + b {
      assert ([x] + a)[0] == x && ([y] + b)[0] == y && ([x] + a)[1..] == a && ([y] + b)[1..] == b;
    }
  }

  /** The first request ends the idle time. */
  lemma ActiveHead(st: State, rs: seq<Request>)
    requires rs != [] && rs[0].update && st.idle && !st.paused
    ensures Together(st, rs) == Ones(st, rs) <==> forall r | r in rs[1..] :: IsReport(r)
  {
    var id, tail := st.snacreq, rs[1..];
    var id1, id2, o := After(id, 1), After(id, 2), Numbered(rs[0], id).out;
    var front := st.frames + [o];
    AfterOn(id, 1, 1);
    AfterOn(id, 2, |tail|);
    AfterOn(id, |rs|, 1);
    AfterOn(id, 1, |tail|);
    var st1 := State(front + [Report(id1)], id2, false, false);
    assert Step(st, Attempt(One(rs[0]), true, true)) == st1;
    OnesAwake(st1, tail);
    OutsHead(rs, id);
    TogetherIs(st, rs);
    ShiftsIs(tail, id1);
    Regroup(st.frames, [o], Outs(Batch(tail, id1)));
    assert Together(st, rs) ==
           State(front + Outs(Batch(tail, id1)) + [Report(After(id, |rs|))], After(id, |rs| + 1), false, false);
    hide Step, Together, Outs, Batch, Report, After, Snac, IsReport;
    var a, b, w := Outs(Batch(tail, id2)), Outs(Batch(tail, id1)), Report(After(id, |rs|));
    Regroup(front, [Report(id1)], a);
    Regroup(front, b, [w]);
    SameTail(front, [Report(id1)] + a, b + [w]);
  }

  lemma SameTail<T>(front: seq<T>, a: seq<T>, b: seq<T>)
    ensures front + a == front + b <==> a == b
  {
    if front + a == front + b {
      assert (front + a)[|front|..] == a && (front + b)[|front|..] == b;
    }
  }

  lemma {:induction false} UnpausedTogether(st: State, rs: seq<Request>)
    requires !st.paused
    ensures Together(st, rs) == Ones(st, rs) <==> (st.idle ==> forall r | r in LaterRequests(rs) :: IsReport(r))
    decreases |rs|
  {
    hide Snac, Report, IsReport;
    if !st.idle {
      OnesAwake(st, rs);
      TogetherAwake(st, rs);
      hide *;
    } else if rs == [] {
      TogetherIs(st, []);
      SentNone(st);
    } else if rs[0].update {
      ActiveHead(st, rs);
    } else {
      OnesHead(st, rs);
      TogetherHead(st, rs);
      hide Ones, Together, Numbered, After;
      UnpausedTogether(Next(st, rs[0]), rs[1..]);
    }
  }

  /**
   With no write failing, a batch of SNACs leaves the handle as sending them one by one does, if and
   only if the connection is not paused (a pause swallows single SNACs, and lets a batch through)
   and, while idle time is being reported, nothing but requests worded like the report that ends it
   follows the first activity.
   */
  lemma TogetherIsOnes(st: State, rs: seq<Request>)
    requires rs != []
    ensures Together(st, rs) == Ones(st, rs) <==>
            !st.paused && (st.idle ==> forall r | r in LaterRequests(rs) :: IsReport(r))
  {
    if st.paused {
      OnesPaused(st, rs);
      TogetherIs(st, rs);
      OutsHead(rs, st.snacreq);
      hide Batch, Outs, Updates, Snac, After;
      assert |Together(st, rs).frames| > |st.frames|;
    } else {
      UnpausedTogether(st, rs);
    }
  }

  /** A batch whose first frame ends the idle time has its report last, where single sends have it second. */
  lemma BatchReorders(st: State, a: Outgoing, b: Outgoing)
    requires st.idle && !st.paused && st.frames == [] && b != WakeUp(st)
    ensures var items := [Item(a, true), Item(b, false)];
            && Multi(st, items).frames == [a, b, WakeUp(st)] && Singles(st, items).frames == [a, WakeUp(st), b]
            && Multi(st, items).frames != Singles(st, items).frames
  {
    var items := [Item(a, true), Item(b, false)];
    MultiWakes(st, items);
    SinglesWake(st, items);
    assert items[1..] == [Item(b, false)] && Outs(items[1..]) == [b];
    hide Multi, Singles, WakeUp, Outs;
    assert [] + [a] + [b] + [WakeUp(st)] + [] == [a, b, WakeUp(st)];
    assert [] + [a] + [WakeUp(st)] + [b] == [a, WakeUp(st), b];
    assert [a, b, WakeUp(st)][1] == b && [a, WakeUp(st), b][1] == WakeUp(st);
  }

  /** After a SNAC that is lost, the first one on the wire carries request id 1. */
  lemma LostIdSkips(r: Request, s: Request)
    requires !s.update
    ensures var st := Run(State([], 0, false, false), [Attempt(One(r), false, true), Attempt(One(s), true, true)]);
            && st.frames == [Outgoing(0x02, Snac(s.family, s.subtype, 1, s.data))]
            && !InSequence(st)
  {
    var st0, a, b := State([], 0, false, false), Attempt(One(r), false, true), Attempt(One(s), true, true);
    var o := Outgoing(0x02, Snac(s.family, s.subtype, 1, s.data));
    assert [a, b][..1] == [a] && [a][..0] == [];
    assert Run(st0, [a]) == State([], 1, false, false);
    assert [] + [o] == [o];
    assert Run(st0, [a, b]) == Step(Run(st0, [a]), b);
    SnacCarries(s.family, s.subtype, 1, s.data);
    hide Snac;
    assert Run(st0, [a, b]).frames == [o];
    SnacsSnoc([], o);
    assert Snacs([o]) == [o];
    assert !Carries(o, 0);
  }
}
