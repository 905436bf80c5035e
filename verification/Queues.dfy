/**
 The build with send queues: flap_send only appends to a queue, which flap_sendnext drains one frame
 at a time. How it compares with sending everything at once.
 */
module Queues {
  import opened Bytes
  import opened Packets
  import opened Flap
  import opened Senders
  import opened Handles
  import opened Wrappers

  /** A handle of this build: the frames of st are on the wire, the others wait. */
  datatype Queued = Queued(st: State, queue: seq<Item>)

  function Submit(q: Queued, item: Item): Queued { q.(queue := q.queue + [item]) }

  function ReportItem(st: State, seconds: uint32): Item {
    Item(Outgoing(0x02, Snac(0x01, 0x11, st.snacreq, Be32(seconds))), false)
  }

  /** imcomm_set_idle_time: the report goes to the end of the queue. */
  function QueueIdle(q: Queued, seconds: uint32): Queued {
    if !Reports(q.st, seconds) then q
    else
      var st := q.st.(idle := seconds > 600);
      if st.paused then q.(st := st)
      else Queued(st.(snacreq := After(st.snacreq, 1)), q.queue + [ReportItem(st, seconds)])
  }

  /** The flag changes as at once, and the report joins the end of the queue, as no activity. */
  lemma QueueIdleSays(q: Queued, seconds: uint32)
    ensures var after := QueueIdle(q, seconds);
            var told := after.st.idle != q.st.idle && !q.st.paused;
            && after.st.idle == (seconds > 600 || (seconds > 0 && q.st.idle))
            && after.st == q.st.(idle := after.st.idle, snacreq := after.st.snacreq)
            && after.st.snacreq == (if told then (q.st.snacreq + 1) % 0x1_0000_0000 else q.st.snacreq)
            && var report := Item(Outgoing(2, Snac(1, 17, q.st.snacreq, Be32(seconds))), false);
            && after.queue == q.queue + (if told then [report] else [])
  {
    hide Snac, Be32;
    assert q.queue + [] == q.queue;
  }

  /** flap_sendnext: the head leaves the queue, whether or not its write succeeds. */
  function SendHead(q: Queued, ok: bool): Queued {
    if q.queue == [] then q
    else
      var head, rest := q.queue[0], q.queue[1..];
      if !ok then q.(queue := rest)
      else
        var sent := Queued(q.st.(frames := q.st.frames + [head.out]), rest);
        if head.update then QueueIdle(sent, 0) else sent
  }

  /** What a client does: submit a frame, have the next one sent, or change the idle time. */
  datatype Call = Put(item: Item) | Send(ok: bool) | Idle(seconds: uint32)

  function Do(q: Queued, call: Call): Queued {
    match call
    case Put(item) => Submit(q, item)
    case Send(ok) => SendHead(q, ok)
    case Idle(seconds) => QueueIdle(q, seconds)
  }

  function Drive(q: Queued, calls: seq<Call>): Queued {
    if calls == [] then q else Do(Drive(q, calls[..|calls| - 1]), calls[|calls| - 1])
  }

  // What becomes of what is submitted, over any run.

  function Reporting(st: State, seconds: uint32): seq<Item> {
    if Reports(st, seconds) && !st.paused then [ReportItem(st, seconds)] else []
  }

  /** What a call puts in the queue: the frame handed over, or a report that it causes. */
  function Puts(q: Queued, call: Call): seq<Item> {
    match call
    case Put(item) => [item]
    case Send(ok) => if q.queue != [] && ok && q.queue[0].update then Reporting(q.st, 0) else []
    case Idle(seconds) => Reporting(q.st, seconds)
  }

  /** Everything that has been in the queue, in order, reports included. */
  function Submitted(q: Queued, calls: seq<Call>): seq<Item> {
    if calls == [] then q.queue
    else
      var front := calls[..|calls| - 1];
      Submitted(q, front) + Puts(Drive(q, front), calls[|calls| - 1])
  }

  /** Whether the write succeeded, for each frame that has left the queue. */
  function Outcomes(q: Queued, calls: seq<Call>): seq<bool> {
    if calls == [] then []
    else
      var front, last := calls[..|calls| - 1], calls[|calls| - 1];
      Outcomes(q, front) + (if last.Send? && Drive(q, front).queue != [] then [last.ok] else [])
  }

  /** The frames whose write succeeded. */
  function Written(items: seq<Item>, oks: seq<bool>): seq<Outgoing>
    requires |oks| <= |items|
  {
    if oks == [] then []
    else
      var n := |oks| - 1;
      Written(items, oks[..n]) + (if oks[n] then [items[n].out] else [])
  }

  /** The frames that have left the queue are on the wire but for the failed ones; the others wait. */
  ghost predicate Conserved(q0: Queued, items: seq<Item>, oks: seq<bool>, q: Queued) {
    && |oks| <= |items| && q.queue == items[|oks|..]
    && q.st.frames == q0.st.frames + Written(items, oks)
  }

  lemma {:induction false} WrittenOf(items: seq<Item>, more: seq<Item>, oks: seq<bool>)
    requires |oks| <= |items|
    ensures Written(items + more, oks) == Written(items, oks)
    decreases |oks|
  {
    if oks != [] {
      WrittenOf(items, more, oks[..|oks| - 1]);
    }
  }

  lemma ConservedPuts(q0: Queued, items: seq<Item>, oks: seq<bool>, q: Queued, more: seq<Item>)
    requires Conserved(q0, items, oks, q)
    ensures Conserved(q0, items + more, oks, q.(queue := q.queue + more))
  {
    WrittenOf(items, more, oks);
    hide Written;
  }

  lemma ConservedSends(q0: Queued, items: seq<Item>, oks: seq<bool>, q: Queued, ok: bool)
    requires Conserved(q0, items, oks, q) && q.queue != []
    ensures Conserved(q0, items, oks + [ok],
                 Queued(q.st.(frames := q.st.frames + (if ok then [q.queue[0].out] else [])), q.queue[1..]))
  {
    var n := |oks|;
    assert (oks + [ok])[..n] == oks;
    assert Written(items, oks + [ok]) == Written(items, oks) + (if ok then [items[n].out] else []);
    hide Written;
    Senders.Regroup(q0.st.frames, Written(items, oks), if ok then [items[n].out] else []);
  }

  /** Conserved looks at nothing but the frames and the queue. */
  lemma ConservedAlike(q0: Queued, items: seq<Item>, oks: seq<bool>, p: Queued, q: Queued)
    requires Conserved(q0, items, oks, p) && p.st.frames == q.st.frames && p.queue == q.queue
    ensures Conserved(q0, items, oks, q)
  {
  }

  lemma ConservedIdle(q0: Queued, items: seq<Item>, oks: seq<bool>, q: Queued, seconds: uint32)
    requires Conserved(q0, items, oks, q)
    ensures Conserved(q0, items + Reporting(q.st, seconds), oks, QueueIdle(q, seconds))
  {
    var more := Reporting(q.st, seconds);
    ConservedPuts(q0, items, oks, q, more);
    hide Conserved;
    assert q.queue + [] == q.queue;
    ConservedAlike(q0, items + more, oks, q.(queue := q.queue + more), QueueIdle(q, seconds));
  }

  lemma ConservedDo(q0: Queued, items: seq<Item>, oks: seq<bool>, q: Queued, call: Call)
    requires Conserved(q0, items, oks, q)
    ensures Conserved(q0, items + Puts(q, call),
                      oks + (if call.Send? && q.queue != [] then [call.ok] else []), Do(q, call))
  {
    assert items + [] == items && oks + [] == oks;
    match call
    case Put(item) => ConservedPuts(q0, items, oks, q, [item]);
    case Idle(seconds) => ConservedIdle(q0, items, oks, q, seconds);
    case Send(ok) =>
      if q.queue != [] {
        ConservedSends(q0, items, oks, q, ok);
        hide Conserved, QueueIdle;
        var out := if ok then [q.queue[0].out] else [];
        var sent := Queued(q.st.(frames := q.st.frames + out), q.queue[1..]);
        if ok && q.queue[0].update {
          ConservedIdle(q0, items, oks + [ok], sent, 0);
        } else {
          ConservedAlike(q0, items, oks + [ok], sent, Do(q, call));
        }
      }
  }

  /**
   Whatever is submitted and sent, with whatever idle times and failing writes: the frames leave the
   queue in the order in which they got there, reports included, each one once; on the wire are
   those whose write succeeded, and the queue holds the ones that have not left it.
   */
  lemma {:induction false} KeepsEverything(q0: Queued, calls: seq<Call>)
    ensures Conserved(q0, Submitted(q0, calls), Outcomes(q0, calls), Drive(q0, calls))
  {
    if calls == [] {
      assert q0.st.frames + [] == q0.st.frames;
    } else {
      var front, last := calls[..|calls| - 1], calls[|calls| - 1];
      KeepsEverything(q0, front);
      ConservedDo(q0, Submitted(q0, front), Outcomes(q0, front), Drive(q0, front), last);
      hide Conserved, Do, Puts;
    }
  }

  // Runs without failing writes, in which nothing but activity ends an idle time.

  predicate Plain(calls: seq<Call>) { forall c | c in calls :: c.Put? || c == Send(true) }

  function Items(calls: seq<Call>): seq<Item> {
    if calls == [] then []
    else Items(calls[..|calls| - 1]) + (if calls[|calls| - 1].Put? then [calls[|calls| - 1].item] else [])
  }

  /** The next frame to be sent ends the idle time that the server has been told about. */
  predicate Wakes(q: Queued) { q.queue != [] && q.queue[0].update && q.st.idle && !q.st.paused }

  /** The frames that were waiting behind the one that ended the idle time, when it was sent. */
  function Behind(q: Queued, calls: seq<Call>): Option<seq<Outgoing>> {
    if calls == [] then None
    else
      var front := calls[..|calls| - 1];
      var before := Drive(q, front);
      if Behind(q, front).Some? then Behind(q, front)
      else if calls[|calls| - 1].Send? && Wakes(before) then Some(Outs(before.queue[1..]))
      else None
  }

  /** The first item that counts as activity. */
  function FirstUpdate(items: seq<Item>): (u: nat)
    ensures u <= |items| && (u < |items| ==> items[u].update) && forall i | 0 <= i < u :: !items[i].update
  {
    if items == [] || items[0].update then 0 else 1 + FirstUpdate(items[1..])
  }

  lemma {:induction false} FirstUpdateIs(items: seq<Item>, u: nat)
    requires u <= |items| && (u < |items| ==> items[u].update) && forall i | 0 <= i < u :: !items[i].update
    ensures FirstUpdate(items) == u
  {
    if u > 0 {
      FirstUpdateIs(items[1..], u - 1);
    }
  }

  lemma {:induction false} OutsAppend(a: seq<Item>, b: seq<Item>)
    ensures Outs(a + b) == Outs(a) + Outs(b)
  {
    if a == [] {
      assert a + b == b;
    } else {
      assert (a + b)[1..] == a[1..] + b;
      OutsAppend(a[1..], b);
    }
  }

  lemma OutsSplit(items: seq<Item>, k: nat)
    requires k <= |items|
    ensures Outs(items) == Outs(items[..k]) + Outs(items[k..])
  {
    assert items == items[..k] + items[k..];
    OutsAppend(items[..k], items[k..]);
  }

  /** The frames sent before and including the u-th item. */
  function Base(st0: State, items: seq<Item>, u: nat): seq<Outgoing>
    requires u < |items|
  {
    st0.frames + Outs(items[..u + 1])
  }

  /** What is on the wire when items have been sent at once: a report right behind the first activity. */
  function AtOnce(st: State, items: seq<Item>): State {
    var u := FirstUpdate(items);
    if u == |items| || !st.idle then st.(frames := st.frames + Outs(items))
    else if st.paused then st.(frames := st.frames + Outs(items), idle := false)
    else
      State(Base(st, items, u) + [WakeUp(st)] + Outs(items[u + 1..]), After(st.snacreq, 1), false, false)
  }

  lemma {:induction false} SinglesAtOnce(st: State, items: seq<Item>)
    ensures Singles(st, items) == AtOnce(st, items)
    decreases items
  {
    hide Snac;
    if items == [] {
      assert st.frames + [] == st.frames;
    } else if !st.idle {
      SinglesAwake(st, items);
    } else if items[0].update {
      SinglesWake(st, items);
      WokenAtOnce(st, items);
    } else {
      SinglesHead(st, items);
      SinglesAtOnce(st.(frames := st.frames + [items[0].out]), items[1..]);
      AtOnceHead(st, items);
    }
  }

  lemma WokenAtOnce(st: State, items: seq<Item>)
    requires st.idle && items != [] && items[0].update
    ensures Woken(st, st.frames + [items[0].out], Outs(items[1..])) == AtOnce(st, items)
  {
    hide Snac, WakeUp;
    FirstUpdateIs(items, 0);
    assert items[..1] == [items[0]] && Outs([items[0]]) == [items[0].out];
    Senders.Regroup(st.frames, [items[0].out], Outs(items[1..]));
  }

  lemma AtOnceHead(st: State, items: seq<Item>)
    requires items != [] && !items[0].update
    ensures AtOnce(st, items) == AtOnce(st.(frames := st.frames + [items[0].out]), items[1..])
  {
    var tail, u := items[1..], FirstUpdate(items[1..]);
    FirstUpdateIs(items, u + 1);
    HeadOf(items);
    var st1 := st.(frames := st.frames + [items[0].out]);
    assert WakeUp(st) == WakeUp(st1);
    Senders.Regroup(st.frames, [items[0].out], Outs(tail));
    if u < |tail| {
      HeadOf(items[..u + 2]);
      assert items[..u + 2][1..] == tail[..u + 1] && items[u + 2..] == tail[u + 1..];
      Senders.Regroup(st.frames, [items[0].out], Outs(tail[..u + 1]));
    }
    hide Outs, Snac, WakeUp, FirstUpdate;
  }

  // Every state of such a run, against the items submitted so far.

  /** No report has been queued: the queue is the items from the s-th on. */
  ghost predicate Quiet(st0: State, items: seq<Item>, q: Queued, s: nat) {
    && s <= |items| && q.queue == items[s..]
    && q.st == st0.(frames := st0.frames + Outs(items[..s]), idle := st0.idle && s <= FirstUpdate(items))
    && (st0.idle && !st0.paused ==> s <= FirstUpdate(items))
  }

  /** A report has been queued when the frames b were waiting; later items come behind it. */
  ghost predicate Reported(st0: State, items: seq<Item>, q: Queued, b: seq<Outgoing>) {
    var u := FirstUpdate(items);
    && u + 1 + |b| <= |items| && b == Outs(items[u + 1..u + 1 + |b|])
    && st0.idle && !st0.paused
    && q.st == State(q.st.frames, After(st0.snacreq, 1), false, false)
    && |Base(st0, items, u)| <= |q.st.frames|
    && q.st.frames + Outs(q.queue) == Base(st0, items, u) + b + [WakeUp(st0)] + Outs(items[u + 1 + |b|..])
  }

  ghost predicate InPhase(st0: State, items: seq<Item>, q: Queued, behind: Option<seq<Outgoing>>) {
    match behind
    case None => exists s: nat :: Quiet(st0, items, q, s)
    case Some(b) => Reported(st0, items, q, b)
  }

  lemma SliceSnoc<T>(s: seq<T>, x: T, i: nat, j: nat)
    requires i <= j <= |s|
    ensures (s + [x])[i..j] == s[i..j] && (s + [x])[..j] == s[..j] && (s + [x])[j..] == s[j..] + [x]
  {
  }

  lemma FirstUpdateSnoc(items: seq<Item>, item: Item)
    ensures var u := FirstUpdate(items);
            FirstUpdate(items + [item]) ==
            if u < |items| then u else if item.update then |items| else |items| + 1
  {
    var u, all := FirstUpdate(items), items + [item];
    FirstUpdateIs(all, if u < |items| then u else if item.update then |items| else |items| + 1);
  }

  lemma QuietPut(st0: State, items: seq<Item>, q: Queued, s: nat, item: Item)
    requires Quiet(st0, items, q, s)
    ensures Quiet(st0, items + [item], Submit(q, item), s)
  {
    FirstUpdateSnoc(items, item);
    SliceSnoc(items, item, 0, s);
    hide FirstUpdate, Outs;
  }

  lemma BothSnoc<T>(a: seq<T>, b: seq<T>, c: seq<T>, d: seq<T>, x: T)
    requires a + b == c + d
    ensures a + (b + [x]) == c + (d + [x])
  {
    assert a + (b + [x]) == a + b + [x] && c + (d + [x]) == c + d + [x];
  }

  lemma BaseSnoc(st0: State, items: seq<Item>, item: Item, u: nat)
    requires u < |items|
    ensures Base(st0, items + [item], u) == Base(st0, items, u)
  {
    assert (items + [item])[..u + 1] == items[..u + 1];
  }

  lemma ReportedPut(st0: State, items: seq<Item>, q: Queued, b: seq<Outgoing>, item: Item)
    requires Reported(st0, items, q, b)
    ensures Reported(st0, items + [item], Submit(q, item), b)
  {
    hide FirstUpdate, Outs, WakeUp, Base;
    var u := FirstUpdate(items);
    var j := u + 1 + |b|;
    FirstUpdateSnoc(items, item);
    BaseSnoc(st0, items, item, u);
    SliceSnoc(items, item, u + 1, j);
    OutsSnoc(q.queue, item);
    OutsSnoc(items[j..], item);
    BothSnoc(q.st.frames, Outs(q.queue), Base(st0, items, u) + b + [WakeUp(st0)], Outs(items[j..]), item.out);
  }

  /** Sending the s-th item, while no report has been queued. */
  lemma QuietSend(st0: State, items: seq<Item>, q: Queued, s: nat)
    requires Quiet(st0, items, q, s) && q.queue != []
    ensures s < |items| && q.queue[0] == items[s] && q.queue[1..] == items[s + 1..]
    ensures q.st.frames + [items[s].out] == st0.frames + Outs(items[..s + 1])
  {
    assert items[s..][1..] == items[s + 1..];
    OutsSnoc(items[..s], items[s]);
    assert items[..s] + [items[s]] == items[..s + 1];
    Senders.Regroup(st0.frames, Outs(items[..s]), [items[s].out]);
  }

  lemma QuietStays(st0: State, items: seq<Item>, q: Queued, s: nat)
    requires Quiet(st0, items, q, s) && q.queue != [] && !Wakes(q)
    ensures Quiet(st0, items, SendHead(q, true), s + 1)
  {
    QuietSend(st0, items, q, s);
    var u := FirstUpdate(items);
    assert u < |items| ==> items[u].update;
    assert s < u ==> !items[s].update;
    hide FirstUpdate, Outs, ReportItem;
  }

  lemma QuietWakes(st0: State, items: seq<Item>, q: Queued, s: nat)
    requires Quiet(st0, items, q, s) && Wakes(q)
    ensures Reported(st0, items, SendHead(q, true), Outs(q.queue[1..]))
  {
    QuietSend(st0, items, q, s);
    var u := FirstUpdate(items);
    assert items[s].update;
    assert s == u;
    OutsSnoc(q.queue[1..], ReportItem(st0, 0));
    assert items[u + 1..|items|] == items[u + 1..] && items[|items|..] == [];
    assert ReportItem(q.st.(idle := false), 0).out == WakeUp(st0);
    hide FirstUpdate, WakeUp, ReportItem;
    var base, b, w := Base(st0, items, u), Outs(items[u + 1..]), WakeUp(st0);
    assert base + (b + [w]) == base + b + [w] + [];
  }

  lemma ReportedSend(st0: State, items: seq<Item>, q: Queued, b: seq<Outgoing>)
    requires Reported(st0, items, q, b) && q.queue != []
    ensures Reported(st0, items, SendHead(q, true), b)
  {
    var head, rest := q.queue[0], q.queue[1..];
    Senders.Regroup(q.st.frames, [head.out], Outs(rest));
    hide FirstUpdate, WakeUp, ReportItem;
  }

  /** Every state of every run is in one of the two phases. */
  lemma {:induction false} DriveInPhase(st0: State, calls: seq<Call>)
    requires Plain(calls)
    ensures var q0 := Queued(st0, []);
            InPhase(st0, Items(calls), Drive(q0, calls), Behind(q0, calls))
  {
    var q0 := Queued(st0, []);
    if calls == [] {
      assert st0.frames + [] == st0.frames;
      assert Quiet(st0, [], q0, 0);
    } else {
      var front, last := calls[..|calls| - 1], calls[|calls| - 1];
      DriveInPhase(st0, front);
      StepInPhase(st0, Items(front), Drive(q0, front), Behind(q0, front), last);
      hide InPhase, SendHead, Submit, Wakes, Outs;
      assert Items(front) + [] == Items(front);
    }
  }

  lemma StepInPhase(st0: State, items: seq<Item>, q: Queued, behind: Option<seq<Outgoing>>, call: Call)
    requires InPhase(st0, items, q, behind)
    ensures call.Put? ==> InPhase(st0, items + [call.item], Submit(q, call.item), behind)
    ensures call == Send(true) ==>
              InPhase(st0, items, SendHead(q, true),
                      if behind.Some? then behind else if Wakes(q) then Some(Outs(q.queue[1..])) else None)
  {
    hide Quiet, Reported, Submit, Outs;
    if behind.Some? {
      if call.Put? {
        ReportedPut(st0, items, q, behind.value, call.item);
      } else if call == Send(true) && q.queue != [] {
        ReportedSend(st0, items, q, behind.value);
      }
    } else {
      var s: nat :| Quiet(st0, items, q, s);
      if call.Put? {
        QuietPut(st0, items, q, s, call.item);
      } else if call == Send(true) && Wakes(q) {
        QuietWakes(st0, items, q, s);
      } else if call == Send(true) && q.queue != [] {
        QuietStays(st0, items, q, s);
      }
    }
  }

  lemma QuietKeeps(st0: State, items: seq<Item>, q: Queued, s: nat)
    requires Quiet(st0, items, q, s)
    ensures q.st.frames + Outs(q.queue) == st0.frames + Outs(items)
  {
    OutsSplit(items, s);
    hide FirstUpdate, Outs;
    Senders.Regroup(st0.frames, Outs(items[..s]), Outs(items[s..]));
  }

  /** Wire and queue together are the items, with the report behind the frames b that were waiting. */
  ghost predicate InPlace(st0: State, items: seq<Item>, q: Queued, behind: Option<seq<Outgoing>>) {
    var all := q.st.frames + Outs(q.queue);
    match behind
    case None => all == st0.frames + Outs(items)
    case Some(b) =>
      var u := FirstUpdate(items);
      && u + 1 + |b| <= |items| && b == Outs(items[u + 1..u + 1 + |b|])
      && all == Base(st0, items, u) + b + [WakeUp(st0)] + Outs(items[u + 1 + |b|..])
  }

  lemma PhaseInPlace(st0: State, items: seq<Item>, q: Queued, behind: Option<seq<Outgoing>>)
    requires InPhase(st0, items, q, behind)
    ensures InPlace(st0, items, q, behind)
  {
    hide Quiet, FirstUpdate, Outs, Base, WakeUp;
    if behind.None? {
      var s: nat :| Quiet(st0, items, q, s);
      QuietKeeps(st0, items, q, s);
    }
  }

  /** In every such run the report comes right behind the frames that were waiting when it was queued. */
  lemma ReportInPlace(st0: State, calls: seq<Call>)
    requires Plain(calls)
    ensures var q0 := Queued(st0, []);
            InPlace(st0, Items(calls), Drive(q0, calls), Behind(q0, calls))
  {
    var q0 := Queued(st0, []);
    DriveInPhase(st0, calls);
    PhaseInPlace(st0, Items(calls), Drive(q0, calls), Behind(q0, calls));
    hide *;
  }

  // The comparison.

  lemma {:induction false} AllSame(base: seq<Outgoing>, w: Outgoing, d: seq<Outgoing>, rest: seq<Outgoing>,
                                   frames: seq<Outgoing>, i: nat)
    requires frames <= base + d + [w] + rest && frames <= base + [w] + d + rest
    requires i < |d| && |base| + i < |frames|
    ensures d[i] == w
  {
    var p := |base| + i;
    assert frames[p] == (base + d + [w] + rest)[p] == d[i];
    assert frames[p] == (base + [w] + d + rest)[p];
    if i > 0 {
      AllSame(base, w, d, rest, frames, i - 1);
    }
  }

  /** Frames in which w comes behind d begin those in which it comes before d, as far as d holds nothing but w. */
  lemma PrefixRotated(base: seq<Outgoing>, w: Outgoing, d: seq<Outgoing>, rest: seq<Outgoing>, frames: seq<Outgoing>)
    requires frames <= base + d + [w] + rest
    ensures frames <= base + [w] + d + rest <==> forall i | 0 <= i < |d| && |base| + i < |frames| :: d[i] == w
  {
    var a, b := base + d + [w] + rest, base + [w] + d + rest;
    if frames <= b {
      forall i | 0 <= i < |d| && |base| + i < |frames|
        ensures d[i] == w
      {
        AllSame(base, w, d, rest, frames, i);
      }
    }
    if forall i | 0 <= i < |d| && |base| + i < |frames| :: d[i] == w {
      forall p | 0 <= p < |frames|
        ensures frames[p] == b[p]
      {
        assert frames[p] == a[p];
        var i := p - |base|;
        if 0 < i <= |d| {
          assert d[i - 1] == w;
        }
      }
    }
  }

  /** Of the frames that were waiting when the report was queued, those sent by now read like the report. */
  ghost predicate ReadsAlike(st0: State, items: seq<Item>, q: Queued, behind: Option<seq<Outgoing>>) {
    behind.Some? ==>
      && FirstUpdate(items) < |items|
      && var sent := |Base(st0, items, FirstUpdate(items))|;
      && forall i | 0 <= i < |behind.value| && sent + i < |q.st.frames| :: behind.value[i] == WakeUp(st0)
  }

  lemma QuietPrefix(st0: State, items: seq<Item>, q: Queued, s: nat)
    requires Quiet(st0, items, q, s)
    ensures q.st.frames <= AtOnce(st0, items).frames
  {
    var u := FirstUpdate(items);
    OutsSplit(items, s);
    if u < |items| && s <= u {
      OutsSplit(items[..u + 1], s);
      assert items[..u + 1][..s] == items[..s];
    }
    hide FirstUpdate, Outs, WakeUp;
  }

  lemma SliceOf<T>(s: seq<T>, i: nat, k: nat)
    requires i + k <= |s|
    ensures s[i..][..k] == s[i..i + k] && s[i..][k..] == s[i + k..]
  {
  }

  lemma OutsCut(items: seq<Item>, i: nat, n: nat)
    requires i + n <= |items|
    ensures Outs(items[i..]) == Outs(items[i..i + n]) + Outs(items[i + n..])
  {
    hide Outs;
    OutsSplit(items[i..], n);
    SliceOf(items, i, n);
  }

  lemma AtOnceIs(st0: State, items: seq<Item>, u: nat)
    requires st0.idle && !st0.paused && u == FirstUpdate(items) < |items|
    ensures AtOnce(st0, items).frames == Base(st0, items, u) + [WakeUp(st0)] + Outs(items[u + 1..])
  {
    hide FirstUpdate, Outs, WakeUp, Base;
  }

  /** Everything at once, cut behind the first of the frames that follow the report. */
  lemma AtOnceCut(st0: State, items: seq<Item>, u: nat, n: nat, b: seq<Outgoing>)
    requires st0.idle && !st0.paused && u == FirstUpdate(items) && u + 1 + n <= |items|
    requires b == Outs(items[u + 1..u + 1 + n])
    ensures AtOnce(st0, items).frames == Base(st0, items, u) + [WakeUp(st0)] + b + Outs(items[u + 1 + n..])
  {
    AtOnceIs(st0, items, u);
    OutsCut(items, u + 1, n);
    hide *;
    Senders.Regroup(Base(st0, items, u) + [WakeUp(st0)], b, Outs(items[u + 1 + n..]));
  }

  lemma ReportedPrefix(st0: State, items: seq<Item>, q: Queued, b: seq<Outgoing>)
    requires Reported(st0, items, q, b)
    ensures q.st.frames <= AtOnce(st0, items).frames <==> ReadsAlike(st0, items, q, Some(b))
  {
    var u := FirstUpdate(items);
    var j := u + 1 + |b|;
    var base, w, rest := Base(st0, items, u), WakeUp(st0), Outs(items[j..]);
    AtOnceCut(st0, items, u, |b|, b);
    hide FirstUpdate, Outs, WakeUp, AtOnce, Base;
    PrefixRotated(base, w, b, rest, q.st.frames);
  }

  /**
   Whatever is submitted and sent, in any order: what this build has put on the wire begins what
   sending everything at once puts there, if and only if the frames that were waiting when the
   report of renewed activity was queued, and have been sent by now, read like that report.
   */
  lemma QueueIsPrefix(st0: State, calls: seq<Call>)
    requires Plain(calls)
    ensures var q0 := Queued(st0, []);
            var q, items := Drive(q0, calls), Items(calls);
            q.st.frames <= Singles(st0, items).frames <==> ReadsAlike(st0, items, q, Behind(q0, calls))
  {
    var q0 := Queued(st0, []);
    var q, items, behind := Drive(q0, calls), Items(calls), Behind(q0, calls);
    DriveInPhase(st0, calls);
    SinglesAtOnce(st0, items);
    hide Quiet, Reported, AtOnce, Singles, Drive, Items, Behind;
    match behind
    case None =>
      var s: nat :| Quiet(st0, items, q, s);
      QuietPrefix(st0, items, q, s);
    case Some(b) =>
      ReportedPrefix(st0, items, q, b);
  }

  /** The same, read off the octets on the wire, numbers included. */
  lemma QueueOnWire(st0: State, calls: seq<Call>)
    requires Plain(calls)
    requires AllFit(Drive(Queued(st0, []), calls).st.frames) && AllFit(Singles(st0, Items(calls)).frames)
    ensures var q0 := Queued(st0, []);
            var q, items := Drive(q0, calls), Items(calls);
            Wire(FIRST, q.st.frames) <= Wire(FIRST, Singles(st0, items).frames)
            <==> ReadsAlike(st0, items, q, Behind(q0, calls))
  {
    hide Drive, Singles, Items, ReadsAlike, Behind, Wire, AllFit;
    QueueIsPrefix(st0, calls);
    WirePrefix(FIRST, Drive(Queued(st0, []), calls).st.frames, Singles(st0, Items(calls)).frames);
  }

  /** Nothing but frames that read like the report was waiting when it was queued. */
  ghost predicate HarmlessRun(st0: State, calls: seq<Call>) {
    var behind := Behind(Queued(st0, []), calls);
    behind.Some? ==> forall o | o in behind.value :: o == WakeUp(st0)
  }

  lemma ReportedDrained(st0: State, items: seq<Item>, q: Queued, b: seq<Outgoing>)
    requires Reported(st0, items, q, b) && q.queue == []
    ensures q.st == AtOnce(st0, items) <==> forall o | o in b :: o == WakeUp(st0)
    ensures q.st == AtOnce(st0, items).(frames := q.st.frames)
  {
    var u := FirstUpdate(items);
    ReportedPrefix(st0, items, q, b);
    OutsSplit(items[u + 1..], |b|);
    SliceOf(items, u + 1, |b|);
    hide WakeUp, FirstUpdate;
    assert q.st.frames + [] == q.st.frames;
    assert forall i | 0 <= i < |b| :: b[i] in b;
    hide Outs;
    assert |q.st.frames| == |AtOnce(st0, items).frames|;
  }

  lemma QuietDrained(st0: State, items: seq<Item>, q: Queued, s: nat)
    requires Quiet(st0, items, q, s) && q.queue == []
    ensures q.st == AtOnce(st0, items)
  {
    assert s == |items| && items[..s] == items;
    hide Outs, FirstUpdate;
  }

  /**
   Once the queue is empty, the handle is as if everything had been sent at once, if and only if the
   run is harmless.
   */
  lemma DrainedIsSingles(st0: State, calls: seq<Call>)
    requires Plain(calls)
    requires Drive(Queued(st0, []), calls).queue == []
    ensures var q, at := Drive(Queued(st0, []), calls), Singles(st0, Items(calls));
            (q.st == at <==> HarmlessRun(st0, calls)) && q.st == at.(frames := q.st.frames)
  {
    var q0 := Queued(st0, []);
    var q, items, behind := Drive(q0, calls), Items(calls), Behind(q0, calls);
    DriveInPhase(st0, calls);
    SinglesAtOnce(st0, items);
    hide Quiet, Reported, AtOnce, Singles, Drive, Items, Behind;
    if behind.Some? {
      ReportedDrained(st0, items, q, behind.value);
    } else {
      var s: nat :| Quiet(st0, items, q, s);
      QuietDrained(st0, items, q, s);
    }
  }

  /** A frame behind the one that ends the idle time overtakes the report. */
  lemma QueueReorders(st0: State, a: Outgoing, b: Outgoing)
    requires st0.idle && !st0.paused && st0.frames == [] && b != WakeUp(st0)
    ensures var q0, calls := Queued(st0, []), [Put(Item(a, true)), Put(Item(b, false)), Send(true), Send(true)];
            && Drive(q0, calls).st.frames == [a, b]
            && Singles(st0, Items(calls)).frames == [a, WakeUp(st0), b]
            && !(Drive(q0, calls).st.frames <= Singles(st0, Items(calls)).frames)
  {
    var q0, x, y := Queued(st0, []), Item(a, true), Item(b, false);
    DriveSnoc(q0, [], Put(x));
    DriveSnoc(q0, [Put(x)], Put(y));
    DriveSnoc(q0, [Put(x), Put(y)], Send(true));
    DriveSnoc(q0, [Put(x), Put(y), Send(true)], Send(true));
    Overtaken(st0, x, y);
    InOrder(st0, x, y);
    hide Drive, Items, Singles, SendHead, WakeUp;
    assert [] + [Put(x)] == [Put(x)] && [Put(x)] + [Put(y)] == [Put(x), Put(y)];
    assert [Put(x), Put(y)] + [Send(true)] == [Put(x), Put(y), Send(true)];
    assert [Put(x), Put(y), Send(true)] + [Send(true)] == [Put(x), Put(y), Send(true), Send(true)];
    assert [] + [x] == [x] && [x] + [y] == [x, y] && [x, y] + [] == [x, y];
    assert [a, b][1] == b && [a, WakeUp(st0), b][1] == WakeUp(st0);
  }

  lemma Overtaken(st0: State, x: Item, y: Item)
    requires st0.frames == [] && !y.update
    ensures SendHead(SendHead(Queued(st0, [x, y]), true), true).st.frames == [x.out, y.out]
  {
    hide ReportItem;
    assert [x, y][1..] == [y] && [] + [x.out] == [x.out] && [x.out] + [y.out] == [x.out, y.out];
  }

  lemma InOrder(st0: State, x: Item, y: Item)
    requires st0.idle && !st0.paused && st0.frames == [] && x.update
    ensures Singles(st0, [x, y]).frames == [x.out, WakeUp(st0), y.out]
  {
    SinglesWake(st0, [x, y]);
    hide Singles, WakeUp;
    assert [x, y][1..] == [y] && Outs([y]) == [y.out];
    assert [] + [x.out] + [WakeUp(st0)] + [y.out] == [x.out, WakeUp(st0), y.out];
  }

  lemma DriveSnoc(q: Queued, calls: seq<Call>, call: Call)
    ensures Drive(q, []) == q && Items([]) == []
    ensures Drive(q, calls + [call]) == Do(Drive(q, calls), call)
    ensures Items(calls + [call]) == Items(calls) + (if call.Put? then [call.item] else [])
  {
    assert (calls + [call])[..|calls|] == calls;
    hide Do;
  }

  /** The same call, whatever comes of it. */
  predicate Same(call: Call, done: Call) { call == done || (call.Send? && done.Send?) }

  lemma Undone(q: Queued)
    ensures Drive(q, []) == q && Outcomes(q, []) == []
  {
  }

  lemma DoneSnoc(q: Queued, calls: seq<Call>, call: Call)
    ensures Drive(q, calls + [call]) == Do(Drive(q, calls), call)
    ensures Outcomes(q, calls + [call]) ==
            Outcomes(q, calls) + (if call.Send? && Drive(q, calls).queue != [] then [call.ok] else [])
  {
    assert (calls + [call])[..|calls|] == calls;
    hide Do;
  }

  /** Which of the writes from one number up to another have worked. */
  ghost predicate Tallied(works: nat -> bool, oks: seq<bool>, from: nat, to: nat) {
    to == from + |oks| && forall i | 0 <= i < |oks| :: oks[i] == works(from + i)
  }

  ghost predicate AllWork(works: nat -> bool, from: nat, to: nat) { forall n | from <= n < to :: works(n) }

  lemma TalliedSnoc(works: nat -> bool, oks: seq<bool>, from: nat, to: nat, ok: bool)
    requires Tallied(works, oks, from, to)
    ensures ok == works(to) ==> Tallied(works, oks + [ok], from, to + 1)
  {
  }

  lemma SamePlain(calls: seq<Call>, done: seq<Call>)
    requires |done| == |calls| && forall k | 0 <= k < |calls| :: Same(calls[k], done[k])
    requires forall c | c in calls :: !c.Idle?
    requires forall k | 0 <= k < |calls| && done[k].Send? :: done[k].ok
    ensures Plain(done)
  {
    forall c | c in done
      ensures c.Put? || c == Send(true)
    {
      var k :| 0 <= k < |done| && done[k] == c;
      assert calls[k] in calls;
    }
  }

  class QueuedHandle {
    const host: Host
    var seqnum: uint16
    var snacreq: uint32
    var isidle: bool
    var srv_pause: bool
    var s_queue: seq<Item>
    var wire: seq<byte>
    var writes: nat
    const works: nat -> bool
    ghost var frames: seq<Outgoing>

    ghost function View(): Queued
      reads this
    {
      Queued(State(frames, snacreq, isidle, srv_pause), s_queue)
    }

    /** The wire holds the frames, numbered from FIRST on: a failed write uses up no number. */
    ghost predicate Valid()
      reads this
    {
      wire == Wire(FIRST, frames) && seqnum == Number(FIRST, |frames|)
    }

    constructor (host: Host, works: nat -> bool)
      ensures Valid() && View() == Queued(State([], 0, false, false), []) && writes == 0 && this.works == works
    {
      this.host, this.works := host, works;
      seqnum, snacreq, isidle, srv_pause, s_queue := 0x1000, 0, false, false, [];
      wire, writes, frames := [], 0, [];
    }

    /** flap_send. */
    method FlapSend(item: Item)
      requires Valid()
      modifies `s_queue
      ensures Valid() && View() == Submit(old(View()), item)
    {
      s_queue := s_queue + [item];
    }

    /** snac_send, for the reports of idle time. */
    method SendReport(seconds: uint32)
      requires Valid() && !srv_pause
      modifies `s_queue, `snacreq
      ensures Valid()
      ensures View() == Queued(old(View()).st.(snacreq := After(old(snacreq), 1)),
                               old(s_queue) + [ReportItem(old(View()).st, seconds)])
    {
      hide Wire, Number, Snac;
      var payload := BuildSnac(host, Request(0x01, 0x11, Be32(seconds), false), snacreq);
      snacreq := (snacreq as int + 1) % 0x1_0000_0000;
      FlapSend(Item(Outgoing(0x02, payload), false));
    }

    /** imcomm_set_idle_time. */
    method SetIdleTime(seconds: uint32)
      requires Valid()
      modifies `s_queue, `snacreq, `isidle
      ensures Valid() && View() == QueueIdle(old(View()), seconds)
    {
      hide Wire, Number, Snac;
      if seconds > 600 {
        if !isidle {
          isidle := true;
          if !srv_pause {
            SendReport(seconds);
          }
        }
      } else if isidle && seconds == 0 {
        isidle := false;
        if !srv_pause {
          SendReport(seconds);
        }
      }
    }

    /** The write in flap_sendAct. */
    method SendFrame(o: Outgoing) returns (ok: bool)
      requires Valid()
      modifies `wire, `writes, `frames, `seqnum
      ensures Valid() && ok == works(old(writes)) && writes == old(writes) + 1
      ensures frames == old(frames) + (if ok then [o] else [])
    {
      hide Wire, Frame, Number, NextNumber;
      var p := new Packet(host, |o.payload| + 6);
      AddFrame(p, seqnum, o);
      assert p.data[..] == p.Written() == [] + Frame(seqnum, o) == Frame(seqnum, o);
      ok := works(writes);
      writes := writes + 1;
      if ok {
        WireSnoc(FIRST, frames, o);
        NumberSnoc(frames, o);
        wire := wire + p.data[..];
        frames := frames + [o];
        seqnum := NextNumber(seqnum);
      }
    }

    /** flap_sendnext, with flap_sendAct in line. */
    method SendNext() returns (ok: bool)
      requires Valid()
      modifies this
      ensures Valid() && View() == SendHead(old(View()), works(old(writes)))
      ensures if old(s_queue) == [] then ok && writes == old(writes)
              else ok == works(old(writes)) && writes == old(writes) + 1
    {
      hide Wire, Number;
      if s_queue == [] {
        return true;
      }
      var head := s_queue[0];
      ok := SendFrame(head.out);
      s_queue := s_queue[1..];
      if ok && head.update {
        SetIdleTime(0);
      }
    }

    /** One call; done is the same call with the outcome of its write. */
    method Perform(call: Call) returns (ghost done: Call)
      requires Valid()
      modifies this
      ensures Valid() && Same(call, done) && View() == Do(old(View()), done)
      ensures if done.Send? && old(s_queue) != [] then writes == old(writes) + 1 && done.ok == works(old(writes))
              else writes == old(writes) && (done.Send? ==> done.ok)
    {
      hide Wire, Number, SendHead, QueueIdle;
      done := call;
      match call
      case Put(item) => FlapSend(item);
      case Idle(seconds) => SetIdleTime(seconds);
      case Send(_) =>
        var ok := SendNext();
        EmptyStays(old(View()));
        done := Send(ok);
    }

    /**
     Submissions, sends and idle times in any order: done are the same calls with the outcomes of
     their writes. As long as no write fails and no idle time is set, the frames on the wire begin
     those of sending everything at once, if and only if the ones that have overtaken a report read
     like it.
     */
    method Serve(calls: seq<Call>) returns (ghost done: seq<Call>)
      requires Valid()
      modifies this
      ensures Valid() && View() == Drive(old(View()), done)
      ensures |done| == |calls| && forall k | 0 <= k < |calls| :: Same(calls[k], done[k])
      ensures Tallied(works, Outcomes(old(View()), done), old(writes), writes)
      ensures Conserved(old(View()), Submitted(old(View()), done), Outcomes(old(View()), done), View())
      ensures old(s_queue) == [] && (forall c | c in calls :: !c.Idle?)
              && AllWork(works, old(writes), writes) ==>
                (frames <= Singles(old(View()).st, Items(done)).frames
                 <==> ReadsAlike(old(View()).st, Items(done), View(), Behind(old(View()), done)))
    {
      hide Valid, Do, SendHead, QueueIdle, Singles, Behind, ReadsAlike, Conserved, Drive, Outcomes, Items;
      done := [];
      Undone(View());
      for k := 0 to |calls|
        invariant Valid() && |done| == k && View() == Drive(old(View()), done)
        invariant forall i | 0 <= i < k :: Same(calls[i], done[i])
        invariant writes >= old(writes) && Tallied(works, Outcomes(old(View()), done), old(writes), writes)
        invariant AllWork(works, old(writes), writes) ==> forall i | 0 <= i < k && done[i].Send? :: done[i].ok
      {
        ghost var from := writes;
        ghost var call := Perform(calls[k]);
        DoneSnoc(old(View()), done, call);
        TalliedSnoc(works, Outcomes(old(View()), done), old(writes), from, call.Send? && call.ok);
        done := done + [call];
      }
      KeepsEverything(old(View()), done);
      if old(s_queue) == [] && (forall c | c in calls :: !c.Idle?) && AllWork(works, old(writes), writes) {
        SamePlain(calls, done);
        QueueIsPrefix(old(View()).st, done);
      }
    }
  }

  lemma NumberSnoc(os: seq<Outgoing>, o: Outgoing)
    ensures NextNumber(Number(FIRST, |os|)) == Number(FIRST, |os + [o]|)
  {
    NumberNext(FIRST + |os|);
  }

  lemma EmptyStays(q: Queued)
    ensures q.queue == [] ==> SendHead(q, true) == SendHead(q, false)
  {
  }
}
