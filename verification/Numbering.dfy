/** The sequence numbers that the frames of a run carry (imcomm/flap.c), whichever writes fail. */
module Numbering {
  import opened Bytes
  import opened Flap
  import opened Senders

  /** The number of a report of idle time: a failed write of a single frame uses up none. */
  function ReportSlots(st: State, seconds: uint32, ok: bool): seq<bool> {
    if Reports(st, seconds) && !st.paused && ok then [true] else []
  }

  /** What becomes of the sequence numbers that an attempt uses, in order: only a failed batch loses some. */
  function Slots(st: State, a: Attempt): seq<bool> {
    match a.op
    case Raw(item) =>
      if a.first then [true] + (if item.update then ReportSlots(st, 0, a.second) else []) else []
    case One(r) =>
      if !st.paused && a.first then [true] + (if r.update then ReportSlots(st, 0, a.second) else []) else []
    case Several(rs) =>
      Repeat(a.first, |rs|)
      + (if a.first && Updates(Batch(rs, st.snacreq)) then ReportSlots(st, 0, a.second) else [])
    case Idle(seconds) => ReportSlots(st, seconds, a.first)
    case Pause(_) => []
  }

  function RunSlots(st: State, attempts: seq<Attempt>): seq<bool> {
    if attempts == [] then []
    else
      var front := attempts[..|attempts| - 1];
      RunSlots(st, front) + Slots(Run(st, front), attempts[|attempts| - 1])
  }

  predicate FailedBatch(a: Attempt) { a.op.Several? && !a.first }

  lemma IdleFrames(st: State, seconds: uint32, ok: bool)
    ensures |IdleTimeIf(st, seconds, ok).frames| == |st.frames| + |ReportSlots(st, seconds, ok)|
  {
    hide Snac;
  }

  /** Except in a failed batch, an attempt uses one number for each frame it puts on the wire. */
  lemma SlotsAreFrames(st: State, a: Attempt)
    ensures if FailedBatch(a) then Slots(st, a) == Repeat(false, |a.op.requests|) && Step(st, a).frames == st.frames
            else
              && |st.frames| <= |Step(st, a).frames|
              && Slots(st, a) == Repeat(true, |Step(st, a).frames| - |st.frames|)
  {
    hide Snac, After, IdleTimeIf, Batch, Updates;
    match a.op
    case Raw(item) =>
      IdleFrames(st.(frames := st.frames + [item.out]), 0, a.second);
    case One(r) =>
      var sent := st.(snacreq := After(st.snacreq, 1));
      IdleFrames(sent.(frames := st.frames + [Numbered(r, st.snacreq).out]), 0, a.second);
    case Several(rs) =>
      var sent := st.(snacreq := After(st.snacreq, |rs|));
      IdleFrames(sent.(frames := st.frames + Outs(Batch(rs, st.snacreq))), 0, a.second);
    case Idle(seconds) =>
      IdleFrames(st, seconds, a.first);
    case Pause(_) =>
  }

  /** The numbers of the frames that got out, not yet cut to 16 bits. */
  function Numbers(slots: seq<bool>): (numbers: seq<nat>)
    ensures |numbers| == |Kept(slots)|
  {
    seq(|Kept(slots)|, k requires 0 <= k < |Kept(slots)| => FIRST + Kept(slots)[k])
  }

  lemma NumbersSnoc(slots: seq<bool>, ok: bool)
    ensures Numbers(slots + [ok]) == Numbers(slots) + (if ok then [FIRST + |slots|] else [])
  {
    KeptSnoc(slots, ok);
    hide Kept;
  }

  lemma {:induction false} NumbersOn(slots: seq<bool>, m: nat)
    ensures Numbers(slots + Repeat(true, m)) == Numbers(slots) + Consecutive(FIRST + |slots|, m)
    ensures Numbers(slots + Repeat(false, m)) == Numbers(slots)
  {
    if m == 0 {
      assert slots + [] == slots;
    } else {
      NumbersOn(slots, m - 1);
      NumbersSnoc(slots + Repeat(true, m - 1), true);
      NumbersSnoc(slots + Repeat(false, m - 1), false);
      assert slots + Repeat(true, m - 1) + [true] == slots + Repeat(true, m);
      assert slots + Repeat(false, m - 1) + [false] == slots + Repeat(false, m);
      hide Numbers;
      var n := FIRST + |slots|;
      assert Consecutive(n, m - 1) + [n + m - 1] == Consecutive(n, m);
    }
  }

  lemma Congruent(i: nat, k: nat)
    requires k <= i
    ensures (FIRST + i) % 0x1_0000 == (FIRST + k) % 0x1_0000 <==> (i - k) % 0x1_0000 == 0
  {
    var a, b, m := FIRST + i, FIRST + k, 0x1_0000;
    assert a == a / m * m + a % m && b == b / m * m + b % m;
    assert i - k == (a / m - b / m) * m + (a % m - b % m);
  }

  /** The k-th frame carries 0x1000 + k modulo 65536, for every k. */
  ghost predicate InStep(numbers: seq<nat>) {
    forall k | 0 <= k < |numbers| :: numbers[k] % 0x1_0000 == (FIRST + k) % 0x1_0000
  }

  lemma NumberAt(slots: seq<bool>, k: nat)
    requires k < |Kept(slots)|
    ensures var i := Kept(slots)[k];
            && i < |slots| && slots[i]
            && (Numbers(slots)[k] % 0x1_0000 == (FIRST + k) % 0x1_0000 <==> Lost(slots[..i]) % 0x1_0000 == 0)
  {
    KeptIs(slots, k);
    Congruent(Kept(slots)[k], k);
    hide Kept, Lost;
  }

  lemma NumbersInStep(slots: seq<bool>)
    ensures InStep(Numbers(slots)) <==> OnTime(slots, 0x1_0000)
  {
    hide Kept, Lost, Numbers;
    if OnTime(slots, 0x1_0000) {
      forall k | 0 <= k < |Numbers(slots)|
        ensures Numbers(slots)[k] % 0x1_0000 == (FIRST + k) % 0x1_0000
      {
        NumberAt(slots, k);
      }
    }
    if InStep(Numbers(slots)) {
      forall i | 0 <= i < |slots| && slots[i]
        ensures Lost(slots[..i]) % 0x1_0000 == 0
      {
        KeptHas(slots, i);
        NumberAt(slots, i - Lost(slots[..i]));
      }
    }
  }

  /** While no batch fails, nothing is lost. */
  lemma {:induction false} BatchesSucceed(st: State, attempts: seq<Attempt>)
    requires forall a | a in attempts :: !FailedBatch(a)
    ensures false !in RunSlots(st, attempts) && OnTime(RunSlots(st, attempts), 0x1_0000)
  {
    if attempts != [] {
      var front, last := attempts[..|attempts| - 1], attempts[|attempts| - 1];
      hide OnTime, Slots;
      BatchesSucceed(st, front);
      assert last in attempts;
      SlotsAreFrames(Run(st, front), last);
    }
    CleanOnTime(RunSlots(st, attempts), 0x1_0000);
  }

  /** The numbers as a receiver reads them. */
  ghost predicate ReadsInStep(wire: seq<byte>) {
    var us := Receive.Units(wire);
    forall k | 0 <= k < |us| :: |us[k].header| == 6 && Of16(us[k].header[2..4]) == (FIRST + k) % 0x1_0000
  }

  lemma InStepOnWire(numbers: seq<nat>, os: seq<Outgoing>)
    requires |numbers| == |os| && AllFit(os)
    ensures |Receive.Units(WireOf(numbers, os))| == |os|
    ensures ReadsInStep(WireOf(numbers, os)) <==> InStep(numbers)
  {
    WireOfParses(numbers, os);
    hide WireOf, AllFit, Receive.Units;
    forall k | 0 <= k < |os|
      ensures var u := Receive.Units(WireOf(numbers, os))[k];
              |u.header| == 6 && Of16(u.header[2..4]) == numbers[k] % 0x1_0000
    {
      UnitsSayOf(numbers, os, k);
    }
    hide ReceivedOf;
  }

  /** With nothing lost, the numbers are consecutive. */
  lemma NothingLostNumbers(slots: seq<bool>)
    requires false !in slots
    ensures Numbers(slots) == Consecutive(FIRST, |slots|)
  {
    NumbersOn([], |slots|);
    forall i | 0 <= i < |slots|
      ensures slots[i]
    {
      assert slots[i] in slots;
    }
    assert [] + Repeat(true, |slots|) == slots;
    assert Numbers([]) == [];
    hide Numbers;
    assert [] + Consecutive(FIRST, |slots|) == Consecutive(FIRST, |slots|);
  }
}
