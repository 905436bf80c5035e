/** Answering automatically while away (getmessage of aim.c), once for each sender until the next command. */
module AutoResponse {
  import opened Names
  import Html
  import Netspeak

  /** The settings and the list that decide about an answer. */
  datatype State = State(waiting: seq<Name>, isaway: bool, isidle: bool, idleOnly: bool)

  /** A message from this sender, up to spaces and case, is waiting to be read. */
  predicate IsWaiting(waiting: seq<Name>, sname: Name) {
    exists k | 0 <= k < |waiting| :: Simplify(waiting[k]) == sname
  }

  /** A message without any text is not seen at all. */
  predicate Seen(message: string) { Html.Strip(message) != "" }

  predicate Answers(s: State, who: Name, auto: bool, message: string) {
    Seen(message) && !IsWaiting(s.waiting, Simplify(who)) && s.isaway && !auto && (s.idleOnly ==> s.isidle)
  }

  function Heard(s: State, who: Name, message: string): State {
    if Seen(message) && !IsWaiting(s.waiting, Simplify(who)) then s.(waiting := s.waiting + [who]) else s
  }

  lemma WaitingNext(waiting: seq<Name>, who: Name, sname: Name)
    ensures IsWaiting(waiting + [who], sname) <==> IsWaiting(waiting, sname) || Simplify(who) == sname
  {
    assert (waiting + [who])[|waiting|] == who;
    if IsWaiting(waiting, sname) {
      var k :| 0 <= k < |waiting| && Simplify(waiting[k]) == sname;
      assert (waiting + [who])[k] == waiting[k];
    }
  }

  /** Taking out netspeak leaves a text where there was one. */
  lemma StillText(s: string)
    requires s != ""
    ensures Netspeak.Clean(s) != ""
  {
    var k := Netspeak.FirstRow(Netspeak.Stem(s), 0);
    if k < 24 {
      hide Netspeak.Orig;
      assert Netspeak.Plain(k) != "";
    } else if Netspeak.Stem(s) == "" {
      assert s[0..] == s;
    }
  }

  class Client {
    var waiting: seq<Name>
    var isaway: bool
    var isidle: bool
    var respondIdleOnly: bool
    var netspeakFilter: bool

    ghost function Now(): State
      reads this
    {
      State(waiting, isaway, isidle, respondIdleOnly)
    }

    /** imcomm_compare_nicks. */
    static method CompareNicks(s1: Name, s2: Name) returns (same: bool)
      ensures same <==> Simplify(s1) == Simplify(s2)
    {
      var s3 := SimplifySn(s1);
      var s4 := SimplifySn(s2);
      same := s3 == s4;
    }

    /** getmessage: whether an answer is sent to the sender. */
    method GetMessage(who: Name, automessage: bool, message: string) returns (answer: bool)
      modifies `waiting
      ensures answer <==>
              && old(isaway) && !automessage && (old(respondIdleOnly) ==> old(isidle)) && Html.Strip(message) != ""
              && forall k | 0 <= k < |old(waiting)| :: Simplify(old(waiting)[k]) != Simplify(who)
      ensures waiting ==
              if Html.Strip(message) == ""
                 || exists k | 0 <= k < |old(waiting)| :: Simplify(old(waiting)[k]) == Simplify(who)
              then old(waiting) else old(waiting) + [who]
      ensures answer == Answers(old(Now()), who, automessage, message)
      ensures Now() == Heard(old(Now()), who, message)
    {
      hide Html.Strip, Netspeak.Clean, Simplify;
      var temp, count := Html.StripHtml(message);
      if count == 0 {
        return false;
      }
      if netspeakFilter {
        StillText(Html.Strip(message));
        var cleaned := Netspeak.UndoNetspeak(temp[..count]);
        if cleaned.Length == 1 {
          return false;
        }
      }
      for k := 0 to |waiting|
        invariant waiting == old(waiting) && forall i | 0 <= i < k :: Simplify(waiting[i]) != Simplify(who)
      {
        var found := CompareNicks(waiting[k], who);
        if found {
          return false;
        }
      }
      waiting := waiting + [who];
      return isaway && !automessage && ((respondIdleOnly && isidle) || !respondIdleOnly);
    }

    /** Enter: the messages that are waiting count as read. */
    method Enter()
      modifies `waiting
      ensures Now() == old(Now()).(waiting := [])
    {
      waiting := [];
    }
  }

  // Whole runs of one client.

  datatype Event =
    | Message(who: Name, auto: bool, text: string)
    | Entered
    | Setting(isaway: bool, isidle: bool, idleOnly: bool)

  function Next(s: State, e: Event): State {
    match e
    case Message(who, _, text) => Heard(s, who, text)
    case Entered => s.(waiting := [])
    case Setting(away, idle, only) => s.(isaway := away, isidle := idle, idleOnly := only)
  }

  /** Whether an event makes the client answer the sender of this name. */
  predicate AnswersTo(s: State, e: Event, sname: Name) {
    e.Message? && Simplify(e.who) == sname && Answers(s, e.who, e.auto, e.text)
  }

  /** How often a run makes the client answer the sender of this name. */
  function Count(s: State, events: seq<Event>, sname: Name): nat
    decreases |events|
  {
    if events == [] then 0
    else (if AnswersTo(s, events[0], sname) then 1 else 0) + Count(Next(s, events[0]), events[1..], sname)
  }

  function Entries(events: seq<Event>): nat {
    if events == [] then 0 else (if events[0] == Entered then 1 else 0) + Entries(events[1..])
  }

  /** A sender is answered at most once between two clears of the waiting list. */
  lemma {:induction false} AnswersOnce(s: State, events: seq<Event>, sname: Name)
    ensures Count(s, events, sname) <= Entries(events) + (if IsWaiting(s.waiting, sname) then 0 else 1)
    decreases |events|
  {
    hide Simplify, Seen;
    if events != [] {
      AnswersOnce(Next(s, events[0]), events[1..], sname);
      if events[0].Message? {
        WaitingNext(s.waiting, events[0].who, sname);
      }
      hide IsWaiting;
    }
  }

  // When an answer is sent, read off the events.

  function Final(s: State, events: seq<Event>): State
    decreases |events|
  {
    if events == [] then s else Final(Next(s, events[0]), events[1..])
  }

  /** A message from this name that has some text. */
  predicate WritesText(e: Event, sname: Name) {
    e.Message? && Simplify(e.who) == sname && Html.Strip(e.text) != ""
  }

  /** The last settings before the end of the events say away, and idle if that matters. */
  predicate AwayAfter(s: State, events: seq<Event>) {
    if events == [] then s.isaway && (s.idleOnly ==> s.isidle)
    else
      var last := events[|events| - 1];
      if last.Setting? then last.isaway && (last.idleOnly ==> last.isidle) else AwayAfter(s, events[..|events| - 1])
  }

  /** A text from this name has come in since the list was last cleared; at first the list is that of s. */
  predicate WaitsAfter(s: State, events: seq<Event>, sname: Name) {
    if events == [] then exists k | 0 <= k < |s.waiting| :: Simplify(s.waiting[k]) == sname
    else
      var last := events[|events| - 1];
      !last.Entered? && (WritesText(last, sname) || WaitsAfter(s, events[..|events| - 1], sname))
  }

  lemma {:induction false} FinalSnoc(s: State, events: seq<Event>, e: Event)
    ensures Final(s, events + [e]) == Next(Final(s, events), e)
    decreases |events|
  {
    hide Next;
    if events == [] {
      assert [] + [e] == [e] && [e][1..] == [];
    } else {
      assert (events + [e])[1..] == events[1..] + [e];
      FinalSnoc(Next(s, events[0]), events[1..], e);
    }
  }

  lemma {:induction false} FinalIs(s: State, events: seq<Event>, sname: Name)
    ensures var t := Final(s, events);
            && (t.isaway && (t.idleOnly ==> t.isidle) <==> AwayAfter(s, events))
            && (IsWaiting(t.waiting, sname) <==> WaitsAfter(s, events, sname))
    decreases |events|
  {
    if events != [] {
      var front, last := events[..|events| - 1], events[|events| - 1];
      FinalIs(s, front, sname);
      FinalSnoc(s, front, last);
      assert front + [last] == events;
      if last.Message? {
        WaitingNext(Final(s, front).waiting, last.who, sname);
      }
      hide Simplify, IsWaiting, Html.Strip, Final;
      assert last.Entered? ==> !IsWaiting([], sname) by { NobodyWaits(sname); }
    }
  }

  lemma NobodyWaits(sname: Name)
    ensures !IsWaiting([], sname)
  {
  }

  /**
   The k-th event of a run is answered if and only if it is a text that is not automatic, the last
   settings say away, and no text from the same name has come in since the last clear.
   */
  lemma AnswersWhen(s: State, events: seq<Event>, k: nat, sname: Name)
    requires k < |events|
    ensures AnswersTo(Final(s, events[..k]), events[k], sname) <==>
            && WritesText(events[k], sname) && !events[k].auto
            && AwayAfter(s, events[..k]) && !WaitsAfter(s, events[..k], sname)
  {
    FinalIs(s, events[..k], sname);
    hide Simplify, IsWaiting, Html.Strip, Final, AwayAfter, WaitsAfter;
  }

  lemma {:induction false} CountAppend(s: State, a: seq<Event>, b: seq<Event>, sname: Name)
    ensures Count(s, a + b, sname) == Count(s, a, sname) + Count(Final(s, a), b, sname)
    decreases |a|
  {
    hide Next, AnswersTo;
    if a == [] {
      assert a + b == b;
    } else {
      assert (a + b)[1..] == a[1..] + b;
      CountAppend(Next(s, a[0]), a[1..], b, sname);
    }
  }

  lemma {:induction false} QuietCount(s: State, events: seq<Event>, sname: Name)
    requires forall e | e in events :: !WritesText(e, sname)
    ensures Count(s, events, sname) == 0
    decreases |events|
  {
    if events != [] {
      assert events[0] in events && !AnswersTo(s, events[0], sname);
      hide Simplify, Html.Strip, IsWaiting, Next;
      QuietCount(Next(s, events[0]), events[1..], sname);
    }
  }

  lemma {:induction false} NoEntries(events: seq<Event>)
    requires forall e | e in events :: !e.Entered?
    ensures Entries(events) == 0
  {
    if events != [] {
      NoEntries(events[1..]);
    }
  }

  lemma {:induction false} WaitsStill(s: State, events: seq<Event>, sname: Name)
    requires forall e | e in events :: !e.Entered? && !WritesText(e, sname)
    ensures WaitsAfter(s, events, sname) <==> WaitsAfter(s, [], sname)
    decreases |events|
  {
    if events != [] {
      var last := events[|events| - 1];
      assert last in events && !last.Entered? && !WritesText(last, sname);
      hide WritesText, Simplify;
      WaitsStill(s, events[..|events| - 1], sname);
    }
  }

  /** Once a text has come in, its sender is waiting, and gets no answer until the next clear. */
  lemma AnsweredNoMore(s: State, e: Event, tail: seq<Event>, sname: Name)
    requires WritesText(e, sname) && forall d | d in tail :: !d.Entered?
    ensures Count(Next(s, e), tail, sname) == 0
  {
    FinalIs(s, [e], sname);
    assert [e][..0] == [] && [e][1..] == [] && WaitsAfter(s, [e], sname);
    assert Final(s, [e]) == Final(Next(s, e), []) == Next(s, e);
    hide Next, WaitsAfter, IsWaiting, AwayAfter;
    AnswersOnce(Next(s, e), tail, sname);
    NoEntries(tail);
  }

  /**
   Between two clears, a name that is not waiting is answered exactly once if its first text is not
   automatic and comes in while the last settings say away, and otherwise not at all; one that is
   waiting is not answered.
   */
  lemma AnswersExactly(s: State, events: seq<Event>, sname: Name, k: nat)
    requires k <= |events| && forall e | e in events :: !e.Entered?
    requires forall i | 0 <= i < k :: !WritesText(events[i], sname)
    requires k < |events| ==> WritesText(events[k], sname)
    ensures Count(s, events, sname) ==
            if !WaitsAfter(s, [], sname) && k < |events| && !events[k].auto && AwayAfter(s, events[..k]) then 1 else 0
  {
    hide Final, AnswersTo, AwayAfter, WaitsAfter, WritesText, Next;
    var front, rest := events[..k], events[k..];
    assert events == front + rest;
    CountAppend(s, front, rest, sname);
    QuietCount(s, front, sname);
    if k < |events| {
      var e, tail := events[k], events[k + 1..];
      assert rest[0] == e && rest[1..] == tail;
      WaitsStill(s, front, sname);
      AnswersWhen(s, events, k, sname);
      AnsweredNoMore(Final(s, front), e, tail, sname);
    }
  }

  /** How many messages in a run people wrote. */
  function Written(events: seq<Event>): nat {
    if events == [] then 0
    else (if events[0].Message? && !events[0].auto then 1 else 0) + Written(events[1..])
  }

  /** How many automatic messages a run sends, to anybody. */
  function Sent(s: State, events: seq<Event>): nat
    decreases |events|
  {
    if events == [] then 0
    else
      var e := events[0];
      (if e.Message? && AnswersTo(s, e, Simplify(e.who)) then 1 else 0) + Sent(Next(s, e), events[1..])
  }

  lemma {:induction false} SentCounts(s: State, events: seq<Event>, sname: Name)
    ensures Count(s, events, sname) <= Sent(s, events)
    decreases |events|
  {
    if events != [] {
      SentCounts(Next(s, events[0]), events[1..], sname);
      hide Next, Simplify, Answers;
    }
  }

  /** Each automatic message answers a message that somebody wrote. */
  lemma {:induction false} AnswersAreToPeople(s: State, events: seq<Event>)
    ensures Sent(s, events) <= Written(events)
    decreases |events|
  {
    if events != [] {
      AnswersAreToPeople(Next(s, events[0]), events[1..]);
    }
  }

  // Two clients that write to each other.

  /** A message under way; it goes to the first client or to the second. */
  datatype Mail = Mail(toFirst: bool, auto: bool, text: string)

  datatype Net = Net(first: State, second: State, wire: seq<Mail>)

  datatype Move =
    | Say(toFirst: bool, text: string)
    | Deliver(k: nat)
    | Enter(atFirst: bool)
    | Set(atFirst: bool, isaway: bool, isidle: bool, idleOnly: bool)

  /** The names of the two clients and the messages they answer with. */
  datatype Setup = Setup(firstName: Name, secondName: Name, firstAway: string, secondAway: string)

  predicate Possible(n: Net, m: Move) { m.Deliver? ==> m.k < |n.wire| }

  function Local(n: Net, atFirst: bool, e: Event): Net {
    if atFirst then n.(first := Next(n.first, e)) else n.(second := Next(n.second, e))
  }

  /** What the receiver of a message does: it may answer, and the answer is an automatic message. */
  function Arrive(u: Setup, n: Net, mail: Mail): Net {
    var sender := if mail.toFirst then u.secondName else u.firstName;
    var away := if mail.toFirst then u.firstAway else u.secondAway;
    var e := Message(sender, mail.auto, mail.text);
    var receiver := if mail.toFirst then n.first else n.second;
    var after := Local(n, mail.toFirst, e);
    if AnswersTo(receiver, e, Simplify(sender)) then after.(wire := n.wire + [Mail(!mail.toFirst, true, away)])
    else after
  }

  function Play(u: Setup, n: Net, m: Move): Net
    requires Possible(n, m)
  {
    match m
    case Say(toFirst, text) => n.(wire := n.wire + [Mail(toFirst, false, text)])
    case Deliver(k) => Arrive(u, n.(wire := n.wire[..k] + n.wire[k + 1..]), n.wire[k])
    case Enter(atFirst) => Local(n, atFirst, Entered)
    case Set(atFirst, away, idle, only) => Local(n, atFirst, Setting(away, idle, only))
  }

  /** A delivery is answered to where it came from, on its receiver's conditions; the other client stays as it is. */
  lemma RepliesGoBack(u: Setup, n: Net, k: nat)
    requires k < |n.wire|
    ensures var mail, after := n.wire[k], Play(u, n, Deliver(k));
            var receiver := if mail.toFirst then n.first else n.second;
            var sender := if mail.toFirst then u.secondName else u.firstName;
            var answered := !mail.auto && receiver.isaway && (receiver.idleOnly ==> receiver.isidle)
                            && Html.Strip(mail.text) != "" && !IsWaiting(receiver.waiting, Simplify(sender));
            && after.wire == n.wire[..k] + n.wire[k + 1..]
                             + (if !answered then [] else if mail.toFirst then [Mail(false, true, u.firstAway)]
                                else [Mail(true, true, u.secondAway)])
            && (if mail.toFirst then after.second == n.second else after.first == n.first)
  {
    hide Simplify, Html.Strip, IsWaiting;
    var rest := n.wire[..k] + n.wire[k + 1..];
    assert rest + [] == rest;
  }

  lemma OthersStay(u: Setup, n: Net, m: Move)
    requires m.Enter? || m.Set?
    ensures var after := Play(u, n, m);
            && after.wire == n.wire && (if m.atFirst then after.second == n.second else after.first == n.first)
            && var client := if m.atFirst then after.first else after.second;
            && var was := if m.atFirst then n.first else n.second;
            && (m.Enter? ==> client == was.(waiting := []))
            && (m.Set? ==> client == State(was.waiting, m.isaway, m.isidle, m.idleOnly))
  {
  }

  predicate Playable(u: Setup, n: Net, moves: seq<Move>)
    decreases |moves|
  {
    moves == [] || (Possible(n, moves[0]) && Playable(u, Play(u, n, moves[0]), moves[1..]))
  }

  /** A message somebody wrote may still cause two deliveries, an automatic one only its own. */
  function Weight(wire: seq<Mail>): nat {
    if wire == [] then 0 else Weight(wire[..|wire| - 1]) + (if wire[|wire| - 1].auto then 1 else 2)
  }

  lemma {:induction false} WeightSplit(a: seq<Mail>, b: seq<Mail>)
    ensures Weight(a + b) == Weight(a) + Weight(b)
  {
    if b == [] {
      assert a + b == a;
    } else {
      assert (a + b)[..|a + b| - 1] == a + b[..|b| - 1];
      WeightSplit(a, b[..|b| - 1]);
    }
  }

  lemma WeightSnoc(wire: seq<Mail>, mail: Mail)
    ensures Weight(wire + [mail]) == Weight(wire) + (if mail.auto then 1 else 2)
  {
    assert (wire + [mail])[..|wire|] == wire;
  }

  lemma WeightWithout(wire: seq<Mail>, k: nat)
    requires k < |wire|
    ensures Weight(wire) == Weight(wire[..k] + wire[k + 1..]) + (if wire[k].auto then 1 else 2)
  {
    hide Weight;
    var front, back := wire[..k], wire[k + 1..];
    WeightSnoc(front, wire[k]);
    WeightSplit(front + [wire[k]], back);
    WeightSplit(front, back);
    assert front + [wire[k]] + back == wire;
  }

  /** Every delivery takes weight off the wire; only people put weight on it. */
  lemma PlayWeight(u: Setup, n: Net, m: Move)
    requires Possible(n, m)
    ensures var w, w' := Weight(n.wire), Weight(Play(u, n, m).wire);
            && (m.Deliver? ==> w' < w) && (m.Say? ==> w' == w + 2) && (!m.Deliver? && !m.Say? ==> w' == w)
  {
    match m
    case Say(toFirst, text) => WeightSnoc(n.wire, Mail(toFirst, false, text));
    case Deliver(k) =>
      var mail, rest := n.wire[k], n.wire[..k] + n.wire[k + 1..];
      WeightWithout(n.wire, k);
      WeightSnoc(rest, Mail(!mail.toFirst, true, if mail.toFirst then u.firstAway else u.secondAway));
      hide Weight, Simplify, Seen, IsWaiting;
    case _ =>
  }

  function Deliveries(moves: seq<Move>): nat {
    if moves == [] then 0 else (if moves[0].Deliver? then 1 else 0) + Deliveries(moves[1..])
  }

  function Sayings(moves: seq<Move>): nat {
    if moves == [] then 0 else (if moves[0].Say? then 1 else 0) + Sayings(moves[1..])
  }

  /**
   Two clients never keep each other busy: whatever else happens, the number of deliveries is
   bounded by what was on the wire and what people wrote.
   */
  lemma {:induction false} DeliveriesEnd(u: Setup, n: Net, moves: seq<Move>)
    requires Playable(u, n, moves)
    ensures Deliveries(moves) <= Weight(n.wire) + 2 * Sayings(moves)
    decreases |moves|
  {
    if moves != [] {
      PlayWeight(u, n, moves[0]);
      DeliveriesEnd(u, Play(u, n, moves[0]), moves[1..]);
      hide Play, Weight;
    }
  }
}
