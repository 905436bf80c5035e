/** Pasting lines into messages (input_paste and bsf_getline of input.c). */
module Paste {
  import opened CStrings

  // Reading a line.

  const CTRL_X: char := 24 as char

  predicate Ends(c: char) { c == '\n' || c == '\r' }

  predicate Erases(c: char) { c == 8 as char || c == 127 as char || c == 4 as char }

  /** What reading a line comes to. */
  datatype Read = Got(line: string, rest: string) | Cancelled | Unfinished

  /**
   Reading goes on with acc typed already, in a buffer of size characters. Erasing in an empty line
   cancels the paste, like Ctrl-X: the unsigned count wraps, which ends the loop, and is returned as -1.
   */
  function ReadOn(input: string, acc: string, size: nat): (r: Read)
    requires |acc| < size
    ensures r.Got? ==> |r.line| < size && (|acc| + 1 < size ==> |r.rest| < |input|)
    decreases |input|
  {
    if |acc| == size - 1 then Got(acc, input)
    else if input == "" then Unfinished
    else if Ends(input[0]) then Got(acc, input[1..])
    else if input[0] == CTRL_X then Cancelled
    else if Erases(input[0]) then if acc == "" then Cancelled else ReadOn(input[1..], acc[..|acc| - 1], size)
    else ReadOn(input[1..], acc + [input[0]], size)
  }

  predicate Plain(c: char) { !Ends(c) && c != CTRL_X && !Erases(c) }

  lemma ReadsPlain(input: string, acc: string, size: nat)
    requires |acc| < size - 1 && input != "" && Plain(input[0])
    ensures ReadOn(input, acc, size) == ReadOn(input[1..], acc + [input[0]], size)
  {
  }

  lemma ReadsBreak(acc: string, rest: string, size: nat)
    requires |acc| < size - 1
    ensures ReadOn("" + "\n" + rest, acc, size) == Got(acc + "", rest)
  {
    var input := "" + "\n" + rest;
    assert input[0] == '\n' && input[1..] == rest && acc + "" == acc;
  }

  lemma ReadsNoMore(line: string, acc: string, rest: string, size: nat)
    requires |acc| == size - 1
    ensures ReadOn(line + "\n" + rest, acc, size) == Got(acc + line[..0], line[0..] + "\n" + rest)
  {
    assert acc + line[..0] == acc && line[0..] == line;
  }

  /** Of a line, its first character goes to what has been read. */
  lemma HeadOver(acc: string, line: string, rest: string, n: nat)
    requires line != ""
    ensures (line + "\n" + rest)[1..] == line[1..] + "\n" + rest && (line + "\n" + rest)[0] == line[0]
    ensures acc + [line[0]] + line[1..] == acc + line
    ensures n < |line| ==> acc + [line[0]] + line[1..][..n] == acc + line[..n + 1] && line[1..][n..] == line[n + 1..]
  {
  }

  /** A line is read as typed; one that fills the buffer is cut there, and leaves its line break behind. */
  lemma {:induction false} ReadsLine(line: string, acc: string, rest: string, size: nat)
    requires |acc| < size && forall c | c in line :: Plain(c)
    ensures ReadOn(line + "\n" + rest, acc, size) ==
            var n := size - 1 - |acc|;
            if |line| < n then Got(acc + line, rest) else Got(acc + line[..n], line[n..] + "\n" + rest)
    decreases |line|
  {
    hide *;
    if |acc| == size - 1 {
      ReadsNoMore(line, acc, rest, size);
    } else if line == "" {
      ReadsBreak(acc, rest, size);
    } else {
      HeadOver(acc, line, rest, size - 2 - |acc|);
      assert Plain(line[0]);
      ReadsPlain(line + "\n" + rest, acc, size);
      ReadsLine(line[1..], acc + [line[0]], rest, size);
    }
  }

  /** In a buffer of one character, as for messages of six, lines are read for ever without reading anything. */
  lemma NothingRead(input: string)
    ensures ReadOn(input, "", 1) == Got("", input)
  {
  }

  /** Either line end ends a line, and Ctrl-X cancels the paste, as does an erasure in an empty line. */
  lemma LineEnds(c: char, acc: string, rest: string, size: nat)
    requires |acc| + 1 < size
    ensures c == '\n' || c == '\r' ==> ReadOn([c] + rest, acc, size) == Got(acc, rest)
    ensures c == 24 as char ==> ReadOn([c] + rest, acc, size) == Cancelled
    ensures c == 4 as char || c == 8 as char || c == 127 as char ==> ReadOn([c] + rest, "", size) == Cancelled
  {
    assert ([c] + rest)[1..] == rest;
  }

  /** A character that does not fill the buffer can be erased again, with any of the three keys for it. */
  lemma Erasing(c: char, e: char, acc: string, rest: string, size: nat)
    requires c !in [4 as char, 8 as char, '\n', '\r', 24 as char, 127 as char] && |acc| + 2 < size
    requires e == 4 as char || e == 8 as char || e == 127 as char
    ensures ReadOn([c, e] + rest, acc, size) == ReadOn(rest, acc, size)
  {
    assert ([c, e] + rest)[1..] == [e] + rest && ([e] + rest)[1..] == rest;
    assert (acc + [c])[..|acc|] == acc;
  }

  /** bsf_getline: the length of the line, or -1 when the paste is cancelled. */
  method GetLine(str: array<char>, size: nat, input: string) returns (count: int, rest: string, eof: bool)
    requires 0 < size <= str.Length
    modifies str
    ensures match ReadOn(input, "", size)
            case Got(line, left) => !eof && count == |line| && str[..count] == line && rest == left
            case Cancelled => !eof && count == -1
            case Unfinished => eof
  {
    count, rest, eof := 0, input, false;
    assert str[..0] == "";
    while count < size - 1
      invariant 0 <= count < size && ReadOn(rest, str[..count], size) == ReadOn(input, "", size)
      decreases |rest|, size - count
    {
      if rest == "" {
        return count, rest, true;
      }
      var ch := rest[0];
      rest := rest[1..];
      if ch == '\n' || ch == '\r' {
        break;
      } else if ch == 24 as char {
        return -1, rest, false;
      } else if ch == 8 as char || ch == 127 as char || ch == 4 as char {
        if count == 0 {
          return -1, rest, false;
        }
        assert str[..count][..count - 1] == str[..count - 1];
        count := count - 1;
      } else {
        ghost var acc := str[..count];
        str[count] := ch;
        count := count + 1;
        assert str[..count] == acc + [ch];
      }
    }
    str[count] := '\0';
  }

  // Lines and messages.

  function Join(lines: seq<string>): string {
    if lines == [] then ""
    else if |lines| == 1 then lines[0]
    else Join(lines[..|lines| - 1]) + "<br>" + lines[|lines| - 1]
  }

  /** Without the blank lines at the start. */
  function Trim(lines: seq<string>): seq<string> {
    if lines != [] && lines[0] == "" then Trim(lines[1..]) else lines
  }

  /** What is sent for a run of lines. */
  function Message(run: seq<string>): string { Join(Trim(run)) }

  /** The runs with one more line: it goes to the last run if the message still fits, and else begins a new one. */
  function Take(runs: seq<seq<string>>, line: string, max: nat): (r: seq<seq<string>>)
    requires runs != []
    ensures r != []
  {
    var last := runs[|runs| - 1];
    if |Message(last)| + |line| + 4 > max then runs + [[line]] else runs[..|runs| - 1] + [last + [line]]
  }

  function Runs(lines: seq<string>, max: nat): (r: seq<seq<string>>)
    ensures r != []
  {
    if lines == [] then [[]] else Take(Runs(lines[..|lines| - 1], max), lines[|lines| - 1], max)
  }

  function Flatten(runs: seq<seq<string>>): seq<string> {
    if runs == [] then [] else Flatten(runs[..|runs| - 1]) + runs[|runs| - 1]
  }

  lemma {:induction false} TrimSnoc(run: seq<string>, line: string)
    ensures Trim(run + [line]) ==
            if Trim(run) == [] then (if line == "" then [] else [line]) else Trim(run) + [line]
  {
    if run == [] {
      assert run + [line] == [line];
    } else if run[0] == "" {
      assert (run + [line])[1..] == run[1..] + [line];
      TrimSnoc(run[1..], line);
    }
  }

  lemma {:induction false} TrimStartsFull(run: seq<string>)
    ensures Trim(run) != [] ==> Trim(run)[0] != ""
  {
    if run != [] && run[0] == "" {
      TrimStartsFull(run[1..]);
    }
  }

  lemma {:induction false} JoinFull(lines: seq<string>)
    requires lines != [] && lines[0] != ""
    ensures Join(lines) != ""
  {
    if |lines| > 1 {
      JoinFull(lines[..|lines| - 1]);
    }
  }

  /** How a message grows with its run. */
  lemma MessageSnoc(run: seq<string>, line: string)
    ensures Message(run + [line]) == if Message(run) == "" then line else Message(run) + "<br>" + line
    ensures |Message(run + [line])| == |line| + (if Message(run) == "" then 0 else |Message(run)| + 4)
  {
    var t := Trim(run);
    TrimSnoc(run, line);
    TrimStartsFull(run);
    hide Trim;
    if t != [] {
      JoinFull(t);
      assert (t + [line])[..|t|] == t;
    }
  }

  /** A message leaves out exactly the blank lines its run starts with. */
  lemma {:induction false} TrimIs(run: seq<string>) returns (b: nat)
    ensures b <= |run| && Message(run) == Join(run[b..])
    ensures (forall i | 0 <= i < b :: run[i] == "") && (b < |run| ==> run[b] != "")
  {
    if run != [] && run[0] == "" {
      b := TrimIs(run[1..]);
      assert run[1..][b..] == run[b + 1..];
      b := b + 1;
    } else {
      assert run[0..] == run;
      b := 0;
    }
  }

  /**
   A blank line adds a line break to the message, if and only if there is a message and room for
   it; otherwise it leaves no trace in any message.
   */
  lemma BlankLine(lines: seq<string>, max: nat)
    requires max >= 4
    ensures var runs, after := Runs(lines, max), Runs(lines + [""], max);
            var last, next := Message(runs[|runs| - 1]), Message(after[|after| - 1]);
            && (Sent(after) == Sent(runs) && next == last + "<br>" <==> last != "" && |last| + 4 <= max)
            && (last == "" ==> Sent(after) == Sent(runs) && next == "")
            && (|last| + 4 > max ==> Sent(after) == Sent(runs) + [last] && next == "")
  {
    SentTake(Runs(lines, max), "", max);
    assert (lines + [""])[..|lines|] == lines;
    hide Message, Take, Sent;
  }

  lemma FlattenSnoc(runs: seq<seq<string>>, run: seq<string>)
    ensures Flatten(runs + [run]) == Flatten(runs) + run
  {
    assert (runs + [run])[..|runs|] == runs;
  }

  lemma {:induction false} RunsFlatten(lines: seq<string>, max: nat)
    ensures Flatten(Runs(lines, max)) == lines
  {
    if lines != [] {
      var front, line := lines[..|lines| - 1], lines[|lines| - 1];
      RunsFlatten(front, max);
      var runs := Runs(front, max);
      var init, last := runs[..|runs| - 1], runs[|runs| - 1];
      FlattenSnoc(runs, [line]);
      FlattenSnoc(init, last + [line]);
      assert Flatten(init) + (last + [line]) == Flatten(init) + last + [line];
      hide Runs, Flatten, Message;
    } else {
      assert Flatten([[]]) == [];
    }
  }

  /** A run that is followed by another has a message, which has no room for the next line. */
  ghost predicate Closes(run: seq<string>, next: seq<string>, max: nat) {
    next != [] && Message(run) != "" && |Message(run)| + |next[0]| + 4 > max
  }

  /** Messages are not too long, and a run ends only at a line that its message has no room for. */
  ghost predicate Greedy(runs: seq<seq<string>>, max: nat) {
    && (forall i | 0 <= i < |runs| :: |Message(runs[i])| <= max)
    && (forall i | 1 <= i < |runs| :: Closes(runs[i - 1], runs[i], max))
  }

  lemma {:induction false} RunsAreGreedy(lines: seq<string>, max: nat)
    requires forall line | line in lines :: |line| + 6 <= max
    ensures Greedy(Runs(lines, max), max)
  {
    if lines == [] {
      assert Message([]) == "";
    } else {
      var front, line := lines[..|lines| - 1], lines[|lines| - 1];
      RunsAreGreedy(front, max);
      TakeGreedy(Runs(front, max), line, max);
    }
  }

  lemma GreedyPrefix(runs: seq<seq<string>>, k: nat, max: nat)
    requires Greedy(runs, max) && k <= |runs|
    ensures Greedy(runs[..k], max)
  {
    hide Message, Closes;
  }

  lemma GreedyAppend(runs: seq<seq<string>>, run: seq<string>, max: nat)
    requires Greedy(runs, max) && |Message(run)| <= max
    requires runs != [] ==> Closes(runs[|runs| - 1], run, max)
    ensures Greedy(runs + [run], max)
  {
    hide Message, Closes;
  }

  lemma TakeGreedy(runs: seq<seq<string>>, line: string, max: nat)
    requires runs != [] && Greedy(runs, max) && |line| + 6 <= max
    ensures Greedy(Take(runs, line, max), max)
  {
    var init, last := runs[..|runs| - 1], runs[|runs| - 1];
    MessageSnoc([], line);
    assert [] + [line] == [line] && Message([]) == "";
    MessageSnoc(last, line);
    hide Message;
    assert |Message(last)| <= max;
    assert init != [] ==> Closes(init[|init| - 1], last, max);
    if |Message(last)| + |line| + 4 > max {
      GreedyAppend(runs, [line], max);
    } else {
      GreedyPrefix(runs, |init|, max);
      hide Greedy;
      assert last != [] ==> (last + [line])[0] == last[0];
      GreedyAppend(init, last + [line], max);
    }
  }

  /** The messages of the runs that are complete. */
  function Sent(runs: seq<seq<string>>): (r: seq<string>)
    requires runs != []
    ensures |r| == |runs| - 1
  {
    seq(|runs| - 1, i requires 0 <= i < |runs| - 1 => Message(runs[i]))
  }

  lemma SentTake(runs: seq<seq<string>>, line: string, max: nat)
    requires runs != []
    ensures var r, last := Take(runs, line, max), Message(runs[|runs| - 1]);
            if |last| + |line| + 4 > max then Sent(r) == Sent(runs) + [last] && Message(r[|r| - 1]) == line
            else
              && Sent(r) == Sent(runs)
              && Message(r[|r| - 1]) == if last == "" then line else last + "<br>" + line
  {
    var last := runs[|runs| - 1];
    MessageSnoc([], line);
    assert [] + [line] == [line] && Message([]) == "";
    MessageSnoc(last, line);
    hide Message;
  }

  // The dialogue.

  datatype Outcome = Finished | Stopped | Waiting

  /** The lines that are typed, up to a '.' or a Ctrl-X. */
  function Typed(input: string, size: nat): (r: (seq<string>, Outcome))
    requires size >= 2
    ensures forall line | line in r.0 :: |line| < size
    decreases |input|
  {
    match ReadOn(input, "", size)
    case Got(line, rest) =>
      if line == "." then ([], Finished) else var more := Typed(rest, size); ([line] + more.0, more.1)
    case Cancelled => ([], Stopped)
    case _ => ([], Waiting)
  }

  /** The messages that are sent by the end of a paste: the last one only if there is something in it. */
  function AllSent(runs: seq<seq<string>>, outcome: Outcome): seq<string>
    requires runs != []
  {
    var last := Message(runs[|runs| - 1]);
    if outcome == Finished && last != "" then Sent(runs) + [last] else Sent(runs)
  }

  lemma GreedySent(runs: seq<seq<string>>, max: nat, outcome: Outcome)
    requires runs != [] && Greedy(runs, max)
    ensures forall m | m in AllSent(runs, outcome) :: 0 < |m| <= max
  {
    hide Message;
    var all, last := Sent(runs), Message(runs[|runs| - 1]);
    forall i | 0 <= i < |all|
      ensures 0 < |all[i]| <= max
    {
      assert Closes(runs[i], runs[i + 1], max);
    }
    assert |last| <= max;
    hide Sent, Greedy;
  }

  /** Every message has something in it and is not too long. */
  lemma SentFits(lines: seq<string>, max: nat, outcome: Outcome)
    requires forall line | line in lines :: |line| + 6 <= max
    ensures forall m | m in AllSent(Runs(lines, max), outcome) :: 0 < |m| <= max
  {
    hide AllSent, Runs, Greedy;
    RunsAreGreedy(lines, max);
    GreedySent(Runs(lines, max), max, outcome);
  }

  /** What has been done: the buffer holds the last run's message, and the others have been sent. */
  ghost predicate Batched(sendbuf: string, sent: seq<string>, lines: seq<string>, max: nat) {
    var runs := Runs(lines, max);
    sent == Sent(runs) && sendbuf == Message(runs[|runs| - 1])
  }

  lemma BatchedNext(sendbuf: string, sent: seq<string>, lines: seq<string>, line: string, max: nat)
    requires Batched(sendbuf, sent, lines, max)
    ensures if |sendbuf| + |line| + 4 > max then Batched(line, sent + [sendbuf], lines + [line], max)
            else Batched(if sendbuf == "" then line else sendbuf + "<br>" + line, sent, lines + [line], max)
  {
    SentTake(Runs(lines, max), line, max);
    assert (lines + [line])[..|lines|] == lines;
    hide Message, Take, Sent;
  }

  /** Adding a line to the buffer, which has room for it. */
  method AddLine(sendbuf: CString, line: string)
    requires sendbuf.Valid() && |sendbuf.text| + |line| + 4 < sendbuf.data.Length && '\0' !in line
    modifies sendbuf, sendbuf.data
    ensures sendbuf.Valid()
    ensures sendbuf.text == if old(sendbuf.text) == "" then line else old(sendbuf.text) + "<br>" + line
  {
    var sendbuflen := sendbuf.Strlen();
    if sendbuflen != 0 {
      sendbuf.Strcat("<br>");
    }
    sendbuf.Strcat(line);
  }

  lemma {:induction false} ReadsCharacters(input: string, acc: string, size: nat)
    requires |acc| < size
    ensures var r := ReadOn(input, acc, size);
            r.Got? ==> (forall c | c in r.line :: c in acc || c in input) && (forall c | c in r.rest :: c in input)
    decreases |input|
  {
    if input != "" {
      assert forall c | c in input[1..] :: c in input;
      assert forall c | c in acc + [input[0]] :: c in acc || c in input;
      ReadsCharacters(input[1..], if acc == "" then "" else acc[..|acc| - 1], size);
      if |acc| < size - 1 {
        ReadsCharacters(input[1..], acc + [input[0]], size);
      }
    }
  }

  /** The lines typed so far, and what is still to be read. */
  ghost predicate Reading(input: string, rest: string, lines: seq<string>, size: nat) {
    && size >= 2 && '\0' !in rest
    && Typed(input, size) == (lines + Typed(rest, size).0, Typed(rest, size).1)
    && forall line | line in lines :: |line| < size
  }

  lemma ReadingStarts(input: string, size: nat)
    requires size >= 2 && '\0' !in input
    ensures Reading(input, input, [], size)
  {
    assert [] + Typed(input, size).0 == Typed(input, size).0;
  }

  lemma ReadingNext(input: string, rest: string, lines: seq<string>, size: nat)
    requires Reading(input, rest, lines, size)
    ensures match ReadOn(rest, "", size)
            case Got(line, left) =>
              && '\0' !in line
              && if line == "." then Typed(input, size) == (lines, Finished)
                 else Reading(input, left, lines + [line], size) && |left| < |rest|
            case Cancelled => Typed(input, size) == (lines, Stopped)
            case Unfinished => Typed(input, size) == (lines, Waiting)
  {
    ReadsCharacters(rest, "", size);
    hide ReadOn;
    assert lines + [] == lines;
    match ReadOn(rest, "", size)
    case Got(line, left) =>
      if line != "." {
        assert lines + ([line] + Typed(left, size).0) == lines + [line] + Typed(left, size).0;
      }
    case _ =>
  }

  /**
   input_paste, once there is a recipient: the messages that are sent, given all that is typed.
   The lines typed are those of Typed, and the messages those of their Runs.
   */
  method InputPaste(input: string, maxmsgsize: nat) returns (sent: seq<string>, outcome: Outcome)
    requires maxmsgsize >= 7 && '\0' !in input
    ensures var (lines, end) := Typed(input, maxmsgsize - 5);
            outcome == end && sent == AllSent(Runs(lines, maxmsgsize), end)
    ensures forall m | m in sent :: 0 < |m| <= maxmsgsize
  {
    ghost var lines: seq<string>;
    sent, outcome, lines := PasteLoop(input, maxmsgsize);
    SentFits(lines, maxmsgsize, outcome);
  }

  /** What becomes of a line: the message it has no room in, which is sent, and the new buffer. */
  method Batch(sendbuf: CString, sendbuflen: nat, line: string, maxmsgsize: nat)
    returns (full: bool, msg: string, newlen: nat)
    requires sendbuf.Valid() && sendbuf.data.Length == maxmsgsize + 1 && sendbuflen == |sendbuf.text|
    requires |line| <= maxmsgsize && '\0' !in line
    modifies sendbuf, sendbuf.data
    ensures sendbuf.Valid() && newlen == |sendbuf.text|
    ensures full <==> sendbuflen + |line| + 4 > maxmsgsize
    ensures full ==> msg == old(sendbuf.text) && sendbuf.text == line
    ensures !full ==> sendbuf.text == if old(sendbuf.text) == "" then line else old(sendbuf.text) + "<br>" + line
  {
    hide CString.Valid;
    var pbuflen := |line|;
    full, msg := sendbuflen + pbuflen + 4 > maxmsgsize, "";
    if full {
      msg := sendbuf.Value();
      sendbuf.Clear();
      sendbuf.Strcat(line);
      assert "" + line == line;
      newlen := pbuflen;
    } else {
      AddLine(sendbuf, line);
      if sendbuflen != 0 {
        pbuflen := pbuflen + 4;
      }
      newlen := sendbuflen + pbuflen;
    }
  }

  method PasteLoop(input: string, maxmsgsize: nat)
    returns (sent: seq<string>, outcome: Outcome, ghost lines: seq<string>)
    requires maxmsgsize >= 7 && '\0' !in input
    ensures Typed(input, maxmsgsize - 5) == (lines, outcome)
    ensures sent == AllSent(Runs(lines, maxmsgsize), outcome)
  {
    hide *;
    var pbuf := new char[maxmsgsize + 1];
    var sendbuf := new CString(maxmsgsize + 1);
    var sendbuflen := 0;
    var rest := input;
    sent, lines := [], [];
    BatchedStarts(maxmsgsize);
    ReadingStarts(input, maxmsgsize - 5);
    while true
      invariant sendbuf.Valid() && sendbuf.data.Length == maxmsgsize + 1 && sendbuflen == |sendbuf.text|
      invariant fresh(sendbuf) && fresh(sendbuf.data) && fresh(pbuf) && pbuf != sendbuf.data
      invariant Batched(sendbuf.text, sent, lines, maxmsgsize) && Reading(input, rest, lines, maxmsgsize - 5)
      decreases |rest|
    {
      ReadingNext(input, rest, lines, maxmsgsize - 5);
      var pbuflen, left, eof := GetLine(pbuf, maxmsgsize - 5, rest);
      if eof {
        BatchedEnds(sendbuf.text, sent, lines, maxmsgsize);
        return sent, Waiting, lines;
      }
      if pbuflen == -1 {
        BatchedEnds(sendbuf.text, sent, lines, maxmsgsize);
        return sent, Stopped, lines;
      }
      if pbuflen == 1 && pbuf[0] == '.' {
        BatchedEnds(sendbuf.text, sent, lines, maxmsgsize);
        assert pbuf[..1] == ".";
        if sendbuflen > 0 {
          var msg := sendbuf.Value();
          sent := sent + [msg];
        }
        return sent, Finished, lines;
      }
      ghost var was := sendbuf.text;
      var line := pbuf[..pbuflen];
      assert line != ".";
      BatchedNext(was, sent, lines, line, maxmsgsize);
      var full, msg;
      full, msg, sendbuflen := Batch(sendbuf, sendbuflen, line, maxmsgsize);
      if full {
        sent := sent + [msg];
      }
      rest := left;
      lines := lines + [line];
    }
  }

  lemma BatchedStarts(max: nat)
    ensures Batched("", [], [], max)
  {
    assert Message([]) == "" && Runs([], max) == [[]];
  }

  lemma BatchedEnds(sendbuf: string, sent: seq<string>, lines: seq<string>, max: nat)
    requires Batched(sendbuf, sent, lines, max)
    ensures AllSent(Runs(lines, max), Waiting) == AllSent(Runs(lines, max), Stopped) == sent
    ensures AllSent(Runs(lines, max), Finished) == if sendbuf != "" then sent + [sendbuf] else sent
  {
    hide Runs, Sent, Message;
  }
}
