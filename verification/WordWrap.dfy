/** Printing a text in lines that fit the screen (wordwrap_print of out.c). */
module WordWrap {
  predicate Separator(c: char) { c == ' ' || c == '\n' }

  /** A line that may be printed: it holds no line break, and fits unless it is a single word. */
  predicate Good(line: string, width: int) {
    '\n' !in line && (|line| <= width || ' ' !in line)
  }

  /** The text cut into good lines at separators, each of which is dropped. */
  ghost predicate Wraps(lines: seq<string>, text: string, width: int)
    decreases |lines|
  {
    && lines != [] && Good(lines[0], width) && lines[0] <= text
    && var n := |lines[0]|;
    if |lines| == 1 then n == |text|
    else n < |text| && Separator(text[n]) && Wraps(lines[1..], text[n + 1..], width)
  }

  /** Where the word that starts at y ends. */
  function WordEnd(text: string, y: nat): (e: nat)
    requires y <= |text|
    ensures y <= e <= |text| && (e < |text| ==> Separator(text[e]))
    ensures forall i | y <= i < e :: !Separator(text[i])
    decreases |text| - y
  {
    if y == |text| || Separator(text[y]) then y else WordEnd(text, y + 1)
  }

  /** A line ends at a separator if it must, or if the next word would not fit. */
  predicate EndsAt(text: string, x: nat, width: int)
    requires x < |text|
  {
    Separator(text[x]) && (text[x] == '\n' || WordEnd(text, x + 1) > width)
  }

  function BreakFrom(text: string, x: nat, width: int): (e: nat)
    requires x <= |text|
    ensures x <= e <= |text| && (e < |text| ==> EndsAt(text, e, width))
    ensures forall i | x <= i < e :: !EndsAt(text, i, width)
    decreases |text| - x
  {
    if x == |text| || EndsAt(text, x, width) then x else BreakFrom(text, x + 1, width)
  }

  function Lines(text: string, width: int): (lines: seq<string>)
    ensures lines != []
    decreases |text|
  {
    var e := BreakFrom(text, 0, width);
    if e == |text| then [text] else [text[..e]] + Lines(text[e + 1..], width)
  }

  /** The line is good, and no longer line would be. */
  lemma BreakIsLast(text: string, width: int)
    ensures var e := BreakFrom(text, 0, width);
            && Good(text[..e], width)
            && forall n | e < n <= |text| && (n == |text| || Separator(text[n])) :: !Good(text[..n], width)
  {
    var e := BreakFrom(text, 0, width);
    LineIsGood(text, width, e);
    forall n | e < n <= |text| && (n == |text| || Separator(text[n]))
      ensures !Good(text[..n], width)
    {
      assert text[..n][e] == text[e];
      assert WordEnd(text, e + 1) <= n;
    }
  }

  lemma LineIsGood(text: string, width: int, e: nat)
    requires e <= |text| && (e < |text| ==> Separator(text[e]))
    requires forall i | 0 <= i < e :: !EndsAt(text, i, width)
    ensures Good(text[..e], width)
  {
    forall i | 0 <= i < e
      ensures text[i] != '\n'
    {
      assert !EndsAt(text, i, width);
    }
    if ' ' in text[..e] {
      var x := LastSpace(text, e);
      assert !EndsAt(text, x, width);
      assert WordEnd(text, x + 1) == e;
    }
  }

  lemma {:induction false} LastSpace(text: string, e: nat) returns (x: nat)
    requires e <= |text| && ' ' in text[..e]
    requires forall i | 0 <= i < e :: text[i] != '\n'
    ensures x < e && text[x] == ' ' && forall i | x < i < e :: !Separator(text[i])
  {
    if text[e - 1] == ' ' {
      x := e - 1;
    } else {
      assert text[..e] == text[..e - 1] + [text[e - 1]];
      x := LastSpace(text, e - 1);
    }
  }

  /** The lines are a wrapping of the text. */
  lemma {:induction false} LinesWrap(text: string, width: int)
    ensures Wraps(Lines(text, width), text, width)
    decreases |text|
  {
    BreakIsLast(text, width);
    var e := BreakFrom(text, 0, width);
    if e == |text| {
      assert text[..e] == text;
    } else {
      LinesWrap(text[e + 1..], width);
      assert Lines(text, width)[1..] == Lines(text[e + 1..], width);
    }
  }

  lemma WrapsParts(lines: seq<string>, text: string, width: int)
    requires Wraps(lines, text, width)
    ensures lines != []
    ensures var n := |lines[0]|;
            && n <= |text| && Good(text[..n], width) && (n == |text| <==> |lines| == 1)
            && (n < |text| ==> Separator(text[n]) && Wraps(lines[1..], text[n + 1..], width))
  {
  }

  lemma LinesParts(text: string, width: int)
    ensures var e := BreakFrom(text, 0, width);
            |Lines(text, width)| == if e == |text| then 1 else 1 + |Lines(text[e + 1..], width)|
  {
    hide BreakFrom, EndsAt, WordEnd;
  }

  /** Any end of the text takes no more lines than any wrapping of the whole text has. */
  lemma {:induction false} LinesOfEnd(text: string, p: nat, others: seq<string>, width: int)
    requires p <= |text| && Wraps(others, text, width)
    ensures |Lines(text[p..], width)| <= |others|
    decreases |others|
  {
    hide *;
    WrapsParts(others, text, width);
    LinesParts(text[p..], width);
    var n, e := |others[0]|, BreakFrom(text[p..], 0, width);
    if p <= n {
      ReachesAsFar(text, p, n, width);
      if e < |text| - p {
        assert text[p..][e + 1..] == text[n + 1..][p + e - n..];
        LinesOfEnd(text[n + 1..], p + e - n, others[1..], width);
      }
    } else {
      assert text[p..] == text[n + 1..][p - n - 1..];
      LinesOfEnd(text[n + 1..], p - n - 1, others[1..], width);
    }
  }

  /** A line that starts within a good line ends no earlier. */
  lemma ReachesAsFar(text: string, p: nat, n: nat, width: int)
    requires p <= n <= |text| && Good(text[..n], width) && (n < |text| ==> Separator(text[n]))
    ensures BreakFrom(text[p..], 0, width) >= n - p
  {
    var rest := text[p..];
    PartIsGood(text, p, n, width);
    BreakIsLast(rest, width);
    assert rest[..n - p] == text[p..n];
    if n < |text| {
      assert rest[n - p] == text[n];
    }
  }

  lemma PartIsGood(text: string, p: nat, n: nat, width: int)
    requires p <= n <= |text| && Good(text[..n], width)
    ensures Good(text[p..n], width)
  {
    assert text[p..n] == text[..n][p..];
  }

  /** No wrapping has fewer lines. */
  lemma LinesAreFewest(text: string, others: seq<string>, width: int)
    requires Wraps(others, text, width)
    ensures |Lines(text, width)| <= |others|
  {
    LinesOfEnd(text, 0, others, width);
    assert text[0..] == text;
  }

  /** Lines as they are printed: all but the first are indented. */
  function Render(lines: seq<string>, indent: string): string {
    if lines == [] then ""
    else
      Render(lines[..|lines| - 1], indent) + (if |lines| == 1 then "" else indent) + lines[|lines| - 1] + "\n"
  }

  lemma RenderNext(lines: seq<string>, line: string, indent: string)
    ensures Render(lines + [line], indent) ==
            Render(lines, indent) + (if lines == [] then "" else indent) + line + "\n"
  {
    assert (lines + [line])[..|lines|] == lines;
  }

  function Indent(offset: int): string {
    if offset <= 0 then "" else seq(offset, _ => ' ')
  }

  lemma IndentIs(offset: int)
    ensures |Indent(offset)| == if offset < 0 then 0 else offset
    ensures forall c | c in Indent(offset) :: c == ' '
  {
  }

  /** The inner loop of wordwrap_print. */
  method FindWordEnd(curline: string, xx: nat) returns (yy: nat)
    requires xx < |curline|
    ensures yy == WordEnd(curline, xx + 1)
  {
    yy := xx + 1;
    while yy < |curline| && curline[yy] != ' ' && curline[yy] != '\n'
      invariant xx < yy <= |curline| && WordEnd(curline, yy) == WordEnd(curline, xx + 1)
    {
      yy := yy + 1;
    }
  }

  /** The loops that print the indentation. */
  method PrintIndent(out: string, offset: int) returns (r: string)
    ensures r == out + Indent(offset)
  {
    r := out;
    var jj := 0;
    while jj < offset
      invariant 0 <= jj && r == out + seq(jj, _ => ' ')
      invariant jj <= offset || jj == 0
    {
      r := r + [' '];
      jj := jj + 1;
    }
  }

  /** The lines printed so far. */
  ghost predicate Printed(out: string, firstline: bool, done: seq<string>, indent: string) {
    out == Render(done, indent) && (firstline <==> done == [])
  }

  /** What becomes of the text: the lines that are done, and the lines of what is left. */
  ghost predicate Left(str: string, curline: string, xx: nat, done: seq<string>, width: int) {
    && xx <= |curline| && BreakFrom(curline, 0, width) == BreakFrom(curline, xx, width)
    && done + Lines(curline, width) == Lines(str, width)
  }

  lemma LeftStarts(str: string, width: int, indent: string)
    ensures Left(str, str, 0, [], width) && Printed("", true, [], indent)
  {
    assert [] + Lines(str, width) == Lines(str, width);
  }

  lemma LeftBreak(str: string, curline: string, xx: nat, done: seq<string>, width: int)
    requires Left(str, curline, xx, done, width) && xx < |curline|
    ensures if EndsAt(curline, xx, width) then Left(str, curline[xx + 1..], 0, done + [curline[..xx]], width)
            else Left(str, curline, xx + 1, done, width)
    ensures EndsAt(curline, xx, width) <==>
            && (curline[xx] == ' ' || curline[xx] == '\n')
            && (curline[xx] == '\n' || WordEnd(curline, xx + 1) > width)
  {
    if EndsAt(curline, xx, width) {
      var line, rest := curline[..xx], Lines(curline[xx + 1..], width);
      assert done + ([line] + rest) == done + [line] + rest;
    }
  }

  lemma LeftLast(str: string, curline: string, done: seq<string>, width: int)
    requires Left(str, curline, |curline|, done, width)
    ensures Lines(str, width) == done + [curline]
  {
  }

  method PrintLine(out: string, firstline: bool, linebuf: string, offset: int, ghost done: seq<string>)
    returns (r: string)
    requires Printed(out, firstline, done, Indent(offset))
    ensures Printed(r, false, done + [linebuf], Indent(offset))
    ensures r == Render(done + [linebuf], Indent(offset))
  {
    RenderNext(done, linebuf, Indent(offset));
    hide Indent, Render;
    r := out;
    if !firstline {
      r := PrintIndent(r, offset);
    }
    r := r + linebuf + "\n";
  }

  /** wordwrap_print: what it prints. */
  method WordwrapPrint(str: string, offset: int, screenCols: int) returns (out: string)
    ensures out == Render(Lines(str, screenCols - offset - 4), Indent(offset))
  {
    var width := screenCols - offset - 4;
    var curline, firstline, xx := str, true, 0;
    ghost var done: seq<string> := [];
    LeftStarts(str, width, Indent(offset));
    out := "";
    hide *;
    while xx < |curline|
      invariant xx <= |curline|
      invariant Left(str, curline, xx, done, width) && Printed(out, firstline, done, Indent(offset))
      decreases |curline|, |curline| - xx
    {
      LeftBreak(str, curline, xx, done, width);
      if curline[xx] != ' ' && curline[xx] != '\n' {
        xx := xx + 1;
        continue;
      }
      var yy := FindWordEnd(curline, xx);
      if curline[xx] == '\n' || yy > width {
        out := PrintLine(out, firstline, curline[..xx], offset, done);
        firstline := false;
        done := done + [curline[..xx]];
        curline := curline[xx + 1..];
        xx := 0;
        continue;
      }
      xx := xx + 1;
    }
    LeftLast(str, curline, done, width);
    out := PrintLine(out, firstline, curline, offset, done);
  }

  /** Nothing is lost: the lines, and one separator after each but the last, are the text. */
  lemma {:induction false} WrapsConserves(lines: seq<string>, text: string, width: int) returns (dropped: string)
    requires Wraps(lines, text, width)
    ensures |dropped| == |lines| - 1 && (forall c | c in dropped :: Separator(c))
    ensures text == Interleave(lines, dropped)
    decreases |lines|
  {
    if |lines| == 1 {
      dropped := "";
    } else {
      var n := |lines[0]|;
      var rest := WrapsConserves(lines[1..], text[n + 1..], width);
      dropped := [text[n]] + rest;
      assert dropped[1..] == rest;
    }
  }

  function Interleave(lines: seq<string>, dropped: string): string
    requires |lines| == |dropped| + 1
    decreases |lines|
  {
    if dropped == "" then lines[0] else lines[0] + [dropped[0]] + Interleave(lines[1..], dropped[1..])
  }
}
