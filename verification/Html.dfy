/** Taking the markup out of a message (strip_html of util.c). */
module Html {
  function Lower(c: char): char {
    if 'A' <= c <= 'Z' then c + 32 as char else c
  }

  /** strncmp(s, w, strlen(w)) == 0, for strings that are long enough. */
  predicate Starts(s: string, w: string) { w <= s }

  /** strncasecmp(s, w, strlen(w)) == 0, with w in lower case. */
  predicate StartsAnyCase(s: string, w: string) {
    |w| <= |s| && forall i | 0 <= i < |w| :: Lower(s[i]) == w[i]
  }

  /** The first quotation mark in s at or after y, or the length of s. */
  function Quote(s: string, y: nat): (e: nat)
    requires y <= |s|
    ensures y <= e <= |s| && (e < |s| ==> s[e] == '"') && forall i | y <= i < e :: s[i] != '"'
    decreases |s| - y
  {
    if y == |s| || s[y] == '"' then y else Quote(s, y + 1)
  }

  /** A link, at the start of s: where the address ends. */
  predicate IsLink(s: string) { |s| > 10 && StartsAnyCase(s, "<a href=\"") && Quote(s, 9) < |s| }

  /** The entities, and the length of each; 0 when s starts with none. */
  function EntityLength(s: string): (n: nat)
    ensures n <= |s|
  {
    if Starts(s, "&amp;") then 5
    else if Starts(s, "&quot;") || Starts(s, "&nbsp;") then 6
    else if Starts(s, "&lt;") || Starts(s, "&gt;") then 4
    else 0
  }

  function EntityChar(s: string): char
    requires EntityLength(s) > 0
  {
    if Starts(s, "&amp;") then '&' else if Starts(s, "&quot;") then '"' else if Starts(s, "&nbsp;") then ' '
    else if Starts(s, "&lt;") then '<' else '>'
  }

  /** A text without its markup. */
  function Strip(s: string): (r: string)
    ensures |r| <= |s|
    decreases |s|
  {
    if s == "" then ""
    else if s[0] == '<' then
      if IsLink(s) then
        var y := Quote(s, 9);
        "[" + s[9..y] + "] " + SkipTag(s[y + 1..])
      else if StartsAnyCase(s, "<br>") then "\n" + Strip(s[4..])
      else SkipTag(s[1..])
    else if EntityLength(s) > 0 then [EntityChar(s)] + Strip(s[EntityLength(s)..])
    else if s[0] == '\n' || s[0] == '\r' then Strip(s[1..])
    else [s[0]] + Strip(s[1..])
  }

  /** The same for a text that starts within a tag. */
  function SkipTag(s: string): (r: string)
    ensures |r| <= |s|
    decreases |s|
  {
    if s == "" then "" else if s[0] == '>' then Strip(s[1..]) else SkipTag(s[1..])
  }

  lemma {:induction false} TagEnds(tag: string, rest: string)
    requires '>' !in tag
    ensures SkipTag(tag + ">" + rest) == Strip(rest)
  {
    if tag == "" {
      assert "" + ">" + rest == ">" + rest;
      assert (">" + rest)[1..] == rest;
    } else {
      assert (tag + ">" + rest)[1..] == tag[1..] + ">" + rest;
      TagEnds(tag[1..], rest);
    }
  }

  /** The start of a link, in small or capital letters. */
  predicate OpensLink(open: string) {
    && |open| == 9 && open[0] == '<' && (open[1] == 'a' || open[1] == 'A') && open[2] == ' '
    && (open[3] == 'h' || open[3] == 'H') && (open[4] == 'r' || open[4] == 'R') && (open[5] == 'e' || open[5] == 'E')
    && (open[6] == 'f' || open[6] == 'F') && open[7] == '=' && open[8] == '"'
  }

  /** The comparison without case holds for exactly those. */
  lemma LinkLetters(s: string)
    ensures StartsAnyCase(s, "<a href=\"") <==> |s| >= 9 && OpensLink(s[..9])
  {
    var w := "<a href=\"";
    if |s| >= 9 {
      var t := s[..9];
      assert forall i | 0 <= i < 9 :: t[i] == s[i];
      if StartsAnyCase(s, w) {
        assert Lower(s[0]) == w[0] && Lower(s[1]) == w[1] && Lower(s[2]) == w[2];
        assert Lower(s[3]) == w[3] && Lower(s[4]) == w[4] && Lower(s[5]) == w[5];
        assert Lower(s[6]) == w[6] && Lower(s[7]) == w[7] && Lower(s[8]) == w[8];
      }
    }
  }

  /** A link shows its address, whatever the case of its letters and whatever else is in its tag. */
  lemma LinkShows(open: string, address: string, more: string, rest: string)
    requires OpensLink(open) && '"' !in address && '>' !in more
    ensures Strip(open + address + "\"" + more + ">" + rest) == "[" + address + "] " + Strip(rest)
  {
    var s := open + address + "\"" + (more + ">" + rest);
    assert open + address + "\"" + more + ">" + rest == s;
    LinkPieces(open, address, more + ">" + rest);
    assert s[..9] == open;
    LinkLetters(s);
    hide Strip, SkipTag, Quote, StartsAnyCase;
    LinkParts(s);
    TagEnds(more, rest);
  }

  lemma LinkPieces(open: string, address: string, rest: string)
    requires |open| == 9 && '"' !in address
    ensures var s, n := open + address + "\"" + rest, 9 + |address|;
            Quote(s, 9) == n < |s| && s[9..n] == address && s[n + 1..] == rest
  {
    var s, n := open + address + "\"" + rest, 9 + |address|;
    assert s[n] == '"' && forall i | 9 <= i < n :: s[i] == address[i - 9];
  }

  /** A line break, in small or capital letters. */
  predicate Breaks(tag: string) {
    |tag| == 4 && tag[0] == '<' && (tag[1] == 'b' || tag[1] == 'B') && (tag[2] == 'r' || tag[2] == 'R') && tag[3] == '>'
  }

  lemma BreakLetters(s: string)
    ensures StartsAnyCase(s, "<br>") <==> |s| >= 4 && Breaks(s[..4])
  {
    var w := "<br>";
    if |s| >= 4 {
      var t := s[..4];
      assert forall i | 0 <= i < 4 :: t[i] == s[i];
      if StartsAnyCase(s, w) {
        assert Lower(s[0]) == w[0] && Lower(s[1]) == w[1] && Lower(s[2]) == w[2] && Lower(s[3]) == w[3];
      }
    }
  }

  /** It reads as one, whatever the case. */
  lemma BreakShows(tag: string, rest: string)
    requires Breaks(tag)
    ensures Strip(tag + rest) == "\n" + Strip(rest)
  {
    var s := tag + rest;
    assert s[..4] == tag && s[4..] == rest;
    BreakLetters(s);
    LinkLetters(s);
    assert !StartsAnyCase(s, "<a href=\"") by {
      assert |s| >= 9 ==> s[..9][1] == tag[1];
    }
    hide StartsAnyCase, SkipTag, EntityLength, Quote;
  }

  /** Neither a line break nor a link whose address ends. */
  ghost predicate IsOther(s: string) {
    && !(|s| >= 4 && Breaks(s[..4]))
    && !(|s| > 10 && OpensLink(s[..9]) && '"' in s[9..])
  }

  lemma {:induction false} QuoteIn(s: string, y: nat)
    requires y <= |s|
    ensures Quote(s, y) < |s| <==> '"' in s[y..]
    decreases |s| - y
  {
    if y < |s| {
      assert s[y..] == [s[y]] + s[y + 1..];
      QuoteIn(s, y + 1);
    }
  }

  lemma OtherIs(s: string)
    ensures IsOther(s) <==> !IsLink(s) && !StartsAnyCase(s, "<br>")
  {
    BreakLetters(s);
    LinkLetters(s);
    if |s| >= 9 {
      QuoteIn(s, 9);
    }
    hide Breaks, OpensLink, StartsAnyCase, Quote;
  }

  /** Any other tag disappears. */
  lemma TagDisappears(tag: string, rest: string)
    requires '>' !in tag && IsOther("<" + tag + ">" + rest)
    ensures Strip("<" + tag + ">" + rest) == Strip(rest)
  {
    var s := "<" + tag + ">" + rest;
    OtherIs(s);
    assert s[1..] == tag + ">" + rest;
    TagEnds(tag, rest);
    hide IsLink, StartsAnyCase, SkipTag;
  }

  /** So does the rest of a text when a tag in it never ends. */
  lemma OpenTagDisappears(tag: string)
    requires '>' !in tag && IsOther("<" + tag)
    ensures Strip("<" + tag) == ""
  {
    var s := "<" + tag;
    OtherIs(s);
    assert s[1..] == tag;
    NeverEnds(tag);
    hide IsLink, StartsAnyCase, SkipTag;
  }

  lemma {:induction false} NeverEnds(tag: string)
    requires '>' !in tag
    ensures SkipTag(tag) == ""
  {
    if tag != "" {
      NeverEnds(tag[1..]);
    }
  }

  lemma EntityShows(entity: string, c: char, rest: string)
    requires (entity == "&amp;" && c == '&') || (entity == "&quot;" && c == '"') || (entity == "&nbsp;" && c == ' ')
             || (entity == "&lt;" && c == '<') || (entity == "&gt;" && c == '>')
    ensures Strip(entity + rest) == [c] + Strip(rest)
  {
    var s := entity + rest;
    assert s[..|entity|] == entity && s[|entity|..] == rest;
    EntityOnly(s, entity);
    hide EntityLength, EntityChar, SkipTag, IsLink, StartsAnyCase;
  }

  lemma EntityOnly(s: string, entity: string)
    requires entity in ["&amp;", "&quot;", "&nbsp;", "&lt;", "&gt;"] && entity <= s
    ensures s[0] == '&' && EntityLength(s) == |entity|
    ensures EntityChar(s) == if entity == "&amp;" then '&' else if entity == "&quot;" then '"'
                             else if entity == "&nbsp;" then ' ' else if entity == "&lt;" then '<' else '>'
  {
    assert s[0] == entity[0] && s[1] == entity[1] && s[2] == entity[2];
  }

  /** Line ends of the text itself are dropped, and everything else stays. */
  lemma CharacterShows(c: char, rest: string)
    requires c != '<' && c != '&'
    ensures Strip([c] + rest) == if c == '\n' || c == '\r' then Strip(rest) else [c] + Strip(rest)
  {
    var s := [c] + rest;
    assert s[1..] == rest && s[0] == c;
    hide SkipTag, IsLink, StartsAnyCase, EntityChar;
    assert EntityLength(s) == 0;
  }

  /** So does an ampersand that starts none of the five entities. */
  lemma AmpersandShows(rest: string)
    requires !("amp;" <= rest) && !("quot;" <= rest) && !("nbsp;" <= rest) && !("lt;" <= rest) && !("gt;" <= rest)
    ensures Strip("&" + rest) == "&" + Strip(rest)
  {
    var s := "&" + rest;
    assert s[1..] == rest;
    Ampersand(s, "&amp;", "amp;");
    Ampersand(s, "&quot;", "quot;");
    Ampersand(s, "&nbsp;", "nbsp;");
    Ampersand(s, "&lt;", "lt;");
    Ampersand(s, "&gt;", "gt;");
    hide SkipTag, IsLink, StartsAnyCase, EntityChar;
  }

  lemma Ampersand(s: string, entity: string, tail: string)
    requires s != "" && s[0] == '&' && entity == "&" + tail
    ensures Starts(s, entity) <==> tail <= s[1..]
  {
    assert entity[1..] == tail && entity[0] == '&';
    assert entity <= s ==> s[..|entity|][1..] == s[1..][..|tail|];
    assert s == [s[0]] + s[1..];
  }

  lemma LinkParts(s: string)
    requires IsLink(s) && s[0] == '<'
    ensures var y := Quote(s, 9); Strip(s) == "[" + s[9..y] + "] " + SkipTag(s[y + 1..])
  {
    hide Quote, StartsAnyCase, EntityLength, SkipTag, Starts;
  }

  // The buffer strip_html writes into.

  /** What is still to come at position x. */
  function Pending(message: string, x: nat, inhtml: bool): string
    requires x <= |message|
  {
    if inhtml then SkipTag(message[x..]) else Strip(message[x..])
  }

  /** What has been written, never more than what has been read, and what is still to come. */
  ghost predicate Progress(message: string, x: nat, inhtml: bool, written: string) {
    && x <= |message| && |written| <= x
    && written + Pending(message, x, inhtml) == Strip(message)
  }

  /** A turn that reads up to y, and writes w. */
  ghost predicate Turns(message: string, x: nat, inhtml: bool, w: string, y: nat, inhtml': bool) {
    && x <= y <= |message| && |w| <= y - x
    && Pending(message, x, inhtml) == w + Pending(message, y, inhtml')
  }

  lemma ProgressStep(message: string, x: nat, inhtml: bool, written: string, w: string, y: nat, inhtml': bool)
    requires Progress(message, x, inhtml, written) && Turns(message, x, inhtml, w, y, inhtml')
    ensures Progress(message, y, inhtml', written + w) && |written| + |w| <= y <= |message|
  {
    hide Strip, SkipTag, Pending;
    assert written + (w + Pending(message, y, inhtml')) == written + w + Pending(message, y, inhtml');
  }

  lemma ProgressEnds(message: string, written: string, inhtml: bool)
    ensures Progress(message, 0, false, "")
    ensures Progress(message, |message|, inhtml, written) ==> written == Strip(message)
  {
    assert message[0..] == message && message[|message|..] == "";
    assert "" + Strip(message) == Strip(message) && written + "" == written;
  }

  lemma Slices(message: string, x: nat, a: nat, b: nat)
    requires a <= b && x + b < |message|
    ensures message[x..][a..b] == message[x + a..x + b] && message[x..][b + 1..] == message[x + b + 1..]
  {
  }

  lemma LinkTurns(message: string, x: nat)
    requires x < |message| && message[x] == '<' && IsLink(message[x..])
    ensures var y := Quote(message[x..], 9) + x;
            && y < |message|
            && Turns(message, x, false, "[" + message[x + 9..y] + "] ", y + 1, true)
  {
    var s := message[x..];
    var q := Quote(s, 9);
    LinkParts(s);
    hide Strip, SkipTag, Quote, StartsAnyCase;
    assert 9 <= q < |s|;
    Slices(message, x, 9, q);
  }

  lemma QuoteFrom(message: string, x: nat, y: nat)
    requires x <= y <= |message|
    ensures Quote(message, y) == x + Quote(message[x..], y - x)
    decreases |message| - y
  {
    if y < |message| {
      assert message[x..][y - x] == message[y];
      if message[y] != '"' {
        QuoteFrom(message, x, y + 1);
      }
    }
  }

  lemma PlainTurns(message: string, x: nat)
    requires x < |message| && message[x] != '<' && EntityLength(message[x..]) == 0
    ensures var w := if message[x] == '\n' || message[x] == '\r' then "" else [message[x]];
            Turns(message, x, false, w, x + 1, false)
  {
    hide IsLink, StartsAnyCase, EntityLength, Quote, SkipTag;
    assert message[x..][1..] == message[x + 1..];
  }

  lemma EntityTurns(message: string, x: nat)
    requires x < |message| && EntityLength(message[x..]) > 0
    ensures var n := EntityLength(message[x..]);
            && x + n <= |message| && Turns(message, x, false, [EntityChar(message[x..])], x + n, false)
  {
    var s := message[x..];
    assert s[0] == '&';
    hide IsLink, StartsAnyCase, EntityLength, Quote, SkipTag;
    assert s[EntityLength(s)..] == message[x + EntityLength(s)..];
  }

  lemma TagTurns(message: string, x: nat)
    requires x < |message| && message[x] == '<' && !IsLink(message[x..])
    ensures if StartsAnyCase(message[x..], "<br>")
            then x + 4 <= |message| && Turns(message, x, false, "\n", x + 4, false)
            else Turns(message, x, false, "", x + 1, true)
  {
    var s := message[x..];
    if StartsAnyCase(s, "<br>") {
      assert s[4..] == message[x + 4..];
    }
    assert s[1..] == message[x + 1..];
    hide IsLink, StartsAnyCase, EntityLength, Quote, SkipTag;
  }

  lemma InTagTurns(message: string, x: nat)
    requires x < |message|
    ensures Turns(message, x, true, "", x + 1, message[x] != '>')
  {
    hide Strip;
    assert message[x..][1..] == message[x + 1..];
  }

  /** The search for the end of an address. */
  method FindQuote(message: string, xnot: nat) returns (y: nat)
    requires xnot <= |message|
    ensures y == Quote(message, xnot)
  {
    y := xnot;
    while y < |message| && message[y] != '"'
      invariant xnot <= y <= |message| && Quote(message, y) == Quote(message, xnot)
    {
      y := y + 1;
    }
  }

  /** memcpy into the buffer, which must have room. */
  method Put(temp: array<char>, count: nat, w: string) returns (n: nat)
    requires count + |w| <= temp.Length
    modifies temp
    ensures n == count + |w| && temp[..n] == old(temp[..count]) + w
  {
    forall k | 0 <= k < |w| {
      temp[count + k] := w[k];
    }
    n := count + |w|;
  }

  lemma BreakIsFour(s: string)
    ensures StartsAnyCase(s, "<br>") ==> |s| >= 4
  {
  }

  method PutLink(temp: array<char>, count: nat, address: string) returns (n: nat)
    requires count + |address| + 3 <= temp.Length
    modifies temp
    ensures n == count + |address| + 3 && temp[..n] == old(temp[..count]) + ("[" + address + "] ")
  {
    n := Put(temp, count, "[");
    n := Put(temp, n, address);
    n := Put(temp, n, "] ");
  }

  /** One turn of the loop at a '<' outside a tag. */
  method OpenTag(message: string, x: nat, temp: array<char>, count: nat) returns (x': nat, count': nat, inhtml: bool)
    requires x < |message| && message[x] == '<' && temp.Length == |message| + 1 && count <= x
    requires Progress(message, x, false, temp[..count])
    modifies temp
    ensures x < x' <= |message| && count' <= x' && Progress(message, x', inhtml, temp[..count'])
  {
    hide Strip, SkipTag, Quote, Pending, Turns, Progress, StartsAnyCase;
    BreakIsFour(message[x..]);
    x', count' := x, count;
    ghost var written := temp[..count];
    if x + 10 < |message| && StartsAnyCase(message[x..], "<a href=\"") {
      var y := FindQuote(message, x + 9);
      QuoteFrom(message, x, x + 9);
      if y < |message| {
        LinkTurns(message, x);
        ghost var w := "[" + message[x + 9..y] + "] ";
        ProgressStep(message, x, false, written, w, y + 1, true);
        count' := PutLink(temp, count, message[x + 9..y]);
        return y + 1, count', true;
      }
    }
    TagTurns(message, x);
    if x + 3 < |message| && StartsAnyCase(message[x..], "<br>") {
      ProgressStep(message, x, false, written, "\n", x + 4, false);
      count' := Put(temp, count, "\n");
      return x + 4, count', false;
    }
    ProgressStep(message, x, false, written, "", x + 1, true);
    assert written + "" == written;
    return x + 1, count, true;
  }

  /** strip_html, with a buffer one longer than the message. */
  method StripHtml(message: string) returns (temp: array<char>, count: nat)
    ensures count < temp.Length && temp[..count] == Strip(message) && temp[count] == '\0'
  {
    hide *;
    temp := new char[|message| + 1];
    var x: nat, inhtml := 0, false;
    count := 0;
    ProgressEnds(message, "", false);
    assert temp[..0] == "";
    while x < |message|
      invariant x <= |message| && count <= x && Progress(message, x, inhtml, temp[..count])
    {
      ghost var written := temp[..count];
      if message[x] == '<' && !inhtml {
        x, count, inhtml := OpenTag(message, x, temp, count);
      } else if inhtml {
        InTagTurns(message, x);
        ProgressStep(message, x, true, written, "", x + 1, message[x] != '>');
        assert written + "" == written;
        if message[x] == '>' {
          inhtml := false;
        }
        x := x + 1;
      } else {
        x, count := Text(message, x, temp, count);
      }
    }
    ProgressEnds(message, temp[..count], inhtml);
    temp[count] := '\0';
  }

  /** One turn of the loop outside a tag, at anything but a '<'. */
  method Text(message: string, x: nat, temp: array<char>, count: nat) returns (x': nat, count': nat)
    requires x < |message| && message[x] != '<' && temp.Length == |message| + 1 && count <= x
    requires Progress(message, x, false, temp[..count])
    modifies temp
    ensures x < x' <= |message| && count' <= x' && Progress(message, x', false, temp[..count'])
  {
    hide Strip, SkipTag, Quote, Pending, Turns, Progress;
    ghost var written, s := temp[..count], message[x..];
    if message[x] == '&' {
      var n, c := FindEntity(message[x..]);
      if n > 0 {
        EntityTurns(message, x);
        ProgressStep(message, x, false, written, [c], x + n, false);
        count' := Put(temp, count, [c]);
        return x + n, count';
      }
    }
    PlainTurns(message, x);
    x' := x + 1;
    if message[x] == '\n' || message[x] == '\r' {
      ProgressStep(message, x, false, written, "", x + 1, false);
      assert written + "" == written;
      count' := count;
    } else {
      ProgressStep(message, x, false, written, [message[x]], x + 1, false);
      count' := Put(temp, count, [message[x]]);
    }
  }

  /** The tests for the entities, in their order. */
  method FindEntity(s: string) returns (n: nat, c: char)
    ensures n == EntityLength(s) && (n > 0 ==> c == EntityChar(s))
  {
    if |s| > 4 && Starts(s, "&amp;") {
      return 5, '&';
    }
    if |s| > 5 {
      if Starts(s, "&quot;") {
        return 6, '"';
      }
      if Starts(s, "&nbsp;") {
        return 6, ' ';
      }
    }
    if |s| > 3 && Starts(s, "&lt;") {
      return 4, '<';
    }
    if |s| > 3 && Starts(s, "&gt;") {
      return 4, '>';
    }
    return 0, ' ';
  }
}
