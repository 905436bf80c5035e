/** Undoing netspeak, word by word (cleaner.c). */
module Netspeak {
  /** The words that are replaced, and what replaces them. */
  function Orig(k: nat): string
    requires k < 24
  {
    if k < 12 then
      if k == 0 then "u" else if k == 1 then "r" else if k == 2 then "i" else if k == 3 then "c"
      else if k == 4 then "ic" else if k == 5 then "i'm" else if k == 6 then "i'd" else if k == 7 then "ive"
      else if k == 8 then "i've" else if k == 9 then "i'll" else if k == 10 then "idk" else "IDK"
    else
      if k == 12 then "ur" else if k == 13 then "ne1" else if k == 14 then "omg" else if k == 15 then "teh"
      else if k == 16 then "cuz" else if k == 17 then "hte" else if k == 18 then "taht" else if k == 19 then "funnay"
      else if k == 20 then "d00d" else if k == 21 then "dood" else if k == 22 then "liek" else "osmething"
  }

  function Plain(k: nat): string
    requires k < 24
  {
    if k < 12 then
      if k == 0 then "you" else if k == 1 then "are" else if k == 2 then "I" else if k == 3 then "see"
      else if k == 4 then "I see" else if k == 5 then "I'm" else if k == 6 then "I'd" else if k == 7 then "I've"
      else if k == 8 then "I've" else if k == 9 then "I'll" else "I don't know"
    else
      if k == 12 then "you're" else if k == 13 then "anyone" else if k == 14 then "oh my god,"
      else if k == 15 then "the" else if k == 16 then "because" else if k == 17 then "the"
      else if k == 18 then "that" else if k == 19 then "funny"
      else if k == 20 || k == 21 then "dude" else if k == 22 then "like" else "something"
  }

  /** What may follow a word. */
  predicate Ends(c: char) { c == ' ' || c == '.' || c == ',' || c == '?' || c == '!' }

  /** The part of a word before any punctuation. */
  function Stem(w: string): (s: string)
    ensures s <= w && (|s| < |w| ==> Ends(w[|s|]))
    ensures forall i | 0 <= i < |s| :: !Ends(s[i])
  {
    if w == "" || Ends(w[0]) then "" else [w[0]] + Stem(w[1..])
  }

  predicate IsWord(stem: string) { exists k: nat | k < 24 :: Orig(k) == stem }

  lemma OrigsHaveNoEnds(k: nat)
    requires k < 24
    ensures Orig(k) != "" && NoEnds(Orig(k))
  {
  }

  lemma NotWords1()
    ensures !IsWord("you") && !IsWord("are") && !IsWord("I") && !IsWord("see") && !IsWord("I'm") && !IsWord("I'd")
  {
  }

  lemma NotWords2()
    ensures !IsWord("I've") && !IsWord("I'll") && !IsWord("don't") && !IsWord("know") && !IsWord("you're")
    ensures !IsWord("anyone") && !IsWord("oh") && !IsWord("my") && !IsWord("god")
  {
  }

  lemma NotWords3()
    ensures !IsWord("the") && !IsWord("because") && !IsWord("that") && !IsWord("funny") && !IsWord("dude")
    ensures !IsWord("like") && !IsWord("something")
  {
  }

  /** The first row of the table for a word, from row k on; 24 when there is none. */
  function FirstRow(stem: string, k: nat): (r: nat)
    requires k <= 24
    ensures k <= r <= 24 && (r < 24 ==> Orig(r) == stem) && forall i | k <= i < r :: Orig(i) != stem
    decreases 24 - k
  {
    if k == 24 || Orig(k) == stem then k else FirstRow(stem, k + 1)
  }

  function Instead(stem: string): string {
    var r := FirstRow(stem, 0);
    if r < 24 then Plain(r) else stem
  }

  /** A text that starts with a word, with every word in it replaced that has a row in the table. */
  function Clean(s: string): string
    decreases |s|, 1
  {
    Instead(Stem(s)) + Rest(s[|Stem(s)|..])
  }

  /** The same for a text that starts after a word's stem: up to the next space nothing is replaced. */
  function Rest(s: string): string
    decreases |s|, 0
  {
    if s == "" then ""
    else if s[0] == ' ' then [s[0]] + Clean(s[1..])
    else [s[0]] + Rest(s[1..])
  }

  // Cleaning a clean text changes nothing.

  ghost predicate Cut(t: string) { t == "" || Ends(t[0]) }

  lemma {:induction false} StemOf(p: string, t: string)
    requires NoEnds(p) && Cut(t)
    ensures Stem(p + t) == p
  {
    if p == "" {
      assert p + t == t;
    } else {
      assert (p + t)[1..] == p[1..] + t;
      StemOf(p[1..], t);
    }
  }

  lemma NotInTable(stem: string)
    ensures FirstRow(stem, 0) == 24 <==> !IsWord(stem)
  {
  }

  predicate NoEnds(p: string) { forall i | 0 <= i < |p| :: !Ends(p[i]) }

  /** A word that is not in the table stays. */
  lemma WordStays(p: string, t: string)
    requires NoEnds(p) && !IsWord(p) && Cut(t)
    ensures Clean(p + t) == p + Rest(t)
  {
    StemOf(p, t);
    NotInTable(p);
    assert (p + t)[|p|..] == t;
    hide IsWord, FirstRow, Rest, Stem;
  }

  lemma RestStep(c: char, t: string)
    ensures Rest([c] + t) == [c] + if c == ' ' then Clean(t) else Rest(t)
  {
    assert ([c] + t)[1..] == t;
  }

  // What the text becomes, word by word.

  /** At the end of the text, or in front of a space or one of four punctuation marks. */
  ghost predicate Closed(t: string) {
    t == "" || t[0] == ' ' || t[0] == '.' || t[0] == ',' || t[0] == '?' || t[0] == '!'
  }

  ghost predicate Unbroken(p: string) {
    ' ' !in p && '.' !in p && ',' !in p && '?' !in p && '!' !in p
  }

  lemma ClosedIsCut(p: string, t: string)
    ensures (Closed(t) <==> Cut(t)) && (Unbroken(p) <==> NoEnds(p))
  {
    if Unbroken(p) {
      assert forall i | 0 <= i < |p| :: p[i] in p;
    }
  }

  lemma RowOf(i: nat, k: nat)
    requires i < 24 && k < 24 && Orig(i) == Orig(k)
    ensures i == k
  {
    assert |Orig(i)| == |Orig(k)| && Orig(i)[0] == Orig(k)[0];
    assert |Orig(i)| > 1 ==> Orig(i)[1] == Orig(k)[1];
  }

  /** A word of the table is replaced wherever it stands alone or in front of a space or punctuation. */
  lemma WordReplaced(k: nat, t: string)
    requires k < 24 && Closed(t)
    ensures Clean(Orig(k) + t) == Plain(k) + Rest(t)
  {
    var p := Orig(k);
    OrigsHaveNoEnds(k);
    ClosedIsCut(p, t);
    StemOf(p, t);
    assert (p + t)[|p|..] == t;
    assert FirstRow(p, 0) == k by {
      RowOf(if FirstRow(p, 0) < 24 then FirstRow(p, 0) else k, k);
    }
    hide Orig, Plain, Rest, Stem, FirstRow, NoEnds;
  }

  /** Any other word stays, with what follows it up to the next space. */
  lemma OtherWordStays(p: string, t: string)
    requires Unbroken(p) && Closed(t) && forall k: nat | k < 24 :: Orig(k) != p
    ensures Clean(p + t) == p + Rest(t)
  {
    ClosedIsCut(p, t);
    WordStays(p, t);
  }

  /** Up to a space nothing is replaced; behind it the next word begins. */
  lemma {:induction false} RestCopies(a: string, b: string)
    requires ' ' !in a
    ensures Rest(a) == a && Rest(a + " " + b) == a + " " + Clean(b)
  {
    hide Clean;
    if a == "" {
      assert a + " " + b == [' '] + b && a + " " + Clean(b) == [' '] + Clean(b);
      RestStep(' ', b);
    } else {
      var c, tail := a[0], a[1..];
      assert a == [c] + tail && c in a;
      RestCopies(tail, b);
      RestStep(c, tail);
      RestStep(c, tail + " " + b);
      hide Rest;
      assert a + " " + b == [c] + (tail + " " + b) && a + " " + Clean(b) == [c] + (tail + " " + Clean(b));
    }
  }

  /** So does a word in front of a text that stays. */
  lemma TwoWords(a: string, b: string, both: string, t: string)
    requires NoEnds(a) && !IsWord(a) && both == a + [' '] + b
    requires Clean(b + t) == b + t
    ensures Clean(both + t) == both + t
  {
    RestStep(' ', b + t);
    hide Rest, Clean, IsWord, NoEnds;
    WordStays(a, [' '] + (b + t));
    assert both + t == a + ([' '] + (b + t));
  }

  lemma God(t: string)
    requires Cut(t) && Rest(t) == t
    ensures Clean("god," + t) == "god," + t
  {
    NotWords2();
    RestStep(',', t);
    hide Rest, Clean, IsWord;
    WordStays("god", [','] + t);
    assert "god" + ([','] + t) == "god," + t;
  }

  lemma MyGod(t: string)
    requires Cut(t) && Rest(t) == t
    ensures Clean("oh my god," + t) == "oh my god," + t
  {
    NotWords2();
    hide Rest, Clean, IsWord, Cut;
    God(t);
    TwoWords("my", "god,", "my god,", t);
    TwoWords("oh", "my god,", "oh my god,", t);
  }

  lemma TwoPlainWords(t: string)
    requires Cut(t) && Rest(t) == t
    ensures Clean("I see" + t) == "I see" + t && Clean("I don't know" + t) == "I don't know" + t
  {
    NotWords1();
    NotWords2();
    hide Rest, Clean, IsWord, Cut;
    WordStays("see", t);
    TwoWords("I", "see", "I see", t);
    WordStays("know", t);
    TwoWords("don't", "know", "don't know", t);
    TwoWords("I", "don't know", "I don't know", t);
  }

  /** No replacement puts a word of the table at the start of a word. */
  lemma PlainStays(k: nat, t: string)
    requires k < 24 && Cut(t) && Rest(t) == t
    ensures Clean(Plain(k) + t) == Plain(k) + t
  {
    NotWords1();
    NotWords2();
    NotWords3();
    hide Clean, Rest, IsWord, Cut;
    if k == 4 || k == 10 || k == 11 {
      TwoPlainWords(t);
    } else if k == 14 {
      MyGod(t);
    } else {
      WordStays(Plain(k), t);
    }
  }

  lemma {:induction false} RestIdempotent(s: string)
    ensures Rest(Rest(s)) == Rest(s) && (Cut(s) ==> Cut(Rest(s)))
    decreases |s|, 0
  {
    if s != "" {
      var next := if s[0] == ' ' then Clean(s[1..]) else Rest(s[1..]);
      if s[0] == ' ' {
        CleanIdempotent(s[1..]);
      } else {
        RestIdempotent(s[1..]);
      }
      assert ([s[0]] + next)[1..] == next;
    }
  }

  /** Cleaning twice is cleaning once. */
  lemma {:induction false} CleanIdempotent(s: string)
    ensures Clean(Clean(s)) == Clean(s)
    decreases |s|, 1
  {
    var p, t := Stem(s), Rest(s[|Stem(s)|..]);
    RestIdempotent(s[|p|..]);
    NotInTable(p);
    var r := FirstRow(p, 0);
    hide Rest, IsWord, FirstRow;
    if r < 24 {
      PlainStays(r, t);
    } else {
      WordStays(p, t);
    }
  }

  // The two passes.

  /** The test of both passes at the start of a word: a row's word, and then an end. */
  predicate Matches(k: nat, s: string)
    requires k < 24
  {
    Orig(k) <= s && (|s| == |Orig(k)| || Ends(s[|Orig(k)|]))
  }

  lemma MatchIsStem(k: nat, s: string)
    requires k < 24
    ensures Matches(k, s) <==> Orig(k) == Stem(s)
  {
    OrigsHaveNoEnds(k);
    hide Orig, Stem, NoEnds;
    if Matches(k, s) {
      StemOf(Orig(k), s[|Orig(k)|..]);
      assert Orig(k) + s[|Orig(k)|..] == s;
    }
  }

  /** The loops over the table. */
  method FindRow(s: string) returns (x: nat)
    ensures x == FirstRow(Stem(s), 0)
    ensures x < 24 ==> Matches(x, s)
  {
    hide Orig, Matches;
    x := 0;
    while x < 24
      invariant x <= 24 && FirstRow(Stem(s), 0) == FirstRow(Stem(s), x)
    {
      MatchIsStem(x, s);
      if Matches(x, s) {
        return;
      }
      x := x + 1;
    }
  }

  /** What is left of s after the first space; nothing when there is none. */
  function Next(s: string): string {
    if s == "" then "" else if s[0] == ' ' then s[1..] else Next(s[1..])
  }

  /** strchr and the step past the space. */
  method NextWord(s: string) returns (found: bool, next: string)
    ensures found <==> ' ' in s
    ensures next == Next(s)
  {
    next := s;
    while next != "" && next[0] != ' '
      invariant Next(next) == Next(s) && (' ' in next <==> ' ' in s)
      decreases |next|
    {
      assert next == [next[0]] + next[1..];
      next := next[1..];
    }
    found := next != "";
    if found {
      next := next[1..];
    }
  }

  lemma NextSkips(s: string)
    requires s != "" && s[0] != ' '
    ensures Next(s) == Next(s[1..]) && (' ' in s <==> ' ' in s[1..])
  {
    assert s == [s[0]] + s[1..];
  }

  lemma PastHead(s: string, a: string, b: string, k: nat)
    requires k < |s|
    ensures s[1..][k..] == s[k + 1..] && [s[0]] + a + b == [s[0]] + (a + b)
  {
  }

  lemma StemHead(s: string)
    requires s != "" && !Ends(s[0])
    ensures Stem(s) == [s[0]] + Stem(s[1..]) && Rest(s) == [s[0]] + Rest(s[1..])
  {
    hide Clean;
  }

  lemma {:induction false} StemThenRest(s: string)
    ensures Stem(s) + Rest(s[|Stem(s)|..]) == Rest(s)
    ensures ' ' in s[|Stem(s)|..] <==> ' ' in s
    ensures Next(s[|Stem(s)|..]) == Next(s)
  {
    if s == "" || Ends(s[0]) {
      assert s[0..] == s;
    } else {
      StemThenRest(s[1..]);
      NextSkips(s);
      StemHead(s);
      hide *;
      PastHead(s, Stem(s[1..]), Rest(s[1..][|Stem(s[1..])|..]), |Stem(s[1..])|);
    }
  }

  /** How much longer a text gets: only words after the first space count in what follows a stem. */
  function Growth(s: string): int {
    if ' ' in s then |Clean(Next(s))| - |Next(s)| else 0
  }

  lemma {:induction false} RestGrows(s: string)
    ensures |Rest(s)| - |s| == Growth(s)
  {
    if s != "" && s[0] != ' ' {
      RestGrows(s[1..]);
      assert s == [s[0]] + s[1..];
    }
  }

  lemma CleanGrows(s: string)
    ensures var r := FirstRow(Stem(s), 0);
            |Clean(s)| - |s| == (if r < 24 then |Plain(r)| - |Orig(r)| else 0) + Growth(s)
  {
    StemThenRest(s);
    RestGrows(s[|Stem(s)|..]);
    hide Rest, Orig, Plain, Growth;
    assert Growth(s[|Stem(s)|..]) == Growth(s) by { GrowthSame(s[|Stem(s)|..], s); }
  }

  lemma GrowthSame(t: string, s: string)
    requires (' ' in t <==> ' ' in s) && Next(t) == Next(s)
    ensures Growth(t) == Growth(s)
  {
  }

  /** The sizing pass of undo_netspeak. */
  method NewLength(orig: string) returns (newlen: int)
    ensures newlen == |Clean(orig)|
  {
    newlen := |orig|;
    var spcptr := orig;
    while true
      invariant newlen + |Clean(spcptr)| - |spcptr| == |Clean(orig)|
      decreases |spcptr|
    {
      hide Clean, Orig, Plain, Stem;
      CleanGrows(spcptr);
      var x := FindRow(spcptr);
      if x < 24 {
        newlen := newlen + |Plain(x)| - |Orig(x)|;
      }
      var found, next := NextWord(spcptr);
      if !found {
        break;
      }
      NextShorter(spcptr);
      spcptr := next;
    }
  }

  lemma {:induction false} NextShorter(s: string)
    ensures s != "" ==> |Next(s)| < |s|
  {
    if s != "" && s[0] != ' ' {
      NextShorter(s[1..]);
    }
  }

  /** strcat and strncat: n characters are there already, and the rest must fit with a final zero. */
  method Append(cleaned: array<char>, n: nat, w: string) returns (m: nat)
    requires n + |w| < cleaned.Length
    modifies cleaned
    ensures m == n + |w| && cleaned[..m] == old(cleaned[..n]) + w && cleaned[m] == '\0'
  {
    forall k | 0 <= k < |w| {
      cleaned[n + k] := w[k];
    }
    m := n + |w|;
    cleaned[m] := '\0';
  }

  /** What the rewriting pass has still to write when it is at position x. */
  function Pending(orig: string, x: nat): string
    requires x <= |orig|
  {
    if x == 0 || orig[x - 1] == ' ' then Clean(orig[x..]) else Rest(orig[x..])
  }

  lemma PendingCopies(orig: string, x: nat)
    requires x < |orig|
    requires x == 0 || orig[x - 1] == ' ' ==> FirstRow(Stem(orig[x..]), 0) == 24
    ensures Pending(orig, x) == [orig[x]] + Pending(orig, x + 1)
  {
    var s := orig[x..];
    StemThenRest(s);
    assert s[1..] == orig[x + 1..];
    hide FirstRow, Stem;
    assert Pending(orig, x) == Rest(s);
  }

  lemma CleanParts(s: string)
    ensures Clean(s) == Instead(Stem(s)) + Rest(s[|Stem(s)|..])
  {
    hide Rest, Instead, Stem;
  }

  lemma InsteadOf(stem: string, k: nat)
    requires k < 24 && FirstRow(stem, 0) == k
    ensures stem == Orig(k) && stem != "" && Instead(stem) == Plain(k)
  {
    OrigsHaveNoEnds(k);
    hide Orig, Plain, NoEnds, FirstRow;
  }

  lemma CleanReplaces(s: string, word: string, plain: string)
    requires word == Stem(s) != "" && plain == Instead(word)
    ensures |word| <= |s| && s[|word| - 1] != ' ' && Clean(s) == plain + Rest(s[|word|..])
  {
    hide *;
    CleanParts(s);
    LastOfStem(s, |word|);
  }

  lemma LastOfStem(s: string, n: nat)
    requires n == |Stem(s)| > 0
    ensures s[n - 1] != ' '
  {
    var st := Stem(s);
    assert !Ends(st[n - 1]) && s[n - 1] == st[n - 1];
    hide Stem;
  }

  lemma PendingReplaces(orig: string, x: nat, word: string, plain: string)
    requires x < |orig| && (x == 0 || orig[x - 1] == ' ')
    requires word == Stem(orig[x..]) != "" && plain == Instead(word)
    ensures x + |word| <= |orig| && Pending(orig, x) == plain + Pending(orig, x + |word|)
  {
    var s := orig[x..];
    CleanReplaces(s, word, plain);
    hide Instead, Clean, Rest, Stem;
    assert orig[x + |word| - 1] == s[|word| - 1];
    assert s[|word|..] == orig[x + |word|..];
  }

  lemma CleanEmpty()
    ensures Clean("") == ""
  {
    var r := FirstRow("", 0);
    if r < 24 {
      OrigsHaveNoEnds(r);
    }
    hide Orig, Plain, FirstRow;
    assert Stem("") == "" && Rest("") == "";
  }

  lemma PendingEnds(orig: string)
    ensures Pending(orig, 0) == Clean(orig) && Pending(orig, |orig|) == ""
  {
    assert orig[0..] == orig && orig[|orig|..] == "";
    CleanEmpty();
    hide Clean;
  }

  /** What has been written, and what has still to be written, make up the clean text. */
  ghost predicate Progress(orig: string, written: string, x: nat) {
    x <= |orig| && written + Pending(orig, x) == Clean(orig)
  }

  lemma ProgressStep(orig: string, written: string, x: nat, w: string, y: nat)
    requires Progress(orig, written, x) && y <= |orig| && Pending(orig, x) == w + Pending(orig, y)
    ensures Progress(orig, written + w, y) && |written| + |w| <= |Clean(orig)|
  {
    hide Pending, Clean;
    assert written + (w + Pending(orig, y)) == written + w + Pending(orig, y);
  }

  lemma ProgressEnds(orig: string, written: string)
    ensures Progress(orig, "", 0)
    ensures Progress(orig, written, |orig|) ==> written == Clean(orig)
  {
    PendingEnds(orig);
    hide Pending, Clean;
    assert "" + Clean(orig) == Clean(orig) && written + "" == written;
  }

  /** One turn of the rewriting pass. */
  method RewriteAt(orig: string, x: nat, cleaned: array<char>, n: nat) returns (x': nat, n': nat)
    requires cleaned.Length == |Clean(orig)| + 1 && n < cleaned.Length
    requires Progress(orig, cleaned[..n], x) && x < |orig|
    modifies cleaned
    ensures x < x' <= |orig| && n' < cleaned.Length && cleaned[n'] == '\0'
    ensures Progress(orig, cleaned[..n'], x')
  {
    hide *;
    var y := 24;
    if x == 0 || orig[x - 1] == ' ' {
      y := FindRow(orig[x..]);
    }
    ghost var written := cleaned[..n];
    if y < 24 {
      InsteadOf(Stem(orig[x..]), y);
      PendingReplaces(orig, x, Orig(y), Plain(y));
      x' := x + |Orig(y)|;
      ProgressStep(orig, written, x, Plain(y), x');
      n' := Append(cleaned, n, Plain(y));
    } else {
      PendingCopies(orig, x);
      x' := x + 1;
      ProgressStep(orig, written, x, [orig[x]], x');
      n' := Append(cleaned, n, [orig[x]]);
    }
  }

  /**
   undo_netspeak. The buffer is as long as the sizing pass says, and every write of the rewriting
   pass stays within it, filling it exactly.
   */
  method UndoNetspeak(orig: string) returns (cleaned: array<char>)
    ensures cleaned.Length == |Clean(orig)| + 1
    ensures cleaned[..cleaned.Length - 1] == Clean(orig) && cleaned[cleaned.Length - 1] == '\0'
  {
    hide *;
    var newlen := NewLength(orig);
    cleaned := new char[newlen + 1];
    cleaned[0] := '\0';
    var n: nat, x: nat := 0, 0;
    ProgressEnds(orig, "");
    assert cleaned[..0] == "";
    while x < |orig|
      invariant x <= |orig| && n < cleaned.Length
      invariant Progress(orig, cleaned[..n], x) && cleaned[n] == '\0'
    {
      x, n := RewriteAt(orig, x, cleaned, n);
    }
    ProgressEnds(orig, cleaned[..n]);
    assert |cleaned[..n]| == n;
  }
}
