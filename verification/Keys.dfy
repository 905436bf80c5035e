/** Typing: what the key handler of bsf.c makes of a key, and what strip_html makes of that. */
module Keys {
  import opened CStrings
  import opened Html

  const CTRL_B: char := 2 as char
  const DELETE: char := 127 as char

  /** The keys that type something. */
  predicate Types(c: char) { c == CTRL_B || (' ' <= c && c != DELETE) }

  /** What a key adds to the input line. */
  function Escape(c: char, raw: bool): (s: string)
    ensures 1 <= |s| <= 6
  {
    if c == CTRL_B then "<br>"
    else if raw then [c]
    else if c == '"' then "&quot;"
    else if c == '<' then "&lt;"
    else if c == '>' then "&gt;"
    else if c == '&' then "&amp;"
    else [c]
  }

  function EscapeAll(t: string, raw: bool): string {
    if t == "" then "" else Escape(t[0], raw) + EscapeAll(t[1..], raw)
  }

  /** What the reader is to see. */
  function Shown(t: string): string {
    if t == "" then "" else [if t[0] == CTRL_B then '\n' else t[0]] + Shown(t[1..])
  }

  lemma StripOne(c: char, rest: string)
    requires Types(c)
    ensures Strip(Escape(c, false) + rest) == [if c == CTRL_B then '\n' else c] + Strip(rest)
  {
    var w := Escape(c, false);
    var s := w + rest;
    assert s[|w|..] == rest;
    if c == CTRL_B {
      BreakStrips(s);
    } else if c == '"' || c == '<' || c == '>' || c == '&' {
      hide Strip;
      EntityOf(c, rest);
      EntityStrips(s);
    } else {
      hide Strip;
      PlainStrips(s);
    }
  }

  lemma EntityOf(c: char, rest: string)
    requires c == '"' || c == '<' || c == '>' || c == '&'
    ensures var w := Escape(c, false); EntityLength(w + rest) == |w| && EntityChar(w + rest) == c
  {
    var w := Escape(c, false);
    assert w <= w + rest;
    assert w[1] == (w + rest)[1] && w[2] == (w + rest)[2];
  }

  lemma BreakStrips(s: string)
    requires |s| >= 4 && s[0] == '<' && s[1] == 'b' && s[2] == 'r' && s[3] == '>'
    ensures Strip(s) == "\n" + Strip(s[4..])
  {
    hide Strip, Quote;
    assert Lower(s[1]) != "<a href=\""[1];
    assert !IsLink(s) && StartsAnyCase(s, "<br>");
    BreakParts(s);
  }

  lemma BreakParts(s: string)
    requires s != "" && s[0] == '<' && !IsLink(s) && StartsAnyCase(s, "<br>")
    ensures Strip(s) == "\n" + Strip(s[4..])
  {
    hide IsLink, StartsAnyCase, EntityLength, Quote, SkipTag;
  }

  lemma EntityStrips(s: string)
    requires EntityLength(s) > 0
    ensures Strip(s) == [EntityChar(s)] + Strip(s[EntityLength(s)..])
  {
    assert s[0] == '&';
    hide EntityLength, EntityChar, IsLink, StartsAnyCase, Quote, SkipTag;
  }

  lemma PlainStrips(s: string)
    requires s != "" && s[0] != '<' && s[0] != '&' && s[0] != '\n' && s[0] != '\r'
    ensures Strip(s) == [s[0]] + Strip(s[1..])
  {
    assert EntityLength(s) == 0;
    hide EntityLength, EntityChar, IsLink, StartsAnyCase, Quote, SkipTag;
  }

  /** Whatever is typed is what is read. */
  lemma {:induction false} StripEscape(t: string)
    requires forall c | c in t :: Types(c)
    ensures Strip(EscapeAll(t, false)) == Shown(t)
  {
    hide Strip, Escape;
    if t == "" {
      StripNothing();
    } else {
      StripOne(t[0], EscapeAll(t[1..], false));
      StripEscape(t[1..]);
    }
  }

  lemma EscapeNothing(raw: bool)
    ensures EscapeAll("", raw) == ""
  {
  }

  lemma StripNothing()
    ensures Strip("") == ""
  {
  }

  lemma {:induction false} EscapeSnoc(t: string, c: char, raw: bool)
    ensures EscapeAll(t + [c], raw) == EscapeAll(t, raw) + Escape(c, raw)
  {
    hide Escape;
    if t == "" {
      assert [c][1..] == "";
    } else {
      assert (t + [c])[1..] == t[1..] + [c];
      EscapeSnoc(t[1..], c, raw);
    }
  }

  lemma EscapeShorter(t: string, k: nat, raw: bool)
    requires k < |t|
    ensures EscapeAll(t[..k + 1], raw) == EscapeAll(t[..k], raw) + Escape(t[k], raw)
    ensures |EscapeAll(t[..k + 1], raw)| <= |EscapeAll(t, raw)|
    decreases |t| - k
  {
    assert t[..k + 1] == t[..k] + [t[k]];
    EscapeSnoc(t[..k], t[k], raw);
    if k + 1 < |t| {
      EscapeShorter(t, k + 1, raw);
    } else {
      assert t[..k + 1] == t;
    }
  }

  /** The guards of the key handler. */
  predicate Accepts(len: nat, c: char, raw: bool) {
    if c == CTRL_B then len <= 509
    else if raw then len != 511
    else if c == '"' then len <= 507
    else if c == '<' || c == '>' then len <= 509
    else if c == '&' then len <= 508
    else len != 511
  }

  /** The lengths of the line at which a guard accepts a key that the line has no room for. */
  predicate Overruns(len: nat, c: char, raw: bool) {
    || (c == CTRL_B && 508 <= len <= 509)
    || (!raw && c == '"' && 506 <= len <= 507)
    || (!raw && (c == '<' || c == '>') && 508 <= len <= 509)
    || (!raw && c == '&' && 507 <= len <= 508)
  }

  /** A key that is accepted fits a line of 511 characters, except at those lengths; a key that fits is accepted. */
  lemma GuardsAreLoose(len: nat, c: char, raw: bool)
    requires len <= 511
    ensures Accepts(len, c, raw) && len + |Escape(c, raw)| > 511 <==> Overruns(len, c, raw)
    ensures len + |Escape(c, raw)| <= 511 ==> Accepts(len, c, raw)
  {
    assert |"<br>"| == 4 && |"&lt;"| == 4 && |"&gt;"| == 4 && |"&amp;"| == 5 && |"&quot;"| == 6;
  }

  /** A quotation mark behind 506 characters is accepted, though it needs 512. */
  lemma QuoteOverruns()
    ensures Accepts(506, '"', false) && 506 + |Escape('"', false)| == 512
  {
  }

  /** Erasing takes back a key exactly if the key added a single character. */
  lemma ErasingTakesBack(line: string, c: char, raw: bool)
    ensures var typed := line + Escape(c, raw);
            typed[..|typed| - 1] == line <==>
            c != CTRL_B && (raw || (c != '"' && c != '<' && c != '>' && c != '&'))
  {
    var typed := line + Escape(c, raw);
    assert |Escape(c, raw)| == 1 <==> c != CTRL_B && (raw || (c != '"' && c != '<' && c != '>' && c != '&'));
    hide Escape;
    if |Escape(c, raw)| == 1 {
      assert typed[..|typed| - 1] == line;
    }
  }

  class InputLine {
    const inputbuf: CString
    var rawinput: bool

    ghost predicate Valid()
      reads this, inputbuf, inputbuf.data
    {
      inputbuf.Valid() && inputbuf.data.Length == 512
    }

    constructor ()
      ensures Valid() && inputbuf.text == "" && !rawinput && fresh(inputbuf) && fresh(inputbuf.data)
    {
      inputbuf := new CString(512);
      rawinput := false;
    }

    /** addtoinputbuf. */
    method AddToInputBuf(c: char)
      requires Valid() && c != '\0'
      modifies inputbuf, inputbuf.data
      ensures Valid() && inputbuf.text == old(inputbuf.text) + (if |old(inputbuf.text)| == 511 then "" else [c])
    {
      var n := inputbuf.Strlen();
      if n == 511 {
        return;
      }
      inputbuf.Put(c);
    }

    /** The key handler, for the keys that type something. */
    method Key(c: char)
      requires Valid() && (c == 2 as char || (32 as char <= c && c != 127 as char))
      requires inputbuf.text != "" || (c != 'r' && c != 'I' && c != 'L')
      requires !Overruns(|inputbuf.text|, c, rawinput)
      modifies inputbuf, inputbuf.data
      ensures Valid()
      ensures inputbuf.text == old(inputbuf.text)
                               + (if Accepts(|old(inputbuf.text)|, c, rawinput) then Escape(c, rawinput) else "")
    {
      GuardsAreLoose(|inputbuf.text|, c, rawinput);
      hide CString.Valid;
      var n := inputbuf.Strlen();
      if c == 2 as char {
        if n <= 509 {
          inputbuf.Strcat("<br>");
        }
      } else if c == '"' {
        if !rawinput {
          if n <= 507 {
            inputbuf.Strcat("&quot;");
          }
        } else {
          AddToInputBuf(c);
        }
      } else if c == '<' {
        if !rawinput {
          if n <= 509 {
            inputbuf.Strcat("&lt;");
          }
        } else {
          AddToInputBuf(c);
        }
      } else if c == '>' {
        if !rawinput {
          if n <= 509 {
            inputbuf.Strcat("&gt;");
          }
        } else {
          AddToInputBuf(c);
        }
      } else if c == '&' {
        if !rawinput {
          if n <= 508 {
            inputbuf.Strcat("&amp;");
          }
        } else {
          AddToInputBuf(c);
        }
      } else {
        AddToInputBuf(c);
      }
    }

    /** Keys typed one after the other behind the start of a command, as long as the line has room. */
    method TypeAll(t: string)
      requires Valid() && inputbuf.text != "" && (forall c | c in t :: Types(c))
      requires |inputbuf.text| + |EscapeAll(t, rawinput)| <= 511
      modifies inputbuf, inputbuf.data
      ensures Valid() && inputbuf.text == old(inputbuf.text) + EscapeAll(t, rawinput)
      ensures !rawinput ==> Strip(inputbuf.text[|old(inputbuf.text)|..]) == Shown(t)
    {
      hide Valid, Strip, Accepts, Escape, EscapeAll, Shown;
      assert t[..0] == "" && inputbuf.text + "" == inputbuf.text;
      EscapeNothing(rawinput);
      for k := 0 to |t|
        invariant Valid() && inputbuf.text == old(inputbuf.text) + EscapeAll(t[..k], rawinput)
      {
        EscapeShorter(t, k, rawinput);
        GuardsAreLoose(|inputbuf.text|, t[k], rawinput);
        assert t[k] in t && Types(t[k]);
        Key(t[k]);
      }
      assert t[..|t|] == t && inputbuf.text[|old(inputbuf.text)|..] == EscapeAll(t, rawinput);
      StripEscape(t);
    }

    /** The keys that erase take back one character, whatever key it came from. */
    method Erase()
      requires Valid()
      modifies inputbuf, inputbuf.data
      ensures Valid()
      ensures inputbuf.text == if old(inputbuf.text) == "" then "" else old(inputbuf.text)[..|old(inputbuf.text)| - 1]
    {
      var n := inputbuf.Strlen();
      if n == 0 {
        return;
      }
      inputbuf.Drop();
    }

    /** Enter, after the line has been handled: the buffer is cleared. */
    method Enter()
      requires Valid()
      modifies this, inputbuf, inputbuf.data
      ensures Valid() && inputbuf.text == "" && !rawinput
    {
      inputbuf.Clear();
      rawinput := false;
    }
  }
}
