/** A C string in a buffer of its own that is cleared before use, as the client's input code keeps them. */
module CStrings {
  class CString {
    const data: array<char>
    ghost var text: string

    /** The text, and nothing but zeros after it. */
    ghost predicate Valid()
      reads this, data
    {
      && |text| < data.Length && data[..|text|] == text && '\0' !in text
      && forall i | |text| <= i < data.Length :: data[i] == '\0'
    }

    constructor (size: nat)
      requires size > 0
      ensures Valid() && text == "" && fresh(data) && data.Length == size
    {
      data := new char[size](_ => '\0');
      text := "";
    }

    method Strlen() returns (n: nat)
      requires Valid()
      ensures n == |text|
    {
      n := 0;
      assert forall i | 0 <= i < |text| :: data[i] == data[..|text|][i] == text[i];
      while data[n] != '\0'
        invariant n <= |text|
        decreases |text| - n
      {
        n := n + 1;
      }
    }

    /** The string, as a function that is handed the buffer sees it. */
    method Value() returns (s: string)
      requires Valid()
      ensures s == text
    {
      var n := Strlen();
      s := data[..n];
    }

    /** strcat. */
    method Strcat(w: string)
      requires Valid() && |text| + |w| < data.Length && '\0' !in w
      modifies `text, data
      ensures Valid() && text == old(text) + w
    {
      var n := Strlen();
      forall k | 0 <= k < |w| {
        data[n + k] := w[k];
      }
      data[n + |w|] := '\0';
      text := text + w;
    }

    /** One more character, without a final zero: zeros follow anyway. */
    method Put(c: char)
      requires Valid() && |text| + 1 < data.Length && c != '\0'
      modifies `text, data
      ensures Valid() && text == old(text) + [c]
    {
      var n := Strlen();
      data[n] := c;
      text := text + [c];
    }

    /** A zero over the last character. */
    method Drop()
      requires Valid() && text != ""
      modifies `text, data
      ensures Valid() && text == old(text)[..|old(text)| - 1]
    {
      var n := Strlen();
      data[n - 1] := '\0';
      text := text[..n - 1];
    }

    /** memset. */
    method Clear()
      requires Valid()
      modifies `text, data
      ensures Valid() && text == ""
    {
      forall k | 0 <= k < data.Length {
        data[k] := '\0';
      }
      text := "";
    }
  }
}
