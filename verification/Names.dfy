/** Screen names: simplify_sn, and the order strcmp puts them in. */
module Names {
  import opened Bytes

  type Name = seq<byte>

  const SPACE := 0x20

  /** tolower, in the C locale. */
  function Lower(c: byte): byte {
    if 0x41 <= c <= 0x5a then c + 0x20 else c
  }

  /** A screen name without spaces and case. */
  function Simplify(sn: Name): Name {
    if sn == [] then []
    else if sn[|sn| - 1] == SPACE then Simplify(sn[..|sn| - 1])
    else Simplify(sn[..|sn| - 1]) + [Lower(sn[|sn| - 1])]
  }

  lemma SimplifySnoc(sn: Name, c: byte)
    ensures Simplify(sn + [c]) == Simplify(sn) + (if c == SPACE then [] else [Lower(c)])
  {
    var all := sn + [c];
    assert all[..|sn|] == sn && all[|all| - 1] == c;
    hide Lower;
    assert Simplify(all) == if c == SPACE then Simplify(sn) else Simplify(sn) + [Lower(c)];
    if c == SPACE {
      assert Simplify(sn) + [] == Simplify(sn);
    }
  }

  lemma {:induction false} SimplifyAppends(a: Name, b: Name)
    ensures Simplify(a + b) == Simplify(a) + Simplify(b)
    decreases |b|
  {
    if b == [] {
      assert a + b == a && Simplify(a) + [] == Simplify(a);
    } else {
      var front, c := b[..|b| - 1], b[|b| - 1];
      SimplifyAppends(a, front);
      SimplifySnoc(a + front, c);
      SimplifySnoc(front, c);
      hide Simplify, Lower;
      assert a + b == a + front + [c] && b == front + [c];
    }
  }

  /** Each octet by itself: a space goes, and the letters A to Z become a to z. */
  lemma SimplifyOctets(c: byte)
    ensures Simplify([]) == []
    ensures Simplify([c]) == if c == 32 then [] else if 65 <= c <= 90 then [c + 32] else [c]
  {
    SimplifySnoc([], c);
    assert [] + [c] == [c] && Simplify([]) == [];
    hide Simplify;
  }

  lemma {:induction false} SimplifyIdempotent(sn: Name)
    ensures Simplify(Simplify(sn)) == Simplify(sn)
  {
    if sn != [] {
      var front := Simplify(sn[..|sn| - 1]);
      SimplifyIdempotent(sn[..|sn| - 1]);
      assert (front + [Lower(sn[|sn| - 1])])[..|front|] == front;
    }
  }

  /** simplify_sn and imcomm_simplify_sn. */
  method SimplifySn(sn: Name) returns (temp: Name)
    ensures temp == Simplify(sn)
  {
    temp := [];
    for x := 0 to |sn|
      invariant temp == Simplify(sn[..x])
    {
      assert sn[..x + 1][..x] == sn[..x];
      if sn[x] == SPACE {
        continue;
      }
      temp := temp + [Lower(sn[x])];
    }
    assert sn[..|sn|] == sn;
  }

  /** strcmp(a, b) < 0. */
  predicate Less(a: Name, b: Name) {
    b != [] && (a == [] || a[0] < b[0] || (a[0] == b[0] && Less(a[1..], b[1..])))
  }

  lemma {:induction false} LessTransitive(a: Name, b: Name, c: Name)
    ensures Less(a, b) && Less(b, c) ==> Less(a, c)
    ensures !Less(b, a) && Less(b, c) ==> Less(a, c)
    ensures Less(a, b) && !Less(c, b) ==> Less(a, c)
  {
    if a != [] && b != [] && c != [] {
      LessTransitive(a[1..], b[1..], c[1..]);
    }
  }

  lemma {:induction false} LessTotal(a: Name, b: Name)
    ensures !(Less(a, b) && Less(b, a))
    ensures Less(a, b) || Less(b, a) || a == b
    ensures !Less(a, a)
  {
    if a != [] && b != [] {
      LessTotal(a[1..], b[1..]);
      assert a == [a[0]] + a[1..] && b == [b[0]] + b[1..];
    }
    if a != [] {
      LessTotal(a[1..], a[1..]);
    }
  }

  /** Octet by octet: a comes first if it ends, or has the smaller octet, where the two part. */
  lemma {:induction false} LessIs(a: Name, b: Name)
    ensures Less(a, b) <==>
            exists k: nat :: k <= |a| && k < |b| && a[..k] == b[..k] && (k == |a| || a[k] < b[k])
  {
    if Less(a, b) {
      LessParts(a, b);
    }
    forall k: nat | k <= |a| && k < |b| && a[..k] == b[..k] && (k == |a| || a[k] < b[k])
      ensures Less(a, b)
    {
      PartsLess(a, b, k);
    }
  }

  lemma {:induction false} LessParts(a: Name, b: Name)
    requires Less(a, b)
    ensures exists k: nat :: k <= |a| && k < |b| && a[..k] == b[..k] && (k == |a| || a[k] < b[k])
  {
    if a == [] || a[0] < b[0] {
      assert a[..0] == b[..0];
    } else {
      LessParts(a[1..], b[1..]);
      var k: nat :| k <= |a[1..]| && k < |b[1..]| && a[1..][..k] == b[1..][..k]
                    && (k == |a[1..]| || a[1..][k] < b[1..][k]);
      assert a == [a[0]] + a[1..] && b == [b[0]] + b[1..];
      assert a[..k + 1] == [a[0]] + a[1..][..k] && b[..k + 1] == [b[0]] + b[1..][..k];
    }
  }

  lemma {:induction false} PartsLess(a: Name, b: Name, k: nat)
    requires k <= |a| && k < |b| && a[..k] == b[..k] && (k == |a| || a[k] < b[k])
    ensures Less(a, b)
  {
    if k > 0 {
      assert a[0] == a[..k][0] == b[..k][0] == b[0];
      assert a[1..][..k - 1] == a[..k][1..] && b[1..][..k - 1] == b[..k][1..];
      PartsLess(a[1..], b[1..], k - 1);
    }
  }
}
