/** Taking an element out of a sequence and putting one back. */
module Lists {
  ghost function Without<T>(s: seq<T>, k: nat): seq<T>
    requires k < |s|
  {
    s[..k] + s[k + 1..]
  }

  ghost function With<T>(s: seq<T>, k: nat, x: T): seq<T>
    requires k <= |s|
  {
    s[..k] + [x] + s[k..]
  }

  lemma Members<T>(s: seq<T>, k: nat, x: T)
    ensures k <= |s| ==> forall y :: y in With(s, k, x) <==> y in s || y == x
    ensures k < |s| ==> forall y :: y in Without(s, k) ==> y in s
  {
  }

  lemma WithAt<T>(s: seq<T>, k: nat, x: T, i: nat)
    requires k <= |s| && i <= |s|
    ensures |With(s, k, x)| == |s| + 1
    ensures With(s, k, x)[i] == if i < k then s[i] else if i == k then x else s[i - 1]
  {
  }

  lemma WithoutAt<T>(s: seq<T>, k: nat, i: nat)
    requires k < |s| && i + 1 < |s|
    ensures |Without(s, k)| == |s| - 1 && Without(s, k)[i] == s[if i < k then i else i + 1]
  {
  }

  lemma WithLast<T>(s: seq<T>, x: T)
    ensures With(s, |s|, x) == s + [x]
  {
  }

  lemma PutBack<T>(s: seq<T>, k: nat, x: T)
    requires k < |s|
    ensures With(Without(s, k), k, x) == s[k := x]
  {
  }
}
