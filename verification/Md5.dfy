/**
 The streaming interface of imcomm/md5.c: a running chain, a 64-octet carry buffer and a
 64-bit count of bits kept in two words.
 */
module Md5 {
  import opened Bytes
  import opened Md5Rfc
  import opened Md5Process

  lemma ModAdd(a: nat, b: nat)
    ensures (a % 0x1_0000_0000_0000_0000 + b) % 0x1_0000_0000_0000_0000 == (a + b) % 0x1_0000_0000_0000_0000
  {
  }

  lemma Combine(low: nat, sum: nat)
    requires low < 0x1_0000_0000
    ensures (low + 0x1_0000_0000 * sum) % 0x1_0000_0000_0000_0000 == low + 0x1_0000_0000 * (sum % 0x1_0000_0000)
  {
  }

  lemma HighWord(high: nat, hk: nat, carry: nat)
    ensures ((high + hk) % 0x1_0000_0000 + carry) % 0x1_0000_0000 == (high + hk + carry) % 0x1_0000_0000
  {
  }

  lemma LowWord(low: nat, bits: nat)
    requires low < 0x1_0000_0000 && bits < 0x1_0000_0000
    ensures var sum := (low + bits) % 0x1_0000_0000;
            low + bits == if sum < bits then sum + 0x1_0000_0000 else sum
  {
  }

  /** Adding k octets to a two-word bit count of n octets: the low word, its carry, the high word. */
  lemma CountAdvances(n: nat, k: nat, low: nat, high: nat)
    requires k < 0x8000_0000 && low < 0x1_0000_0000 && high < 0x1_0000_0000
    requires low + 0x1_0000_0000 * high == 8 * n % 0x1_0000_0000_0000_0000
    ensures var bits := 8 * k % 0x1_0000_0000;
            var low' := (low + bits) % 0x1_0000_0000;
            var high' := (high + k / 0x2000_0000) % 0x1_0000_0000;
            var high'' := if low' < bits then (high' + 1) % 0x1_0000_0000 else high';
            low' + 0x1_0000_0000 * high'' == 8 * (n + k) % 0x1_0000_0000_0000_0000
  {
    var bits, hk := 8 * k % 0x1_0000_0000, k / 0x2000_0000;
    var low' := (low + bits) % 0x1_0000_0000;
    var carry := if low' < bits then 1 else 0;
    assert 8 * k == bits + 0x1_0000_0000 * hk;
    LowWord(low, bits);
    HighWord(high, hk, carry);
    ModAdd(8 * n, 8 * k);
    Combine(low', high + hk + carry);
  }

  /** The position in the carry buffer, read off the low word of the count. */
  lemma OffsetIsLength(n: nat, low: nat, high: nat)
    requires low < 0x1_0000_0000 && high < 0x1_0000_0000
    requires low + 0x1_0000_0000 * high == 8 * n % 0x1_0000_0000_0000_0000
    ensures low / 8 % 64 == n % 64
  {
    var q := 8 * n / 0x1_0000_0000_0000_0000;
    OffsetOf(n, low, 0x80_0000 * high + 0x80_0000_0000_0000 * q);
  }

  lemma OffsetOf(n: nat, low: nat, k: nat)
    requires 8 * n == low + 512 * k
    ensures low / 8 % 64 == n % 64
  {
    var q := n - 64 * k;
    assert low == 8 * q;
    assert low / 8 == q;
    SixtyFours(q, k);
  }

  lemma SixtyFours(q: nat, k: nat)
    ensures (q + 64 * k) % 64 == q % 64
  {
  }

  /** The number of octets of n that make up full blocks. */
  function Full(n: nat): (f: nat)
    ensures f % 64 == 0 && f <= n < f + 64
  {
    n / 64 * 64
  }

  lemma FullIs(n: nat, done: nat)
    requires done % 64 == 0 && done <= n < done + 64
    ensures Full(n) == done
  {
  }

  lemma FoldBlock(m: seq<byte>, done: nat, block: seq<byte>)
    requires done % 64 == 0 && done + 64 <= |m| && block == m[done..done + 64]
    ensures Fold(m[..done + 64]) == Compress(Fold(m[..done]), block)
  {
    hide Compress;
    var p := m[..done + 64];
    assert p[..|p| - 64] == m[..done] && p[|p| - 64..] == block;
  }

  lemma EndOf(m: seq<byte>, data: seq<byte>, p: nat)
    requires p <= |data| <= |m| && m[|m| - |data|..] == data
    ensures var done := |m| - |data| + p;
            data[p..] == m[done..] && (p + 64 <= |data| ==> data[p..p + 64] == m[done..done + 64])
  {
  }

  lemma Carried(before: seq<byte>, data: seq<byte>, done: nat, copy: nat)
    requires done <= |before| && copy <= |data|
    ensures var m := before + data;
            m[..done] == before[..done] && before[done..] + data[..copy] == m[done..|before| + copy]
  {
  }

  /**
   The three ways md5_process gets its sixteen words. A little-endian host reads them from
   memory, aligned or through a copy; a big-endian one puts the octets in order itself.
   */
  method LoadWords(host: Host, data: seq<byte>) returns (x: seq<Word>)
    requires |data| == 64
    ensures x == Words(data)
  {
    x := [];
    var littleEndian := Stored32(host, 1)[0] != 0;
    for i := 0 to 16
      invariant |x| == i && forall k | 0 <= k < i :: x[k] == Words(data)[k]
    {
      var xp := data[4 * i..4 * i + 4];
      x := x + [
        if littleEndian then Loaded32(host, xp)
        else xp[0] as int + 0x100 * xp[1] as int + 0x1_0000 * xp[2] as int + 0x100_0000 * xp[3] as int];
    }
  }

  /** data[i] = word[i >> 2] >> ((i & 3) << 3), the loop md5_finish has twice. */
  method Serialize(words: seq<Word>) returns (data: seq<byte>)
    ensures data == Octets(words)
  {
    data := [];
    for i := 0 to 4 * |words|
      invariant data == Octets(words)[..i]
    {
      var w := words[i / 4];
      data := data + [(match i % 4
                       case 0 => w
                       case 1 => w / 0x100
                       case 2 => w / 0x1_0000
                       case _ => w / 0x100_0000) % 0x100];
    }
  }

  lemma {:induction false} PaddingIs(n: nat, p: nat, q: nat)
    requires p <= q < p + 64 && (n + q) % 64 == 56
    ensures PaddingFrom(n, p) == q
    decreases q - p
  {
    if p < q {
      PaddingIs(n, p + 1, q);
    }
  }

  lemma PadReaches56(n: nat, c: nat)
    requires c % 64 == n % 64
    ensures (n + (55 - c) % 64 + 1) % 64 == 56
  {
  }

  /** The length field and the number of padding octets, read off the count. */
  lemma CountWords(n: nat, low: nat, high: nat)
    requires low < 0x1_0000_0000 && high < 0x1_0000_0000
    requires low + 0x1_0000_0000 * high == 8 * n % 0x1_0000_0000_0000_0000
    ensures low == 8 * n % 0x1_0000_0000 && high == 8 * n / 0x1_0000_0000 % 0x1_0000_0000
    ensures (55 - low / 8) % 64 + 1 == PaddingFrom(n, 1)
  {
    var q := 8 * n / 0x1_0000_0000_0000_0000;
    assert 8 * n == low + 0x1_0000_0000 * (high + 0x1_0000_0000 * q);
    assert 8 * n / 0x1_0000_0000 == high + 0x1_0000_0000 * q;
    OffsetIsLength(n, low, high);
    var k := (55 - low / 8) % 64 + 1;
    PadReaches56(n, low / 8);
    PaddingIs(n, 1, k);
  }

  class Md5State {
    var count0: uint32
    var count1: uint32
    const abcd: array<Word>
    const buf: array<byte>
    const host: Host
    ghost var message: seq<byte>  // everything appended so far

    ghost function Registers(): Chain
      requires abcd.Length == 4
      reads abcd
    {
      Chain(abcd[0], abcd[1], abcd[2], abcd[3])
    }

    ghost predicate Counts(n: nat)
      reads `count0, `count1
    {
      count0 + 0x1_0000_0000 * count1 == 8 * n % 0x1_0000_0000_0000_0000
    }

    /** The chain has absorbed the full blocks of m, and the carry buffer holds the rest. */
    ghost predicate Holds(m: seq<byte>)
      reads abcd, buf
    {
      && abcd.Length == 4 && buf.Length == 64
      && Registers() == Fold(m[..Full(|m|)])
      && buf[..|m| - Full(|m|)] == m[Full(|m|)..]
    }

    ghost predicate Valid()
      reads this, abcd, buf
    {
      Holds(message) && Counts(|message|)
    }

    /** Where the next octet goes in the carry buffer. */
    function Offset(): (offset: nat)
      requires Counts(|message|)
      reads this
      ensures offset == |message| - Full(|message|)
    {
      OffsetIsLength(|message|, count0, count1);
      count0 / 8 % 64
    }

    function PadLength(): (n: nat)
      requires Counts(|message|)
      reads this
      ensures n == PaddingFrom(|message|, 1)
    {
      CountWords(|message|, count0, count1);
      (55 - count0 / 8) % 64 + 1
    }

    method SaveLength() returns (data: seq<byte>)
      requires Counts(|message|)
      ensures |data| == 8 && message + Padding(|message|) + data == Pad(message)
    {
      CountWords(|message|, count0, count1);
      data := Serialize([count0, count1]);
    }

    /** md5_init. */
    constructor (host: Host)
      ensures Valid() && message == [] && fresh(abcd) && fresh(buf)
    {
      hide Compress;
      this.host := host;
      count0, count1 := 0, 0;
      abcd := new Word[4] [0x67452301, Not(0x10325476), Not(0x67452301), 0x10325476];
      buf := new byte[64];
      message := [];
      new;
      assert message[..Full(0)] == [];
    }

    /** md5_process: the four rounds, then the registers are incremented. */
    method Process(data: seq<byte>)
      requires abcd.Length == 4 && |data| == 64
      modifies abcd
      ensures Registers() == Compress(old(Registers()), data)
    {
      var x := LoadWords(host, data);
      hide Words, Steps, Fold, Plus;
      var a, b, c, d := Rounds(Chain(abcd[0], abcd[1], abcd[2], abcd[3]), x);
      abcd[0], abcd[1] := Plus(abcd[0], a), Plus(abcd[1], b);
      abcd[2], abcd[3] := Plus(abcd[2], c), Plus(abcd[3], d);
    }

    /** The message length update of md5_append. */
    method CountBits(nbytes: nat)
      requires nbytes < 0x8000_0000 && Counts(|message|)
      modifies `count0, `count1
      ensures Counts(|message| + nbytes)
    {
      CountAdvances(|message|, nbytes, count0, count1);
      var nbits := 8 * nbytes % 0x1_0000_0000;
      count1 := (count1 + nbytes / 0x2000_0000) % 0x1_0000_0000;
      count0 := (count0 + nbits) % 0x1_0000_0000;
      if count0 < nbits {
        count1 := (count1 + 1) % 0x1_0000_0000;
      }
    }

    /** memcpy into the carry buffer. */
    method Fill(offset: nat, source: seq<byte>)
      requires offset + |source| <= buf.Length
      modifies buf
      ensures buf[..offset + |source|] == old(buf[..offset]) + source
    {
      forall k | 0 <= k < |source| {
        buf[offset + k] := source[k];
      }
    }

    /** The middle and last parts of md5_append: full blocks from p on, then a partial one. */
    method Blocks(data: seq<byte>, start: nat, ghost m: seq<byte>)
      requires abcd.Length == 4 && buf.Length == 64 && start <= |data| <= |m|
      requires m[|m| - |data|..] == data && (|m| - |data| + start) % 64 == 0
      requires Registers() == Fold(m[..|m| - |data| + start])
      modifies abcd, buf
      ensures Holds(m)
    {
      hide *;
      var p, left := start, |data| - start;
      while left >= 64
        invariant 0 <= left == |data| - p && (|m| - left) % 64 == 0
        invariant abcd.Length == 4 && buf.Length == 64 && Registers() == Fold(m[..|m| - left])
      {
        EndOf(m, data, p);
        FoldBlock(m, |m| - left, data[p..p + 64]);
        SixtyFours(|m| - left, 1);
        Process(data[p..p + 64]);
        p, left := p + 64, left - 64;
      }
      FullIs(|m|, |m| - left);
      EndOf(m, data, p);
      Fill(0, data[p..]);
      HoldsNow(m);
    }

    lemma HoldsNow(m: seq<byte>)
      requires abcd.Length == 4 && buf.Length == 64
      requires Registers() == Fold(m[..Full(|m|)]) && buf[..|m| - Full(|m|)] == m[Full(|m|)..]
      ensures Holds(m)
    {
    }

    /** The first part of md5_append: copy what fits into a carry buffer that is not empty. */
    method TopUp(data: seq<byte>, offset: nat, ghost before: seq<byte>) returns (copy: nat)
      requires Holds(before) && 0 < offset == |before| - Full(|before|)
      modifies abcd, buf
      ensures copy <= |data| && abcd.Length == 4 && buf.Length == 64
      ensures offset + copy < 64 ==> Holds(before + data)
      ensures offset + copy >= 64 ==> (|before| + copy) % 64 == 0
      ensures offset + copy >= 64 ==> Registers() == Fold((before + data)[..|before| + copy])
    {
      hide Compress, Fold, Full, Registers;
      copy := if offset + |data| > 64 then 64 - offset else |data|;
      ghost var m, done := before + data, Full(|before|);
      Carried(before, data, done, copy);
      Fill(offset, data[..copy]);
      assert buf[..offset + copy] == m[done..done + offset + copy];
      if offset + copy < 64 {
        FullIs(|m|, done);
        return;
      }
      FoldBlock(m, done, buf[..]);
      Process(buf[..]);
    }

    /** md5_append; the sum offset + nbytes must not overflow its 32-bit signed type. */
    method Append(data: seq<byte>, nbytes: int)
      requires Valid()
      requires nbytes <= |data| && |message| % 64 + nbytes < 0x8000_0000
      modifies this, abcd, buf
      ensures Valid()
      ensures message == old(message) + (if nbytes <= 0 then [] else data[..nbytes])
    {
      hide Compress, Fold, Full, Counts, Registers;
      var offset := Offset();
      if nbytes <= 0 {
        return;
      }
      CountBits(nbytes);
      var p := 0;
      ghost var m := message + data[..nbytes];
      assert m[..|message|] == message[..|message|] == message;
      if offset != 0 {
        p := TopUp(data[..nbytes], offset, message);
        message := m;
        if offset + p < 64 {
          return;
        }
      }
      message := m;
      Blocks(data[..nbytes], p, m);
    }

    method Emit() returns (digest: seq<byte>)
      requires abcd.Length == 4
      ensures var h := Registers(); digest == Octets([h.a, h.b, h.c, h.d])
    {
      assert abcd[..] == [abcd[0], abcd[1], abcd[2], abcd[3]];
      digest := Serialize(abcd[..]);
    }

    /** md5_finish. */
    method Finish() returns (digest: seq<byte>)
      requires Valid()
      modifies this, abcd, buf
      ensures digest == Digest(old(message))
    {
      hide Fold, Full, Registers, Counts, Octets, Pad;
      var pad := [0x80] + seq(63, _ => 0);
      var data := SaveLength();
      var n := PadLength();
      ghost var m := message;
      assert pad[..n] == Padding(|m|);
      hide Padding;
      Append(pad, n);
      assert data[..8] == data;
      Append(data, 8);
      FullIs(|message|, |message|);
      assert message[..|message|] == message;
      digest := Emit();
    }
  }
}
