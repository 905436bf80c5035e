/**
 The block function of imcomm/md5.c: sixty-four SET steps written out, with the roles of the
 four registers permuted from line to line instead of moving their contents.
 */
module Md5Process {
  import opened Md5Rfc

  /** T_MASK ^ x: the constants with the top bit set are written as complements. */
  function Not(x: Word): Word { 0xffff_ffff - x }

  const K1: seq<Word> := [
    Not(0x28955b87), Not(0x173848a9), 0x242070db, Not(0x3e423111),
    Not(0x0a83f050), 0x4787c62a, Not(0x57cfb9ec), Not(0x02b96afe),
    0x698098d8, Not(0x74bb0850), Not(0x0000a44e), Not(0x76a32841),
    0x6b901122, Not(0x02678e6c), Not(0x5986bc71), 0x49b40821]
  const K2: seq<Word> := [
    Not(0x09e1da9d), Not(0x3fbf4cbf), 0x265e5a51, Not(0x16493855),
    Not(0x29d0efa2), 0x02441453, Not(0x275e197e), Not(0x182c0437),
    0x21e1cde6, Not(0x3cc8f829), Not(0x0b2af278), 0x455a14ed,
    Not(0x561c16fa), Not(0x03105c07), 0x676f02d9, Not(0x72d5b375)]
  const K3: seq<Word> := [
    Not(0x0005c6bd), Not(0x788e097e), 0x6d9d6122, Not(0x021ac7f3),
    Not(0x5b4115bb), 0x4bdecfa9, Not(0x0944b49f), Not(0x4140438f),
    0x289b7ec6, Not(0x155ed805), Not(0x2b10cf7a), 0x04881d05,
    Not(0x262b2fc6), Not(0x1924661a), 0x1fa27cf8, Not(0x3b53a99a)]
  const K4: seq<Word> := [
    Not(0x0bd6ddbb), 0x432aff97, Not(0x546bdc58), Not(0x036c5fc6),
    0x655b59c3, Not(0x70f3336d), Not(0x00100b82), Not(0x7a7ba22e),
    0x6fa87e4f, Not(0x01d3191f), Not(0x5cfebceb), 0x4e0811a1,
    Not(0x08ac817d), Not(0x42c50dca), 0x2ad7d2bb, Not(0x14792c6e)]

  /** The macros T1 to T64. */
  function K(n: nat): Word
    requires 1 <= n <= 64
  {
    if n <= 16 then K1[n - 1] else if n <= 32 then K2[n - 17] else if n <= 48 then K3[n - 33] else K4[n - 49]
  }

  lemma Row1IsRfc() ensures K1 == ROW1 {}
  lemma Row2IsRfc() ensures K2 == ROW2 {}
  lemma Row3IsRfc() ensures K3 == ROW3 {}
  lemma Row4IsRfc() ensures K4 == ROW4 {}

  /** The macros are the table of the RFC. */
  lemma ConstantsAreRfc()
    ensures forall i | 0 <= i < 64 :: K(i + 1) == T(i)
  {
    hide K1, K2, K3, K4, ROW1, ROW2, ROW3, ROW4;
    Row1IsRfc();
    Row2IsRfc();
    Row3IsRfc();
    Row4IsRfc();
  }

  function RotateLeftBits(x: bv32, n: bv6): bv32
    requires n <= 32
  {
    (x << n) | (x >> (32 - n))
  }

  /** ROTATE_LEFT. */
  function RotateLeft(x: Word, n: bv6): Word
    requires n <= 32
  {
    RotateLeftBits(x as bv32, n) as int
  }

  lemma ShiftOnce(x: bv32, y: bv32, n: bv6)
    requires y == (x << 1) | (x >> 31)
    requires 0 < n < 32
    ensures RotateLeftBits(y, n - 1) == RotateLeftBits(x, n)
  {
  }

  /** The shift-and-or of the code is the circular shift of the RFC. */
  lemma {:induction false} RotateLeftIsRotate(x: bv32, n: bv6)
    requires n < 32
    ensures RotateLeftBits(x, n) == RotateBits(x, n)
    decreases n
  {
    if n != 0 {
      var y := (x << 1) | (x >> 31);
      ShiftOnce(x, y, n);
      RotateLeftIsRotate(y, n - 1);
    }
  }

  /**
   One SET: f is the round's auxiliary function already applied. The ghost q follows the
   reference, whose registers are renamed after every step.
   */
  method Set(ghost i: nat, ghost r: Chain, ghost x: seq<Word>, ghost q: Chain,
             f: Word, a: Word, b: Word, xk: Word, s: bv6, t: Word)
    returns (a': Word, ghost q': Chain)
    requires i < 64 && |x| == 16 && s < 32 && q == Steps(i, r, x)
    requires q.a == a && q.b == b && f == Aux(i, b, q.c, q.d)
    requires xk == x[Index(i)] && s == Amount(i) && t == T(i)
    ensures q' == Steps(i + 1, r, x) == Chain(q.d, a', q.b, q.c)
  {
    hide RotateBits, RotateLeftBits, F, G, H, I, T, Amount, Index;
    var sum := Plus(Plus(Plus(a, f), xk), t);
    RotateLeftIsRotate(sum as bv32, s);
    a' := Plus(RotateLeft(sum, s), b);
    q' := Step(i, q, x);
  }

  method Round1(ghost r: Chain, x: seq<Word>, a0: Word, b0: Word, c0: Word, d0: Word)
    returns (a: Word, b: Word, c: Word, d: Word)
    requires |x| == 16 && Chain(a0, b0, c0, d0) == Steps(0, r, x)
    ensures Chain(a, b, c, d) == Steps(16, r, x)
  {
    ConstantsAreRfc();
    hide Plus, Rotate, F, G, H, I, Steps, T, K;
    a, b, c, d := a0, b0, c0, d0;
    ghost var q := Chain(a, b, c, d);
    a, q := Set(0, r, x, q, F(b, c, d), a, b, x[0], 7, K(1));
    d, q := Set(1, r, x, q, F(a, b, c), d, a, x[1], 12, K(2));
    c, q := Set(2, r, x, q, F(d, a, b), c, d, x[2], 17, K(3));
    b, q := Set(3, r, x, q, F(c, d, a), b, c, x[3], 22, K(4));
    a, q := Set(4, r, x, q, F(b, c, d), a, b, x[4], 7, K(5));
    d, q := Set(5, r, x, q, F(a, b, c), d, a, x[5], 12, K(6));
    c, q := Set(6, r, x, q, F(d, a, b), c, d, x[6], 17, K(7));
    b, q := Set(7, r, x, q, F(c, d, a), b, c, x[7], 22, K(8));
    a, q := Set(8, r, x, q, F(b, c, d), a, b, x[8], 7, K(9));
    d, q := Set(9, r, x, q, F(a, b, c), d, a, x[9], 12, K(10));
    c, q := Set(10, r, x, q, F(d, a, b), c, d, x[10], 17, K(11));
    b, q := Set(11, r, x, q, F(c, d, a), b, c, x[11], 22, K(12));
    a, q := Set(12, r, x, q, F(b, c, d), a, b, x[12], 7, K(13));
    d, q := Set(13, r, x, q, F(a, b, c), d, a, x[13], 12, K(14));
    c, q := Set(14, r, x, q, F(d, a, b), c, d, x[14], 17, K(15));
    b, q := Set(15, r, x, q, F(c, d, a), b, c, x[15], 22, K(16));
  }

  method Round2(ghost r: Chain, x: seq<Word>, a0: Word, b0: Word, c0: Word, d0: Word)
    returns (a: Word, b: Word, c: Word, d: Word)
    requires |x| == 16 && Chain(a0, b0, c0, d0) == Steps(16, r, x)
    ensures Chain(a, b, c, d) == Steps(32, r, x)
  {
    ConstantsAreRfc();
    hide Plus, Rotate, F, G, H, I, Steps, T, K;
    a, b, c, d := a0, b0, c0, d0;
    ghost var q := Chain(a, b, c, d);
    a, q := Set(16, r, x, q, G(b, c, d), a, b, x[1], 5, K(17));
    d, q := Set(17, r, x, q, G(a, b, c), d, a, x[6], 9, K(18));
    c, q := Set(18, r, x, q, G(d, a, b), c, d, x[11], 14, K(19));
    b, q := Set(19, r, x, q, G(c, d, a), b, c, x[0], 20, K(20));
    a, q := Set(20, r, x, q, G(b, c, d), a, b, x[5], 5, K(21));
    d, q := Set(21, r, x, q, G(a, b, c), d, a, x[10], 9, K(22));
    c, q := Set(22, r, x, q, G(d, a, b), c, d, x[15], 14, K(23));
    b, q := Set(23, r, x, q, G(c, d, a), b, c, x[4], 20, K(24));
    a, q := Set(24, r, x, q, G(b, c, d), a, b, x[9], 5, K(25));
    d, q := Set(25, r, x, q, G(a, b, c), d, a, x[14], 9, K(26));
    c, q := Set(26, r, x, q, G(d, a, b), c, d, x[3], 14, K(27));
    b, q := Set(27, r, x, q, G(c, d, a), b, c, x[8], 20, K(28));
    a, q := Set(28, r, x, q, G(b, c, d), a, b, x[13], 5, K(29));
    d, q := Set(29, r, x, q, G(a, b, c), d, a, x[2], 9, K(30));
    c, q := Set(30, r, x, q, G(d, a, b), c, d, x[7], 14, K(31));
    b, q := Set(31, r, x, q, G(c, d, a), b, c, x[12], 20, K(32));
  }

  method Round3(ghost r: Chain, x: seq<Word>, a0: Word, b0: Word, c0: Word, d0: Word)
    returns (a: Word, b: Word, c: Word, d: Word)
    requires |x| == 16 && Chain(a0, b0, c0, d0) == Steps(32, r, x)
    ensures Chain(a, b, c, d) == Steps(48, r, x)
  {
    ConstantsAreRfc();
    hide Plus, Rotate, F, G, H, I, Steps, T, K;
    a, b, c, d := a0, b0, c0, d0;
    ghost var q := Chain(a, b, c, d);
    a, q := Set(32, r, x, q, H(b, c, d), a, b, x[5], 4, K(33));
    d, q := Set(33, r, x, q, H(a, b, c), d, a, x[8], 11, K(34));
    c, q := Set(34, r, x, q, H(d, a, b), c, d, x[11], 16, K(35));
    b, q := Set(35, r, x, q, H(c, d, a), b, c, x[14], 23, K(36));
    a, q := Set(36, r, x, q, H(b, c, d), a, b, x[1], 4, K(37));
    d, q := Set(37, r, x, q, H(a, b, c), d, a, x[4], 11, K(38));
    c, q := Set(38, r, x, q, H(d, a, b), c, d, x[7], 16, K(39));
    b, q := Set(39, r, x, q, H(c, d, a), b, c, x[10], 23, K(40));
    a, q := Set(40, r, x, q, H(b, c, d), a, b, x[13], 4, K(41));
    d, q := Set(41, r, x, q, H(a, b, c), d, a, x[0], 11, K(42));
    c, q := Set(42, r, x, q, H(d, a, b), c, d, x[3], 16, K(43));
    b, q := Set(43, r, x, q, H(c, d, a), b, c, x[6], 23, K(44));
    a, q := Set(44, r, x, q, H(b, c, d), a, b, x[9], 4, K(45));
    d, q := Set(45, r, x, q, H(a, b, c), d, a, x[12], 11, K(46));
    c, q := Set(46, r, x, q, H(d, a, b), c, d, x[15], 16, K(47));
    b, q := Set(47, r, x, q, H(c, d, a), b, c, x[2], 23, K(48));
  }

  method Round4(ghost r: Chain, x: seq<Word>, a0: Word, b0: Word, c0: Word, d0: Word)
    returns (a: Word, b: Word, c: Word, d: Word)
    requires |x| == 16 && Chain(a0, b0, c0, d0) == Steps(48, r, x)
    ensures Chain(a, b, c, d) == Steps(64, r, x)
  {
    ConstantsAreRfc();
    hide Plus, Rotate, F, G, H, I, Steps, T, K;
    a, b, c, d := a0, b0, c0, d0;
    ghost var q := Chain(a, b, c, d);
    a, q := Set(48, r, x, q, I(b, c, d), a, b, x[0], 6, K(49));
    d, q := Set(49, r, x, q, I(a, b, c), d, a, x[7], 10, K(50));
    c, q := Set(50, r, x, q, I(d, a, b), c, d, x[14], 15, K(51));
    b, q := Set(51, r, x, q, I(c, d, a), b, c, x[5], 21, K(52));
    a, q := Set(52, r, x, q, I(b, c, d), a, b, x[12], 6, K(53));
    d, q := Set(53, r, x, q, I(a, b, c), d, a, x[3], 10, K(54));
    c, q := Set(54, r, x, q, I(d, a, b), c, d, x[10], 15, K(55));
    b, q := Set(55, r, x, q, I(c, d, a), b, c, x[1], 21, K(56));
    a, q := Set(56, r, x, q, I(b, c, d), a, b, x[8], 6, K(57));
    d, q := Set(57, r, x, q, I(a, b, c), d, a, x[15], 10, K(58));
    c, q := Set(58, r, x, q, I(d, a, b), c, d, x[6], 15, K(59));
    b, q := Set(59, r, x, q, I(c, d, a), b, c, x[13], 21, K(60));
    a, q := Set(60, r, x, q, I(b, c, d), a, b, x[4], 6, K(61));
    d, q := Set(61, r, x, q, I(a, b, c), d, a, x[11], 10, K(62));
    c, q := Set(62, r, x, q, I(d, a, b), c, d, x[2], 15, K(63));
    b, q := Set(63, r, x, q, I(c, d, a), b, c, x[9], 21, K(64));
  }

  method Rounds(r: Chain, x: seq<Word>) returns (a: Word, b: Word, c: Word, d: Word)
    requires |x| == 16
    ensures Chain(a, b, c, d) == Steps(64, r, x)
  {
    a, b, c, d := r.a, r.b, r.c, r.d;
    assert Steps(0, r, x) == r;
    hide Steps;
    a, b, c, d := Round1(r, x, a, b, c, d);
    a, b, c, d := Round2(r, x, a, b, c, d);
    a, b, c, d := Round3(r, x, a, b, c, d);
    a, b, c, d := Round4(r, x, a, b, c, d);
  }
}
