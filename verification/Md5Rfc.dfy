/**
 MD5 as RFC 1321 defines it, in table-driven form: the reference that the streaming,
 unrolled implementation is proved against.
 */
module Md5Rfc {
  import opened Bytes

  type Word = uint32

  /** The four registers A, B, C, D. */
  datatype Chain = Chain(a: Word, b: Word, c: Word, d: Word)

  // Section 3.3: word A is 01 23 45 67, low-order byte first, and so on.
  const INITIAL := Chain(0x67452301, 0xefcdab89, 0x98badcfe, 0x10325476)

  /** Addition of words, modulo 2^32. */
  function Plus(x: Word, y: Word): Word { (x as int + y as int) % 0x1_0000_0000 }

  /** One of the two sums in range, the one that is a word. */
  lemma PlusWraps(x: Word, y: Word)
    ensures Plus(x, y) == if x as int + y as int <= 0xffff_ffff then x + y else x + y - 0x1_0000_0000
  {
  }

  // Section 3.4: the auxiliary functions.
  function FBits(p: bv32, q: bv32, r: bv32): bv32 { (p & q) | (!p & r) }

  function GBits(p: bv32, q: bv32, r: bv32): bv32 { (p & r) | (q & !r) }

  function HBits(p: bv32, q: bv32, r: bv32): bv32 { p ^ q ^ r }

  function IBits(p: bv32, q: bv32, r: bv32): bv32 { q ^ (p | !r) }

  function F(x: Word, y: Word, z: Word): Word { FBits(x as bv32, y as bv32, z as bv32) as int }

  function G(x: Word, y: Word, z: Word): Word { GBits(x as bv32, y as bv32, z as bv32) as int }

  function H(x: Word, y: Word, z: Word): Word { HBits(x as bv32, y as bv32, z as bv32) as int }

  function I(x: Word, y: Word, z: Word): Word { IBits(x as bv32, y as bv32, z as bv32) as int }

  // What the auxiliary functions do, bit by bit.

  /** b and q have the same bits where m has ones, or where it has zeros. */
  predicate AtOnes(b: bv32, q: bv32, m: bv32) { b & m == q & m }

  predicate AtZeros(b: bv32, q: bv32, m: bv32) { b & !m == q & !m }

  /** An even number of the four has a one at each position. */
  predicate Even(b: bv32, p: bv32, q: bv32, r: bv32) { b ^ p ^ q == r }

  /** b has the complement of q where p has ones or r has zeros, and the bits of q elsewhere. */
  predicate Flipped(b: bv32, p: bv32, q: bv32, r: bv32) { b & (p | !r) == !q & (p | !r) }

  predicate Kept(b: bv32, p: bv32, q: bv32, r: bv32) { b & !p & r == q & !p & r }

  lemma FOnes(p: bv32, q: bv32, r: bv32)
    ensures AtOnes(FBits(p, q, r), q, p)
  {
  }

  lemma FZeros(p: bv32, q: bv32, r: bv32)
    ensures AtZeros(FBits(p, q, r), r, p)
  {
  }

  lemma GOnes(p: bv32, q: bv32, r: bv32)
    ensures AtOnes(GBits(p, q, r), p, r)
  {
  }

  lemma GZeros(p: bv32, q: bv32, r: bv32)
    ensures AtZeros(GBits(p, q, r), q, r)
  {
  }

  lemma HEven(p: bv32, q: bv32, r: bv32)
    ensures Even(HBits(p, q, r), p, q, r)
  {
  }

  lemma IFlips(p: bv32, q: bv32, r: bv32)
    ensures Flipped(IBits(p, q, r), p, q, r)
  {
  }

  lemma IKeeps(p: bv32, q: bv32, r: bv32)
    ensures Kept(IBits(p, q, r), p, q, r)
  {
  }

  /** F has the bits of y where x has ones, and those of z elsewhere. */
  lemma FChooses(x: Word, y: Word, z: Word)
    ensures AtOnes(F(x, y, z) as bv32, y as bv32, x as bv32) && AtZeros(F(x, y, z) as bv32, z as bv32, x as bv32)
  {
    hide FBits, AtOnes, AtZeros, Even, Flipped, Kept;
    var (p, q, r) := (x as bv32, y as bv32, z as bv32);
    SameBits(FBits(p, q, r));
    FOnes(p, q, r);
    FZeros(p, q, r);
  }

  /** G has the bits of x where z has ones, and those of y elsewhere. */
  lemma GChooses(x: Word, y: Word, z: Word)
    ensures AtOnes(G(x, y, z) as bv32, x as bv32, z as bv32) && AtZeros(G(x, y, z) as bv32, y as bv32, z as bv32)
  {
    hide GBits, AtOnes, AtZeros, Even, Flipped, Kept;
    var (p, q, r) := (x as bv32, y as bv32, z as bv32);
    SameBits(GBits(p, q, r));
    GOnes(p, q, r);
    GZeros(p, q, r);
  }

  /** H is the parity of the three. */
  lemma HIsParity(x: Word, y: Word, z: Word)
    ensures Even(H(x, y, z) as bv32, x as bv32, y as bv32, z as bv32)
  {
    hide HBits, AtOnes, AtZeros, Even, Flipped, Kept;
    var (p, q, r) := (x as bv32, y as bv32, z as bv32);
    SameBits(HBits(p, q, r));
    HEven(p, q, r);
  }

  /** I has the complement of the bits of y where x has ones or z has zeros, and those of y elsewhere. */
  lemma IComplements(x: Word, y: Word, z: Word)
    ensures Flipped(I(x, y, z) as bv32, x as bv32, y as bv32, z as bv32)
    ensures Kept(I(x, y, z) as bv32, x as bv32, y as bv32, z as bv32)
  {
    hide IBits, AtOnes, AtZeros, Even, Flipped, Kept;
    var (p, q, r) := (x as bv32, y as bv32, z as bv32);
    SameBits(IBits(p, q, r));
    IFlips(p, q, r);
    IKeeps(p, q, r);
  }

  lemma SameBits(p: bv32)
    ensures (p as int) as bv32 == p
  {
  }

  // Section 3.4: the table T, one row per round, counted from 0.
  const ROW1: seq<Word> := [
    0xd76aa478, 0xe8c7b756, 0x242070db, 0xc1bdceee, 0xf57c0faf, 0x4787c62a, 0xa8304613, 0xfd469501,
    0x698098d8, 0x8b44f7af, 0xffff5bb1, 0x895cd7be, 0x6b901122, 0xfd987193, 0xa679438e, 0x49b40821]
  const ROW2: seq<Word> := [
    0xf61e2562, 0xc040b340, 0x265e5a51, 0xe9b6c7aa, 0xd62f105d, 0x02441453, 0xd8a1e681, 0xe7d3fbc8,
    0x21e1cde6, 0xc33707d6, 0xf4d50d87, 0x455a14ed, 0xa9e3e905, 0xfcefa3f8, 0x676f02d9, 0x8d2a4c8a]
  const ROW3: seq<Word> := [
    0xfffa3942, 0x8771f681, 0x6d9d6122, 0xfde5380c, 0xa4beea44, 0x4bdecfa9, 0xf6bb4b60, 0xbebfbc70,
    0x289b7ec6, 0xeaa127fa, 0xd4ef3085, 0x04881d05, 0xd9d4d039, 0xe6db99e5, 0x1fa27cf8, 0xc4ac5665]
  const ROW4: seq<Word> := [
    0xf4292244, 0x432aff97, 0xab9423a7, 0xfc93a039, 0x655b59c3, 0x8f0ccc92, 0xffeff47d, 0x85845dd1,
    0x6fa87e4f, 0xfe2ce6e0, 0xa3014314, 0x4e0811a1, 0xf7537e82, 0xbd3af235, 0x2ad7d2bb, 0xeb86d391]

  function T(i: nat): Word
    requires i < 64
  {
    if i < 16 then ROW1[i] else if i < 32 then ROW2[i - 16] else if i < 48 then ROW3[i - 32] else ROW4[i - 48]
  }

  /** A circular shift by s bit positions, one position at a time. */
  function RotateBits(x: bv32, s: bv6): bv32
    decreases s
  {
    if s == 0 then x else RotateBits((x << 1) | (x >> 31), s - 1)
  }

  /** X <<< s. */
  function Rotate(x: Word, s: bv6): Word { RotateBits(x as bv32, s) as int }

  function Aux(i: nat, x: Word, y: Word, z: Word): Word {
    if i < 16 then F(x, y, z) else if i < 32 then G(x, y, z) else if i < 48 then H(x, y, z) else I(x, y, z)
  }

  /** The message word that step i uses. */
  function Index(i: nat): (k: nat)
    ensures k < 16
  {
    if i < 16 then i else if i < 32 then (5 * i + 1) % 16 else if i < 48 then (3 * i + 5) % 16 else 7 * i % 16
  }

  /** The rotation amount of step i; each round cycles through four. */
  function Amount(i: nat): bv6 {
    match (i / 16, i % 4)
    case (0, 0) => 7
    case (0, 1) => 12
    case (0, 2) => 17
    case (0, _) => 22
    case (1, 0) => 5
    case (1, 1) => 9
    case (1, 2) => 14
    case (1, _) => 20
    case (2, 0) => 4
    case (2, 1) => 11
    case (2, 2) => 16
    case (2, _) => 23
    case (_, 0) => 6
    case (_, 1) => 10
    case (_, 2) => 15
    case (_, _) => 21
  }

  /** Step i of section 3.4, followed by renaming the registers A, B, C, D := D, A, B, C. */
  function Step(i: nat, r: Chain, x: seq<Word>): Chain
    requires i < 64 && |x| == 16
  {
    var sum := Plus(Plus(Plus(r.a, Aux(i, r.b, r.c, r.d)), x[Index(i)]), T(i));
    Chain(r.d, Plus(r.b, Rotate(sum, Amount(i))), r.b, r.c)
  }

  /** The first n of the 64 steps. */
  function Steps(n: nat, r: Chain, x: seq<Word>): Chain
    requires n <= 64 && |x| == 16
  {
    if n == 0 then r else Step(n - 1, Steps(n - 1, r, x), x)
  }

  /** A word from four octets, low-order octet first. */
  function WordOf(b: seq<byte>): Word
    requires |b| == 4
  {
    b[0] as int + 0x100 * b[1] as int + 0x1_0000 * b[2] as int + 0x100_0000 * b[3] as int
  }

  function Words(block: seq<byte>): (x: seq<Word>)
    requires |block| == 64
    ensures |x| == 16
  {
    seq(16, k requires 0 <= k < 16 => WordOf(block[4 * k..4 * k + 4]))
  }

  /** Section 3.4 for one 64-octet block. */
  function Compress(h: Chain, block: seq<byte>): Chain
    requires |block| == 64
  {
    var r := Steps(64, h, Words(block));
    Chain(Plus(h.a, r.a), Plus(h.b, r.b), Plus(h.c, r.c), Plus(h.d, r.d))
  }

  /** The registers after all the blocks of m. */
  function Fold(m: seq<byte>): Chain
    requires |m| % 64 == 0
  {
    if m == [] then INITIAL else Compress(Fold(m[..|m| - 64]), m[|m| - 64..])
  }

  /** The octets of words, low-order octet of each first. */
  function Octets(words: seq<Word>): (s: seq<byte>)
    ensures |s| == 4 * |words|
  {
    seq(4 * |words|, i requires 0 <= i < 4 * |words| => Octet(words[i / 4], i % 4))
  }

  function Octet(w: Word, k: nat): byte
    requires k < 4
  {
    match k
    case 0 => w % 0x100
    case 1 => w / 0x100 % 0x100
    case 2 => w / 0x1_0000 % 0x100
    case 3 => w / 0x100_0000
  }

  /** Section 3.1: from p octets on, the least number that brings the length to 56 modulo 64. */
  function PaddingFrom(length: nat, p: nat): (q: nat)
    ensures q >= p && (length + q) % 64 == 56
    decreases 56 + 64 - (length + p) % 64 - (if (length + p) % 64 <= 56 then 64 else 0)
  {
    if (length + p) % 64 == 56 then p else PaddingFrom(length, p + 1)
  }

  /** Section 3.1: a one bit and zero bits. */
  function Padding(length: nat): (p: seq<byte>)
    ensures (length + |p|) % 64 == 56
  {
    [0x80] + seq(PaddingFrom(length, 1) - 1, _ => 0)
  }

  /** Section 3.2: the length in bits as two words, low-order word first. */
  function LengthWords(length: nat): (words: seq<Word>)
    ensures |words| == 2
  {
    var bits := 8 * length;
    [bits % 0x1_0000_0000, bits / 0x1_0000_0000 % 0x1_0000_0000]
  }

  function Trailer(length: nat): (t: seq<byte>)
    ensures (length + |t|) % 64 == 0
  {
    EightMore(length + |Padding(length)|);
    Padding(length) + Octets(LengthWords(length))
  }

  lemma EightMore(n: nat)
    requires n % 64 == 56
    ensures (n + 8) % 64 == 0
  {
  }

  /** Sections 3.1 and 3.2: the message, padded, and its length. */
  function Pad(m: seq<byte>): (p: seq<byte>)
    ensures |p| % 64 == 0
  {
    m + Trailer(|m|)
  }

  /** Section 3.5. */
  function Digest(m: seq<byte>): seq<byte> {
    var h := Fold(Pad(m));
    Octets([h.a, h.b, h.c, h.d])
  }
}
