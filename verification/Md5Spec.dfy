/** MD5 as sections 3.1 to 3.5 of RFC 1321 define it: one message in, one digest out. */
module Md5Spec {
  import opened Integers

  /** The 32-bit words of the computation; their sum is the sum modulo 2^32. */
  type Word = bv32

  /** The four registers A, B, C and D. */
  datatype Regs = Regs(a: Word, b: Word, c: Word, d: Word)

  const IV: Regs := Regs(0x67452301, 0xefcdab89, 0x98badcfe, 0x10325476)

  // ---- section 3.4: the auxiliary functions, the sine table and the 64 operations ----

  function F(x: Word, y: Word, z: Word): Word {
    (x & y) | (!x & z)
  }

  function G(x: Word, y: Word, z: Word): Word {
    (x & z) | (y & !z)
  }

  function H(x: Word, y: Word, z: Word): Word {
    x ^ y ^ z
  }

  function I(x: Word, y: Word, z: Word): Word {
    y ^ (x | !z)
  }

  function RotateLeft(x: Word, s: bv6): Word
    requires s <= 32
  {
    (x << s) | (x >> (32 - s))
  }

  function Add(x: Word, y: Word): Word {
    x + y
  }

  function Sine1(j: nat): Word {
    match j
    case 0 => 0xd76aa478
    case 1 => 0xe8c7b756
    case 2 => 0x242070db
    case 3 => 0xc1bdceee
    case 4 => 0xf57c0faf
    case 5 => 0x4787c62a
    case 6 => 0xa8304613
    case 7 => 0xfd469501
    case 8 => 0x698098d8
    case 9 => 0x8b44f7af
    case 10 => 0xffff5bb1
    case 11 => 0x895cd7be
    case 12 => 0x6b901122
    case 13 => 0xfd987193
    case 14 => 0xa679438e
    case _ => 0x49b40821
  }

  function Sine2(j: nat): Word {
    match j
    case 0 => 0xf61e2562
    case 1 => 0xc040b340
    case 2 => 0x265e5a51
    case 3 => 0xe9b6c7aa
    case 4 => 0xd62f105d
    case 5 => 0x02441453
    case 6 => 0xd8a1e681
    case 7 => 0xe7d3fbc8
    case 8 => 0x21e1cde6
    case 9 => 0xc33707d6
    case 10 => 0xf4d50d87
    case 11 => 0x455a14ed
    case 12 => 0xa9e3e905
    case 13 => 0xfcefa3f8
    case 14 => 0x676f02d9
    case _ => 0x8d2a4c8a
  }

  function Sine3(j: nat): Word {
    match j
    case 0 => 0xfffa3942
    case 1 => 0x8771f681
    case 2 => 0x6d9d6122
    case 3 => 0xfde5380c
    case 4 => 0xa4beea44
    case 5 => 0x4bdecfa9
    case 6 => 0xf6bb4b60
    case 7 => 0xbebfbc70
    case 8 => 0x289b7ec6
    case 9 => 0xeaa127fa
    case 10 => 0xd4ef3085
    case 11 => 0x04881d05
    case 12 => 0xd9d4d039
    case 13 => 0xe6db99e5
    case 14 => 0x1fa27cf8
    case _ => 0xc4ac5665
  }

  function Sine4(j: nat): Word {
    match j
    case 0 => 0xf4292244
    case 1 => 0x432aff97
    case 2 => 0xab9423a7
    case 3 => 0xfc93a039
    case 4 => 0x655b59c3
    case 5 => 0x8f0ccc92
    case 6 => 0xffeff47d
    case 7 => 0x85845dd1
    case 8 => 0x6fa87e4f
    case 9 => 0xfe2ce6e0
    case 10 => 0xa3014314
    case 11 => 0x4e0811a1
    case 12 => 0xf7537e82
    case 13 => 0xbd3af235
    case 14 => 0x2ad7d2bb
    case _ => 0xeb86d391
  }

  /** The integer part of 4294967296 times abs(sin(i + 1)). */
  function Sine(i: nat): Word
    requires i < 64
  {
    if i < 16 then Sine1(i) else if i < 32 then Sine2(i - 16) else if i < 48 then Sine3(i - 32) else Sine4(i - 48)
  }

  /** Which word of the block operation i adds. */
  function Index(i: nat): (k: nat)
    requires i < 64
    ensures k < 16
  {
    if i < 16 then i
    else if i < 32 then (5 * i + 1) % 16
    else if i < 48 then (3 * i + 5) % 16
    else (7 * i) % 16
  }

  function Shift(i: nat): (s: bv6)
    requires i < 64
    ensures s <= 32
  {
    var (p: bv6, q: bv6, r: bv6, t: bv6) := if i < 16 then (7, 12, 17, 22) else if i < 32 then (5, 9, 14, 20)
                        else if i < 48 then (4, 11, 16, 23) else (6, 10, 15, 21);
    if i % 4 == 0 then p else if i % 4 == 1 then q else if i % 4 == 2 then r else t
  }

  function Aux(i: nat, x: Word, y: Word, z: Word): Word {
    if i < 16 then F(x, y, z) else if i < 32 then G(x, y, z) else if i < 48 then H(x, y, z) else I(x, y, z)
  }

  /** The schedule of round 1, written out. */
  lemma Schedule1()
    ensures Index(0) == 0 && Shift(0) == 7 && Sine(0) == 0xd76aa478
    ensures Index(1) == 1 && Shift(1) == 12 && Sine(1) == 0xe8c7b756
    ensures Index(2) == 2 && Shift(2) == 17 && Sine(2) == 0x242070db
    ensures Index(3) == 3 && Shift(3) == 22 && Sine(3) == 0xc1bdceee
    ensures Index(4) == 4 && Shift(4) == 7 && Sine(4) == 0xf57c0faf
    ensures Index(5) == 5 && Shift(5) == 12 && Sine(5) == 0x4787c62a
    ensures Index(6) == 6 && Shift(6) == 17 && Sine(6) == 0xa8304613
    ensures Index(7) == 7 && Shift(7) == 22 && Sine(7) == 0xfd469501
    ensures Index(8) == 8 && Shift(8) == 7 && Sine(8) == 0x698098d8
    ensures Index(9) == 9 && Shift(9) == 12 && Sine(9) == 0x8b44f7af
    ensures Index(10) == 10 && Shift(10) == 17 && Sine(10) == 0xffff5bb1
    ensures Index(11) == 11 && Shift(11) == 22 && Sine(11) == 0x895cd7be
    ensures Index(12) == 12 && Shift(12) == 7 && Sine(12) == 0x6b901122
    ensures Index(13) == 13 && Shift(13) == 12 && Sine(13) == 0xfd987193
    ensures Index(14) == 14 && Shift(14) == 17 && Sine(14) == 0xa679438e
    ensures Index(15) == 15 && Shift(15) == 22 && Sine(15) == 0x49b40821
  {
  }

  /** The schedule of round 2, written out. */
  lemma Schedule2()
    ensures Index(16) == 1 && Shift(16) == 5 && Sine(16) == 0xf61e2562
    ensures Index(17) == 6 && Shift(17) == 9 && Sine(17) == 0xc040b340
    ensures Index(18) == 11 && Shift(18) == 14 && Sine(18) == 0x265e5a51
    ensures Index(19) == 0 && Shift(19) == 20 && Sine(19) == 0xe9b6c7aa
    ensures Index(20) == 5 && Shift(20) == 5 && Sine(20) == 0xd62f105d
    ensures Index(21) == 10 && Shift(21) == 9 && Sine(21) == 0x02441453
    ensures Index(22) == 15 && Shift(22) == 14 && Sine(22) == 0xd8a1e681
    ensures Index(23) == 4 && Shift(23) == 20 && Sine(23) == 0xe7d3fbc8
    ensures Index(24) == 9 && Shift(24) == 5 && Sine(24) == 0x21e1cde6
    ensures Index(25) == 14 && Shift(25) == 9 && Sine(25) == 0xc33707d6
    ensures Index(26) == 3 && Shift(26) == 14 && Sine(26) == 0xf4d50d87
    ensures Index(27) == 8 && Shift(27) == 20 && Sine(27) == 0x455a14ed
    ensures Index(28) == 13 && Shift(28) == 5 && Sine(28) == 0xa9e3e905
    ensures Index(29) == 2 && Shift(29) == 9 && Sine(29) == 0xfcefa3f8
    ensures Index(30) == 7 && Shift(30) == 14 && Sine(30) == 0x676f02d9
    ensures Index(31) == 12 && Shift(31) == 20 && Sine(31) == 0x8d2a4c8a
  {
  }

  /** The schedule of round 3, written out. */
  lemma Schedule3()
    ensures Index(32) == 5 && Shift(32) == 4 && Sine(32) == 0xfffa3942
    ensures Index(33) == 8 && Shift(33) == 11 && Sine(33) == 0x8771f681
    ensures Index(34) == 11 && Shift(34) == 16 && Sine(34) == 0x6d9d6122
    ensures Index(35) == 14 && Shift(35) == 23 && Sine(35) == 0xfde5380c
    ensures Index(36) == 1 && Shift(36) == 4 && Sine(36) == 0xa4beea44
    ensures Index(37) == 4 && Shift(37) == 11 && Sine(37) == 0x4bdecfa9
    ensures Index(38) == 7 && Shift(38) == 16 && Sine(38) == 0xf6bb4b60
    ensures Index(39) == 10 && Shift(39) == 23 && Sine(39) == 0xbebfbc70
    ensures Index(40) == 13 && Shift(40) == 4 && Sine(40) == 0x289b7ec6
    ensures Index(41) == 0 && Shift(41) == 11 && Sine(41) == 0xeaa127fa
    ensures Index(42) == 3 && Shift(42) == 16 && Sine(42) == 0xd4ef3085
    ensures Index(43) == 6 && Shift(43) == 23 && Sine(43) == 0x04881d05
    ensures Index(44) == 9 && Shift(44) == 4 && Sine(44) == 0xd9d4d039
    ensures Index(45) == 12 && Shift(45) == 11 && Sine(45) == 0xe6db99e5
    ensures Index(46) == 15 && Shift(46) == 16 && Sine(46) == 0x1fa27cf8
    ensures Index(47) == 2 && Shift(47) == 23 && Sine(47) == 0xc4ac5665
  {
  }

  /** The schedule of round 4, written out. */
  lemma Schedule4()
    ensures Index(48) == 0 && Shift(48) == 6 && Sine(48) == 0xf4292244
    ensures Index(49) == 7 && Shift(49) == 10 && Sine(49) == 0x432aff97
    ensures Index(50) == 14 && Shift(50) == 15 && Sine(50) == 0xab9423a7
    ensures Index(51) == 5 && Shift(51) == 21 && Sine(51) == 0xfc93a039
    ensures Index(52) == 12 && Shift(52) == 6 && Sine(52) == 0x655b59c3
    ensures Index(53) == 3 && Shift(53) == 10 && Sine(53) == 0x8f0ccc92
    ensures Index(54) == 10 && Shift(54) == 15 && Sine(54) == 0xffeff47d
    ensures Index(55) == 1 && Shift(55) == 21 && Sine(55) == 0x85845dd1
    ensures Index(56) == 8 && Shift(56) == 6 && Sine(56) == 0x6fa87e4f
    ensures Index(57) == 15 && Shift(57) == 10 && Sine(57) == 0xfe2ce6e0
    ensures Index(58) == 6 && Shift(58) == 15 && Sine(58) == 0xa3014314
    ensures Index(59) == 13 && Shift(59) == 21 && Sine(59) == 0x4e0811a1
    ensures Index(60) == 4 && Shift(60) == 6 && Sine(60) == 0xf7537e82
    ensures Index(61) == 11 && Shift(61) == 10 && Sine(61) == 0xbd3af235
    ensures Index(62) == 2 && Shift(62) == 15 && Sine(62) == 0x2ad7d2bb
    ensures Index(63) == 9 && Shift(63) == 21 && Sine(63) == 0xeb86d391
  {
  }

  type Words = x: seq<Word> | |x| == 16 witness seq(16, _ => 0)
  type Block = b: seq<Byte> | |b| == 64 witness seq(64, _ => 0)

  /** b + ((a + f(b,c,d) + x + t) <<< s). */
  function Mix(a: Word, b: Word, f: Word, x: Word, s: bv6, t: Word): Word
    requires s <= 32
  {
    Add(b, RotateLeft(a + f + x + t, s))
  }

  /** Operation i, with the registers renamed so that the one just computed is always B. */
  function Operation(r: Regs, x: Words, i: nat): Regs
    requires i < 64
  {
    Regs(r.d, Mix(r.a, r.b, Aux(i, r.b, r.c, r.d), x[Index(i)], Shift(i), Sine(i)), r.b, r.c)
  }

  /** Four operations in a row bring the registers back to their own names. */
  function Four(r: Regs, x: Words, i: nat): Regs
    requires i <= 60
  {
    Operation(Operation(Operation(Operation(r, x, i), x, i + 1), x, i + 2), x, i + 3)
  }

  function Round(r: Regs, x: Words, i: nat): Regs
    requires i <= 48
  {
    Four(Four(Four(Four(r, x, i), x, i + 4), x, i + 8), x, i + 12)
  }

  function Operations(r: Regs, x: Words): Regs {
    hide Round;
    var r1 := Round(r, x, 0);
    var r2 := Round(r1, x, 16);
    var r3 := Round(r2, x, 32);
    Round(r3, x, 48)
  }

  function Bits(x: U32): Word {
    x as bv32
  }

  function Value(w: Word): U32 {
    w as int
  }

  /** Four bytes make a word, low-order byte first. */
  function WordAt(b: seq<Byte>, j: nat): Word
    requires j + 4 <= |b|
  {
    var (b0: int, b1: int, b2: int, b3: int) := (b[j], b[j + 1], b[j + 2], b[j + 3]);
    Bits(b0 + 0x100 * b1 + 0x1_0000 * b2 + 0x100_0000 * b3)
  }

  function Decode(b: Block): Words {
    seq(16, i requires 0 <= i < 16 => WordAt(b, 4 * i))
  }

  function Compress(r: Regs, b: Block): Regs {
    var s := Operations(r, Decode(b));
    Regs(Add(r.a, s.a), Add(r.b, s.b), Add(r.c, s.c), Add(r.d, s.d))
  }

  /** The registers after the first n blocks of m. */
  function Blocks(m: seq<Byte>, n: nat): Regs
    requires 64 * n <= |m|
  {
    hide Compress;
    if n == 0 then IV else Compress(Blocks(m, n - 1), m[64 * (n - 1)..64 * n])
  }

  // ---- sections 3.1, 3.2, 3.3 and 3.5 ----

  function Bytes(w: U32): (b: seq<Byte>)
    ensures |b| == 4
  {
    [w % 0x100, w / 0x100 % 0x100, w / 0x1_0000 % 0x100, w / 0x100_0000]
  }

  /** A single 1 bit, then as many 0 bits as bring the length to 56 bytes modulo 64. */
  function Padding(n: nat): (p: seq<Byte>)
    ensures (n + |p|) % 64 == 56 && 1 <= |p| <= 64
  {
    [0x80] + seq((55 - n) % 64, _ => 0)
  }

  /** The length of n bytes in bits, modulo 2^64. */
  function BitCount(n: nat): (bits: int)
    ensures 0 <= bits < TWO64
  {
    8 * n % TWO64
  }

  /** The length in bits, low-order word first. */
  function Length(n: nat): (l: seq<Byte>)
    ensures |l| == 8
  {
    var bits := BitCount(n);
    Bytes(bits % TWO32) + Bytes(bits / TWO32)
  }

  function Padded(m: seq<Byte>): (p: seq<Byte>)
    ensures |p| % 64 == 0
  {
    hide Padding, Length;
    m + Padding(|m|) + Length(|m|)
  }

  function Md5(m: seq<Byte>): (digest: seq<Byte>)
    ensures |digest| == 16
  {
    var r := Blocks(Padded(m), |Padded(m)| / 64);
    Bytes(Value(r.a)) + Bytes(Value(r.b)) + Bytes(Value(r.c)) + Bytes(Value(r.d))
  }
}
