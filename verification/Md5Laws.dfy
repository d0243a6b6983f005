/** What the functions of MD5 do to bits and bytes, and the digest of "abc" as section A.5 of RFC 1321
    gives it. */
module Md5Laws {
  import opened Integers
  import opened Md5Spec

  // ---- section 3.4, bit by bit ----

  /** F takes the bits of y where x is set, and those of z elsewhere. */
  lemma Selects(x: Word, y: Word, z: Word)
    ensures F(x, y, z) & x == y & x && F(x, y, z) & !x == z & !x
  {
  }

  /** G is F with z as the selector. */
  lemma SelectsBy(x: Word, y: Word, z: Word)
    ensures G(x, y, z) == F(z, x, y)
  {
  }

  /** H tells an odd number of set bits from an even one: the order does not matter, and a bit that is there twice does
      not count. */
  lemma Parity(x: Word, y: Word, z: Word)
    ensures H(x, y, z) == H(y, x, z) == H(x, z, y) && H(x, y, y) == x
  {
  }

  /** I is the opposite of y where x is set, and tells where y and z agree elsewhere. */
  lemma Agrees(x: Word, y: Word, z: Word)
    ensures I(x, y, z) & x == !y & x && I(x, y, z) & !x == !(y ^ z) & !x
  {
  }

  /** Rotating moves what stays within the word up, and what leaves it on top to the bottom. */
  lemma Rotates(x: Word, s: bv6)
    requires s < 32
    ensures RotateLeft(x, s) >> s == (x << s) >> s
    ensures RotateLeft(x, s) << (32 - s) == (x >> (32 - s)) << (32 - s)
  {
  }

  lemma ValueBits(w: Word)
    ensures Bits(Value(w)) == w
  {
  }

  /** A word is read from the four bytes it is written as, wherever they stand. */
  lemma WordReads(w: Word, front: seq<Byte>, back: seq<Byte>)
    ensures WordAt(front + Bytes(Value(w)) + back, |front|) == w
  {
    var v := Value(w);
    hide Value;
    var b := front + Bytes(v) + back;
    assert b[|front|..|front| + 4] == Bytes(v);
    WordFrom(b, |front|, v);
    ValueBits(w);
  }

  lemma WordFrom(b: seq<Byte>, j: nat, v: U32)
    requires j + 4 <= |b| && b[j..j + 4] == Bytes(v)
    ensures WordAt(b, j) == Bits(v)
  {
    var q := b[j..j + 4];
    assert q[0] == b[j] && q[1] == b[j + 1] && q[2] == b[j + 2] && q[3] == b[j + 3];
    hide Bits;
    Recomposed(v);
  }

  lemma Recomposed(v: U32)
    ensures v % 0x100 + 0x100 * (v / 0x100 % 0x100) + 0x1_0000 * (v / 0x1_0000 % 0x100)
            + 0x100_0000 * (v / 0x100_0000) == v
  {
  }

  // ---- sections 3.1 and 3.2 ----

  /** The number a string of bytes stands for, low-order byte first. */
  function Number(b: seq<Byte>): nat {
    if b == [] then 0 else b[0] + 0x100 * Number(b[1..])
  }

  /** The padding is a byte 0x80 and zeros up to a length of 56 modulo 64; the eight bytes behind it are the length in
      bits. */
  lemma PaddingAndLength(n: nat)
    ensures Padding(n)[0] == 0x80 && forall i :: 1 <= i < |Padding(n)| ==> Padding(n)[i] == 0
    ensures Number(Length(n)) == 8 * n % TWO64
  {
    var bits := BitCount(n);
    var lo, hi := bits % TWO32, bits / TWO32;
    NumberOf(hi, []);
    NumberOf(lo, Bytes(hi));
    hide Bytes;
    assert Bytes(hi) + [] == Bytes(hi) && Number([]) == 0;
    assert Length(n) == Bytes(lo) + Bytes(hi);
  }

  lemma NumberOf(v: U32, back: seq<Byte>)
    ensures Number(Bytes(v) + back) == v + TWO32 * Number(back)
  {
    var q := Bytes(v);
    assert q + back == [q[0]] + ([q[1]] + ([q[2]] + ([q[3]] + back)));
    NumberCons(q[3], back);
    NumberCons(q[2], [q[3]] + back);
    NumberCons(q[1], [q[2]] + ([q[3]] + back));
    NumberCons(q[0], [q[1]] + ([q[2]] + ([q[3]] + back)));
    hide Number;
    Recomposed(v);
  }

  lemma NumberCons(x: Byte, rest: seq<Byte>)
    ensures Number([x] + rest) == x + 0x100 * Number(rest)
  {
    assert ([x] + rest)[1..] == rest;
  }

  // ---- section A.5: the digest of "abc" ----

  /** The words of the one block it is padded to. */
  const X: Words := [0x80636261, 0, 0, 0, 0, 0, 0, 0, 0, 0, 0, 0, 0, 0, 24, 0]

  const ABC: seq<Byte> := [0x61, 0x62, 0x63]

  predicate Turns(i: nat, a: Word, b: Word, c: Word, d: Word, b': Word)
    requires i < 64
  {
    Operation(Regs(a, b, c, d), X, i) == Regs(d, b', b, c)
  }

  lemma TurnsFirst()
    ensures Turns(0, 0x67452301, 0xefcdab89, 0x98badcfe, 0x10325476, 0xd6d117b4)
    ensures Turns(1, 0x10325476, 0xd6d117b4, 0xefcdab89, 0x98badcfe, 0x344a8432)
  {
    Schedule1();
    hide Index, Shift, Sine;
  }

  lemma Turns1()
    ensures Turns(2, 0x98badcfe, 0x344a8432, 0xd6d117b4, 0xefcdab89, 0x2f6fbd72)
    ensures Turns(3, 0xefcdab89, 0x2f6fbd72, 0x344a8432, 0xd6d117b4, 0x7ad956f2)
  {
    Schedule1();
    hide Index, Shift, Sine;
  }

  lemma Turns2()
    ensures Turns(4, 0xd6d117b4, 0x7ad956f2, 0x2f6fbd72, 0x344a8432, 0xc73741ef)
    ensures Turns(5, 0x344a8432, 0xc73741ef, 0x7ad956f2, 0x2f6fbd72, 0x8bac3051)
    ensures Turns(6, 0x2f6fbd72, 0x8bac3051, 0xc73741ef, 0x7ad956f2, 0x207dc67b)
    ensures Turns(7, 0x7ad956f2, 0x207dc67b, 0x8bac3051, 0xc73741ef, 0x928d99f6)
  {
    Schedule1();
    hide Index, Shift, Sine;
  }

  lemma Turns3()
    ensures Turns(8, 0xc73741ef, 0x928d99f6, 0x207dc67b, 0x8bac3051, 0x854b3712)
    ensures Turns(9, 0x8bac3051, 0x854b3712, 0x928d99f6, 0x207dc67b, 0x74e2f284)
    ensures Turns(10, 0x207dc67b, 0x74e2f284, 0x854b3712, 0x928d99f6, 0x3020401c)
    ensures Turns(11, 0x928d99f6, 0x3020401c, 0x74e2f284, 0x854b3712, 0x5ed49596)
  {
    Schedule1();
    hide Index, Shift, Sine;
  }

  lemma Turns4()
    ensures Turns(12, 0x854b3712, 0x5ed49596, 0x3020401c, 0x74e2f284, 0xdda9b9a6)
    ensures Turns(13, 0x74e2f284, 0xdda9b9a6, 0x5ed49596, 0x3020401c, 0xa1051895)
    ensures Turns(14, 0x3020401c, 0xa1051895, 0xdda9b9a6, 0x5ed49596, 0xe396856b)
    ensures Turns(15, 0x5ed49596, 0xe396856b, 0xa1051895, 0xdda9b9a6, 0x72aff2e0)
  {
    Schedule1();
    hide Index, Shift, Sine;
  }

  lemma Round1()
    ensures Round(Regs(0x67452301, 0xefcdab89, 0x98badcfe, 0x10325476), X, 0) ==
            Regs(0xdda9b9a6, 0x72aff2e0, 0xe396856b, 0xa1051895)
  {
    TurnsFirst();
    Turns1();
    Turns2();
    Turns3();
    Turns4();
    hide Operation;
  }

  lemma Turns5()
    ensures Turns(16, 0xdda9b9a6, 0x72aff2e0, 0xe396856b, 0xa1051895, 0x3e9e9126)
    ensures Turns(17, 0xa1051895, 0x3e9e9126, 0x72aff2e0, 0xe396856b, 0x4a1d804e)
    ensures Turns(18, 0xe396856b, 0x4a1d804e, 0x3e9e9126, 0x72aff2e0, 0xe25e1652)
    ensures Turns(19, 0x72aff2e0, 0xe25e1652, 0x4a1d804e, 0x3e9e9126, 0xb5b204e4)
  {
    Schedule2();
    hide Index, Shift, Sine;
  }

  lemma Turns6()
    ensures Turns(20, 0x3e9e9126, 0xb5b204e4, 0xe25e1652, 0x4a1d804e, 0x59a8ffda)
    ensures Turns(21, 0x4a1d804e, 0x59a8ffda, 0xb5b204e4, 0xe25e1652, 0x6d002f1e)
    ensures Turns(22, 0xe25e1652, 0x6d002f1e, 0x59a8ffda, 0xb5b204e4, 0xabfc7920)
    ensures Turns(23, 0xb5b204e4, 0xabfc7920, 0x6d002f1e, 0x59a8ffda, 0x47092c07)
  {
    Schedule2();
    hide Index, Shift, Sine;
  }

  lemma Turns7()
    ensures Turns(24, 0x59a8ffda, 0x47092c07, 0xabfc7920, 0x6d002f1e, 0xb7f268cf)
    ensures Turns(25, 0x6d002f1e, 0xb7f268cf, 0x47092c07, 0xabfc7920, 0x09388eff)
    ensures Turns(26, 0xabfc7920, 0x09388eff, 0xb7f268cf, 0x47092c07, 0xfe1623b1)
    ensures Turns(27, 0x47092c07, 0xfe1623b1, 0x09388eff, 0xb7f268cf, 0x786acb8f)
  {
    Schedule2();
    hide Index, Shift, Sine;
  }

  lemma Turns8()
    ensures Turns(28, 0xb7f268cf, 0x786acb8f, 0xfe1623b1, 0x09388eff, 0x790a77fb)
    ensures Turns(29, 0x09388eff, 0x790a77fb, 0x786acb8f, 0xfe1623b1, 0x9f47e4f8)
    ensures Turns(30, 0xfe1623b1, 0x9f47e4f8, 0x790a77fb, 0x786acb8f, 0xa62884aa)
    ensures Turns(31, 0x786acb8f, 0xa62884aa, 0x9f47e4f8, 0x790a77fb, 0x726342d3)
  {
    Schedule2();
    hide Index, Shift, Sine;
  }

  lemma Round2()
    ensures Round(Regs(0xdda9b9a6, 0x72aff2e0, 0xe396856b, 0xa1051895), X, 16) ==
            Regs(0x790a77fb, 0x726342d3, 0xa62884aa, 0x9f47e4f8)
  {
    Turns5();
    Turns6();
    Turns7();
    Turns8();
    hide Operation;
  }

  lemma Turns9()
    ensures Turns(32, 0x790a77fb, 0x726342d3, 0xa62884aa, 0x9f47e4f8, 0xb3707ebf)
    ensures Turns(33, 0x9f47e4f8, 0xb3707ebf, 0x726342d3, 0xa62884aa, 0x60127b2e)
    ensures Turns(34, 0xa62884aa, 0x60127b2e, 0xb3707ebf, 0x726342d3, 0x8d212ff5)
    ensures Turns(35, 0x726342d3, 0x8d212ff5, 0x60127b2e, 0xb3707ebf, 0x3b0875c7)
  {
    Schedule3();
    hide Index, Shift, Sine;
  }

  lemma Turns10()
    ensures Turns(36, 0xb3707ebf, 0x3b0875c7, 0x8d212ff5, 0x60127b2e, 0x21b117b9)
    ensures Turns(37, 0x60127b2e, 0x21b117b9, 0x3b0875c7, 0x8d212ff5, 0x6e7429d5)
    ensures Turns(38, 0x8d212ff5, 0x6e7429d5, 0x21b117b9, 0x3b0875c7, 0x3575227e)
    ensures Turns(39, 0x3b0875c7, 0x3575227e, 0x6e7429d5, 0x21b117b9, 0x5a2f5ea5)
  {
    Schedule3();
    hide Index, Shift, Sine;
  }

  lemma Turns11()
    ensures Turns(40, 0x21b117b9, 0x5a2f5ea5, 0x3575227e, 0x6e7429d5, 0x11de1779)
    ensures Turns(41, 0x6e7429d5, 0x11de1779, 0x5a2f5ea5, 0x3575227e, 0xfadcaa38)
    ensures Turns(42, 0x3575227e, 0xfadcaa38, 0x11de1779, 0x5a2f5ea5, 0x31c465ca)
    ensures Turns(43, 0x5a2f5ea5, 0x31c465ca, 0xfadcaa38, 0x11de1779, 0x4c6124f4)
  {
    Schedule3();
    hide Index, Shift, Sine;
  }

  lemma Turns12()
    ensures Turns(44, 0x11de1779, 0x4c6124f4, 0x31c465ca, 0xfadcaa38, 0x7f2e507b)
    ensures Turns(45, 0xfadcaa38, 0x7f2e507b, 0x4c6124f4, 0x31c465ca, 0x99d9679d)
    ensures Turns(46, 0x31c465ca, 0x99d9679d, 0x7f2e507b, 0x4c6124f4, 0x8fae6399)
    ensures Turns(47, 0x4c6124f4, 0x8fae6399, 0x99d9679d, 0x7f2e507b, 0x7beb9700)
  {
    Schedule3();
    hide Index, Shift, Sine;
  }

  lemma Round3()
    ensures Round(Regs(0x790a77fb, 0x726342d3, 0xa62884aa, 0x9f47e4f8), X, 32) ==
            Regs(0x7f2e507b, 0x7beb9700, 0x8fae6399, 0x99d9679d)
  {
    Turns9();
    Turns10();
    Turns11();
    Turns12();
    hide Operation;
  }

  lemma Turns13()
    ensures Turns(48, 0x7f2e507b, 0x7beb9700, 0x8fae6399, 0x99d9679d, 0x7b201df8)
    ensures Turns(49, 0x99d9679d, 0x7b201df8, 0x7beb9700, 0x8fae6399, 0xf4e8e96e)
    ensures Turns(50, 0x8fae6399, 0xf4e8e96e, 0x7b201df8, 0x7beb9700, 0xb298cefd)
    ensures Turns(51, 0x7beb9700, 0xb298cefd, 0xf4e8e96e, 0x7b201df8, 0x8bf025c4)
  {
    Schedule4();
    hide Index, Shift, Sine;
  }

  lemma Turns14()
    ensures Turns(52, 0x7b201df8, 0x8bf025c4, 0xb298cefd, 0xf4e8e96e, 0x06cc5e8a)
    ensures Turns(53, 0xf4e8e96e, 0x06cc5e8a, 0x8bf025c4, 0xb298cefd, 0x5b0d97aa)
    ensures Turns(54, 0xb298cefd, 0x5b0d97aa, 0x06cc5e8a, 0x8bf025c4, 0x7d632dd0)
    ensures Turns(55, 0x8bf025c4, 0x7d632dd0, 0x5b0d97aa, 0x06cc5e8a, 0x3bfa2c27)
  {
    Schedule4();
    hide Index, Shift, Sine;
  }

  lemma Turns15()
    ensures Turns(56, 0x06cc5e8a, 0x3bfa2c27, 0x7d632dd0, 0x5b0d97aa, 0x7f81cc35)
    ensures Turns(57, 0x5b0d97aa, 0x7f81cc35, 0x3bfa2c27, 0x7d632dd0, 0x094454ab)
    ensures Turns(58, 0x7d632dd0, 0x094454ab, 0x7f81cc35, 0x3bfa2c27, 0x4f9dbe3f)
    ensures Turns(59, 0x3bfa2c27, 0x4f9dbe3f, 0x094454ab, 0x7f81cc35, 0x7327d604)
  {
    Schedule4();
    hide Index, Shift, Sine;
  }

  lemma Turns16()
    ensures Turns(60, 0x7f81cc35, 0x7327d604, 0x4f9dbe3f, 0x094454ab, 0x310ade8f)
    ensures Turns(61, 0x094454ab, 0x310ade8f, 0x7327d604, 0x4f9dbe3f, 0x624d8cb2)
    ensures Turns(62, 0x4f9dbe3f, 0x624d8cb2, 0x310ade8f, 0x7327d604, 0xe484b9d8)
    ensures Turns(63, 0x7327d604, 0xe484b9d8, 0x624d8cb2, 0x310ade8f, 0xc08226b3)
  {
    Schedule4();
    hide Index, Shift, Sine;
  }

  lemma Round4()
    ensures Round(Regs(0x7f2e507b, 0x7beb9700, 0x8fae6399, 0x99d9679d), X, 48) ==
            Regs(0x310ade8f, 0xc08226b3, 0xe484b9d8, 0x624d8cb2)
  {
    Turns13();
    Turns14();
    Turns15();
    Turns16();
    hide Operation;
  }

  predicate AbcPadded(p: seq<Byte>) {
    p == ABC + [0x80] + seq(52, _ => 0) + [24, 0, 0, 0, 0, 0, 0, 0]
  }

  lemma AbcBlock(p: Block)
    requires AbcPadded(p)
    ensures Decode(p) == X
  {
    assert Bits(0x80636261) == 0x80636261 && Bits(24) == 24 && Bits(0) == 0;
    hide Bits;
  }

  lemma PaddedAbc(m: seq<Byte>)
    requires m == ABC
    ensures AbcPadded(Padded(m))
  {
    assert Padding(|m|) == [0x80] + seq(52, _ => 0);
    assert Length(|m|) == [24, 0, 0, 0, 0, 0, 0, 0];
  }

  lemma AbcRegs(p: Block)
    requires AbcPadded(p)
    ensures Compress(IV, p) == Regs(0x98500190, 0xb04fd23c, 0x7d3f96d6, 0x727fe128)
  {
    AbcBlock(p);
    Round1();
    Round2();
    Round3();
    Round4();
    hide Round, Decode;
  }

  lemma OneBlock(p: Block)
    ensures Blocks(p, 1) == Compress(IV, p)
  {
    hide Compress;
    assert Blocks(p, 0) == IV && p[0..64] == p;
  }

  lemma DigestOf(m: seq<Byte>, r: Regs)
    requires r == Blocks(Padded(m), |Padded(m)| / 64)
    ensures Md5(m) == Bytes(Value(r.a)) + Bytes(Value(r.b)) + Bytes(Value(r.c)) + Bytes(Value(r.d))
  {
    hide Blocks, Padded, Bytes, Value;
  }

  lemma AbcBytes()
    ensures Bytes(Value(0x98500190)) == [0x90, 0x01, 0x50, 0x98] && Bytes(Value(0xb04fd23c)) == [0x3c, 0xd2, 0x4f, 0xb0]
    ensures Bytes(Value(0x7d3f96d6)) == [0xd6, 0x96, 0x3f, 0x7d] && Bytes(Value(0x727fe128)) == [0x28, 0xe1, 0x7f, 0x72]
  {
    assert Value(0x98500190) == 0x98500190 && Value(0xb04fd23c) == 0xb04fd23c;
    assert Value(0x7d3f96d6) == 0x7d3f96d6 && Value(0x727fe128) == 0x727fe128;
    hide Value;
  }

  /** MD5 ("abc") = 900150983cd24fb0d6963f7d28e17f72. */
  lemma AbcDigest(m: seq<Byte>)
    requires m == ABC
    ensures Md5(m) == [0x90, 0x01, 0x50, 0x98, 0x3c, 0xd2, 0x4f, 0xb0, 0xd6, 0x96, 0x3f, 0x7d, 0x28, 0xe1, 0x7f, 0x72]
  {
    hide Padded, AbcPadded, Blocks, Compress, Md5, Bytes, Value;
    PaddedAbc(m);
    AbcRegs(Padded(m));
    OneBlock(Padded(m));
    DigestOf(m, Blocks(Padded(m), 1));
    AbcBytes();
  }
}
