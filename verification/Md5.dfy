/** The incremental hash of md5.c: a 64-byte buffer, a bit count in two 32-bit words, four state words. */
module Md5 {
  import opened Integers
  import opened Md5Spec

  function FF(a: Word, b: Word, c: Word, d: Word, x: Word, s: bv6, ac: Word): Word
    requires s <= 32
  { Mix(a, b, F(b, c, d), x, s, ac) }

  function GG(a: Word, b: Word, c: Word, d: Word, x: Word, s: bv6, ac: Word): Word
    requires s <= 32
  { Mix(a, b, G(b, c, d), x, s, ac) }

  function HH(a: Word, b: Word, c: Word, d: Word, x: Word, s: bv6, ac: Word): Word
    requires s <= 32
  { Mix(a, b, H(b, c, d), x, s, ac) }

  function II(a: Word, b: Word, c: Word, d: Word, x: Word, s: bv6, ac: Word): Word
    requires s <= 32
  { Mix(a, b, I(b, c, d), x, s, ac) }

  /** Steps 1 to 16 of the transform, register by register; they are the operations of round 1. */
  method Round1(r: Regs, x: Words) returns (q: Regs)
    ensures q == Round(r, x, 0)
  {
    Schedule1();
    hide F, G, H, I, RotateLeft, Index, Shift, Sine;
    var Regs(a, b, c, d) := r;
    a := FF(a, b, c, d, x[0], 7, 0xd76aa478);
    d := FF(d, a, b, c, x[1], 12, 0xe8c7b756);
    c := FF(c, d, a, b, x[2], 17, 0x242070db);
    b := FF(b, c, d, a, x[3], 22, 0xc1bdceee);
    a := FF(a, b, c, d, x[4], 7, 0xf57c0faf);
    d := FF(d, a, b, c, x[5], 12, 0x4787c62a);
    c := FF(c, d, a, b, x[6], 17, 0xa8304613);
    b := FF(b, c, d, a, x[7], 22, 0xfd469501);
    a := FF(a, b, c, d, x[8], 7, 0x698098d8);
    d := FF(d, a, b, c, x[9], 12, 0x8b44f7af);
    c := FF(c, d, a, b, x[10], 17, 0xffff5bb1);
    b := FF(b, c, d, a, x[11], 22, 0x895cd7be);
    a := FF(a, b, c, d, x[12], 7, 0x6b901122);
    d := FF(d, a, b, c, x[13], 12, 0xfd987193);
    c := FF(c, d, a, b, x[14], 17, 0xa679438e);
    b := FF(b, c, d, a, x[15], 22, 0x49b40821);
    q := Regs(a, b, c, d);
  }

  /** Steps 17 to 32 of the transform, register by register; they are the operations of round 2. */
  method Round2(r: Regs, x: Words) returns (q: Regs)
    ensures q == Round(r, x, 16)
  {
    Schedule2();
    hide F, G, H, I, RotateLeft, Index, Shift, Sine;
    var Regs(a, b, c, d) := r;
    a := GG(a, b, c, d, x[1], 5, 0xf61e2562);
    d := GG(d, a, b, c, x[6], 9, 0xc040b340);
    c := GG(c, d, a, b, x[11], 14, 0x265e5a51);
    b := GG(b, c, d, a, x[0], 20, 0xe9b6c7aa);
    a := GG(a, b, c, d, x[5], 5, 0xd62f105d);
    d := GG(d, a, b, c, x[10], 9, 0x02441453);
    c := GG(c, d, a, b, x[15], 14, 0xd8a1e681);
    b := GG(b, c, d, a, x[4], 20, 0xe7d3fbc8);
    a := GG(a, b, c, d, x[9], 5, 0x21e1cde6);
    d := GG(d, a, b, c, x[14], 9, 0xc33707d6);
    c := GG(c, d, a, b, x[3], 14, 0xf4d50d87);
    b := GG(b, c, d, a, x[8], 20, 0x455a14ed);
    a := GG(a, b, c, d, x[13], 5, 0xa9e3e905);
    d := GG(d, a, b, c, x[2], 9, 0xfcefa3f8);
    c := GG(c, d, a, b, x[7], 14, 0x676f02d9);
    b := GG(b, c, d, a, x[12], 20, 0x8d2a4c8a);
    q := Regs(a, b, c, d);
  }

  /** Steps 33 to 48 of the transform, register by register; they are the operations of round 3. */
  method Round3(r: Regs, x: Words) returns (q: Regs)
    ensures q == Round(r, x, 32)
  {
    Schedule3();
    hide F, G, H, I, RotateLeft, Index, Shift, Sine;
    var Regs(a, b, c, d) := r;
    a := HH(a, b, c, d, x[5], 4, 0xfffa3942);
    d := HH(d, a, b, c, x[8], 11, 0x8771f681);
    c := HH(c, d, a, b, x[11], 16, 0x6d9d6122);
    b := HH(b, c, d, a, x[14], 23, 0xfde5380c);
    a := HH(a, b, c, d, x[1], 4, 0xa4beea44);
    d := HH(d, a, b, c, x[4], 11, 0x4bdecfa9);
    c := HH(c, d, a, b, x[7], 16, 0xf6bb4b60);
    b := HH(b, c, d, a, x[10], 23, 0xbebfbc70);
    a := HH(a, b, c, d, x[13], 4, 0x289b7ec6);
    d := HH(d, a, b, c, x[0], 11, 0xeaa127fa);
    c := HH(c, d, a, b, x[3], 16, 0xd4ef3085);
    b := HH(b, c, d, a, x[6], 23, 0x04881d05);
    a := HH(a, b, c, d, x[9], 4, 0xd9d4d039);
    d := HH(d, a, b, c, x[12], 11, 0xe6db99e5);
    c := HH(c, d, a, b, x[15], 16, 0x1fa27cf8);
    b := HH(b, c, d, a, x[2], 23, 0xc4ac5665);
    q := Regs(a, b, c, d);
  }

  /** Steps 49 to 64 of the transform, register by register; they are the operations of round 4. */
  method Round4(r: Regs, x: Words) returns (q: Regs)
    ensures q == Round(r, x, 48)
  {
    Schedule4();
    hide F, G, H, I, RotateLeft, Index, Shift, Sine;
    var Regs(a, b, c, d) := r;
    a := II(a, b, c, d, x[0], 6, 0xf4292244);
    d := II(d, a, b, c, x[7], 10, 0x432aff97);
    c := II(c, d, a, b, x[14], 15, 0xab9423a7);
    b := II(b, c, d, a, x[5], 21, 0xfc93a039);
    a := II(a, b, c, d, x[12], 6, 0x655b59c3);
    d := II(d, a, b, c, x[3], 10, 0x8f0ccc92);
    c := II(c, d, a, b, x[10], 15, 0xffeff47d);
    b := II(b, c, d, a, x[1], 21, 0x85845dd1);
    a := II(a, b, c, d, x[8], 6, 0x6fa87e4f);
    d := II(d, a, b, c, x[15], 10, 0xfe2ce6e0);
    c := II(c, d, a, b, x[6], 15, 0xa3014314);
    b := II(b, c, d, a, x[13], 21, 0x4e0811a1);
    a := II(a, b, c, d, x[4], 6, 0xf7537e82);
    d := II(d, a, b, c, x[11], 10, 0xbd3af235);
    c := II(c, d, a, b, x[2], 15, 0x2ad7d2bb);
    b := II(b, c, d, a, x[9], 21, 0xeb86d391);
    q := Regs(a, b, c, d);
  }

  class Md5Context {
    const count: array<U32>
    const state: array<Word>
    const buffer: array<Byte>
    ghost var seen: seq<Byte>

    /** count is 8 times the bytes seen modulo 2^64, buffer starts with the bytes not yet hashed,
        and state has absorbed every complete block. */
    ghost predicate Valid()
      reads this, count, state, buffer
    {
      Absorbed(seen)
    }

    ghost predicate Absorbed(m: seq<Byte>)
      reads this, count, state, buffer
    {
      && Held(m)
      && count[0] + TWO32 * count[1] == BitCount(|m|)
    }

    ghost predicate Held(m: seq<Byte>)
      reads this, count, state, buffer
    {
      && count.Length == 2 && state.Length == 4 && buffer.Length == 64
      && buffer[..|m| % 64] == m[|m| - |m| % 64..]
      && Loaded(state[..], Blocks(m, |m| / 64))
    }

    ghost predicate Loaded(s: seq<Word>, r: Regs) {
      s == [r.a, r.b, r.c, r.d]
    }

    constructor ()
      ensures Valid() && seen == [] && fresh(count) && fresh(state) && fresh(buffer)
    {
      count := new U32[2];
      state := new Word[4];
      buffer := new Byte[64];
      seen := [];
      new;
      hide Absorbed, Blocks, BitCount, Compress;
      count[0] := 0;
      count[1] := 0;
      state[0] := 0x67452301;
      state[1] := 0xEFCDAB89;
      state[2] := 0x98BADCFE;
      state[3] := 0x10325476;
      Empty();
    }

    lemma Empty()
      requires count.Length == 2 && state.Length == 4 && buffer.Length == 64
      requires count[0] == 0 && count[1] == 0 && Loaded(state[..], IV)
      ensures Absorbed([])
    {
      hide Blocks, BitCount, Loaded;
      NothingAbsorbed();
    }

    /** The bit count, kept in two words, moves on with the bytes seen. */
    method BumpCount(len: U32, ghost n: nat)
      requires count.Length == 2 && count[0] + TWO32 * count[1] == BitCount(n)
      modifies count
      ensures count[0] + TWO32 * count[1] == BitCount(n + len)
    {
      hide BitCount;
      CountAdvance(count[0], count[1], n, len);
      var low := 8 * len % TWO32;
      count[0] := (count[0] + low) % TWO32;
      if count[0] < low {
        count[1] := (count[1] + 1) % TWO32;
      }
      count[1] := (count[1] + len / 0x2000_0000) % TWO32;
    }

    function BufferIndex(): (index: nat)
      requires Valid()
      reads this, count, state, buffer
      ensures index == |seen| % 64
    {
      CountIndex(count[0], count[1], |seen|);
      count[0] / 8 % 64
    }

    /** Completes the block in the buffer with the first bytes of the input. */
    method FillBuffer(input: seq<Byte>, index: nat)
      requires buffer.Length == 64 && index == |seen| % 64 && |input| >= 64 - index
      requires buffer[..index] == seen[|seen| - index..]
      modifies buffer
      ensures var n := |seen| / 64; buffer[..] == (seen + input)[64 * n..64 * (n + 1)]
    {
      ghost var all, n := seen + input, |seen| / 64;
      forall k | 0 <= k < 64 - index { buffer[index + k] := input[k]; }
      forall k | 0 <= k < 64
        ensures buffer[k] == all[64 * n + k]
      {
        if k < index {
          assert buffer[..index][k] == seen[|seen| - index..][k];
        } else {
          assert buffer[index + (k - index)] == input[k - index];
        }
      }
    }

    method HashBlock(block: Block, ghost r: Regs)
      requires state.Length == 4 && Loaded(state[..], r)
      modifies state
      ensures Loaded(state[..], Compress(r, block))
    {
      hide Compress;
      Transform(state, block);
    }

    /** Hashes the block in the buffer once it is complete, then whole blocks straight from the input.
        i is the first input byte left over. */
    method AbsorbBlocks(input: seq<Byte>, index: nat) returns (i: nat)
      requires count.Length == 2 && state.Length == 4 && buffer.Length == 64
      requires index == |seen| % 64 && |input| < TWO32 && CursorFits(index, |input|) && |input| >= 64 - index
      requires buffer[..index] == seen[|seen| - index..]
      requires Loaded(state[..], Blocks(seen, |seen| / 64))
      modifies state, buffer
      ensures i <= |input| < i + 64 && (|seen| + i) % 64 == 0
      ensures Loaded(state[..], Blocks(seen + input, (|seen| + i) / 64))
    {
      hide Compress, CursorFits, Loaded;
      ghost var all, n, m := seen + input, |seen| / 64, 0;
      BlocksPrefix(seen, input, n);
      FillBuffer(input, index);
      HashBlock(buffer[..], Blocks(all, n));
      i := 64 - index;
      n := n + 1;
      while (i + 64) % TWO32 <= |input|
        invariant i <= |input| && |seen| + i == 64 * n && i == 64 - index + 64 * m
        invariant Loaded(state[..], Blocks(all, n))
        decreases |input| - i
      {
        CursorAt(index, |input|, m);
        SliceOfAppend(seen, input, 64 * n, 64 * (n + 1));
        HashBlock(input[i..i + 64], Blocks(all, n));
        i, n, m := i + 64, n + 1, m + 1;
      }
      CursorAt(index, |input|, m);
      Multiple(n);
    }

    method Update(input: seq<Byte>)
      requires Valid() && |input| < TWO32 && CursorFits(|seen| % 64, |input|)
      modifies this`seen, count, state, buffer
      ensures Valid() && seen == old(seen) + input
    {
      hide LowAfter, HighAfter, BitCount, Blocks, CursorFits, Loaded;
      var index := BufferIndex();
      BumpCount(|input|, |seen|);
      Absorb(input, index);
      seen := seen + input;
    }

    /** What is left of an update once the count has moved on: the blocks that are now complete, then the rest. */
    method Absorb(input: seq<Byte>, index: nat)
      requires Held(seen) && index == |seen| % 64 && |input| < TWO32 && CursorFits(index, |input|)
      modifies state, buffer
      ensures Held(seen + input)
    {
      hide Loaded, Blocks, CursorFits;
      var i, from := 0, index;
      if |input| >= 64 - index {
        i := AbsorbBlocks(input, index);
        from := 0;
        assert buffer[..0] == (seen + input)[|seen| + i..|seen| + i];
      } else {
        BlocksPrefix(seen, input, |seen| / 64);
        assert seen[|seen| - index..] == (seen + input)[|seen| - index..|seen|];
      }
      KeepTail(input, i, from);
      LeftOver(|seen|, i, |input|, from);
      Settle(seen + input, from + |input| - i);
    }

    lemma Settle(m: seq<Byte>, tail: nat)
      requires count.Length == 2 && state.Length == 4 && buffer.Length == 64
      requires tail == |m| % 64 && buffer[..tail] == m[|m| - tail..]
      requires Loaded(state[..], Blocks(m, |m| / 64))
      ensures Held(m)
    {
      hide Loaded, Blocks;
    }

    /** The final copy: what follows the last complete block goes to the buffer. */
    method KeepTail(input: seq<Byte>, i: nat, index: nat)
      requires buffer.Length == 64 && i <= |input| && index + |input| - i < 64 && index <= |seen| + i
      requires buffer[..index] == (seen + input)[|seen| + i - index..|seen| + i]
      modifies buffer
      ensures var all := seen + input; var tail := index + |input| - i;
              buffer[..tail] == all[|all| - tail..]
    {
      forall k | 0 <= k < |input| - i { buffer[index + k] := input[i + k]; }
      ghost var all, tail := seen + input, index + |input| - i;
      forall k | 0 <= k < tail
        ensures buffer[..tail][k] == all[|all| - tail..][k]
      {
        assert all[|all| - tail..][k] == all[|all| - tail + k];
        if k < index {
          assert buffer[..index][k] == all[|seen| + i - index..|seen| + i][k];
        } else {
          assert buffer[index + (k - index)] == input[i + (k - index)];
        }
      }
    }
  }

  const PADDING: seq<Byte> := [0x80] + seq(63, _ => 0)

  function AllBytes(ws: seq<U32>): (b: seq<Byte>)
    ensures |b| == 4 * |ws|
  {
    if ws == [] then [] else AllBytes(ws[..|ws| - 1]) + Bytes(ws[|ws| - 1])
  }

  /** MD5Encode: each word as four bytes, low-order byte first. */
  method Encode(input: seq<U32>) returns (output: array<Byte>)
    ensures fresh(output) && output[..] == AllBytes(input)
  {
    output := new Byte[4 * |input|];
    var i, j := 0, 0;
    while j < output.Length
      invariant j == 4 * i && i <= |input|
      invariant output[..j] == AllBytes(input[..i])
    {
      var w := input[i];
      output[j] := w % 0x100;
      output[j + 1] := w / 0x100 % 0x100;
      output[j + 2] := w / 0x1_0000 % 0x100;
      output[j + 3] := w / 0x100_0000;
      assert output[..j + 4] == output[..j] + Bytes(w);
      assert input[..i + 1][..i] == input[..i];
      i, j := i + 1, j + 4;
    }
    assert input[..i] == input;
  }

  /** The padding MD5Final chooses and the length it appends are those of section 3.1 and 3.2. */
  lemma FinalBytes(lo: U32, hi: U32, n: nat)
    requires lo + TWO32 * hi == BitCount(n)
    ensures var padlen := if n % 64 < 56 then 56 - n % 64 else 120 - n % 64;
            padlen <= 64 && PADDING[..padlen] == Padding(n)
    ensures AllBytes([lo, hi]) == Length(n)
  {
    hide Bytes, BitCount;
    PadLength(n);
    SplitWords(lo, hi);
    assert [lo, hi][..1] == [lo] && [lo][..0] == [];
  }

  lemma PadLength(n: nat)
    ensures (55 - n) % 64 == (if n % 64 < 56 then 55 - n % 64 else 119 - n % 64)
  {
  }

  lemma SplitWords(lo: U32, hi: U32)
    ensures (lo + TWO32 * hi) % TWO32 == lo && (lo + TWO32 * hi) / TWO32 == hi
  {
  }

  /** Small inputs never get near the end of the cursor. */
  lemma SmallFits(index: nat, len: nat)
    requires len <= 64
    ensures CursorFits(index, len)
  {
  }

  /** The first half of MD5Final: the padding, then the length. */
  method PadOut(context: Md5Context)
    requires context.Valid()
    modifies context`seen, context.count, context.state, context.buffer
    ensures context.Valid() && context.seen == Padded(old(context.seen))
  {
    hide Blocks, BitCount, Padding, Length, CursorFits, Md5Context.Loaded;
    var lo, hi := context.count[0], context.count[1];
    ghost var m := context.seen;
    CountIndex(lo, hi, |m|);
    FinalBytes(lo, hi, |m|);
    var index := lo / 8 % 64;
    var padlen := if index < 56 then 56 - index else 120 - index;
    var bits := Encode(context.count[..]);
    assert context.count[..] == [lo, hi];
    SmallFits(|m| % 64, padlen);
    context.Update(PADDING[..padlen]);
    SmallFits(|context.seen| % 64, 8);
    context.Update(bits[..]);
  }

  /** MD5Final. */
  method Final(context: Md5Context) returns (digest: array<Byte>)
    requires context.Valid()
    modifies context`seen, context.count, context.state, context.buffer
    ensures digest[..] == Md5(old(context.seen))
  {
    hide Blocks, BitCount, Padded, Bytes, Value;
    PadOut(context);
    var a, b, c, d := context.state[0], context.state[1], context.state[2], context.state[3];
    DigestBytes(Value(a), Value(b), Value(c), Value(d));
    digest := Encode([Value(a), Value(b), Value(c), Value(d)]);
  }

  lemma DigestBytes(a: U32, b: U32, c: U32, d: U32)
    ensures AllBytes([a, b, c, d]) == Bytes(a) + Bytes(b) + Bytes(c) + Bytes(d)
  {
    hide Bytes;
    assert [a, b, c, d][..3] == [a, b, c] && [a, b, c][..2] == [a, b] && [a, b][..1] == [a];
    assert AllBytes([a]) == Bytes(a);
    assert AllBytes([a, b]) == Bytes(a) + Bytes(b);
  }

  // ---- every way of cutting a message ----

  function Joined(chunks: seq<seq<Byte>>): seq<Byte> {
    if chunks == [] then [] else Joined(chunks[..|chunks| - 1]) + chunks[|chunks| - 1]
  }

  /** No chunk drives the 32-bit cursor of its update round; in particular any chunks shorter than 2^32 - 64 bytes. */
  ghost predicate Digestible(chunks: seq<seq<Byte>>) {
    forall k :: 0 <= k < |chunks| ==>
      |chunks[k]| < TWO32 && CursorFits(|Joined(chunks[..k])| % 64, |chunks[k]|)
  }

  method HashChunks(chunks: seq<seq<Byte>>) returns (digest: array<Byte>)
    requires Digestible(chunks)
    ensures digest[..] == Md5(Joined(chunks))
  {
    hide CursorFits, Compress, Blocks, BitCount, Md5, Md5Context.Loaded, Md5Context.Valid;
    var context := new Md5Context();
    for k := 0 to |chunks|
      invariant context.Valid() && context.seen == Joined(chunks[..k])
      invariant fresh(context) && fresh(context.count) && fresh(context.state) && fresh(context.buffer)
    {
      context.Update(chunks[k]);
      assert chunks[..k + 1][..k] == chunks[..k];
    }
    assert chunks[..|chunks|] == chunks;
    digest := Final(context);
  }

  lemma LeftOver(n: nat, i: nat, len: nat, index: nat)
    requires i <= len < i + 64 - index && (n + i) % 64 == index < 64
    ensures (n + len) % 64 == index + len - i && (n + len) / 64 == (n + i) / 64
  {
  }

  method DecodeBlock(block: Block) returns (x: array<Word>)
    ensures fresh(x) && x.Length == 16 && x[..] == Decode(block)
  {
    x := new Word[16];
    var i, j := 0, 0;
    while j < 64
      invariant j == 4 * i && i <= 16
      invariant x[..i] == Decode(block)[..i]
    {
      x[i] := WordAt(block, j);
      assert x[..i + 1] == x[..i] + [x[i]];
      i, j := i + 1, j + 4;
    }
  }

  method Transform(state: array<Word>, block: Block)
    requires state.Length == 4
    modifies state
    ensures var r := Compress(Regs(old(state[0]), old(state[1]), old(state[2]), old(state[3])), block);
            state[..] == [r.a, r.b, r.c, r.d]
  {
    hide Round, Add;
    var r := Regs(state[0], state[1], state[2], state[3]);
    var words := DecodeBlock(block);
    var x: Words := words[..];
    var q := Round1(r, x);
    q := Round2(q, x);
    q := Round3(q, x);
    q := Round4(q, x);
    state[0] := Add(state[0], q.a);
    state[1] := Add(state[1], q.b);
    state[2] := Add(state[2], q.c);
    state[3] := Add(state[3], q.d);
  }

  // ---- the bit count in two words ----

  /** count[0] >> 3, masked to six bits, is where the next byte goes in the buffer. */
  lemma CountIndex(lo: U32, hi: U32, n: nat)
    requires lo + TWO32 * hi == BitCount(n)
    ensures lo / 8 % 64 == n % 64
  {
    var q := 8 * n / TWO64;
    assert 8 * n == lo + TWO32 * hi + TWO64 * q;
    assert n == lo / 8 + 0x2000_0000 * hi + 0x2000_0000_0000_0000 * q;
    assert n == lo / 8 + 64 * (0x80_0000 * hi + 0x80_0000_0000_0000 * q);
    ModMultiple(lo / 8, 0x80_0000 * hi + 0x80_0000_0000_0000 * q);
  }

  lemma ModMultiple(x: int, k: int)
    ensures (x + 64 * k) % 64 == x % 64
  {
  }

  function LowAfter(lo: U32, len: U32): U32 {
    (lo + 8 * len % TWO32) % TWO32
  }

  function HighAfter(lo: U32, hi: U32, len: U32): U32 {
    ((if LowAfter(lo, len) < 8 * len % TWO32 then (hi + 1) % TWO32 else hi) + len / 0x2000_0000) % TWO32
  }

  /** The two-word addition of MD5Update, with its carry, adds 8 * len modulo 2^64. */
  lemma CountAdvance(lo: U32, hi: U32, n: nat, len: U32)
    requires lo + TWO32 * hi == BitCount(n)
    ensures LowAfter(lo, len) + TWO32 * HighAfter(lo, hi, len) == BitCount(n + len)
  {
    var low, high, lo' := 8 * len % TWO32, len / 0x2000_0000, LowAfter(lo, len);
    var carry := if lo' < low then 1 else 0;
    var top := hi + carry + high;
    BitWords(len);
    Carries(lo, low);
    CarryIn(hi, carry, high);
    hide LowAfter;
    Combine(lo', top, 8 * (n + len), 8 * n / TWO64);
  }

  lemma BitWords(len: U32)
    ensures 8 * len == 8 * len % TWO32 + TWO32 * (len / 0x2000_0000)
  {
  }

  /** A 32-bit sum is below its second operand exactly when it carried. */
  lemma Carries(lo: U32, low: U32)
    ensures var sum := (lo + low) % TWO32;
            lo + low == if sum < low then sum + TWO32 else sum
  {
  }

  /** A number written in words lo and top, with what is above 2^64 cut off. */
  lemma Combine(lo: U32, top: nat, bits: nat, q: nat)
    requires bits == lo + TWO32 * top + TWO64 * q
    ensures bits % TWO64 == lo + TWO32 * (top % TWO32)
  {
    ModTwo64(lo + TWO32 * (top % TWO32), top / TWO32 + q);
  }

  lemma CarryIn(hi: U32, carry: nat, high: nat)
    requires carry <= 1
    ensures ((hi + carry) % TWO32 + high) % TWO32 == (hi + carry + high) % TWO32
  {
  }

  lemma ModTwo64(x: int, k: int)
    ensures (x + TWO64 * k) % TWO64 == x % TWO64
  {
  }

  // ---- blocks of a growing message ----

  lemma NothingAbsorbed()
    ensures Blocks([], 0) == IV && BitCount(0) == 0
  {
    hide Compress;
  }

  lemma {:induction false} BlocksPrefix(m: seq<Byte>, t: seq<Byte>, n: nat)
    requires 64 * n <= |m|
    ensures Blocks(m + t, n) == Blocks(m, n)
  {
    hide Compress;
    if n > 0 {
      BlocksPrefix(m, t, n - 1);
      assert (m + t)[64 * (n - 1)..64 * n] == m[64 * (n - 1)..64 * n];
    }
  }

  lemma SliceOfAppend(a: seq<Byte>, b: seq<Byte>, lo: nat, hi: nat)
    requires |a| <= lo <= hi <= |a| + |b|
    ensures (a + b)[lo..hi] == b[lo - |a|..hi - |a|]
  {
  }

  // ---- the cursor of MD5Update ----

  /** The 32-bit cursor i, which starts at 64 - index and moves by 64, never wraps while it is within the input. */
  predicate CursorFits(index: nat, len: nat) {
    len < TWO32 - 64 || (64 - index) % 64 > len % 64
  }

  lemma Multiple(n: nat)
    ensures 64 * n % 64 == 0 && 64 * n / 64 == n
  {
  }

  lemma HighResidue(i: int)
    ensures TWO32 - 64 <= i < TWO32 ==> i % 64 == i - (TWO32 - 64)
  {
  }

  lemma CursorAt(index: nat, len: U32, m: nat)
    requires index < 64 && CursorFits(index, len) && 64 - index + 64 * m <= len
    ensures (64 - index + 64 * m + 64) % TWO32 == 64 - index + 64 * m + 64
  {
    CursorFitsExactly(index, len);
    ModMultiple(64 - index, m);
  }

  /** The test i + 64 <= inputlen is exact at every cursor the loop can reach if and only if CursorFits. */
  lemma CursorFitsExactly(index: nat, len: U32)
    requires index < 64
    ensures CursorFits(index, len) <==>
            (forall i: int :: 0 <= i <= len && i % 64 == (64 - index) % 64 ==> (i + 64) % TWO32 == i + 64)
  {
    var r := (64 - index) % 64;
    if !CursorFits(index, len) {
      var i: int := TWO32 - 64 + r;
      assert i % 64 == r && i <= len && (i + 64) % TWO32 != i + 64;
    } else {
      forall i: int | 0 <= i <= len && i % 64 == r
        ensures (i + 64) % TWO32 == i + 64
      {
        HighResidue(i);
        HighResidue(len);
      }
    }
  }

  /** When it does not fit, the cursor comes round for ever: after any number m of turns the test still passes, so
      MD5Update does not return. */
  lemma CursorNeverStops(index: nat, len: U32, m: nat)
    requires index < 64 && !CursorFits(index, len)
    ensures ((64 - index + 64 * m) % TWO32 + 64) % TWO32 <= len
  {
    var r, v := (64 - index) % 64, ((64 - index + 64 * m) % TWO32 + 64) % TWO32;
    Residue(64 - index + 64 * m, m, 64 - index);
    assert v % 64 == r;
    TopOfResidue(v, r);
    TopOfResidue(TWO32 - 64 + len % 64, len % 64);
  }

  lemma Residue(x: nat, m: nat, y: nat)
    requires x == y + 64 * m
    ensures (x % TWO32 + 64) % TWO32 % 64 == y % 64
  {
    var w := x % TWO32;
    ModMultiple(y, m);
    WordResidue(x);
    ModMultiple(w, 1);
    WordResidue(w + 64);
  }

  lemma WordResidue(x: nat)
    ensures x % TWO32 % 64 == x % 64
  {
    var q, r := x / TWO32, x % TWO32;
    assert x == 64 * (q * 0x400_0000) + r;
    ModMultiple(r, q * 0x400_0000);
  }

  /** The words of one residue end 64 below the end. */
  lemma TopOfResidue(v: U32, r: nat)
    requires v % 64 == r
    ensures v <= TWO32 - 64 + r
  {
  }
}
