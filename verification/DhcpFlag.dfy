/** The broadcast bit set in a DHCP request on its way to the air, and the UDP checksum corrected by one folding loop
    instead of being summed again. The words of the UDP segment are as the host reads them. */
module DhcpFlag {
  import opened Integers

  const SOURCE_AT: nat := 0
  const DEST_AT: nat := 1
  const CHECK_AT: nat := 3
  const FLAGS_AT: nat := 9
  const COOKIE_AT: nat := 122
  const CLIENT_PORT: U16 := 68
  const SERVER_PORT: U16 := 67
  const BROADCAST_FLAG: U16 := 0x8000
  const ONES: int := 0xFFFF

  type Segment = s: seq<U16> | |s| >= COOKIE_AT + 2 witness seq(COOKIE_AT + 2, _ => 0)

  function Complement(x: U16): U16 {
    ONES - x
  }

  function Sum(s: seq<U16>): (n: nat) {
    if s == [] then 0 else s[0] + Sum(s[1..])
  }

  /** The one's-complement sum of the segment and its pseudo-header, as a residue. */
  function Residue(pseudo: nat, s: Segment): (r: nat)
    ensures r < ONES
  {
    (pseudo + Sum(s)) % ONES
  }

  /** What a receiver takes: a segment sent without a checksum, or one whose sum is all ones (RFC 768). */
  predicate Accepted(pseudo: nat, s: Segment) {
    s[CHECK_AT] == 0 || Residue(pseudo, s) == 0
  }

  predicate IsRequest(s: Segment, bigEndian: bool) {
    && s[SOURCE_AT] == HostOrder(bigEndian, CLIENT_PORT) && s[DEST_AT] == HostOrder(bigEndian, SERVER_PORT)
    && s[COOKIE_AT] == HostOrder(bigEndian, 0x6382) && s[COOKIE_AT + 1] == HostOrder(bigEndian, 0x5363)
  }

  /** The broadcast bit where the host finds it: 0x8000, or 0x0080 on a little-endian one. */
  function Bit(bigEndian: bool): (b: U16)
    ensures b == if bigEndian then 0x8000 else 0x0080
  {
    HostOrder(bigEndian, BROADCAST_FLAG)
  }

  predicate IsSet(flags: U16, bit: U16)
    requires bit > 0
  {
    flags / bit % 2 == 1
  }

  predicate Applies(s: Segment, bigEndian: bool) {
    IsRequest(s, bigEndian) && !IsSet(s[FLAGS_AT], Bit(bigEndian))
  }

  /** The flags with the bit set. */
  function NewFlags(s: Segment, bigEndian: bool): (flags: U16)
    requires Applies(s, bigEndian)
    ensures flags > 0
  {
    s[FLAGS_AT] + Bit(bigEndian)
  }

  /** The loop's result: a 16-bit number with the residue of its argument, zero for zero only. */
  method Fold(start: nat) returns (sum: nat)
    ensures sum <= ONES && sum % ONES == start % ONES && (sum == 0 <==> start == 0)
  {
    sum := start;
    while sum / TWO16 != 0
      invariant sum % ONES == start % ONES && (sum == 0 <==> start == 0)
      decreases sum
    {
      FoldKeeps(sum);
      sum := sum % TWO16 + sum / TWO16;
    }
  }

  lemma FoldKeeps(n: nat)
    ensures (n % TWO16 + n / TWO16) % ONES == n % ONES
  {
    var q, r := n / TWO16, n % TWO16;
    assert n == q * ONES + (r + q);
    Multiple(q, r + q);
  }

  lemma Multiple(q: int, n: int)
    ensures (q * ONES + n) % ONES == n % ONES
  {
    var d, r := n / ONES, n % ONES;
    assert q * ONES + n == (q + d) * ONES + r;
  }

  lemma {:induction false} SumUpdate(s: seq<U16>, i: nat, x: U16)
    requires i < |s|
    ensures Sum(s[i := x]) == Sum(s) - s[i] + x
  {
    if i > 0 {
      SumUpdate(s[1..], i - 1, x);
      assert s[i := x][1..] == s[1..][i - 1 := x];
    } else {
      assert s[i := x][1..] == s[1..];
    }
  }

  /** The flags and the checksum replaced. */
  function Rewritten(s: Segment, flags: U16, check: U16): (r: Segment)
    ensures |r| == |s|
  {
    s[FLAGS_AT := flags][CHECK_AT := check]
  }

  /** dhcp_flag_bcast: what it writes, when it writes. */
  predicate Outcome(s: Segment, bigEndian: bool, r: Segment) {
    if Applies(s, bigEndian) then
      && r[CHECK_AT] != ONES
      && Complement(r[CHECK_AT]) % ONES == (Complement(s[CHECK_AT]) + NewFlags(s, bigEndian)) % ONES
      && r == Rewritten(s, NewFlags(s, bigEndian), r[CHECK_AT])
    else r == s
  }

  method SetBroadcast(a: array<U16>, bigEndian: bool)
    requires a.Length >= COOKIE_AT + 2
    modifies a
    ensures Outcome(old(a[..]), bigEndian, a[..])
    ensures !Applies(old(a[..]), bigEndian) ==> a[..] == old(a[..])
  {
    if IsRequest(a[..], bigEndian) && !IsSet(a[FLAGS_AT], Bit(bigEndian)) {
      a[FLAGS_AT] := a[FLAGS_AT] + Bit(bigEndian);
      var sum := Fold(Complement(a[CHECK_AT]) + a[FLAGS_AT]);
      a[CHECK_AT] := Complement(sum);
    }
  }

  /** The residue afterwards: less by exactly what the flags held before. */
  lemma ResidueAfter(pseudo: nat, s: Segment, bigEndian: bool, r: Segment)
    requires Applies(s, bigEndian) && Outcome(s, bigEndian, r)
    ensures (Residue(pseudo, r) + s[FLAGS_AT]) % ONES == Residue(pseudo, s)
  {
    hide Applies, IsRequest;
    var flags := NewFlags(s, bigEndian);
    var sum := Complement(r[CHECK_AT]);
    SumUpdate(s, FLAGS_AT, flags);
    SumUpdate(s[FLAGS_AT := flags], CHECK_AT, r[CHECK_AT]);
    Congruent(sum, Complement(s[CHECK_AT]) + flags);
    var q := (Complement(s[CHECK_AT]) + flags - sum) / ONES;
    assert pseudo + Sum(r) + s[FLAGS_AT] == q * ONES + (pseudo + Sum(s));
    Multiple(q, pseudo + Sum(s));
    Multiple(-((pseudo + Sum(r)) / ONES), pseudo + Sum(r) + s[FLAGS_AT]);
  }

  lemma Congruent(m: int, n: int)
    requires m % ONES == n % ONES
    ensures n - m == (n - m) / ONES * ONES
  {
    assert n - m == (n / ONES - m / ONES) * ONES;
  }

  /** The one's-complement sum of the datagram is kept if and only if the flags were clear before: the loop adds the
      new flags word without taking the old one out (section 3 of RFC 1624). */
  lemma SumKept(pseudo: nat, s: Segment, bigEndian: bool, r: Segment)
    requires Applies(s, bigEndian) && Outcome(s, bigEndian, r)
    ensures Residue(pseudo, r) == Residue(pseudo, s) <==> s[FLAGS_AT] == 0
  {
    ResidueAfter(pseudo, s, bigEndian, r);
  }

  /** A checksum field of zero, no checksum at all, is written exactly when the old checksum equals the new flags,
      or when both together are all ones for a segment that had none. */
  lemma ChecksumGone(s: Segment, bigEndian: bool, r: Segment)
    requires Applies(s, bigEndian) && Outcome(s, bigEndian, r)
    ensures var flags := NewFlags(s, bigEndian);
      r[CHECK_AT] == 0 <==> s[CHECK_AT] == flags || (s[CHECK_AT] == 0 && flags == ONES)
  {
    hide Applies, IsRequest;
    var check, flags, sum := s[CHECK_AT], NewFlags(s, bigEndian), Complement(r[CHECK_AT]);
    Congruent(sum, ONES - check + flags);
  }

  /** A datagram that was good stays good, but for one family: flags set before and a checksum that does not happen to
      equal the new flags. */
  lemma GoodStaysGood(pseudo: nat, s: Segment, bigEndian: bool, r: Segment)
    requires Applies(s, bigEndian) && Outcome(s, bigEndian, r)
    requires s[CHECK_AT] != 0 && Residue(pseudo, s) == 0
    ensures Accepted(pseudo, r) <==> s[FLAGS_AT] == 0 || s[CHECK_AT] == NewFlags(s, bigEndian)
  {
    ResidueAfter(pseudo, s, bigEndian, r);
    ChecksumGone(s, bigEndian, r);
  }

  /** A datagram sent without a checksum is given one, and then taken only if it adds up by accident. */
  lemma UncheckedIsChecked(pseudo: nat, s: Segment, bigEndian: bool, r: Segment)
    requires Applies(s, bigEndian) && Outcome(s, bigEndian, r) && s[CHECK_AT] == 0
    ensures Accepted(pseudo, r) <==>
      Residue(pseudo, s) == s[FLAGS_AT] % ONES || NewFlags(s, bigEndian) == ONES
  {
    ResidueAfter(pseudo, s, bigEndian, r);
    ChecksumGone(s, bigEndian, r);
    hide Residue, Applies, Outcome;
  }

  // ---- the same in bytes ----

  /** The words of a segment as a host reads them off its bytes. */
  function Words(b: seq<Byte>, bigEndian: bool): (s: Segment)
    requires |b| >= 248
  {
    seq(|b| / 2, i requires 0 <= i < |b| / 2 => WordOf(b[2 * i], b[2 * i + 1], bigEndian))
  }

  function WordOf(first: Byte, second: Byte, bigEndian: bool): U16 {
    if bigEndian then 256 * first + second else first + 256 * second
  }

  /** On a host of either byte order a request is told by ports 68 and 67 and by the cookie 99.130.83.99, the first four
      and the last four of its first 248 bytes; the flag is the top bit of byte 18. */
  lemma RequestInBytes(b: seq<Byte>, bigEndian: bool)
    requires |b| >= 248
    ensures IsRequest(Words(b, bigEndian), bigEndian)
       <==> b[0] == 0 && b[1] == 68 && b[2] == 0 && b[3] == 67
            && b[244] == 99 && b[245] == 130 && b[246] == 83 && b[247] == 99
    ensures IsSet(Words(b, bigEndian)[FLAGS_AT], Bit(bigEndian)) <==> b[18] >= 128
  {
    var s := Words(b, bigEndian);
    assert s[0] == WordOf(b[0], b[1], bigEndian) && s[1] == WordOf(b[2], b[3], bigEndian);
    assert s[122] == WordOf(b[244], b[245], bigEndian) && s[123] == WordOf(b[246], b[247], bigEndian);
    assert s[9] == WordOf(b[18], b[19], bigEndian);
    WordIs(b[0], b[1], bigEndian, 0, 68);
    WordIs(b[2], b[3], bigEndian, 0, 67);
    WordIs(b[244], b[245], bigEndian, 99, 130);
    WordIs(b[246], b[247], bigEndian, 83, 99);
    TopBit(b[18], b[19], bigEndian);
    hide WordOf, HostOrder, Words, IsSet;
  }

  lemma WordIs(first: Byte, second: Byte, bigEndian: bool, hi: Byte, lo: Byte)
    ensures WordOf(first, second, bigEndian) == HostOrder(bigEndian, 256 * hi + lo) <==> first == hi && second == lo
  {
    HostWord(hi, lo, bigEndian);
    SameWord(first, second, hi, lo, bigEndian);
    hide HostOrder, WordOf;
  }

  lemma HostWord(hi: Byte, lo: Byte, bigEndian: bool)
    ensures HostOrder(bigEndian, 256 * hi + lo) == WordOf(hi, lo, bigEndian)
  {
  }

  lemma TopBit(first: Byte, second: Byte, bigEndian: bool)
    ensures IsSet(WordOf(first, second, bigEndian), Bit(bigEndian)) <==> first >= 128
    ensures first < 128 ==>
      WordOf(first, second, bigEndian) + Bit(bigEndian) == WordOf(first + 128, second, bigEndian)
  {
    hide HostOrder;
    TopOf(256 * first + second);
    MiddleOf(first, second);
  }

  lemma TopOf(w: U16)
    ensures w / 0x8000 % 2 == 1 <==> w >= 0x8000
  {
  }

  lemma MiddleOf(first: Byte, second: Byte)
    ensures (first + 256 * second) / 0x80 % 2 == 1 <==> first >= 128
  {
    assert first + 256 * second == 0x80 * (2 * second) + first;
  }

  /** The rewrite sets that bit and changes the two bytes of the checksum, 6 and 7, and nothing else. */
  lemma ChangedBytes(b: seq<Byte>, c: seq<Byte>, bigEndian: bool)
    requires 248 <= |b| == |c| && |b| % 2 == 0
    requires Applies(Words(b, bigEndian), bigEndian) && Outcome(Words(b, bigEndian), bigEndian, Words(c, bigEndian))
    ensures b[18] < 128 && c[18] == b[18] + 128
    ensures forall i :: 0 <= i < |b| && i !in {6, 7, 18} ==> c[i] == b[i]
  {
    var s, r := Words(b, bigEndian), Words(c, bigEndian);
    RequestInBytes(b, bigEndian);
    TopBit(b[18], b[19], bigEndian);
    forall k | 0 <= k < |b| / 2
      ensures k == 9 ==> c[2 * k] == b[2 * k] + 128 && c[2 * k + 1] == b[2 * k + 1]
      ensures k != 3 && k != 9 ==> c[2 * k] == b[2 * k] && c[2 * k + 1] == b[2 * k + 1]
    {
      assert s[k] == WordOf(b[2 * k], b[2 * k + 1], bigEndian) && r[k] == WordOf(c[2 * k], c[2 * k + 1], bigEndian);
      SameWord(b[2 * k], b[2 * k + 1], c[2 * k], c[2 * k + 1], bigEndian);
      if k == 9 { SameWord(b[18] + 128, b[19], c[18], c[19], bigEndian); }
    }
    forall i | 0 <= i < |b| && i !in {6, 7, 18}
      ensures c[i] == b[i]
    {
      var k := i / 2;
      assert i == 2 * k || i == 2 * k + 1;
    }
  }

  lemma SameWord(a: Byte, b: Byte, c: Byte, d: Byte, bigEndian: bool)
    ensures WordOf(a, b, bigEndian) == WordOf(c, d, bigEndian) <==> a == c && b == d
  {
  }
}
