/** A numeral read into 32 bits. */
module Strtoul {
  import opened Integers

  const NUL: char := '\0'

  /** 0 for none given: the text then says octal, decimal or hexadecimal. Any other base is taken as it is, also one
      above the sixteen digits there are. */
  type Base = U32

  predicate IsXDigit(c: char) {
    '0' <= c <= '9' || 'a' <= c <= 'f' || 'A' <= c <= 'F'
  }

  /** The value of a hexadecimal digit, lower or upper case; 16 for anything else. */
  function DigitValue(c: char): (v: int)
    ensures 0 <= v <= 16 && (v < 16 <==> IsXDigit(c))
  {
    if '0' <= c <= '9' then c as int - '0' as int
    else if 'a' <= c <= 'f' then c as int - 'a' as int + 10
    else if 'A' <= c <= 'F' then c as int - 'A' as int + 10
    else 16
  }

  predicate IsDigit(c: char, base: nat) {
    IsXDigit(c) && DigitValue(c) < base
  }

  predicate AllDigits(t: string, base: nat) {
    forall i :: 0 <= i < |t| ==> IsDigit(t[i], base)
  }

  /** The number a string of digits stands for. */
  function Value(t: string, base: nat): int {
    if t == "" then 0 else Value(t[..|t| - 1], base) * base + DigitValue(t[|t| - 1])
  }

  predicate HexPrefix(t: string) {
    |t| >= 3 && t[0] == '0' && t[1] == 'x' && IsXDigit(t[2])
  }

  /** How many characters the prefix takes: "0x" before a digit, or a leading zero. */
  function PrefixLen(t: string): (n: nat)
    ensures n <= |t|
  {
    if HexPrefix(t) then 2 else if t != "" && t[0] == '0' then 1 else 0
  }

  /** The base used: the prefix's, the caller's, or the default. */
  function Radix(t: string, base: Base): (r: nat)
    ensures 1 <= r < TWO32
  {
    if HexPrefix(t) then 16
    else if base != 0 then base
    else if t != "" && t[0] == '0' then 8 else 10
  }

  function Negative(t: string): bool {
    PrefixLen(t) < |t| && t[PrefixLen(t)] == '-'
  }

  function DigitsAt(t: string): (n: nat)
    ensures n <= |t|
  {
    PrefixLen(t) + if Negative(t) then 1 else 0
  }

  /** The end of the run of digits from p on. */
  function RunEnd(t: string, p: nat, base: nat): (r: nat)
    requires p <= |t|
    ensures p <= r <= |t| && AllDigits(t[p..r], base) && (r < |t| ==> !IsDigit(t[r], base))
    decreases |t| - p
  {
    if p == |t| || !IsDigit(t[p], base) then p else
      var r := RunEnd(t, p + 1, base);
      assert t[p..r] == [t[p]] + t[p + 1..r];
      r
  }

  /** What a text reads as, and where reading stops. */
  function Number(t: string, base: Base): (r: (U32, nat))
    ensures r.1 <= |t|
  {
    var p, radix := DigitsAt(t), Radix(t, base);
    var end := RunEnd(t, p, radix);
    var v := Value(t[p..end], radix);
    ((if Negative(t) then -v else v) % TWO32, end)
  }

  /** The loop of command_strtoul: the digits from p on, modulo 2^32. */
  method ReadDigits(a: array<char>, start: nat, p: nat, base: nat, ghost t: string) returns (result: U32, cp: nat)
    requires p <= |t| && Holds(a, start, t)
    ensures cp == start + RunEnd(t, p, base) && result == Value(t[p..RunEnd(t, p, base)], base) % TWO32
  {
    hide RunEnd, Value, Step, IsDigit;
    result, cp := 0, start + p;
    NoDigits(base);
    assert t[p..p] == "";
    while IsDigit(a[cp], base)
      invariant p <= cp - start <= |t| && RunEnd(t, cp - start, base) == RunEnd(t, p, base)
      invariant result == Value(t[p..cp - start], base) % TWO32
      decreases start + |t| - cp
    {
      assert a[cp] == t[cp - start];
      RunOn(t, cp - start, base);
      assert t[p..cp - start + 1] == t[p..cp - start] + [t[cp - start]];
      ValuePush(t[p..cp - start], t[cp - start], base);
      result := Step(result, base, DigitValue(a[cp]));
      cp := cp + 1;
    }
    RunOver(t, cp - start, base);
  }

  lemma NoDigits(base: nat)
    ensures Value("", base) == 0 && !IsDigit(NUL, base)
  {
  }

  lemma RunOn(t: string, p: nat, base: nat)
    requires p < |t| && IsDigit(t[p], base)
    ensures RunEnd(t, p, base) == RunEnd(t, p + 1, base)
  {
    hide IsDigit;
  }

  lemma RunOver(t: string, p: nat, base: nat)
    requires p <= |t| && (p < |t| ==> !IsDigit(t[p], base))
    ensures RunEnd(t, p, base) == p
  {
    hide IsDigit;
  }

  /** A NUL-terminated text in a buffer. */
  predicate Holds(a: array<char>, start: nat, t: string)
    reads a
  {
    && start + |t| < a.Length && a[start + |t|] == NUL && NUL !in t
    && forall k :: start <= k < start + |t| ==> a[k] == t[k - start]
  }

  /** One turn of the loop, in 32 bits. */
  function Step(result: int, base: nat, digit: int): U32 {
    (result * base + digit) % TWO32
  }

  /** command_strtoul, from a place in a buffer on: the value modulo 2^32 and the place behind it. */
  method Strtoul(a: array<char>, start: nat, base0: Base, ghost t: string) returns (result: U32, endp: nat)
    requires Holds(a, start, t)
    ensures result == Number(t, base0).0 && endp == start + Number(t, base0).1
  {
    hide RunEnd, Value;
    var cp, base: nat := start, base0;
    if a[cp] == '0' {
      cp := cp + 1;
      if a[cp] == 'x' && IsXDigit(a[cp + 1]) {
        base := 16;
        cp := cp + 1;
      }
      if base == 0 { base := 8; }
    }
    if base == 0 { base := 10; }
    var neg := a[cp] == '-';
    if neg { cp := cp + 1; }
    assert cp - start == DigitsAt(t) && base == Radix(t, base0) && neg == Negative(t);
    result, endp := ReadDigits(a, start, cp - start, base, t);
    if neg {
      Negated(Value(t[DigitsAt(t)..RunEnd(t, DigitsAt(t), base)], base));
      result := -(result as int) % TWO32;
    }
  }

  lemma Wrap(q: int, n: int)
    ensures (q * TWO32 + n) % TWO32 == n % TWO32
  {
    var d, r := n / TWO32, n % TWO32;
    assert q * TWO32 + n == (q + d) * TWO32 + r;
  }

  lemma Negated(v: int)
    ensures -(v % TWO32) % TWO32 == -v % TWO32
  {
    Wrap(-(v / TWO32), -(v % TWO32));
  }

  lemma StepWraps(v: int, base: nat, digit: int)
    ensures Step(v % TWO32, base, digit) == Step(v, base, digit)
  {
    var q, r := v / TWO32, v % TWO32;
    Distribute(q, r, base);
    Wrap(q * base, r * base + digit);
  }

  lemma Distribute(q: int, r: int, base: nat)
    ensures (q * TWO32 + r) * base == q * base * TWO32 + r * base
  {
  }

  lemma ValuePush(t: string, c: char, base: nat)
    ensures Value(t + [c], base) % TWO32 == Step(Value(t, base) % TWO32, base, DigitValue(c))
  {
    assert (t + [c])[..|t|] == t;
    StepWraps(Value(t, base), base, DigitValue(c));
  }
}
