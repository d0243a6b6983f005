/** Printed numbers read back, and the one way of printing them that does not. */
module StrtoulRoundTrip {
  import opened Integers
  import opened Strtoul

  /** A digit, in lower or upper case. */
  function Digit(v: nat, upper: bool): (c: char)
    requires v < 16
    ensures IsXDigit(c) && DigitValue(c) == v
  {
    if v < 10 then ('0' as int + v) as char
    else ((if upper then 'A' as int else 'a' as int) + (v - 10)) as char
  }

  /** The bases a number can be printed in. */
  type PrintBase = b: nat | 2 <= b <= 16 witness 10

  /** A number printed in a base without leading zeros. */
  function Numeral(v: nat, base: PrintBase, upper: bool): (t: string)
    ensures t != ""
    decreases v
  {
    if v < base then [Digit(v, upper)] else Numeral(v / base, base, upper) + [Digit(v % base, upper)]
  }

  lemma {:induction false} NumeralIsDigits(v: nat, base: PrintBase, upper: bool)
    ensures AllDigits(Numeral(v, base, upper), base) && Value(Numeral(v, base, upper), base) == v
    ensures Numeral(v, base, upper)[0] == '0' <==> v == 0
    decreases v
  {
    hide Value, Digit;
    if v < base {
      ValueOne(Digit(v, upper), base);
    } else {
      var front, last := Numeral(v / base, base, upper), Digit(v % base, upper);
      DivMod(v, base);
      NumeralIsDigits(v / base, base, upper);
      ValueLast(front, last, base);
    }
  }

  lemma NumeralOne(v: nat, base: PrintBase, upper: bool)
    requires v < base
    ensures Numeral(v, base, upper) == [Digit(v, upper)]
  {
  }

  lemma DivMod(v: nat, base: nat)
    requires base > 0
    ensures v / base * base + v % base == v
    ensures v >= base >= 2 ==> 0 < v / base < v
  {
  }

  lemma ValueOne(c: char, base: nat)
    ensures Value([c], base) == DigitValue(c)
  {
    assert [c][..0] == "";
  }

  lemma ValueNone()
    ensures forall base :: Value("", base) == 0
  {
  }

  lemma ValueLast(t: string, c: char, base: nat)
    ensures Value(t + [c], base) == Value(t, base) * base + DigitValue(c)
  {
    assert (t + [c])[..|t|] == t;
  }

  /** Nothing that could belong to the numeral comes behind it. */
  predicate Apart(rest: string) {
    rest == "" || (!IsXDigit(rest[0]) && rest[0] != 'x' && rest[0] != '-')
  }

  lemma {:induction false} RunIs(t: string, p: nat, end: nat, base: nat)
    requires p <= end <= |t| && AllDigits(t[p..end], base) && (end < |t| ==> !IsDigit(t[end], base))
    ensures RunEnd(t, p, base) == end
    decreases end - p
  {
    if p < end {
      assert t[p..end][0] == t[p] && t[p..end][1..] == t[p + 1..end];
      RunIs(t, p + 1, end, base);
    }
  }

  /** Every 32-bit value printed in decimal, whatever comes behind it: the value, and the place behind it. */
  lemma DecimalRoundTrip(v: U32, base: Base, rest: string)
    requires (base == 0 || base == 10) && Apart(rest)
    ensures Number(Numeral(v, 10, false) + rest, base) == (v, |Numeral(v, 10, false)|)
  {
    hide Value, RunEnd, Digit, Numeral;
    ValueNone();
    var d := Numeral(v, 10, false);
    var t := d + rest;
    NumeralIsDigits(v, 10, false);
    assert d[0] == t[0] && t[0] != '-';
    if v == 0 {
      NumeralOne(v, 10, false);
      RunIs(t, 1, 1, Radix(t, base));
      assert t[1..1] == "";
    } else {
      RunIs(t, 0, |d|, 10);
      assert t[0..|d|] == d;
    }
  }

  /** A minus sign in front of it negates the value modulo 2^32. */
  lemma NegativeRoundTrip(v: U32, base: Base, rest: string)
    requires (base == 0 || base == 10) && Apart(rest)
    ensures Number("-" + Numeral(v, 10, false) + rest, base) ==
            (if v == 0 then 0 else TWO32 - v, 1 + |Numeral(v, 10, false)|)
  {
    hide Value, RunEnd, Digit, Numeral;
    var d := Numeral(v, 10, false);
    var t := "-" + d + rest;
    NumeralIsDigits(v, 10, false);
    assert t[0] == '-' && t[1..1 + |d|] == d;
    RunIs(t, 1, 1 + |d|, 10);
    Negates(v);
  }

  lemma Negates(v: U32)
    ensures -(v as int) % TWO32 == if v == 0 then 0 else TWO32 - v
  {
  }

  /** Every 32-bit value printed as 0x and hexadecimal digits of either case, whatever base the caller gives. */
  lemma HexRoundTrip(v: U32, upper: bool, base: Base, rest: string)
    requires Apart(rest)
    ensures Number("0x" + Numeral(v, 16, upper) + rest, base) == (v, 2 + |Numeral(v, 16, upper)|)
  {
    hide Value, RunEnd, Digit, Numeral;
    var d := Numeral(v, 16, upper);
    var t := "0x" + d + rest;
    NumeralIsDigits(v, 16, upper);
    assert t[2] == d[0] && t[2..2 + |d|] == d;
    RunIs(t, 2, 2 + |d|, 16);
  }

  lemma {:induction false} OctalIsLess(t: string)
    requires AllDigits(t, 8)
    ensures 0 <= Value(t, 8) <= Value(t, 10)
    ensures |t| >= 2 && t[0] != '0' ==> Value(t, 8) < Value(t, 10)
    ensures t != "" && t[0] != '0' ==> Value(t, 10) > 0
  {
    if t != "" { OctalIsLess(t[..|t| - 1]); }
  }

  /** A front of a numeral is worth less than the whole. */
  lemma {:induction false} FrontIsLess(t: string, k: nat)
    requires k < |t| && AllDigits(t, 10) && t[0] != '0'
    ensures 0 <= Value(t[..k], 10) < Value(t, 10)
  {
    var front := t[..|t| - 1];
    if |t| == 1 {
      ValueOne(t[0], 10);
      assert t == [t[0]];
    } else {
      FrontIsLess(front, if k < |front| then k else 0);
      assert front[..0] == "" && t[..k] == if k < |front| then front[..k] else front;
    }
  }

  /** A decimal numeral with a leading zero and no base given is read as octal: it means what was printed if and only
      if the number is less than eight. */
  lemma LeadingZero(v: U32, rest: string)
    requires Apart(rest)
    ensures Number("0" + Numeral(v, 10, false) + rest, 0).0 == v <==> v < 8
  {
    hide Value, RunEnd, Digit, Numeral;
    var d := Numeral(v, 10, false);
    var t := "0" + d + rest;
    NumeralIsDigits(v, 10, false);
    assert t[1] == d[0] && DigitsAt(t) == 1 && Radix(t, 0) == 8;
    var end := RunEnd(t, 1, 8);
    RunWithin(t, 1, 1 + |d|);
    assert t[1..end] == d[..end - 1];
    if v < 8 {
      NumeralOne(v, 10, false);
      RunIs(t, 1, 2, 8);
      ValueOne(d[0], 8);
    } else {
      OctalFront(d, end - 1);
    }
  }

  /** The run of octal digits ends with the numeral at the latest. */
  lemma {:induction false} RunWithin(t: string, p: nat, end: nat)
    requires p <= end <= |t| && (end < |t| ==> !IsXDigit(t[end]))
    ensures RunEnd(t, p, 8) <= end
    decreases end - p
  {
    if p < end && IsDigit(t[p], 8) { RunWithin(t, p + 1, end); }
  }

  lemma OctalFront(d: string, k: nat)
    requires k <= |d| && AllDigits(d, 10) && AllDigits(d[..k], 8) && d != "" && d[0] != '0' && Value(d, 10) >= 8
    ensures 0 <= Value(d[..k], 8) < Value(d, 10)
  {
    OctalIsLess(d[..k]);
    if k < |d| {
      FrontIsLess(d, k);
    } else {
      assert d[..k] == d;
    }
  }
}
