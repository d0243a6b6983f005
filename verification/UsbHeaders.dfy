/** The header of a received packet: its two bytes of length and its type, and the two places that read it. */
module UsbHeaders {
  import opened Integers
  import opened Wrappers
  import opened UsbPacket
  import D = Deaggregation
  import R = Reassembly

  /** Bit four of the type tells a configuration message. */
  lemma BitFour(h: nat, l: nat)
    requires h < 8 && l < 16
    ensures IsCfg(32 * h + 16 + l) && !IsCfg(32 * h + l)
  {
  }

  /** The length is stored low-order byte first. */
  lemma LengthReads(n: U16)
    ensures D.Le16(n % 256, n / 256) == n
  {
  }

  /** A data packet takes its length and sixty bytes; a message four and its length rounded up to a multiple of four. */
  lemma Extent(n: U16, t: Byte, rest: seq<Byte>)
    ensures var size := D.Size([n % 256, n / 256, t] + rest);
      if IsCfg(t) then size % 4 == 0 && n + 4 <= size < n + 8 else size == n + 60
  {
    var s := [n % 256, n / 256, t] + rest;
    LengthReads(n);
    assert D.Length(s) == n && s[2] == t;
    hide D.Length;
    ExtentOf(s, n);
  }

  lemma ExtentOf(s: seq<Byte>, n: nat)
    requires |s| >= 3 && D.Length(s) == n
    ensures if IsCfg(s[2]) then D.Size(s) % 4 == 0 && n + 4 <= D.Size(s) < n + 8 else D.Size(s) == n + 60
  {
    D.RoundUpBounds(n);
    hide D.RoundUp, D.Length, IsCfg;
  }

  /** The reassembly of long packets and the splitting of aggregated ones agree on how long a packet is: the data
      endpoint expects exactly the extent of the record for data and command responses, and for confirmations if their
      length is eight, and knows no other message; the message endpoint expects the same, but no data. */
  lemma SameExtent(b0: Byte, b1: Byte, t: Byte, rest: seq<Byte>)
    ensures var size := D.Size([b0, b1, t] + rest);
      && R.Expected(R.Data, b0, b1, t) ==
         (if !IsCfg(t) || t == 0x11 || (t == 0x12 && D.Le16(b0, b1) == 8) then Some(size) else None)
      && R.Expected(R.Message, b0, b1, t) == if IsCfg(t) then R.Expected(R.Data, b0, b1, t) else None
  {
    assert D.Length([b0, b1, t] + rest) == D.Le16(b0, b1);
    BitFour(0, 1);
    BitFour(0, 2);
  }
}
