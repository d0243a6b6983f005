/** Splitting an aggregated USB transfer into its records: once over a preallocated buffer with a read cursor,
    once over an socket buffer that is pulled forward. Both undo concatenation. */
module Deaggregation {
  import opened Integers
  import opened UsbPacket

  const RX_ALIGNMENT: nat := 4

  /** What the splitter hands on: a received frame with its header, or a configuration message with its header. */
  datatype Item = DataFrame(bytes: seq<Byte>) | Message(bytes: seq<Byte>)

  // ---- records ----

  function Le16(lo: Byte, hi: Byte): (n: nat)
    ensures n < TWO16
  {
    var (l: int, h: int) := (lo, hi);
    l + 256 * h
  }

  function Length(s: seq<Byte>): (n: nat)
    requires |s| >= 2
    ensures n < TWO16
  {
    Le16(s[0], s[1])
  }

  function RoundUp(n: nat): nat {
    AlignUp(n, RX_ALIGNMENT)
  }

  /** How many bytes a record with this header takes. */
  function Size(s: seq<Byte>): nat
    requires |s| >= 3
  {
    if IsCfg(s[2]) then RoundUp(Length(s)) + 4 else Length(s) + RX_HWHRD_LEN
  }

  /** A well-formed record: a length that is not zero, as many bytes as it calls for, in a 16-bit size. */
  predicate Record(r: seq<Byte>) {
    |r| >= 3 && Length(r) > 0 && |r| == Size(r) < TWO16
  }

  /** What is to be delivered for a record. */
  function Payload(r: seq<Byte>): Item
    requires Record(r)
  {
    if IsCfg(r[2]) then Message(r[..Length(r) + 4]) else DataFrame(r)
  }

  /** Nothing more: the bytes are used up, or the next length is zero. */
  predicate Ended(s: seq<Byte>) {
    |s| < 2 || Length(s) == 0
  }

  function Concat(rs: seq<seq<Byte>>): seq<Byte> {
    if rs == [] then [] else rs[0] + Concat(rs[1..])
  }

  predicate Records(rs: seq<seq<Byte>>) {
    forall i :: 0 <= i < |rs| ==> Record(rs[i])
  }

  function Payloads(rs: seq<seq<Byte>>): seq<Item>
    requires Records(rs)
  {
    if rs == [] then [] else [Payload(rs[0])] + Payloads(rs[1..])
  }

  lemma NextRecord(rs: seq<seq<Byte>>)
    requires Records(rs) && rs != []
    ensures Records(rs[1..]) && Payloads(rs) == [Payload(rs[0])] + Payloads(rs[1..])
  {
  }

  lemma Append(items: seq<Item>, item: Item, rest: seq<Item>)
    ensures items + ([item] + rest) == items + [item] + rest
  {
  }

  lemma StreamEnds(tail: seq<Byte>)
    ensures Concat([]) + tail == tail && Payloads([]) == []
  {
  }

  /** The bytes start with record r, of which at least the header and the length it gives are there. */
  predicate AtRecord(s: seq<Byte>, r: seq<Byte>) {
    Record(r) && 8 <= |r| <= |s| && s[..|r|] == r && Length(r) + 4 <= |r|
  }

  /** The first record can be read off the stream as if it stood alone. */
  lemma FirstRecord(rs: seq<seq<Byte>>, tail: seq<Byte>, s: seq<Byte>)
    requires Records(rs) && rs != [] && s == Concat(rs) + tail
    ensures AtRecord(s, rs[0]) && s[|rs[0]|..] == Concat(rs[1..]) + tail && !Ended(s) && Length(s) <= |s|
    ensures 8 <= |rs[0]| <= |s|
  {
    var r, rest := rs[0], Concat(rs[1..]) + tail;
    assert Record(r);
    assert s == r + rest;
    hide Concat;
    assert s[..|r|] == r && s[|r|..] == rest && s[0] == r[0] && s[1] == r[1];
    RoundUpBounds(Length(r));
  }

  /** What the loops read off a record, and what they have to deliver for it. */
  lemma RecordHeader(s: seq<Byte>, r: seq<Byte>)
    requires AtRecord(s, r)
    ensures var n := Le16(s[0], s[1]);
      && |r| <= |s| && |r| < TWO16 && n + 4 <= |r| && 8 <= |r|
      && (if IsCfg(s[2]) then |r| == Adjusted(n) + 4 && Payload(r) == Message(s[..n + 4])
          else |r| == WithHeader(n) && Payload(r) == DataFrame(s[..|r|]))
  {
    assert s[..|r|][0] == s[0] && s[..|r|][1] == s[1] && s[..|r|][2] == s[2];
    assert s[..|r|][..Length(r) + 4] == s[..Length(r) + 4];
    RoundUpBounds(Length(r));
    if IsCfg(r[2]) { AdjustedIsRoundUp(Length(r)); }
  }

  /** The records can be read off the bytes in one way only, so whatever splits them correctly agrees. */
  lemma {:induction false} OneReading(rs: seq<seq<Byte>>, tail: seq<Byte>, rs': seq<seq<Byte>>, tail': seq<Byte>)
    requires Records(rs) && Records(rs') && Ended(tail) && Ended(tail')
    requires Concat(rs) + tail == Concat(rs') + tail'
    ensures rs == rs' && tail == tail'
    decreases |rs|, 1
  {
    var s := Concat(rs) + tail;
    assert rs == [] ==> s == tail;
    assert rs' == [] ==> s == tail';
    if rs != [] { FirstRecord(rs, tail, s); }
    if rs' != [] { FirstRecord(rs', tail', s); }
    if rs != [] && rs' != [] { OneReadingStep(rs, tail, rs', tail', s); }
  }

  lemma OneReadingStep(rs: seq<seq<Byte>>, tail: seq<Byte>, rs': seq<seq<Byte>>, tail': seq<Byte>, s: seq<Byte>)
    requires Records(rs) && Records(rs') && Ended(tail) && Ended(tail') && rs != [] && rs' != []
    requires s == Concat(rs) + tail == Concat(rs') + tail'
    ensures rs == rs' && tail == tail'
    decreases |rs|, 0
  {
    FirstRecord(rs, tail, s);
    FirstRecord(rs', tail', s);
    assert |rs[0]| == Size(s) == |rs'[0]| by {
      assert Record(rs[0]) && Record(rs'[0]) && rs[0][2] == s[2] == rs'[0][2];
    }
    assert rs[0] == rs'[0];
    OneReading(rs[1..], tail, rs'[1..], tail');
    assert rs == [rs[0]] + rs[1..] && rs' == [rs'[0]] + rs'[1..];
  }

  lemma RoundUpBounds(n: nat)
    ensures n <= RoundUp(n) < n + RX_ALIGNMENT && RoundUp(n) % RX_ALIGNMENT == 0
  {
  }

  /** The 16-bit arithmetic of the loops: an already aligned length is left alone, others are rounded up. */
  function Adjusted(aggrLen: nat): nat {
    if aggrLen % RX_ALIGNMENT != 0 then RoundUp(aggrLen) % TWO16 else aggrLen
  }

  /** The same for a data record, which comes with its header. */
  function WithHeader(pktLen: nat): nat {
    (pktLen + RX_HWHRD_LEN) % TWO16
  }

  lemma AdjustedIsRoundUp(n: nat)
    requires RoundUp(n) < TWO16
    ensures Adjusted(n) == RoundUp(n)
  {
  }

  // ---- the preallocated buffer ----

  class RxBuffer {
    const data: array<Byte>
    var read: nat
    var len: nat

    /** The bytes not yet consumed. */
    function Rest(): seq<Byte>
      reads this, data
    {
      if read + len <= data.Length then data[read..read + len] else []
    }

    constructor (data: array<Byte>, len: nat)
      requires len <= data.Length
      ensures this.data == data && read == 0 && this.len == len
    {
      this.data := data;
      this.read := 0;
      this.len := len;
    }

    /** aicwf_another_ptk_1. */
    method AnotherPtk() returns (more: bool)
      requires read + len <= data.Length
      ensures more <==> read < data.Length - 2 && !Ended(Rest())
      ensures more <==> read < data.Length - 2 && len >= 2 && (data[read] != 0 || data[read + 1] != 0)
    {
      if read >= data.Length - 2 { return false; }
      if len < 2 { return false; }
      var aggrLen := Le16(data[read], data[read + 1]);
      return aggrLen != 0;
    }

    /** The loop of aicwf_process_rxframes over one preallocated buffer that holds the records rs and then
        nothing more. */
    method Split(ghost rs: seq<seq<Byte>>, ghost tail: seq<Byte>) returns (items: seq<Item>)
      requires read + len <= data.Length && Records(rs) && Ended(tail) && Rest() == Concat(rs) + tail
      modifies this
      ensures items == Payloads(rs) && Rest() == tail
    {
      hide *;
      StreamEnds(tail);
      items := [];
      ghost var left := rs;
      var more := AnotherPtkOf(left, tail);
      while more
        invariant read + len <= data.Length && Records(left) && Rest() == Concat(left) + tail
        invariant items + Payloads(left) == Payloads(rs)
        invariant more <==> left != []
        decreases len
      {
        FirstRecord(left, tail, Rest());
        NextRecord(left);
        var item := TakeRecord(left[0]);
        Append(items, item, Payloads(left[1..]));
        items := items + [item];
        left := left[1..];
        more := AnotherPtkOf(left, tail);
      }
      assert Rest() == tail;
    }

    method AnotherPtkOf(ghost left: seq<seq<Byte>>, ghost tail: seq<Byte>) returns (more: bool)
      requires read + len <= data.Length && Records(left) && Ended(tail) && Rest() == Concat(left) + tail
      ensures more <==> left != []
    {
      if left != [] { FirstRecord(left, tail, Rest()); } else { assert Rest() == tail; }
      more := AnotherPtk();
    }

    /** The record at the cursor, in terms of what the loop reads. */
    lemma CursorRecord(r: seq<Byte>)
      requires read + len <= data.Length && AtRecord(Rest(), r)
      ensures 8 <= |r| <= len == |Rest()| && |r| < TWO16
      ensures var n := Le16(data[read], data[read + 1]);
        && n + 4 <= |r|
        && (if IsCfg(data[read + 2]) then |r| == Adjusted(n) + 4 && Payload(r) == Message(Rest()[..n + 4])
            else |r| == WithHeader(n) && Payload(r) == DataFrame(Rest()[..|r|]))
    {
      var s := Rest();
      assert s[0] == data[read] && s[1] == data[read + 1] && s[2] == data[read + 2];
      hide Rest;
      RecordHeader(s, r);
    }

    /** Copies bytes from the cursor on. */
    method Copy(n: nat) returns (bytes: seq<Byte>)
      requires read + len <= data.Length && n <= len
      ensures bytes == Rest()[..n]
    {
      bytes := data[read..read + n];
    }

    method Advance(n: nat)
      requires read + len <= data.Length && n <= len
      modifies this
      ensures read + len <= data.Length && len == old(len) - n && Rest() == old(Rest())[n..]
    {
      read := read + n;
      len := len - n;
      forall k | n <= k < n + len
        ensures old(Rest())[k] == data[read + (k - n)]
      {
      }
    }

    /** The body of the loop: copy the record at the cursor out and step over it. */
    method TakeRecord(ghost r: seq<Byte>) returns (item: Item)
      requires read + len <= data.Length && AtRecord(Rest(), r)
      modifies this
      ensures read + len <= data.Length && len == old(len) - |r| && item == Payload(r)
      ensures Rest() == old(Rest())[|r|..]
    {
      CursorRecord(r);
      hide *;
      var pktLen, step := Le16(data[read], data[read + 1]), 0;
      if !IsCfg(data[read + 2]) {
        step := WithHeader(pktLen);
        var frame := Copy(step);
        item := DataFrame(frame);
      } else {
        step := Adjusted(pktLen) + 4;
        var message := Copy(pktLen + 4);
        item := Message(message);
      }
      assert step == |r| && item == Payload(r);
      Advance(step);
    }
  }

  // ---- the socket buffer ----

  class SkBuff {
    var data: seq<Byte>

    /** skb_pull: does nothing when there is less than n left. */
    method Pull(n: nat)
      modifies this
      ensures data == if n <= |old(data)| then old(data)[n..] else old(data)
    {
      if n <= |data| { data := data[n..]; }
    }

    /** aicwf_another_ptk. */
    method AnotherPtk() returns (more: bool)
      ensures more <==> !Ended(data)
      ensures more <==> |data| >= 2 && (data[0] != 0 || data[1] != 0)
    {
      if |data| < 2 { return false; }
      var aggrLen := Le16(data[0], data[1]);
      return aggrLen != 0;
    }

    method Split(ghost rs: seq<seq<Byte>>, ghost tail: seq<Byte>) returns (items: seq<Item>)
      requires Records(rs) && Ended(tail) && data == Concat(rs) + tail
      modifies this
      ensures items == Payloads(rs) && data == tail
    {
      hide Payload, Record, Size, Ended, AtRecord;
      items := [];
      ghost var left := rs;
      while true
        invariant Records(left) && data == Concat(left) + tail
        invariant items + Payloads(left) == Payloads(rs)
        decreases |left|
      {
        if left != [] { FirstRecord(left, tail, data); NextRecord(left); } else { assert data == tail; }
        var more := AnotherPtk();
        if !more { break; }
        if Le16(data[0], data[1]) > |data| { break; }
        var item := TakeRecord(left[0]);
        items := items + [item];
        left := left[1..];
      }
      assert items + [] == items;
    }

    /** The body of the loop. */
    method TakeRecord(ghost r: seq<Byte>) returns (item: Item)
      requires AtRecord(data, r)
      modifies this
      ensures data == old(data)[|r|..] && item == Payload(r)
    {
      RecordHeader(data, r);
      hide *;
      var pktLen := Le16(data[0], data[1]);
      if !IsCfg(data[2]) {
        var aggrLen := WithHeader(pktLen);
        item := DataFrame(data[..aggrLen]);
        Pull(aggrLen);
      } else {
        var adjustLen := Adjusted(pktLen);
        item := Message(data[..pktLen + 4]);
        Pull(adjustLen + 4);
      }
    }
  }
}
