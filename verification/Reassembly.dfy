/** Reassembly of packets longer than one USB transfer, in the completion callbacks of the two IN endpoints. */
module Reassembly {
  import opened Integers
  import opened Wrappers
  import opened UsbPacket

  const MAX_PKT: nat := 2048

  const USB_TYPE_CFG_CMD_RSP: int := 0x11
  const USB_TYPE_CFG_DATA_CFM: int := 0x12

  /** The message endpoint carries no data packets. */
  datatype Endpoint = Message | Data

  /** A completed transfer: the receive buffer and how many of its bytes were written. */
  datatype Frag = Frag(buf: seq<Byte>, len: nat) {
    predicate Valid() {
      |buf| == MAX_PKT && 1 <= len <= MAX_PKT
    }

    function Bytes(): seq<Byte>
      requires Valid()
    {
      buf[..len]
    }
  }

  /** The length a packet must have, going by its first three bytes; none if it cannot be a packet at all. */
  function Expected(ep: Endpoint, b0: Byte, b1: Byte, t: Byte): Option<nat> {
    var len := b0 + 256 * b1;
    if !IsCfg(t) then (if ep == Data then Some(len + RX_HWHRD_LEN) else None)
    else if t == USB_TYPE_CFG_CMD_RSP then Some((len + 4 + 3) / 4 * 4)
    else if t == USB_TYPE_CFG_DATA_CFM then (if len == 8 then Some(12) else None)
    else None
  }

  // ---- what one callback does ----

  datatype State =
    | Idle
    | Partial(data: seq<Byte>, total: nat, cur: nat, totalFrags: nat, curFrags: nat)

  datatype Outcome = Outcome(state: State, delivered: Option<seq<Byte>>)

  /** A transfer examined as the start of a packet. */
  function Examine(ep: Endpoint, f: Frag, memory: bool): Outcome
    requires f.Valid()
  {
    var expected := Expected(ep, f.buf[0], f.buf[1], f.buf[2]);
    if expected.None? then Outcome(Idle, None)
    else
      var total := expected.value;
      if total > MAX_PKT && f.len == MAX_PKT then
        Outcome(if memory then Partial(f.Bytes(), total, f.len, Frags(total), 1) else Idle, None)
      else if total != f.len then Outcome(Idle, None)
      else Outcome(Idle, Some(f.Bytes()))
  }

  function Frags(total: nat): nat {
    AlignUp(total, MAX_PKT) / MAX_PKT
  }

  /** The transfer fits the packet being put together. */
  predicate Fits(s: State, f: Frag)
    requires s.Partial?
  {
    if s.curFrags + 1 == s.totalFrags then s.cur + f.len == s.total else f.len == MAX_PKT
  }

  function Receive(ep: Endpoint, s: State, f: Frag, memory: bool): Outcome
    requires f.Valid()
  {
    if s.Partial? && Fits(s, f) then
      if s.curFrags + 1 == s.totalFrags then Outcome(Idle, Some(s.data + f.Bytes()))
      else Outcome(s.(data := s.data + f.Bytes(), cur := s.cur + f.len, curFrags := s.curFrags + 1), None)
    else Examine(ep, f, memory)
  }

  /** While a packet is being put together only full transfers have come in, and more is to come. */
  predicate Sound(s: State) {
    s.Partial? ==>
      && s.cur == |s.data| == MAX_PKT * s.curFrags < s.total
      && s.totalFrags == Frags(s.total) && 1 <= s.curFrags < s.totalFrags
  }

  lemma FragsIsCeiling(total: nat)
    ensures 2048 * Frags(total) >= total && (total > 0 ==> 2048 * (Frags(total) - 1) < total)
  {
    var q := (total + MAX_PKT - 1) / MAX_PKT;
    assert AlignUp(total, MAX_PKT) == q * MAX_PKT;
    assert Frags(total) == q;
  }

  /** Every transfer keeps the bookkeeping, and what fits stays within what was allocated. */
  lemma ReceiveSound(ep: Endpoint, s: State, f: Frag, memory: bool)
    requires Sound(s) && f.Valid()
    ensures Sound(Receive(ep, s, f, memory).state)
    ensures s.Partial? && Fits(s, f) ==> s.cur + f.len <= s.total
  {
    if s.Partial? { FragsIsCeiling(s.total); }
    var e := Expected(ep, f.buf[0], f.buf[1], f.buf[2]);
    if e.Some? { FragsIsCeiling(e.value); }
  }

  /** A transfer that breaks the pattern costs the packet in progress and is then taken for what it is. */
  lemma MisfitStartsAfresh(ep: Endpoint, s: State, f: Frag, memory: bool)
    requires f.Valid() && s.Partial? && !Fits(s, f)
    ensures Receive(ep, s, f, memory) == Receive(ep, Idle, f, memory)
  {
  }

  // ---- the callback in place ----

  class Reassembler {
    const ep: Endpoint
    var skb: array?<Byte>
    var skbLen: nat
    var totalLen: nat
    var curLen: nat
    var totalFrags: nat
    var curFrags: nat

    ghost predicate Valid()
      reads this, skb
    {
      && (skb != null ==> skbLen <= skb.Length == totalLen)
      && Sound(View())
    }

    ghost function View(): State
      reads this, skb
    {
      if skb == null || skbLen > skb.Length then Idle
      else Partial(skb[..skbLen], totalLen, curLen, totalFrags, curFrags)
    }

    constructor (ep: Endpoint)
      ensures Valid() && View() == Idle && this.ep == ep
    {
      this.ep := ep;
      skb, skbLen := null, 0;
      totalLen, curLen, totalFrags, curFrags := 0, 0, 0, 0;
    }

    method Reset()
      modifies this
      ensures Valid() && View() == Idle
    {
      skb, skbLen := null, 0;
      totalLen, curLen, totalFrags, curFrags := 0, 0, 0, 0;
    }

    /** The body of aicwf_usb_msg_rx_complete (or aicwf_usb_rx_complete) once the transfer is known to be good. */
    method RxComplete(f: Frag, memory: bool) returns (delivered: Option<seq<Byte>>)
      requires Valid() && f.Valid()
      modifies this, skb
      ensures Valid() && Outcome(View(), delivered) == Receive(ep, old(View()), f, memory)
    {
      ReceiveSound(ep, View(), f, memory);
      var check := true;
      delivered := None;
      if skb != null {
        var valid, done := false, false;
        if curFrags + 1 == totalFrags {
          if curLen + f.len == totalLen { valid, done := true, true; }
        } else {
          if f.len == MAX_PKT { valid := true; }
        }
        if valid {
          Append(f);
          curLen := curLen + f.len;
          curFrags := curFrags + 1;
          check := false;
          if done {
            delivered := Some(skb[..skbLen]);
            Reset();
          }
        } else {
          Reset();
        }
      }
      if check {
        delivered := Start(f, memory);
      }
    }

    /** memcpy behind what is already there. */
    method Append(f: Frag)
      requires skb != null && f.Valid() && skbLen + f.len <= skb.Length
      modifies this`skbLen, skb
      ensures skbLen == old(skbLen) + f.len && skb[..skbLen] == old(skb[..skbLen]) + f.Bytes()
    {
      forall i | 0 <= i < f.len { skb[skbLen + i] := f.buf[i]; }
      skbLen := skbLen + f.len;
    }

    method Start(f: Frag, memory: bool) returns (delivered: Option<seq<Byte>>)
      requires f.Valid() && Valid() && View() == Idle
      modifies this
      ensures Valid() && Outcome(View(), delivered) == Examine(ep, f, memory)
    {
      assert skb == null;
      ReceiveSound(ep, Idle, f, memory);
      delivered := None;
      var expected := Expected(ep, f.buf[0], f.buf[1], f.buf[2]);
      if expected.None? { return; }
      var total := expected.value;
      if total > MAX_PKT && f.len == MAX_PKT {
        if memory {
          skb := new Byte[total];
          skbLen := 0;
          Append(f);
          assert skb[..skbLen] == f.Bytes();
          totalLen, curLen := total, f.len;
          totalFrags := Frags(total);
          curFrags := 1;
        }
      } else if total == f.len {
        delivered := Some(f.Bytes());
      }
    }
  }

  // ---- fragmenting and putting together again ----

  /** A whole packet, whose own header gives its length. */
  predicate Packet(ep: Endpoint, p: seq<Byte>) {
    |p| >= 3 && Expected(ep, p[0], p[1], p[2]) == Some(|p|)
  }

  /** fs are the transfers a packet is sent in: full ones, then one with what is left. */
  predicate CutOf(fs: seq<Frag>, p: seq<Byte>) {
    && |fs| == Frags(|p|)
    && (forall k :: 0 <= k < |fs| ==> fs[k].Valid())
    && (forall k {:trigger IsPiece(fs[k], p, k)} :: 0 <= k < |fs| ==> IsPiece(fs[k], p, k))
  }

  predicate IsPiece(f: Frag, p: seq<Byte>, k: nat) {
    f.Valid() && MAX_PKT * k < |p| && f.Bytes() == p[MAX_PKT * k..Min(MAX_PKT * (k + 1), |p|)]
  }

  /** A run of transfers, memory permitting: the state after it, and the packets it has delivered. */
  function Feed(ep: Endpoint, s: State, fs: seq<Frag>): (r: (State, seq<seq<Byte>>))
    requires forall k :: 0 <= k < |fs| ==> fs[k].Valid()
  {
    if fs == [] then (s, [])
    else
      var (s', out) := Feed(ep, s, fs[..|fs| - 1]);
      var o := Receive(ep, s', fs[|fs| - 1], true);
      (o.state, out + Handed(o.delivered))
  }

  function Handed(d: Option<seq<Byte>>): seq<seq<Byte>> {
    if d.Some? then [d.value] else []
  }

  lemma FragLength(fs: seq<Frag>, p: seq<Byte>, k: nat)
    requires CutOf(fs, p) && k < |fs|
    ensures fs[k].len == if k + 1 < |fs| then MAX_PKT else |p| - MAX_PKT * k
    ensures MAX_PKT * k < |p| && fs[k].Bytes() == p[MAX_PKT * k..MAX_PKT * k + fs[k].len]
  {
    FragsIsCeiling(|p|);
    assert IsPiece(fs[k], p, k) && |fs[k].Bytes()| == fs[k].len;
    if k + 1 < |fs| { assert IsPiece(fs[k + 1], p, k + 1); }
  }

  lemma {:induction false} FeedPrefix(ep: Endpoint, p: seq<Byte>, fs: seq<Frag>, k: nat)
    requires Packet(ep, p) && CutOf(fs, p) && 1 <= k < |fs|
    ensures Feed(ep, Idle, fs[..k]) == (Partial(p[..MAX_PKT * k], |p|, MAX_PKT * k, |fs|, k), [])
  {
    hide Receive;
    FragLength(fs, p, k - 1);
    assert fs[..k][..k - 1] == fs[..k - 1];
    var none: seq<seq<Byte>> := [];
    assert none + none == none;
    if k == 1 {
      assert fs[..k][..0] == [] && Feed(ep, Idle, []) == (Idle, []);
      assert p[..MAX_PKT] == p[..MAX_PKT * k] && fs[..k][0] == fs[0];
      FirstFrag(ep, p, fs);
    } else {
      FeedPrefix(ep, p, fs, k - 1);
      MiddleFrag(ep, p, fs, k - 1);
    }
  }

  lemma MiddleFrag(ep: Endpoint, p: seq<Byte>, fs: seq<Frag>, k: nat)
    requires Packet(ep, p) && CutOf(fs, p) && 1 <= k && k + 1 < |fs|
    ensures MAX_PKT * (k + 1) <= |p|
    ensures Receive(ep, Partial(p[..MAX_PKT * k], |p|, MAX_PKT * k, |fs|, k), fs[k], true) ==
            Outcome(Partial(p[..MAX_PKT * (k + 1)], |p|, MAX_PKT * (k + 1), |fs|, k + 1), None)
  {
    FragLength(fs, p, k);
    FragLength(fs, p, k + 1);
    assert p[..MAX_PKT * k] + fs[k].Bytes() == p[..MAX_PKT * (k + 1)];
  }

  lemma FirstFrag(ep: Endpoint, p: seq<Byte>, fs: seq<Frag>)
    requires Packet(ep, p) && CutOf(fs, p) && |fs| > 1
    ensures Receive(ep, Idle, fs[0], true) == Outcome(Partial(p[..MAX_PKT], |p|, MAX_PKT, |fs|, 1), None)
  {
    FragLength(fs, p, 0);
    FragsIsCeiling(|p|);
    var f := fs[0];
    assert f.Bytes() == p[..MAX_PKT];
    assert forall i :: 0 <= i < 3 ==> f.buf[i] == f.Bytes()[i] == p[i];
  }

  /** A packet of any length, sent in full transfers and a remainder, is delivered once, byte for byte, by the
      last of them, and leaves nothing behind. */
  lemma FeedPacket(ep: Endpoint, p: seq<Byte>, fs: seq<Frag>)
    requires Packet(ep, p) && CutOf(fs, p)
    ensures Feed(ep, Idle, fs) == (Idle, [p])
  {
    hide Receive;
    var n := |fs|;
    FragLength(fs, p, n - 1);
    assert fs[..n - 1] + [fs[n - 1]] == fs;
    if n == 1 {
      assert Feed(ep, Idle, fs[..0]) == (Idle, []);
      OnlyFrag(ep, p, fs);
    } else {
      FeedPrefix(ep, p, fs, n - 1);
      LastFrag(ep, p, fs);
    }
    assert [] + [p] == [p];
  }

  lemma OnlyFrag(ep: Endpoint, p: seq<Byte>, fs: seq<Frag>)
    requires Packet(ep, p) && CutOf(fs, p) && |fs| == 1
    ensures Receive(ep, Idle, fs[0], true) == Outcome(Idle, Some(p))
  {
    FragLength(fs, p, 0);
    var f := fs[0];
    assert f.Bytes() == p;
    assert forall i :: 0 <= i < 3 ==> f.buf[i] == f.Bytes()[i];
  }

  lemma LastFrag(ep: Endpoint, p: seq<Byte>, fs: seq<Frag>)
    requires Packet(ep, p) && CutOf(fs, p) && |fs| > 1
    ensures var n := |fs|; var m := MAX_PKT * (n - 1);
      m <= |p| && Receive(ep, Partial(p[..m], |p|, m, n, n - 1), fs[n - 1], true) == Outcome(Idle, Some(p))
  {
    var n := |fs|;
    FragLength(fs, p, n - 1);
    FragsIsCeiling(|p|);
    assert p[..MAX_PKT * (n - 1)] + fs[n - 1].Bytes() == p;
  }

  /** One transfer more. */
  lemma FeedPush(ep: Endpoint, s: State, fs: seq<Frag>, f: Frag)
    requires (forall k :: 0 <= k < |fs| ==> fs[k].Valid()) && f.Valid()
    ensures var (s', out) := Feed(ep, s, fs); var o := Receive(ep, s', f, true);
      Feed(ep, s, fs + [f]) == (o.state, out + Handed(o.delivered))
  {
    hide Receive;
    assert (fs + [f])[..|fs|] == fs;
  }

  lemma FeedNone(ep: Endpoint, s: State)
    ensures Feed(ep, s, []) == (s, [])
  {
  }

  lemma {:induction false} FeedAppend(ep: Endpoint, s: State, fs: seq<Frag>, gs: seq<Frag>)
    requires forall k :: 0 <= k < |fs| ==> fs[k].Valid()
    requires forall k :: 0 <= k < |gs| ==> gs[k].Valid()
    ensures var (s1, out1) := Feed(ep, s, fs); var (s2, out2) := Feed(ep, s1, gs);
      Feed(ep, s, fs + gs) == (s2, out1 + out2)
  {
    hide *;
    var (s1, out1) := Feed(ep, s, fs);
    if gs == [] {
      assert fs + gs == fs && out1 + [] == out1;
      FeedNone(ep, s1);
    } else {
      var init, g := gs[..|gs| - 1], gs[|gs| - 1];
      var (s2, out2) := Feed(ep, s1, init);
      FeedAppend(ep, s, fs, init);
      assert init + [g] == gs && fs + init + [g] == fs + gs;
      FeedPush(ep, s1, init, g);
      FeedPush(ep, s, fs + init, g);
      Regroup(out1, out2, Handed(Receive(ep, s2, g, true).delivered));
    }
  }

  lemma Regroup<T>(a: seq<T>, b: seq<T>, c: seq<T>)
    ensures a + b + c == a + (b + c)
  {
  }

  function Concat(fss: seq<seq<Frag>>): seq<Frag> {
    if fss == [] then [] else Concat(fss[..|fss| - 1]) + fss[|fss| - 1]
  }

  /** Back to back, any number of packets: all of them arrive, in order, and nothing else does. */
  lemma {:induction false} FeedPackets(ep: Endpoint, ps: seq<seq<Byte>>, fss: seq<seq<Frag>>)
    requires |ps| == |fss| && forall i :: 0 <= i < |ps| ==> Packet(ep, ps[i]) && CutOf(fss[i], ps[i])
    ensures forall k :: 0 <= k < |Concat(fss)| ==> Concat(fss)[k].Valid()
    ensures Feed(ep, Idle, Concat(fss)) == (Idle, ps)
  {
    if ps != [] {
      var n := |ps| - 1;
      FeedPackets(ep, ps[..n], fss[..n]);
      FeedPacket(ep, ps[n], fss[n]);
      FeedAppend(ep, Idle, Concat(fss[..n]), fss[n]);
      assert ps[..n] + [ps[n]] == ps;
    }
  }
}
