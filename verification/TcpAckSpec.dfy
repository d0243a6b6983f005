/** The TCP ACK suppressor as functions on its flow table: what each call makes of the 32 slots. */
module TcpAckSpec {
  import opened Integers
  import opened Wrappers

  const TCP_ACK_NUM: nat := 32
  const TCP_ACK_DROP_CNT: int := 10

  datatype Flow = Flow(source: int, dest: int, saddr: int, daddr: int)

  /** One acknowledgement handed down by the stack. ack is its acknowledgement number before TCP cuts it
      to 32 bits; id tells one message buffer from another. */
  datatype Msg = Msg(id: nat, flow: Flow, ack: nat)

  function Wire(m: Msg): U32 {
    m.ack % TWO32
  }

  /** U32_BEFORE: the signed 32-bit difference a - b is not positive. */
  predicate U32Before(a: U32, b: U32) {
    var d := (a - b) % TWO32;
    d == 0 || d >= TWO31
  }

  /** The wrapping comparison orders two true numbers exactly when their difference fits 32 signed bits. */
  lemma BeforeIsExact(x: nat, y: nat)
    requires -TWO31 <= x - y < TWO31
    ensures U32Before(x % TWO32, y % TWO32) <==> x <= y
  {
    var d := x - y;
    var q := x / TWO32 - y / TWO32;
    assert x % TWO32 - y % TWO32 == d - q * TWO32;
    ModShift(d, -q);
    if d < 0 { ModShift(d + TWO32, -1); }
  }

  lemma ModShift(d: int, q: int)
    ensures (d + q * TWO32) % TWO32 == d % TWO32
  {
  }

  /** One step further apart and the comparison is wrong. */
  lemma BeforeFailsAtHalf(y: nat)
    ensures U32Before((y + TWO31) % TWO32, y % TWO32)
  {
    var q := (y + TWO31) / TWO32 - y / TWO32;
    assert (y + TWO31) % TWO32 - y % TWO32 == TWO31 - q * TWO32;
    ModShift(TWO31, -q);
  }

  /** time_after(a, b). */
  predicate TimeAfter(a: Jiffies, b: Jiffies) {
    (b - a) % TWO64 >= TWO63
  }

  /** The wrapping comparison of clock readings is right for true times up to 2^63 ticks apart. */
  lemma AfterIsExact(x: nat, y: nat)
    requires -TWO63 < x - y <= TWO63
    ensures TimeAfter(x % TWO64, y % TWO64) <==> x > y
  {
    var d := y - x;
    var q := y / TWO64 - x / TWO64;
    assert y % TWO64 - x % TWO64 == d - q * TWO64;
    ModShift64(d, -q);
    if d < 0 { ModShift64(d + TWO64, -1); }
  }

  lemma ModShift64(d: int, q: int)
    ensures (d + q * TWO64) % TWO64 == d % TWO64
  {
  }

  datatype Slot = Slot(busy: bool, dropCnt: int, psh: bool, pshSeq: U32, winScale: int,
                       lastTime: Jiffies, timer: bool,
                       held: Option<Msg>, inSend: Option<Msg>, flow: Flow, ackSeq: U32)

  type Slots = s: seq<Slot> | |s| == TCP_ACK_NUM witness seq(TCP_ACK_NUM, _ => EMPTY)

  const EMPTY: Slot := Slot(false, 0, false, 0, 0, 0, false, None, None, Flow(0, 0, 0, 0), 0)

  datatype Table = Table(slots: Slots, maxNum: int, freeIndex: int, lastTime: Jiffies)

  /** What becomes of an offered message: it goes on to the transmit path, or the filter keeps or frees it. */
  datatype Verdict = Verdict(slot: Slot, pass: bool, freed: Option<Msg>)

  // ---- one slot ----

  /** tcp_ack_handle_new. */
  function Handle(s: Slot, m: Msg, now: Jiffies): Verdict {
    var s1 := s.(lastTime := now);
    if !U32Before(s.ackSeq, Wire(m)) then Verdict(s1, false, Some(m))
    else
      var quick := s.psh && !U32Before(Wire(m), s.pshSeq);
      var s2 := s1.(held := None, ackSeq := Wire(m), psh := s.psh && !quick,
                    dropCnt := if quick then s.dropCnt else s.dropCnt + 1);
      if quick || (s.inSend.None? && s2.dropCnt >= TCP_ACK_DROP_CNT)
      then Verdict(s2.(dropCnt := 0, inSend := Some(m), timer := false), true, s.held)
      else Verdict(s2.(held := Some(m), timer := true), false, s.held)
  }

  /** tcp_ack_timeout: the held message, if any, goes out. */
  function TimedOut(s: Slot): (r: (Slot, Option<Msg>)) {
    var s1 := s.(timer := false);
    if s.busy && s.held.Some? && s.inSend.None?
    then (s1.(held := None, dropCnt := 0, inSend := s.held), s.held)
    else (s1, None)
  }

  function Opened(s: Slot, m: Msg, winScale: int, now: Jiffies): Slot {
    s.(busy := true, psh := false, lastTime := now, dropCnt := TCP_ACK_DROP_CNT,
       winScale := if winScale != 0 then winScale else 1, flow := m.flow, ackSeq := Wire(m))
  }

  predicate Stale(s: Slot, now: Jiffies, timeout: Jiffies) {
    s.busy && TimeAfter(now, (s.lastTime + timeout) % TWO64)
  }

  // ---- the table ----

  predicate Matches(s: Slot, f: Flow) {
    s.busy && s.flow == f
  }

  /** tcp_ack_match: the first busy slot of a flow among the slots from i on, or -1. */
  function MatchFrom(slots: Slots, f: Flow, i: nat): (r: int)
    requires i <= TCP_ACK_NUM
    ensures -1 <= r < TCP_ACK_NUM
    ensures r >= 0 ==> i <= r && Matches(slots[r], f)
    ensures forall k :: i <= k < TCP_ACK_NUM && (r < 0 || k < r) ==> !Matches(slots[k], f)
    decreases TCP_ACK_NUM - i
  {
    if i == TCP_ACK_NUM then -1 else if Matches(slots[i], f) then i else MatchFrom(slots, f, i + 1)
  }

  function Match(slots: Slots, f: Flow): (r: int)
    ensures -1 <= r < TCP_ACK_NUM
    ensures r >= 0 ==> Matches(slots[r], f)
    ensures forall k :: 0 <= k < TCP_ACK_NUM && (r < 0 || k < r) ==> !Matches(slots[k], f)
  {
    MatchFrom(slots, f, 0)
  }

  /** The ageing sweep of tcp_ack_update over slots i - 1 down to 0. */
  function AgeBelow(t: Table, i: nat, now: Jiffies, timeout: Jiffies): (r: Table)
    requires i <= TCP_ACK_NUM
    ensures t.freeIndex < TCP_ACK_NUM ==> r.freeIndex < TCP_ACK_NUM
    decreases i
  {
    if i == 0 then t
    else if Stale(t.slots[i - 1], now, timeout)
    then AgeBelow(t.(slots := t.slots[i - 1 := t.slots[i - 1].(busy := false)],
                     freeIndex := i - 1, maxNum := t.maxNum - 1), i - 1, now, timeout)
    else AgeBelow(t, i - 1, now, timeout)
  }

  function Update(t: Table, now: Jiffies, timeout: Jiffies): (r: Table)
    ensures t.freeIndex < TCP_ACK_NUM ==> r.freeIndex < TCP_ACK_NUM
  {
    if TimeAfter(now, (t.lastTime + timeout) % TWO64)
    then AgeBelow(t.(lastTime := now), TCP_ACK_NUM, now, timeout)
    else t
  }

  function IdleFrom(slots: Slots, i: nat): (r: int)
    requires i <= TCP_ACK_NUM
    ensures -1 <= r < TCP_ACK_NUM
    ensures r >= 0 ==> i <= r && !slots[r].busy
    ensures forall k :: i <= k < TCP_ACK_NUM && (r < 0 || k < r) ==> slots[k].busy
    decreases TCP_ACK_NUM - i
  {
    if i == TCP_ACK_NUM then -1 else if !slots[i].busy then i else IdleFrom(slots, i + 1)
  }

  /** tcp_ack_alloc_index: the index it hands out (-1 for none) and the table it leaves. */
  function Alloc(t: Table): (r: (Table, int))
    requires t.freeIndex < TCP_ACK_NUM
    ensures r.1 < TCP_ACK_NUM && r.0.slots == t.slots
  {
    if t.maxNum == TCP_ACK_NUM then (t, -1)
    else if t.freeIndex >= 0 then (t.(freeIndex := -1, maxNum := t.maxNum + 1), t.freeIndex)
    else
      var i := IdleFrom(t.slots, 0);
      if i >= 0 then (t.(freeIndex := -1, maxNum := t.maxNum + 1), i) else (t, -1)
  }

  datatype Filtered = Filtered(table: Table, pass: bool, freed: Option<Msg>)

  function Rescaled(s: Slot, winScale: int): Slot {
    if winScale != 0 && s.winScale != winScale then s.(winScale := winScale) else s
  }

  /** filter_send_tcp_ack after the ageing sweep: kind is what the parser said (0: no acknowledgement at all,
      1: may be dropped, 2: carries more), winScale the window scale option it saw, 0 if none. */
  function Filter(t: Table, m: Msg, kind: nat, winScale: int, enabled: bool, now: Jiffies): Filtered
    requires t.freeIndex < TCP_ACK_NUM
  {
    if kind == 0 && winScale == 0 then Filtered(t, true, None)
    else
      var i := Match(t.slots, m.flow);
      if i >= 0 then
        var s := Rescaled(t.slots[i], winScale);
        if kind > 0 && enabled then
          var v := Handle(s, m, now);
          Filtered(t.(slots := t.slots[i := v.slot]), v.pass, v.freed)
        else Filtered(t.(slots := t.slots[i := s]), true, None)
      else
        var (t1, j) := Alloc(t);
        if j >= 0 then Filtered(t1.(slots := t1.slots[j := Opened(t1.slots[j], m, winScale, now)]), true, None)
        else Filtered(t1, true, None)
  }

  /** filter_rx_tcp_ack, once the segment is known to be an ACK with PSH: remember where the push ends. */
  function Receive(t: Table, f: Flow, end: U32): Table {
    var i := Match(t.slots, f);
    if i >= 0 then t.(slots := t.slots[i := t.slots[i].(psh := true, pshSeq := end)]) else t
  }

  /** move_tcpack_msg: the send of m is over. */
  function Moved(slots: Slots, m: Msg): (r: Slots)
    ensures forall i :: 0 <= i < TCP_ACK_NUM ==>
              r[i] == if slots[i].busy && slots[i].inSend == Some(m) then slots[i].(inSend := None) else slots[i]
  {
    seq(TCP_ACK_NUM, i requires 0 <= i < TCP_ACK_NUM =>
        if slots[i].busy && slots[i].inSend == Some(m) then slots[i].(inSend := None) else slots[i])
  }
}
