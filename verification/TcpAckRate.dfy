/** What the TCP ACK suppressor suppresses: exactly which acknowledgements of a flow go out at once. */
module TcpAckRate {
  import opened Integers
  import opened Wrappers
  import opened TcpAckSpec
  import opened TcpAckAccounts

  // ---- by count ----

  /** Where the count of a slot stands in a cycle of ten; a slot just opened stands at the end of one. */
  function Position(s: Slot): nat {
    if 0 <= s.dropCnt <= 9 then s.dropCnt else 9
  }

  /** Places in a cycle of ten. */
  function Cycle(n: nat): nat {
    n % 10
  }

  lemma Cycles(n: nat)
    ensures Cycle(n) == 9 <==> Cycle(n + 1) == 0
    ensures Cycle(Cycle(n) + 1) == Cycle(n + 1) && Cycle(n + 10) == Cycle(n)
    ensures n < 10 ==> Cycle(n) == n
  {
  }

  /** One acknowledgement that does not go back, nothing being sent and no push to answer. */
  lemma HandleCounts(s: Slot, m: Msg, now: Jiffies)
    requires s.inSend.None? && s.dropCnt >= 0 && !s.psh && U32Before(s.ackSeq, Wire(m))
    ensures var v := Handle(s, m, now);
      && (v.pass <==> Position(s) == 9) && !v.slot.psh && v.slot.dropCnt >= 0
      && Position(v.slot) == Cycle(Position(s) + 1)
      && (v.pass ==> v.slot.held == None && v.slot.inSend == Some(m))
      && (!v.pass ==> v.slot.held == Some(m) && v.slot.inSend == None)
  {
  }

  lemma VerdictAt(r: Slot, m: Msg, now: Jiffies, n: nat, n': nat)
    requires n' == n + 1
    requires r.inSend.None? && !r.psh && r.dropCnt >= 0 && Position(r) == Cycle(n) && U32Before(r.ackSeq, Wire(m))
    ensures var v := Handle(r, m, now);
      && (v.pass <==> Cycle(n') == 0) && v.slot.held == (if v.pass then None else Some(m))
      && !v.slot.psh && v.slot.dropCnt >= 0 && Position(v.slot) == Cycle(n')
  {
    HandleCounts(r, m, now);
    Cycles(n);
    hide Handle, Cycle, Position, U32Before, Wire;
  }

  lemma LastOne(s: Slot, ms: seq<(Msg, Jiffies)>, k: nat, k': nat)
    requires k < k' == k + 1 <= |ms|
    ensures var v := Handle(HandleRun(s, ms[..k]), ms[k].0, ms[k].1); var r := HandleRun(s, ms[..k']);
      r == v.slot.(inSend := None) && Position(r) == Position(v.slot) && Passed(s, ms, k) == v.pass
  {
    hide Handle;
    assert ms[..k'][..k] == ms[..k] && ms[..k'][k] == ms[k];
  }

  /** Where the count stands after the first k. */
  lemma {:induction false} CountTo(s: Slot, ms: seq<(Msg, Jiffies)>, k: nat)
    requires s.inSend.None? && s.dropCnt >= 0 && !s.psh && NonRegressing(s, ms) && k <= |ms|
    ensures var r := HandleRun(s, ms[..k]);
      r.inSend.None? && !r.psh && r.dropCnt >= 0 && Position(r) == Cycle(Position(s) + k)
  {
    if k == 0 {
      Cycles(Position(s));
    } else {
      var j, p := k - 1, Position(s);
      NotBack(s, ms, j);
      hide *;
      CountTo(s, ms, j);
      VerdictAt(HandleRun(s, ms[..j]), ms[j].0, ms[j].1, p + j, p + k);
      LastOne(s, ms, j, k);
    }
  }

  lemma NotBack(s: Slot, ms: seq<(Msg, Jiffies)>, k: nat)
    requires NonRegressing(s, ms) && k < |ms|
    ensures U32Before(HandleRun(s, ms[..k]).ackSeq, Wire(ms[k].0))
  {
    hide HandleRun, U32Before;
  }

  /** Of a run of acknowledgements that do not go back, each one's send over before the next, exactly every tenth goes
      out at once, counted from where the slot stands; the newest of the others is held. */
  lemma EveryTenth(s: Slot, ms: seq<(Msg, Jiffies)>, k: nat)
    requires s.inSend.None? && s.dropCnt >= 0 && !s.psh && NonRegressing(s, ms) && k < |ms|
    ensures Passed(s, ms, k) <==> Cycle(Position(s) + k + 1) == 0
    ensures HandleRun(s, ms[..k + 1]).held == if Passed(s, ms, k) then None else Some(ms[k].0)
  {
    hide *;
    CountTo(s, ms, k);
    NotBack(s, ms, k);
    VerdictAt(HandleRun(s, ms[..k]), ms[k].0, ms[k].1, Position(s) + k, Position(s) + k + 1);
    LastOne(s, ms, k, k + 1);
  }

  /** A flow that has just got its slot has its first acknowledgement after that passed on, then every tenth. */
  lemma FirstAfterOpening(slot: Slot, m: Msg, winScale: int, now: Jiffies, ms: seq<(Msg, Jiffies)>, k: nat)
    requires var s := Opened(slot, m, winScale, now);
      slot.inSend.None? && NonRegressing(s, ms) && k < |ms|
    ensures Passed(Opened(slot, m, winScale, now), ms, k) <==> k % 10 == 0
  {
    var s := Opened(slot, m, winScale, now);
    hide Passed, NonRegressing;
    EveryTenth(s, ms, k);
    Cycles(k);
  }

  /** When the timer has sent the held message, and that send is over, the next nine are held. */
  lemma TimerRestartsCount(slot: Slot, ms: seq<(Msg, Jiffies)>, k: nat)
    requires slot.busy && slot.held.Some? && slot.inSend.None? && !slot.psh
    requires NonRegressing(TimedOut(slot).0.(inSend := None), ms) && k < |ms|
    ensures TimedOut(slot).1 == slot.held && TimedOut(slot).0.inSend == slot.held
    ensures Passed(TimedOut(slot).0.(inSend := None), ms, k) <==> k % 10 == 9
  {
    var s := TimedOut(slot).0.(inSend := None);
    hide Passed, NonRegressing;
    EveryTenth(s, ms, k);
    Cycles(k);
  }

  /** Whatever is kept or passed on, the timer runs afterwards exactly if something is held. */
  lemma TimerWithHeld(s: Slot, m: Msg, now: Jiffies)
    requires U32Before(s.ackSeq, Wire(m))
    ensures var v := Handle(s, m, now).slot; v.timer <==> v.held.Some?
  {
  }

  // ---- by push ----

  /** A received push is remembered on the slot of its flow, and the first acknowledgement whose true number is beyond
      it goes out at once, whatever the count and whatever is being sent; one that is not leaves it to be answered. */
  lemma PushIsAnswered(t: Table, f: Flow, end: nat, m: Msg, winScale: int, now: Jiffies, top: nat)
    requires Accounted(t) && Match(t.slots, f) >= 0 && m.flow == f
    requires t.slots[Match(t.slots, f)].ackSeq == top % TWO32 && -TWO31 <= top - m.ack < TWO31 && top <= m.ack
    requires -TWO31 <= m.ack - end < TWO31
    ensures var i := Match(t.slots, f);
      var r := Filter(Receive(t, f, end % TWO32), m, 1, winScale, true, now);
      && (m.ack > end ==> r.pass && !r.table.slots[i].psh)
      && (m.ack <= end ==> r.table.slots[i].psh && r.table.slots[i].pshSeq == end % TWO32)
      && forall k :: 0 <= k < TCP_ACK_NUM && k != i ==> r.table.slots[k] == t.slots[k]
  {
    var i := Match(t.slots, f);
    var t1 := Receive(t, f, end % TWO32);
    ReceiveAccounted(t, f, end % TWO32);
    OnlyMatch(t1, f, i);
    FilterShape(t1, m, 1, winScale, true, now);
    PushOnSlot(Rescaled(t1.slots[i], winScale), m, end, now, top);
    hide Filter, Handle, Match, Alloc, Accounted;
  }

  lemma PushOnSlot(s: Slot, m: Msg, end: nat, now: Jiffies, top: nat)
    requires s.psh && s.pshSeq == end % TWO32 && -TWO31 <= m.ack - end < TWO31
    requires s.ackSeq == top % TWO32 && -TWO31 <= top - m.ack < TWO31 && top <= m.ack
    ensures var v := Handle(s, m, now);
      && (m.ack > end ==> v.pass && !v.slot.psh)
      && (m.ack <= end ==> v.slot.psh && v.slot.pshSeq == s.pshSeq)
  {
    BeforeIsExact(top, m.ack);
    BeforeIsExact(m.ack, end);
    hide U32Before;
  }

  // ---- the window scale ----

  /** A slot keeps the last window scale its flow has shown, and 1 before it shows any. */
  lemma ScaleIsKept(t: Table, m: Msg, kind: nat, winScale: int, enabled: bool, now: Jiffies)
    requires Accounted(t) && !(kind == 0 && winScale == 0)
    ensures var i := Match(t.slots, m.flow); var r := Filter(t, m, kind, winScale, enabled, now).table;
      var k := Match(r.slots, m.flow);
      && (i >= 0 ==> k == i && r.slots[k].winScale == if winScale != 0 then winScale else t.slots[i].winScale)
      && (i < 0 && k >= 0 ==> r.slots[k].winScale == if winScale != 0 then winScale else 1)
  {
    var i := Match(t.slots, m.flow);
    FilterShape(t, m, kind, winScale, enabled, now);
    FilterAccounted(t, m, kind, winScale, enabled, now);
    AllocSucceeds(t);
    var r := Filter(t, m, kind, winScale, enabled, now).table;
    if i >= 0 {
      HandleKeepsFlow(Rescaled(t.slots[i], winScale), m, now);
      HandleKeepsScale(Rescaled(t.slots[i], winScale), m, now);
      hide Filter, Handle, Alloc;
      OnlyMatch(r, m.flow, i);
    } else if Alloc(t).1 >= 0 {
      OnlyMatch(r, m.flow, Alloc(t).1);
    }
    hide Filter, Handle;
  }

  lemma HandleKeepsScale(s: Slot, m: Msg, now: Jiffies)
    ensures Handle(s, m, now).slot.winScale == s.winScale
  {
  }
}
