/** Slot accounting of the TCP ACK suppressor: what every call keeps, whatever the packets and the clock. */
module TcpAckAccounts {
  import opened Integers
  import opened Wrappers
  import opened TcpAckSpec

  function CountBusy(slots: seq<Slot>): (n: nat)
    ensures n <= |slots|
  {
    if slots == [] then 0
    else CountBusy(slots[..|slots| - 1]) + if slots[|slots| - 1].busy then 1 else 0
  }

  lemma {:induction false} CountBusyUpdate(slots: seq<Slot>, i: nat, s: Slot)
    requires i < |slots|
    ensures CountBusy(slots[i := s]) ==
            CountBusy(slots) - (if slots[i].busy then 1 else 0) + (if s.busy then 1 else 0)
  {
    var n := |slots| - 1;
    if i == n {
      assert slots[i := s][..n] == slots[..n];
    } else {
      CountBusyUpdate(slots[..n], i, s);
      assert slots[i := s][..n] == slots[..n][i := s];
    }
  }

  lemma {:induction false} CountBusyFull(slots: seq<Slot>)
    ensures CountBusy(slots) == |slots| <==> forall i :: 0 <= i < |slots| ==> slots[i].busy
  {
    if slots != [] {
      var n := |slots| - 1;
      CountBusyFull(slots[..n]);
      assert forall i :: 0 <= i < n ==> slots[..n][i] == slots[i];
    }
  }

  lemma {:induction false} CountBusyAtMost(slots: seq<Slot>)
    ensures CountBusy(slots) <= |slots|
  {
    if slots != [] { CountBusyAtMost(slots[..|slots| - 1]); }
  }

  ghost predicate DistinctFlows(slots: Slots) {
    forall i, j :: 0 <= i < j < TCP_ACK_NUM && slots[i].busy && slots[j].busy ==> slots[i].flow != slots[j].flow
  }

  /** max_num counts the busy slots, a free_index names an idle slot, and no flow has two slots. */
  ghost predicate Accounted(t: Table) {
    && t.maxNum == CountBusy(t.slots)
    && -1 <= t.freeIndex < TCP_ACK_NUM && (t.freeIndex >= 0 ==> !t.slots[t.freeIndex].busy)
    && DistinctFlows(t.slots)
  }

  lemma {:induction false} InitAccounted(n: nat, now: Jiffies)
    requires n <= TCP_ACK_NUM
    ensures CountBusy(seq(n, _ => EMPTY.(lastTime := now))) == 0
  {
    if n > 0 {
      InitAccounted(n - 1, now);
      assert seq(n, _ => EMPTY.(lastTime := now))[..n - 1] == seq(n - 1, _ => EMPTY.(lastTime := now));
    }
  }

  /** In an accounted table the first match is the only one. */
  lemma OnlyMatch(t: Table, f: Flow, i: nat)
    requires Accounted(t) && i < TCP_ACK_NUM && Matches(t.slots[i], f)
    ensures Match(t.slots, f) == i
  {
  }

  /** Allocation succeeds exactly while there is an idle slot, hands out the one free_index names or else the lowest,
      and keeps the books as if that slot were busy already. */
  lemma AllocSucceeds(t: Table)
    requires Accounted(t)
    ensures var (t', j) := Alloc(t);
      && (j >= 0 <==> t.maxNum < TCP_ACK_NUM)
      && (j >= 0 ==> !t.slots[j].busy && t'.maxNum == t.maxNum + 1 && t'.freeIndex == -1)
      && (j >= 0 && t.freeIndex >= 0 ==> j == t.freeIndex)
      && (j >= 0 && t.freeIndex < 0 ==> forall k :: 0 <= k < j ==> t.slots[k].busy)
      && (j < 0 ==> t' == t)
  {
    CountBusyFull(t.slots);
  }

  /** Replacing a slot by one of the same flow and busyness changes nothing in the books. */
  lemma SameBooks(t: Table, i: nat, s: Slot)
    requires Accounted(t) && i < TCP_ACK_NUM && s.busy == t.slots[i].busy && s.flow == t.slots[i].flow
    ensures Accounted(t.(slots := t.slots[i := s]))
  {
    CountBusyUpdate(t.slots, i, s);
  }

  /** At most one slot changes, and how; only tcp_ack_handle_new keeps or frees a message. */
  lemma FilterShape(t: Table, m: Msg, kind: nat, winScale: int, enabled: bool, now: Jiffies)
    requires t.freeIndex < TCP_ACK_NUM
    ensures var i, j := Match(t.slots, m.flow), Alloc(t).1; var r := Filter(t, m, kind, winScale, enabled, now);
      && r.table.slots == (
         if kind == 0 && winScale == 0 then t.slots
         else if i >= 0 then
           t.slots[i := if kind > 0 && enabled then Handle(Rescaled(t.slots[i], winScale), m, now).slot
                        else Rescaled(t.slots[i], winScale)]
         else if j >= 0 then t.slots[j := Opened(t.slots[j], m, winScale, now)] else t.slots)
      && (if i >= 0 && kind > 0 && enabled
          then var v := Handle(Rescaled(t.slots[i], winScale), m, now); r.pass == v.pass && r.freed == v.freed
          else r.pass && r.freed == None)
  {
    hide Handle;
  }

  lemma HandleKeepsFlow(s: Slot, m: Msg, now: Jiffies)
    ensures var v := Handle(s, m, now); v.slot.busy == s.busy && v.slot.flow == s.flow
  {
  }

  /** A slot for a flow that has none. */
  lemma OpenedAccounted(t: Table, m: Msg, winScale: int, now: Jiffies)
    requires Accounted(t) && Match(t.slots, m.flow) < 0
    ensures var (t', j) := Alloc(t);
      Accounted(if j >= 0 then t'.(slots := t'.slots[j := Opened(t'.slots[j], m, winScale, now)]) else t')
  {
    AllocSucceeds(t);
    var (t', j) := Alloc(t);
    if j >= 0 { CountBusyUpdate(t'.slots, j, Opened(t'.slots[j], m, winScale, now)); }
  }

  lemma FilterAccounted(t: Table, m: Msg, kind: nat, winScale: int, enabled: bool, now: Jiffies)
    requires Accounted(t)
    ensures Accounted(Filter(t, m, kind, winScale, enabled, now).table)
  {
    hide Handle, Accounted, Opened, Alloc, CountBusy, Rescaled;
    var i := Match(t.slots, m.flow);
    if i >= 0 {
      var s := Rescaled(t.slots[i], winScale);
      RescaledKeepsFlow(t.slots[i], winScale);
      SameBooks(t, i, s);
      HandleKeepsFlow(s, m, now);
      SameBooks(t, i, Handle(s, m, now).slot);
    } else {
      OpenedAccounted(t, m, winScale, now);
    }
  }

  lemma RescaledKeepsFlow(s: Slot, winScale: int)
    ensures Rescaled(s, winScale).busy == s.busy && Rescaled(s, winScale).flow == s.flow
  {
  }

  lemma {:induction false} AgeAccounted(t: Table, i: nat, now: Jiffies, timeout: Jiffies)
    requires i <= TCP_ACK_NUM && Accounted(t)
    ensures Accounted(AgeBelow(t, i, now, timeout))
    decreases i
  {
    if i > 0 {
      if Stale(t.slots[i - 1], now, timeout) {
        var s := t.slots[i - 1].(busy := false);
        CountBusyUpdate(t.slots, i - 1, s);
        AgeAccounted(t.(slots := t.slots[i - 1 := s], freeIndex := i - 1, maxNum := t.maxNum - 1), i - 1, now, timeout);
      } else {
        AgeAccounted(t, i - 1, now, timeout);
      }
    }
  }

  lemma {:induction false} AgeResult(t: Table, i: nat, now: Jiffies, timeout: Jiffies)
    requires i <= TCP_ACK_NUM
    ensures var r := AgeBelow(t, i, now, timeout).slots;
      forall k :: 0 <= k < TCP_ACK_NUM ==>
        r[k] == if k < i && Stale(t.slots[k], now, timeout) then t.slots[k].(busy := false) else t.slots[k]
    decreases i
  {
    if i > 0 {
      if Stale(t.slots[i - 1], now, timeout) {
        var s := t.slots[i - 1].(busy := false);
        AgeResult(t.(slots := t.slots[i - 1 := s], freeIndex := i - 1, maxNum := t.maxNum - 1), i - 1, now, timeout);
      } else {
        AgeResult(t, i - 1, now, timeout);
      }
    }
  }

  lemma ReceiveAccounted(t: Table, f: Flow, end: U32)
    requires Accounted(t)
    ensures Accounted(Receive(t, f, end))
  {
    var i := Match(t.slots, f);
    if i >= 0 { SameBooks(t, i, t.slots[i].(psh := true, pshSeq := end)); }
  }

  lemma TimedOutAccounted(t: Table, i: nat)
    requires Accounted(t) && i < TCP_ACK_NUM
    ensures Accounted(t.(slots := t.slots[i := TimedOut(t.slots[i]).0]))
  {
    SameBooks(t, i, TimedOut(t.slots[i]).0);
  }

  lemma {:induction false} CountBusySame(a: seq<Slot>, b: seq<Slot>)
    requires |a| == |b| && forall i :: 0 <= i < |a| ==> a[i].busy == b[i].busy
    ensures CountBusy(a) == CountBusy(b)
  {
    if a != [] { CountBusySame(a[..|a| - 1], b[..|b| - 1]); }
  }

  lemma MovedAccounted(t: Table, m: Msg)
    requires Accounted(t)
    ensures Accounted(t.(slots := Moved(t.slots, m)))
  {
    CountBusySame(t.slots, Moved(t.slots, m));
  }

  // ---- at least one in ten ----

  /** A run of acknowledgements of one slot, each one's send over before the next. */
  function HandleRun(s: Slot, ms: seq<(Msg, Jiffies)>): Slot {
    if ms == [] then s
    else
      var (m, now) := ms[|ms| - 1];
      Handle(HandleRun(s, ms[..|ms| - 1]), m, now).slot.(inSend := None)
  }

  predicate Passed(s: Slot, ms: seq<(Msg, Jiffies)>, k: nat)
    requires k < |ms|
  {
    Handle(HandleRun(s, ms[..k]), ms[k].0, ms[k].1).pass
  }

  predicate NonRegressing(s: Slot, ms: seq<(Msg, Jiffies)>) {
    forall k :: 0 <= k < |ms| ==> U32Before(HandleRun(s, ms[..k]).ackSeq, Wire(ms[k].0))
  }

  lemma {:induction false} DropCounts(s: Slot, ms: seq<(Msg, Jiffies)>, k: nat)
    requires s.inSend.None? && s.dropCnt >= 0 && NonRegressing(s, ms) && k <= |ms|
    requires forall j :: 0 <= j < k ==> !Passed(s, ms, j)
    ensures HandleRun(s, ms[..k]).dropCnt == s.dropCnt + k && HandleRun(s, ms[..k]).inSend.None?
    ensures k > 0 ==> s.dropCnt + k < TCP_ACK_DROP_CNT
  {
    if k > 0 {
      hide Handle, U32Before;
      DropCounts(s, ms, k - 1);
      assert ms[..k][..k - 1] == ms[..k - 1];
      assert !Passed(s, ms, k - 1);
      HandleCounts(HandleRun(s, ms[..k - 1]), ms[k - 1].0, ms[k - 1].1);
    }
  }

  /** One that does not go back and is not passed on has been counted. */
  lemma HandleCounts(s: Slot, m: Msg, now: Jiffies)
    requires s.inSend.None? && U32Before(s.ackSeq, Wire(m)) && !Handle(s, m, now).pass
    ensures Handle(s, m, now).slot.dropCnt == s.dropCnt + 1 < TCP_ACK_DROP_CNT
  {
  }

  /** Of any ten acknowledgements in a row that do not go back, one is passed on at once. */
  lemma OneInTenPasses(s: Slot, ms: seq<(Msg, Jiffies)>)
    requires s.inSend.None? && s.dropCnt >= 0 && |ms| >= TCP_ACK_DROP_CNT && NonRegressing(s, ms)
    ensures exists k :: 0 <= k < |ms| && Passed(s, ms, k)
  {
    if forall k :: 0 <= k < |ms| ==> !Passed(s, ms, k) {
      DropCounts(s, ms, |ms|);
    }
  }
}
