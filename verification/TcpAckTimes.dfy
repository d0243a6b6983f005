/** The TCP ACK suppressor in true time: how long a slot lasts after the last acknowledgement of its flow. */
module TcpAckTimes {
  import opened Integers
  import opened Wrappers
  import opened TcpAckSpec
  import opened TcpAckAccounts
  import opened TcpAckRuns

  /** The state with the true times of the last sweep and of the last acknowledgement each slot saw of its flow. */
  datatype Timed = Timed(s: State, heard: seq<nat>, swept: nat)

  /** The clock the event reads is the wrapped reading of true time t. */
  predicate Clocked(e: Event, t: nat) {
    (e.Age? ==> e.now == t % TWO64) && (e.Offer? ==> e.at == t % TWO64)
  }

  /** The slot an event is heard on: the flow's own, if the message is one to be filtered, or the one it is given. */
  function HeardOn(s: State, e: Event): (i: int)
    requires Enabled(s, e)
    ensures i < TCP_ACK_NUM
  {
    if !e.Offer? || (e.kind == 0 && e.winScale == 0) then -1
    else if Match(s.table.slots, e.m.flow) >= 0
    then if e.kind > 0 && e.enabled then Match(s.table.slots, e.m.flow) else -1
    else Alloc(s.table).1
  }

  function TimedStep(x: Timed, e: Event, t: nat): Timed
    requires Enabled(x.s, e) && |x.heard| == TCP_ACK_NUM
  {
    var i := HeardOn(x.s, e);
    Timed(Step(x.s, e), if i >= 0 then x.heard[i := t] else x.heard,
          if e.Age? && t > x.swept + x.s.timeout then t else x.swept)
  }

  /** The clock readings kept in the table are those of the true times, and every busy slot had been heard within the
      time-out when the last sweep came. */
  ghost predicate InTime(x: Timed, from: nat, t: nat) {
    && x.s.table.freeIndex < TCP_ACK_NUM && |x.s.tops| == TCP_ACK_NUM
    && |x.heard| == TCP_ACK_NUM && from <= x.swept <= t && x.s.table.lastTime == x.swept % TWO64
    && forall i :: 0 <= i < TCP_ACK_NUM ==> SlotInTime(x, i, from, t)
  }

  predicate SlotInTime(x: Timed, i: nat, from: nat, t: nat)
    requires i < TCP_ACK_NUM == |x.heard|
  {
    var slot := x.s.table.slots[i];
    && from <= x.heard[i] <= t && slot.lastTime == x.heard[i] % TWO64
    && (slot.busy ==> x.swept <= x.heard[i] + x.s.timeout)
  }

  /** A sweep is due once more than the time-out has passed since the last one; then exactly the slots that have not
      been heard within the time-out are given up, and nothing else changes. */
  lemma AgeInTime(x: Timed, e: Event, i: nat, from: nat, t: nat)
    requires Enabled(x.s, e) && InTime(x, from, t) && Clocked(e, t) && e.Age? && i < TCP_ACK_NUM
    requires t - from < TWO63 && x.s.timeout < TWO63
    ensures var slot := x.s.table.slots[i];
      Step(x.s, e).table.slots[i] ==
      if slot.busy && t > x.swept + x.s.timeout && t > x.heard[i] + x.s.timeout then slot.(busy := false) else slot
    ensures Step(x.s, e).table.lastTime == TimedStep(x, e, t).swept % TWO64
  {
    assert SlotInTime(x, i, from, t);
    DueInTime(t, x.swept, x.s.timeout);
    DueInTime(t, x.heard[i], x.s.timeout);
    UpdateIs(x.s.table, i, e.now, x.s.timeout);
    hide TimeAfter, Update, SlotInTime;
  }

  lemma UpdateIs(t: Table, i: nat, now: Jiffies, timeout: Jiffies)
    requires i < TCP_ACK_NUM
    ensures var due := TimeAfter(now, (t.lastTime + timeout) % TWO64); var slot := t.slots[i];
      && Update(t, now, timeout).lastTime == (if due then now else t.lastTime)
      && Update(t, now, timeout).slots[i] ==
         if due && slot.busy && TimeAfter(now, (slot.lastTime + timeout) % TWO64) then slot.(busy := false) else slot
  {
    hide TimeAfter;
    AgeResult(t.(lastTime := now), TCP_ACK_NUM, now, timeout);
    AgeKeepsTime(t.(lastTime := now), TCP_ACK_NUM, now, timeout);
  }

  lemma DueInTime(t: nat, stamp: nat, timeout: nat)
    requires stamp <= t && t - stamp < TWO63 && timeout < TWO63
    ensures TimeAfter(t % TWO64, (stamp % TWO64 + timeout) % TWO64) <==> t > stamp + timeout
  {
    WrapSum(stamp, timeout);
    AfterIsExact(t, stamp + timeout);
  }

  lemma WrapSum(x: nat, y: nat)
    ensures (x % TWO64 + y) % TWO64 == (x + y) % TWO64
  {
    ModShift64(x % TWO64 + y, x / TWO64);
  }

  lemma {:induction false} AgeKeepsTime(t: Table, i: nat, now: Jiffies, timeout: Jiffies)
    requires i <= TCP_ACK_NUM
    ensures AgeBelow(t, i, now, timeout).lastTime == t.lastTime
    decreases i
  {
    if i > 0 {
      if Stale(t.slots[i - 1], now, timeout) {
        var s := t.slots[i - 1].(busy := false);
        AgeKeepsTime(t.(slots := t.slots[i - 1 := s], freeIndex := i - 1, maxNum := t.maxNum - 1), i - 1, now, timeout);
      } else {
        AgeKeepsTime(t, i - 1, now, timeout);
      }
    }
  }

  // ---- runs ----

  lemma OfferInTime(x: Timed, e: Event, i: nat, from: nat, t': nat, t: nat)
    requires Enabled(x.s, e) && InTime(x, from, t') && t' <= t && Clocked(e, t) && e.Offer? && i < TCP_ACK_NUM
    ensures SlotInTime(TimedStep(x, e, t), i, from, t)
    ensures Step(x.s, e).table.lastTime == x.s.table.lastTime && Step(x.s, e).timeout == x.s.timeout
  {
    assert SlotInTime(x, i, from, t');
    OfferTable(x.s, e);
    FilterTimes(x.s.table, e.m, e.kind, e.winScale, e.enabled, e.at, i);
    hide Step, Filter;
  }

  lemma OfferTable(s: State, e: Event)
    requires Enabled(s, e) && e.Offer?
    ensures Step(s, e).table == Filter(s.table, e.m, e.kind, e.winScale, e.enabled, e.at).table
    ensures Step(s, e).timeout == s.timeout
  {
    hide Filter, TopsAfter, Regresses, Raise;
  }

  /** A filter call stamps the one slot the message is heard on; a slot that becomes busy is that one. */
  lemma FilterTimes(t: Table, m: Msg, kind: nat, winScale: int, enabled: bool, now: Jiffies, i: nat)
    requires t.freeIndex < TCP_ACK_NUM && i < TCP_ACK_NUM
    ensures var r := Filter(t, m, kind, winScale, enabled, now).table;
      var k := if kind == 0 && winScale == 0 then -1
               else if Match(t.slots, m.flow) >= 0
               then if kind > 0 && enabled then Match(t.slots, m.flow) else -1
               else Alloc(t).1;
      && r.lastTime == t.lastTime
      && r.slots[i].lastTime == (if i == k then now else t.slots[i].lastTime)
      && (i != k ==> r.slots[i].busy == t.slots[i].busy)
  {
    hide Match, Alloc, Handle;
    var k := Match(t.slots, m.flow);
    if k >= 0 { HandleTimes(Rescaled(t.slots[k], winScale), m, now); }
    AllocTimes(t);
  }

  lemma HandleTimes(slot: Slot, m: Msg, now: Jiffies)
    ensures var r := Handle(slot, m, now).slot; r.lastTime == now && r.busy == slot.busy
  {
  }

  lemma AllocTimes(t: Table)
    requires t.freeIndex < TCP_ACK_NUM
    ensures Alloc(t).0.lastTime == t.lastTime
  {
  }

  lemma StepInTime(x: Timed, e: Event, from: nat, t': nat, t: nat)
    requires Enabled(x.s, e) && InTime(x, from, t') && t' <= t && Clocked(e, t)
    requires t - from < TWO63 && x.s.timeout < TWO63
    ensures InTime(TimedStep(x, e, t), from, t) && TimedStep(x, e, t).s.timeout == x.s.timeout
  {
    var y := TimedStep(x, e, t);
    hide SlotInTime;
    forall i | 0 <= i < TCP_ACK_NUM
      ensures SlotInTime(y, i, from, t)
    {
      SlotStep(x, e, i, from, t', t);
    }
    StaysEnabled(x.s, e);
    match e
    case Age(_) =>
      assert InTime(x, from, t) by { Later(x, from, t', t); }
      AgeInTime(x, e, 0, from, t);
    case Offer(_, _, _, _, _) => OfferInTime(x, e, 0, from, t', t);
    case _ =>
  }

  lemma StaysEnabled(s: State, e: Event)
    requires Enabled(s, e)
    ensures Step(s, e).table.freeIndex < TCP_ACK_NUM && |Step(s, e).tops| == TCP_ACK_NUM
  {
    hide Handle, Regresses, Raise, Match, Update, Filter, Accounted;
    match e
    case Age(now) => UpdateFree(s.table, now, s.timeout);
    case Offer(m, kind, winScale, enabled, at) => FilterFree(s.table, m, kind, winScale, enabled, at);
    case _ =>
  }

  lemma FilterFree(t: Table, m: Msg, kind: nat, winScale: int, enabled: bool, now: Jiffies)
    requires t.freeIndex < TCP_ACK_NUM
    ensures Filter(t, m, kind, winScale, enabled, now).table.freeIndex < TCP_ACK_NUM
  {
    hide Handle, Match, Opened;
  }

  lemma UpdateFree(t: Table, now: Jiffies, timeout: Jiffies)
    requires t.freeIndex < TCP_ACK_NUM
    ensures Update(t, now, timeout).freeIndex < TCP_ACK_NUM
  {
  }

  lemma Later(x: Timed, from: nat, t': nat, t: nat)
    requires InTime(x, from, t') && t' <= t
    ensures InTime(x, from, t)
  {
    assert forall i :: 0 <= i < TCP_ACK_NUM ==> SlotInTime(x, i, from, t') ==> SlotInTime(x, i, from, t);
  }

  lemma SlotStep(x: Timed, e: Event, i: nat, from: nat, t': nat, t: nat)
    requires Enabled(x.s, e) && InTime(x, from, t') && t' <= t && Clocked(e, t) && i < TCP_ACK_NUM
    requires t - from < TWO63 && x.s.timeout < TWO63
    ensures SlotInTime(TimedStep(x, e, t), i, from, t)
  {
    assert SlotInTime(x, i, from, t');
    match e
    case Age(_) =>
      Later(x, from, t', t);
      AgeInTime(x, e, i, from, t);
      hide Update;
    case Offer(_, _, _, _, _) => OfferInTime(x, e, i, from, t', t);
    case _ =>
  }

  /** The events of a run with the true times they happen at. */
  function TimedRun(x: Timed, es: seq<(Event, nat)>): Timed
    requires |x.heard| == TCP_ACK_NUM
    ensures |TimedRun(x, es).heard| == TCP_ACK_NUM
  {
    if es == [] then x
    else
      var x' := TimedRun(x, es[..|es| - 1]);
      var (e, t) := es[|es| - 1];
      if Enabled(x'.s, e) then TimedStep(x', e, t) else x'
  }

  function Start(from: nat, timeout: Jiffies): Timed {
    Timed(Init(from % TWO64, timeout), seq(TCP_ACK_NUM, _ => from), from)
  }

  /** The last time in a run, or its start. */
  function Last(es: seq<(Event, nat)>, from: nat): nat {
    if es == [] then from else es[|es| - 1].1
  }

  /** Time does not go back, every event reads the clock, and the run takes less than 2^63 ticks. */
  predicate Orderly(es: seq<(Event, nat)>, from: nat) {
    forall k :: 0 <= k < |es| ==>
      Last(es[..k], from) <= es[k].1 < from + TWO63 && Clocked(es[k].0, es[k].1)
  }

  lemma {:induction false} RunInTime(es: seq<(Event, nat)>, from: nat, timeout: Jiffies)
    requires Orderly(es, from) && timeout < TWO63
    ensures InTime(TimedRun(Start(from, timeout), es), from, Last(es, from))
    ensures TimedRun(Start(from, timeout), es).s.timeout == timeout
    ensures from <= Last(es, from) < from + TWO63
  {
    hide Step, InTime;
    if es == [] {
      StartInTime(from, timeout);
    } else {
      var n := |es| - 1;
      assert forall k :: 0 <= k < n ==> es[..n][..k] == es[..k] && es[..n][k] == es[k];
      RunInTime(es[..n], from, timeout);
      var x := TimedRun(Start(from, timeout), es[..n]);
      if Enabled(x.s, es[n].0) {
        StepInTime(x, es[n].0, from, Last(es[..n], from), es[n].1);
      } else {
        Later(x, from, Last(es[..n], from), es[n].1);
      }
    }
  }

  lemma StartInTime(from: nat, timeout: Jiffies)
    ensures InTime(Start(from, timeout), from, from)
  {
  }

  /** After any run: the sweep of a call at a later time t gives up a slot exactly if more than the time-out has
      passed both since the last sweep and since the last acknowledgement of its flow. So a flow heard within the
      time-out keeps its slot, and no slot that has been silent for more than twice the time-out is left. */
  lemma SlotsLiveByTime(es: seq<(Event, nat)>, from: nat, timeout: Jiffies, t: nat, i: nat)
    requires Orderly(es, from) && timeout < TWO63 && Last(es, from) <= t < from + TWO63 && i < TCP_ACK_NUM
    ensures var x := TimedRun(Start(from, timeout), es); var e := Age(t % TWO64);
      Enabled(x.s, e) &&
      var slot, slot' := x.s.table.slots[i], Step(x.s, e).table.slots[i];
      && slot' == (if slot.busy && t > x.swept + timeout && t > x.heard[i] + timeout
                   then slot.(busy := false) else slot)
      && (t <= x.heard[i] + timeout ==> slot' == slot)
      && (slot'.busy ==> t <= x.heard[i] + 2 * timeout)
  {
    var x := TimedRun(Start(from, timeout), es);
    RunInTime(es, from, timeout);
    Later(x, from, Last(es, from), t);
    AgeInTime(x, Age(t % TWO64), i, from, t);
    assert SlotInTime(x, i, from, t);
    hide Step;
  }
}
