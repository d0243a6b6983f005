/** Where every message buffer is, who will move a held one on, and what ageing can lose. */
module TcpAckLedger {
  import opened Integers
  import opened Wrappers
  import opened TcpAckSpec
  import opened TcpAckAccounts
  import opened TcpAckRuns

  // ---- each message in exactly one place ----

  function Copies(held: Option<Msg>, m: Msg): nat {
    if held == Some(m) then 1 else 0
  }

  /** How many slots hold m. */
  function HeldCount(slots: seq<Slot>, m: Msg): nat {
    if slots == [] then 0 else HeldCount(slots[..|slots| - 1], m) + Copies(slots[|slots| - 1].held, m)
  }

  lemma {:induction false} HeldCountUpdate(slots: seq<Slot>, i: nat, s: Slot, m: Msg)
    requires i < |slots|
    ensures HeldCount(slots[i := s], m) == HeldCount(slots, m) - Copies(slots[i].held, m) + Copies(s.held, m)
  {
    var n := |slots| - 1;
    if i == n {
      assert slots[i := s][..n] == slots[..n];
    } else {
      HeldCountUpdate(slots[..n], i, s, m);
      assert slots[i := s][..n] == slots[..n][i := s];
    }
  }

  lemma {:induction false} HeldCountSame(a: seq<Slot>, b: seq<Slot>, m: Msg)
    requires |a| == |b| && forall i :: 0 <= i < |a| ==> a[i].held == b[i].held
    ensures HeldCount(a, m) == HeldCount(b, m)
  {
    if a != [] { HeldCountSame(a[..|a| - 1], b[..|b| - 1], m); }
  }

  /** What was offered has gone out, has been freed, or is held, counting copies. */
  predicate Ledger(s: State, m: Msg) {
    s.offered[m] == s.sent[m] + s.freed[m] + HeldCount(s.table.slots, m)
  }

  /** A message given to one slot is passed on, held there or freed; what the slot held stays, or is freed. */
  lemma HandleBalance(slot: Slot, m: Msg, now: Jiffies, x: Msg)
    ensures var v := Handle(slot, m, now);
      Copies(Some(m), x) + Copies(slot.held, x) ==
      (if v.pass then Copies(Some(m), x) else 0) + Copies(v.freed, x) + Copies(v.slot.held, x)
  {
  }

  /** One call of the filter passes the message on, frees it or holds it, and loses nothing that was held. */
  lemma FilterBalance(t: Table, m: Msg, kind: nat, winScale: int, enabled: bool, now: Jiffies, x: Msg)
    requires t.freeIndex < TCP_ACK_NUM
    ensures var r := Filter(t, m, kind, winScale, enabled, now);
      Copies(Some(m), x) + HeldCount(t.slots, x) ==
      (if r.pass then Copies(Some(m), x) else 0) + Copies(r.freed, x) + HeldCount(r.table.slots, x)
  {
    hide HeldCount, Handle, Match, Alloc;
    var i := Match(t.slots, m.flow);
    if i >= 0 {
      var slot := Rescaled(t.slots[i], winScale);
      HeldCountUpdate(t.slots, i, slot, x);
      HeldCountUpdate(t.slots, i, Handle(slot, m, now).slot, x);
      HandleBalance(slot, m, now, x);
    } else {
      var j := Alloc(t).1;
      if j >= 0 { HeldCountUpdate(t.slots, j, Opened(t.slots[j], m, winScale, now), x); }
    }
  }

  lemma OfferCounts(s: State, e: Event, x: Msg)
    requires Enabled(s, e) && e.Offer?
    ensures var s' := Step(s, e); var r := Filter(s.table, e.m, e.kind, e.winScale, e.enabled, e.at);
      && s'.table == r.table && s'.offered[x] == s.offered[x] + Copies(Some(e.m), x)
      && s'.sent[x] == s.sent[x] + (if r.pass then Copies(Some(e.m), x) else 0)
      && s'.freed[x] == s.freed[x] + Copies(r.freed, x)
  {
    hide Filter, TopsAfter, Regresses, Raise;
  }

  lemma OfferLedger(s: State, e: Event, x: Msg)
    requires Ledger(s, x) && Enabled(s, e) && e.Offer?
    ensures Ledger(Step(s, e), x)
  {
    hide HeldCount, Filter, Step, Copies;
    FilterBalance(s.table, e.m, e.kind, e.winScale, e.enabled, e.at, x);
    OfferCounts(s, e, x);
  }

  /** No event whatever makes or loses a message. */
  lemma StepLedger(s: State, e: Event, x: Msg)
    requires Ledger(s, x) && Enabled(s, e)
    ensures Ledger(Step(s, e), x)
  {
    hide HeldCount, Handle;
    match e
    case Age(now) =>
      AgeResult(s.table.(lastTime := now), TCP_ACK_NUM, now, s.timeout);
      HeldCountSame(s.table.slots, Step(s, e).table.slots, x);
    case Offer(_, _, _, _, _) =>
      OfferLedger(s, e, x);
    case ReceivePush(_, _) =>
      HeldCountSame(s.table.slots, Step(s, e).table.slots, x);
    case Timeout(i) =>
      HeldCountUpdate(s.table.slots, i, TimedOut(s.table.slots[i]).0, x);
    case SendDone(_, _) =>
      HeldCountSame(s.table.slots, Step(s, e).table.slots, x);
  }

  lemma {:induction false} RunLedger(now: Jiffies, timeout: Jiffies, es: seq<Event>, x: Msg)
    ensures Ledger(Run(Init(now, timeout), es), x)
  {
    if es == [] {
      NothingHeld(TCP_ACK_NUM, now, x);
    } else {
      RunLedger(now, timeout, es[..|es| - 1], x);
      var s := Run(Init(now, timeout), es[..|es| - 1]);
      if Enabled(s, es[|es| - 1]) { StepLedger(s, es[|es| - 1], x); }
    }
  }

  lemma {:induction false} NothingHeld(n: nat, now: Jiffies, x: Msg)
    ensures HeldCount(seq(n, _ => EMPTY.(lastTime := now)), x) == 0
  {
    if n > 0 {
      NothingHeld(n - 1, now, x);
      assert seq(n, _ => EMPTY.(lastTime := now))[..n - 1] == seq(n - 1, _ => EMPTY.(lastTime := now));
    }
  }

  /** A message offered once goes out at most once, is freed at most once, and not both; and while it is
      held it has done neither. */
  lemma AtMostOnce(now: Jiffies, timeout: Jiffies, es: seq<Event>, m: Msg)
    requires Run(Init(now, timeout), es).offered[m] <= 1
    ensures var s := Run(Init(now, timeout), es);
      s.sent[m] + s.freed[m] + HeldCount(s.table.slots, m) == s.offered[m] <= 1
  {
    RunLedger(now, timeout, es, m);
  }

  // ---- a held message has somebody to move it on ----

  ghost predicate Armed(s: State) {
    forall i :: 0 <= i < TCP_ACK_NUM ==> SlotArmed(s.table.slots[i])
  }

  predicate SlotArmed(slot: Slot) {
    slot.busy && slot.held.Some? ==> slot.timer
  }

  /** The timer goes off while the previous message of the slot is still being sent: it does nothing, and
      is not set again. */
  predicate FiresInVain(s: State, e: Event) {
    e.Timeout? && e.i < TCP_ACK_NUM &&
    s.table.slots[e.i].busy && s.table.slots[e.i].held.Some? && s.table.slots[e.i].inSend.Some?
  }

  lemma HandleArmed(slot: Slot, m: Msg, winScale: int, now: Jiffies)
    requires slot.busy && SlotArmed(slot)
    ensures var r := Rescaled(slot, winScale); SlotArmed(r) && SlotArmed(Handle(r, m, now).slot)
  {
  }

  lemma OpenedArmed(slot: Slot, m: Msg, winScale: int, now: Jiffies)
    requires slot.held.None?
    ensures SlotArmed(Opened(slot, m, winScale, now))
  {
  }

  lemma OfferArmed(s: State, e: Event)
    requires Inv(s) && Armed(s) && e.Offer?
    ensures Armed(Step(s, e))
  {
    forall k | 0 <= k < TCP_ACK_NUM
      ensures !s.table.slots[k].busy ==> s.table.slots[k].held.None?
    {
      InvAt(s, k, e.m.flow);
    }
    OfferTable(s, e);
    hide Accounted, SlotArmed, SlotOk, BestOk, Step, Filter;
    FilterArmed(s.table, e.m, e.kind, e.winScale, e.enabled, e.at);
  }

  lemma FilterArmed(t: Table, m: Msg, kind: nat, winScale: int, enabled: bool, now: Jiffies)
    requires Accounted(t) && forall k :: 0 <= k < TCP_ACK_NUM ==> SlotArmed(t.slots[k])
    requires forall k :: 0 <= k < TCP_ACK_NUM && !t.slots[k].busy ==> t.slots[k].held.None?
    ensures var r := Filter(t, m, kind, winScale, enabled, now).table;
            forall k :: 0 <= k < TCP_ACK_NUM ==> SlotArmed(r.slots[k])
  {
    var i, j := Match(t.slots, m.flow), Alloc(t).1;
    FilterShape(t, m, kind, winScale, enabled, now);
    AllocSucceeds(t);
    hide Accounted, SlotArmed, Handle, Opened, Rescaled, Filter, Match, Alloc;
    if kind == 0 && winScale == 0 {
    } else if i >= 0 {
      HandleArmed(t.slots[i], m, winScale, now);
    } else if j >= 0 {
      OpenedArmed(t.slots[j], m, winScale, now);
    }
  }

  lemma OfferTable(s: State, e: Event)
    requires Enabled(s, e) && e.Offer?
    ensures Step(s, e).table == Filter(s.table, e.m, e.kind, e.winScale, e.enabled, e.at).table
  {
    hide Filter, TopsAfter, Regresses, Raise;
  }

  /** A held message loses its timer in exactly that case. */
  lemma StepArmed(s: State, e: Event)
    requires Inv(s) && Armed(s) && Allowed(s, e)
    ensures Armed(Step(s, e)) <==> !FiresInVain(s, e)
  {
    hide Inv, Handle;
    assert Enabled(s, e) by { InvEnabled(s, e); }
    var s' := Step(s, e);
    match e
    case Offer(_, _, _, _, _) =>
      OfferArmed(s, e);
    case Age(now) =>
      AgeResult(s.table.(lastTime := now), TCP_ACK_NUM, now, s.timeout);
    case ReceivePush(_, _) =>
    case Timeout(i) =>
      assert s'.table.slots[i] == TimedOut(s.table.slots[i]).0;
    case SendDone(_, _) =>
  }

  // ---- what ageing can lose ----

  /** The slot is about to be given up with a message in it that nothing sent so far makes redundant. */
  ghost predicate AgesWith(s: State, i: nat, now: Jiffies)
    requires i < TCP_ACK_NUM
  {
    var slot := s.table.slots[i];
    && TimeAfter(now, (s.table.lastTime + s.timeout) % TWO64) && Stale(slot, now, s.timeout) && slot.held.Some?
    && !(exists m :: m in s.sent && m.flow == slot.held.value.flow && m.ack >= slot.held.value.ack)
  }

  /** From a state that has lost nothing, the ageing sweep loses an acknowledgement if and only if some slot
      ages out with a held message not yet made redundant by one that was sent. */
  lemma AgeingLosesExactly(s: State, now: Jiffies)
    requires Inv(s) && forall m :: Ledger(s, m)
    ensures NoAckLost(Step(s, Age(now))) <==> forall i :: 0 <= i < TCP_ACK_NUM ==> !AgesWith(s, i, now)
  {
    hide Ledger, AgesWith, BestOk, SlotOk;
    var s' := Step(s, Age(now));
    AgeResult(s.table.(lastTime := now), TCP_ACK_NUM, now, s.timeout);
    if i :| 0 <= i < TCP_ACK_NUM && AgesWith(s, i, now) {
      AgedIsLost(s, s', i, now);
    } else {
      forall o | o in s'.offered
        ensures exists m: Msg :: m.flow == o.flow && m.ack >= o.ack && Covering(s', m)
      {
        StillCovered(s, s', o, now);
      }
    }
  }

  lemma {:induction false} HeldCounts(slots: seq<Slot>, i: nat)
    requires i < |slots| && slots[i].held.Some?
    ensures HeldCount(slots, slots[i].held.value) > 0
  {
    if i < |slots| - 1 { HeldCounts(slots[..|slots| - 1], i); }
  }

  ghost predicate Aged(s: State, s': State, now: Jiffies) {
    && s' == s.(table := s'.table)
    && forall k :: 0 <= k < TCP_ACK_NUM ==>
         s'.table.slots[k] == if TimeAfter(now, (s.table.lastTime + s.timeout) % TWO64)
                                 && Stale(s.table.slots[k], now, s.timeout)
                              then s.table.slots[k].(busy := false) else s.table.slots[k]
  }

  lemma AgedIsLost(s: State, s': State, i: nat, now: Jiffies)
    requires Inv(s) && (forall m :: Ledger(s, m)) && i < TCP_ACK_NUM && AgesWith(s, i, now) && Aged(s, s', now)
    ensures !NoAckLost(s')
  {
    var o := s.table.slots[i].held.value;
    HeldCounts(s.table.slots, i);
    assert Ledger(s, o);
    assert SlotOk(s.table.slots[i], s.tops[i], s.best);
    assert HeldFor(s'.table.slots, o.flow).None? by {
      var k := Match(s'.table.slots, o.flow);
      if k >= 0 { OnlyMatch(s.table, o.flow, i); OnlyMatch(s.table, o.flow, k); }
    }
  }

  lemma StillCovered(s: State, s': State, o: Msg, now: Jiffies)
    requires Inv(s) && Aged(s, s', now) && o in s.offered
    requires forall i :: 0 <= i < TCP_ACK_NUM ==> !AgesWith(s, i, now)
    ensures exists m: Msg :: m.flow == o.flow && m.ack >= o.ack && Covering(s', m)
  {
    var b := s.best[o.flow];
    assert BestOk(s, o.flow);
    if b in s.sent {
      assert Covering(s', b);
    } else {
      var i := Match(s.table.slots, o.flow);
      InvAt(s, i, o.flow);
      if s'.table.slots[i].busy {
        StillHeld(s, s', i, o.flow, now);
        assert Covering(s', b);
      } else {
        assert !AgesWith(s, i, now);
        var m :| m in s.sent && m.flow == o.flow && m.ack >= b.ack;
        assert Covering(s', m);
      }
    }
  }

  lemma StillHeld(s: State, s': State, i: nat, f: Flow, now: Jiffies)
    requires Accounted(s.table) && Aged(s, s', now) && i < TCP_ACK_NUM
    requires i == Match(s.table.slots, f) && s'.table.slots[i].busy
    ensures HeldFor(s'.table.slots, f) == s.table.slots[i].held
  {
    hide Stale, TimeAfter, CountBusy;
    OnlyMatch(s.table, f, Match(s'.table.slots, f));
  }
}
