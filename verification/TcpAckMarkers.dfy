/** The in-send marker of the TCP ACK suppressor: when it names a send that is still under way, and what it holds up
    when it does not. */
module TcpAckMarkers {
  import opened Integers
  import opened Wrappers
  import opened TcpAckSpec
  import opened TcpAckAccounts
  import opened TcpAckRuns

  /** More sends of the message have begun than are over. */
  predicate Outstanding(s: State, m: Msg) {
    s.sent[m] > s.ended[m]
  }

  /** The slot's marker, if it has one, names an outstanding send. */
  predicate MarkerOk(s: State, slot: Slot) {
    slot.inSend.Some? ==> Outstanding(s, slot.inSend.value)
  }

  /** The markers of all slots do, busy or idle: an idle slot keeps its marker for the flow that gets it next. */
  ghost predicate MarkersOk(s: State) {
    forall i :: 0 <= i < TCP_ACK_NUM ==> MarkerOk(s, s.table.slots[i])
  }

  /** No send is over that has not begun. */
  ghost predicate Begun(s: State) {
    forall m :: s.ended[m] <= s.sent[m]
  }

  /** The end of a send is the end of one that is under way. */
  predicate Proper(s: State, e: Event) {
    e.SendDone? ==> Outstanding(s, e.done)
  }

  /** The last outstanding send of a message ends and meets a slot with its marker that is idle, or the filter
      disabled. */
  ghost predicate Strays(s: State, e: Event) {
    && e.SendDone? && s.sent[e.done] == s.ended[e.done] + 1
    && exists i :: 0 <= i < TCP_ACK_NUM && s.table.slots[i].inSend == Some(e.done)
                   && (!s.table.slots[i].busy || !e.filtering)
  }

  // ---- one event ----

  /** Slots that keep their markers keep them right while no send ends. */
  lemma SameMarkers(s: State, s': State)
    requires MarkersOk(s) && s'.ended == s.ended && s.sent <= s'.sent
    requires forall i :: 0 <= i < TCP_ACK_NUM ==>
      s'.table.slots[i].inSend == s.table.slots[i].inSend || MarkerOk(s', s'.table.slots[i])
    ensures MarkersOk(s')
  {
    forall i | 0 <= i < TCP_ACK_NUM
      ensures MarkerOk(s', s'.table.slots[i])
    {
      assert MarkerOk(s, s.table.slots[i]);
    }
  }

  /** What a filter call does to the markers: only a slot that passes the message on is marked, with that message. */
  lemma FilterMarkers(t: Table, m: Msg, kind: nat, winScale: int, enabled: bool, now: Jiffies, i: nat)
    requires t.freeIndex < TCP_ACK_NUM && i < TCP_ACK_NUM
    ensures var r := Filter(t, m, kind, winScale, enabled, now);
      r.table.slots[i].inSend == t.slots[i].inSend || (r.pass && r.table.slots[i].inSend == Some(m))
  {
    hide Handle, Match, Alloc;
    var k := Match(t.slots, m.flow);
    if k >= 0 { HandleMarks(Rescaled(t.slots[k], winScale), m, now); }
  }

  lemma HandleMarks(slot: Slot, m: Msg, now: Jiffies)
    ensures var v := Handle(slot, m, now);
      v.slot.inSend == slot.inSend || (v.pass && v.slot.inSend == Some(m))
  {
  }

  lemma OfferMarkers(s: State, e: Event)
    requires Enabled(s, e) && Begun(s) && MarkersOk(s) && e.Offer?
    ensures MarkersOk(Step(s, e))
  {
    hide Filter, TopsAfter, Regresses, Raise;
    var s' := Step(s, e);
    forall i | 0 <= i < TCP_ACK_NUM
      ensures s'.table.slots[i].inSend == s.table.slots[i].inSend || MarkerOk(s', s'.table.slots[i])
    {
      FilterMarkers(s.table, e.m, e.kind, e.winScale, e.enabled, e.at, i);
      assert s.ended[e.m] <= s.sent[e.m];
    }
    SameMarkers(s, s');
  }

  lemma DoneMarkers(s: State, e: Event)
    requires Enabled(s, e) && MarkersOk(s) && e.SendDone? && Outstanding(s, e.done)
    ensures MarkersOk(Step(s, e)) <==> !Strays(s, e)
  {
    var s' := Step(s, e);
    if Strays(s, e) {
      var i :| 0 <= i < TCP_ACK_NUM && s.table.slots[i].inSend == Some(e.done)
               && (!s.table.slots[i].busy || !e.filtering);
      assert !MarkerOk(s', s'.table.slots[i]);
    } else {
      forall i | 0 <= i < TCP_ACK_NUM
        ensures MarkerOk(s', s'.table.slots[i])
      {
        assert MarkerOk(s, s.table.slots[i]);
      }
    }
  }

  /** Every event keeps all markers right if and only if it is not such an end of a send. */
  lemma StepMarkers(s: State, e: Event)
    requires Enabled(s, e) && Begun(s) && MarkersOk(s) && Proper(s, e)
    ensures MarkersOk(Step(s, e)) <==> !Strays(s, e)
  {
    hide MarkersOk, Filter;
    match e
    case Age(now) =>
      AgeResult(s.table.(lastTime := now), TCP_ACK_NUM, now, s.timeout);
      SameMarkers(s, Step(s, e));
    case Offer(_, _, _, _, _) => OfferMarkers(s, e);
    case ReceivePush(_, _) => SameMarkers(s, Step(s, e));
    case Timeout(i) =>
      HeldMarked(s, i);
      SameMarkers(s, Step(s, e));
    case SendDone(_, _) => DoneMarkers(s, e);
  }

  lemma HeldMarked(s: State, i: nat)
    requires Enabled(s, Timeout(i)) && Begun(s)
    ensures var s' := Step(s, Timeout(i));
      s'.table.slots[i].inSend == s.table.slots[i].inSend || MarkerOk(s', s'.table.slots[i])
  {
    var slot := s.table.slots[i];
    if slot.held.Some? { assert s.ended[slot.held.value] <= s.sent[slot.held.value]; }
  }

  lemma StepBegun(s: State, e: Event)
    requires Enabled(s, e) && Begun(s) && Proper(s, e)
    ensures Begun(Step(s, e))
  {
    hide Filter, Update, Receive, TimedOut, TopsAfter, Raise;
    var s' := Step(s, e);
    forall m
      ensures s'.ended[m] <= s'.sent[m]
    {
      assert s.ended[m] <= s.sent[m];
    }
  }

  // ---- runs ----

  ghost predicate ProperRun(s: State, es: seq<Event>) {
    forall k :: 0 <= k < |es| ==> Enabled(Run(s, es[..k]), es[k]) && Proper(Run(s, es[..k]), es[k])
  }

  ghost predicate MarkersThroughout(s: State, es: seq<Event>) {
    forall k :: 0 <= k <= |es| ==> MarkersOk(Run(s, es[..k]))
  }

  ghost predicate NoneStrays(s: State, es: seq<Event>) {
    forall k :: 0 <= k < |es| ==> !Strays(Run(s, es[..k]), es[k])
  }

  /** Over every run in which sends end that have begun: the marker of every slot names an outstanding send after every
      event if and only if no last end of a send met its slot idle or the filter disabled. */
  lemma {:induction false} MarkersExactly(now: Jiffies, timeout: Jiffies, es: seq<Event>)
    requires ProperRun(Init(now, timeout), es)
    ensures MarkersThroughout(Init(now, timeout), es) <==> NoneStrays(Init(now, timeout), es)
    ensures Begun(Run(Init(now, timeout), es))
  {
    hide Step, Strays, MarkersOk, Begun, Enabled, Proper, ProperRun, MarkersThroughout, NoneStrays;
    var s := Init(now, timeout);
    if es == [] {
      NothingYet(now, timeout);
    } else {
      var n := |es| - 1;
      OneMore(s, es);
      MarkersExactly(now, timeout, es[..n]);
      var t := Run(s, es[..n]);
      StepBegun(t, es[n]);
      if MarkersOk(t) { StepMarkers(t, es[n]); }
    }
  }

  lemma NothingYet(now: Jiffies, timeout: Jiffies)
    ensures var s := Init(now, timeout); MarkersThroughout(s, []) && NoneStrays(s, []) && Begun(s)
  {
    var none: seq<Event> := [];
    assert none[..0] == none;
  }

  /** Both sides of the equivalence, one event at a time. */
  lemma OneMore(s: State, es: seq<Event>)
    requires es != [] && ProperRun(s, es)
    ensures var n := |es| - 1; var front := es[..n];
      && ProperRun(s, front) && Enabled(Run(s, front), es[n]) && Proper(Run(s, front), es[n])
      && (MarkersThroughout(s, es) <==> MarkersThroughout(s, front) && MarkersOk(Run(s, es)))
      && (NoneStrays(s, es) <==> NoneStrays(s, front) && !Strays(Run(s, front), es[n]))
      && (MarkersThroughout(s, front) ==> MarkersOk(Run(s, front)))
  {
    hide Run, MarkersOk, Strays, Enabled, Proper;
    var n := |es| - 1;
    var front := es[..n];
    assert es[..|es|] == es && front[..n] == front;
    assert forall k :: 0 <= k <= n ==> front[..k] == es[..k];
    assert forall k :: 0 <= k < n ==> front[k] == es[k];
  }

  // ---- what a marker holds up ----

  /** While a slot is marked, its timer does nothing and no acknowledgement is passed on by count: only one that
      answers a push is. The flow that gets an idle slot gets its marker with it. */
  lemma MarkedSlotWaits(slot: Slot, m: Msg, winScale: int, now: Jiffies)
    requires slot.inSend.Some?
    ensures var v := Handle(slot, m, now);
      v.pass <==> U32Before(slot.ackSeq, Wire(m)) && slot.psh && !U32Before(Wire(m), slot.pshSeq)
    ensures !Handle(slot, m, now).pass ==> Handle(slot, m, now).slot.inSend == slot.inSend
    ensures TimedOut(slot) == (slot.(timer := false), None)
    ensures Opened(slot, m, winScale, now).inSend == slot.inSend
  {
  }
}
