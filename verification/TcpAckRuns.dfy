/** Whole runs of the TCP ACK suppressor: every cumulative acknowledgement offered to it is covered by one
    that has gone out or is still held, and no message goes out or is freed twice. */
module TcpAckRuns {
  import opened Integers
  import opened Wrappers
  import opened TcpAckSpec
  import opened TcpAckAccounts

  /** The flow table together with the history the properties speak of: the messages offered by the stack,
      handed to the transmit path, and freed; the true number each slot has recorded (tops); and for each
      flow a message with the highest number offered so far (best); timeout is the manager's ageing time, and
      ended are the sends that are over. */
  datatype State = State(table: Table, sent: multiset<Msg>, freed: multiset<Msg>, offered: multiset<Msg>,
                         tops: seq<nat>, best: map<Flow, Msg>, timeout: Jiffies, ended: multiset<Msg>)

  datatype Event =
    | Age(now: Jiffies)
    | Offer(m: Msg, kind: nat, winScale: int, enabled: bool, at: Jiffies)
    | ReceivePush(flow: Flow, end: U32)
    | Timeout(i: nat)
    | SendDone(done: Msg, filtering: bool)

  function Raise(best: map<Flow, Msg>, m: Msg): map<Flow, Msg> {
    if m.flow in best && best[m.flow].ack > m.ack then best else best[m.flow := m]
  }

  function Bag(m: Option<Msg>): multiset<Msg> {
    if m.Some? then multiset{m.value} else multiset{}
  }

  /** The message reaches tcp_ack_handle_new. */
  predicate Handled(t: Table, m: Msg, kind: nat, enabled: bool) {
    Match(t.slots, m.flow) >= 0 && kind > 0 && enabled
  }

  /** It does and goes back behind the number on record. */
  predicate Regresses(t: Table, m: Msg, kind: nat, enabled: bool) {
    Handled(t, m, kind, enabled) && !U32Before(t.slots[Match(t.slots, m.flow)].ackSeq, Wire(m))
  }

  function TopsAfter(s: State, m: Msg, kind: nat, winScale: int, enabled: bool): seq<nat>
    requires s.table.freeIndex < TCP_ACK_NUM && |s.tops| == TCP_ACK_NUM
  {
    var i := Match(s.table.slots, m.flow);
    if kind == 0 && winScale == 0 then s.tops
    else if i >= 0 then
      if Handled(s.table, m, kind, enabled) && !Regresses(s.table, m, kind, enabled) then s.tops[i := m.ack] else s.tops
    else
      var j := Alloc(s.table).1;
      if j >= 0 then s.tops[j := m.ack] else s.tops
  }

  function Step(s: State, e: Event): State
    requires s.table.freeIndex < TCP_ACK_NUM && |s.tops| == TCP_ACK_NUM && (e.Timeout? ==> e.i < TCP_ACK_NUM)
  {
    match e
    case Age(now) => s.(table := Update(s.table, now, s.timeout))
    case Offer(m, kind, winScale, enabled, at) =>
      var r := Filter(s.table, m, kind, winScale, enabled, at);
      State(r.table, if r.pass then s.sent + multiset{m} else s.sent, s.freed + Bag(r.freed), s.offered + multiset{m},
            TopsAfter(s, m, kind, winScale, enabled),
            if Regresses(s.table, m, kind, enabled) then s.best else Raise(s.best, m), s.timeout, s.ended)
    case ReceivePush(f, end) => s.(table := Receive(s.table, f, end))
    case Timeout(i) =>
      var (slot, out) := TimedOut(s.table.slots[i]);
      s.(table := s.table.(slots := s.table.slots[i := slot]), sent := s.sent + Bag(out))
    case SendDone(m, filtering) =>
      s.(table := if filtering then s.table.(slots := Moved(s.table.slots, m)) else s.table,
         ended := s.ended + multiset{m})
  }

  // ---- what every reachable state satisfies ----

  /** What a busy slot of a flow holds back, if anything. */
  function HeldFor(slots: Slots, f: Flow): Option<Msg> {
    var i := Match(slots, f);
    if i >= 0 then slots[i].held else None
  }

  /** The slot's record is the low half of a true number, and what it holds carries exactly that number. */
  ghost predicate SlotOk(slot: Slot, top: nat, best: map<Flow, Msg>) {
    && (!slot.busy ==> slot.held.None?)
    && (slot.busy ==> slot.ackSeq == top % TWO32 && slot.flow in best && best[slot.flow].ack >= top)
    && (slot.held.Some? ==> slot.held.value.flow == slot.flow && slot.held.value.ack == top)
  }

  ghost predicate BestOk(s: State, f: Flow)
    requires f in s.best
  {
    s.best[f].flow == f && (s.best[f] in s.sent || HeldFor(s.table.slots, f) == Some(s.best[f]))
  }

  ghost predicate Inv(s: State) {
    && Accounted(s.table) && s.table.freeIndex < TCP_ACK_NUM && |s.tops| == TCP_ACK_NUM
    && (forall i :: 0 <= i < TCP_ACK_NUM ==> SlotOk(s.table.slots[i], s.tops[i], s.best))
    && (forall f :: f in s.best ==> BestOk(s, f))
    && (forall o :: o in s.offered ==> o.flow in s.best && o.ack <= s.best[o.flow].ack)
  }

  /** Gone out, or held by the live slot of its flow, from where the next acknowledgement or the timer moves it on. */
  ghost predicate Covering(s: State, m: Msg) {
    m in s.sent || HeldFor(s.table.slots, m.flow) == Some(m)
  }

  /** No cumulative acknowledgement is lost. */
  ghost predicate NoAckLost(s: State) {
    forall o :: o in s.offered ==> exists m: Msg :: m.flow == o.flow && m.ack >= o.ack && Covering(s, m)
  }

  lemma InvCovers(s: State)
    requires Inv(s)
    ensures NoAckLost(s)
  {
    forall o | o in s.offered
      ensures exists m: Msg :: m.flow == o.flow && m.ack >= o.ack && Covering(s, m)
    {
      assert BestOk(s, o.flow);
      assert Covering(s, s.best[o.flow]);
    }
  }

  /** What the properties ask of an event: the parser's promise that only acknowledgements show a window
      scale, true numbers within half the 32-bit circle, and no slot ageing out while it holds a message. */
  ghost predicate Allowed(s: State, e: Event) {
    match e
    case Age(now) => forall i :: 0 <= i < TCP_ACK_NUM ==>
      !(Stale(s.table.slots[i], now, s.timeout) && s.table.slots[i].held.Some?)
    case Offer(m, kind, winScale, _, _) =>
      var i := Match(s.table.slots, m.flow);
      (kind == 0 ==> winScale == 0) && (i >= 0 && |s.tops| == TCP_ACK_NUM ==> -TWO31 <= s.tops[i] - m.ack < TWO31)
    case ReceivePush(_, _) => true
    case Timeout(i) => i < TCP_ACK_NUM
    case SendDone(_, _) => true
  }

  /** A flow that neither the old nor the new slot i belongs to is found where it was. */
  lemma MatchElsewhere(slots: Slots, slots': Slots, i: nat, g: Flow)
    requires i < TCP_ACK_NUM && slots' == slots[i := slots'[i]]
    requires !Matches(slots[i], g) && !Matches(slots'[i], g)
    ensures HeldFor(slots', g) == HeldFor(slots, g)
  {
    var k, k' := Match(slots, g), Match(slots', g);
    hide Match;
    assert k >= 0 ==> k != i && slots'[k] == slots[k] && Matches(slots'[k], g);
    assert k' >= 0 ==> k' != i && slots'[k'] == slots[k'] && Matches(slots[k'], g);
  }

  /** One busy slot has changed, staying with its flow f; the best message of f can only have gone up. */
  lemma SlotChanged(s: State, s': State, i: nat, f: Flow)
    requires Inv(s) && Accounted(s'.table) && |s'.tops| == TCP_ACK_NUM && i < TCP_ACK_NUM
    requires s'.table.slots == s.table.slots[i := s'.table.slots[i]] && s'.tops == s.tops[i := s'.tops[i]]
    requires Matches(s'.table.slots[i], f) && (s.table.slots[i].busy ==> s.table.slots[i].flow == f)
    requires f in s'.best && s'.best == s.best[f := s'.best[f]] && (f in s.best ==> s'.best[f].ack >= s.best[f].ack)
    requires BestOk(s', f) && SlotOk(s'.table.slots[i], s'.tops[i], s'.best)
    requires forall m :: m in s.sent ==> m in s'.sent
    requires forall o :: o in s'.offered ==> o in s.offered || (o.flow == f && o.ack <= s'.best[f].ack)
    ensures Inv(s')
  {
    assert s'.table.freeIndex < TCP_ACK_NUM;
    hide Accounted, HeldFor;
    forall k | 0 <= k < TCP_ACK_NUM
      ensures SlotOk(s'.table.slots[k], s'.tops[k], s'.best)
    {
      assert SlotOk(s.table.slots[k], s.tops[k], s.best);
    }
    forall g | g in s'.best
      ensures BestOk(s', g)
    {
      if g != f {
        assert BestOk(s, g);
        MatchElsewhere(s.table.slots, s'.table.slots, i, g);
      }
    }
  }

  /** What tcp_ack_handle_new does to a slot whose record is the low half of top. */
  lemma HandleCases(slot: Slot, top: nat, m: Msg, now: Jiffies)
    requires slot.busy && slot.ackSeq == top % TWO32 && -TWO31 <= top - m.ack < TWO31
    ensures var v := Handle(slot, m, now);
      && v.slot.busy && v.slot.flow == slot.flow && (U32Before(slot.ackSeq, Wire(m)) <==> top <= m.ack)
      && (top <= m.ack ==> v.slot.ackSeq == Wire(m) && v.freed == slot.held &&
                           v.slot.held == if v.pass then None else Some(m))
      && (top > m.ack ==> v.slot.ackSeq == slot.ackSeq && v.slot.held == slot.held && !v.pass && v.freed == Some(m))
  {
    BeforeIsExact(top, m.ack);
  }

  lemma HandledShape(s: State, e: Event, i: nat, s': State)
    requires Enabled(s, e) && e.Offer? && Handled(s.table, e.m, e.kind, e.enabled)
    requires i == Match(s.table.slots, e.m.flow) && s' == Step(s, e)
    ensures var v := Handle(Rescaled(s.table.slots[i], e.winScale), e.m, e.at);
      && s'.table.slots == s.table.slots[i := v.slot]
      && s'.sent == (if v.pass then s.sent + multiset{e.m} else s.sent)
      && (if U32Before(s.table.slots[i].ackSeq, Wire(e.m))
          then s'.best == Raise(s.best, e.m) && s'.tops == s.tops[i := e.m.ack]
          else s'.best == s.best && s'.tops == s.tops)
  {
    hide Handle, U32Before, Raise;
  }

  lemma HandledChanges(s: State, e: Event, i: nat, s': State)
    requires Inv(s) && e.Offer? && Allowed(s, e) && Handled(s.table, e.m, e.kind, e.enabled)
    requires i == Match(s.table.slots, e.m.flow) && s' == Step(s, e)
    ensures var f := e.m.flow; var slot := s'.table.slots[i];
      && f in s.best && f in s'.best && s'.best == s.best[f := s'.best[f]]
      && s'.best[f].ack >= s.best[f].ack && s'.best[f].ack >= e.m.ack
      && (s'.best[f] in s'.sent || slot.held == Some(s'.best[f]))
      && SlotOk(slot, s'.tops[i], s'.best) && Matches(slot, f)
      && s'.table.slots == s.table.slots[i := slot] && s'.tops == s.tops[i := s'.tops[i]]
  {
    hide Handle, U32Before, Accounted, Step, Inv;
    var slot, f := s.table.slots[i], e.m.flow;
    InvAt(s, i, f);
    HandledShape(s, e, i, s');
    HandleCases(Rescaled(slot, e.winScale), s.tops[i], e.m, e.at);
  }

  lemma OfferHandled(s: State, e: Event)
    requires Inv(s) && e.Offer? && Allowed(s, e) && Handled(s.table, e.m, e.kind, e.enabled)
    ensures Inv(Step(s, e))
  {
    hide Handle, U32Before;
    FilterAccounted(s.table, e.m, e.kind, e.winScale, e.enabled, e.at);
    var i := Match(s.table.slots, e.m.flow);
    var s' := Step(s, e);
    HandledChanges(s, e, i, s');
    OnlyMatch(s'.table, e.m.flow, i);
    SlotChanged(s, s', i, e.m.flow);
  }

  /** m goes straight out, and no slot's record or held message changes. */
  lemma PassedOn(s: State, s': State, m: Msg)
    requires Inv(s) && Accounted(s'.table) && s'.tops == s.tops
    requires forall i :: 0 <= i < TCP_ACK_NUM ==> SameRecord(s.table.slots[i], s'.table.slots[i])
    requires s'.sent == s.sent + multiset{m} && s'.offered == s.offered + multiset{m} && s'.best == Raise(s.best, m)
    ensures Inv(s')
  {
    assert s'.table.freeIndex < TCP_ACK_NUM;
    hide Accounted, SlotOk, BestOk, SameRecord, Raise;
    forall k | 0 <= k < TCP_ACK_NUM
      ensures SlotOk(s'.table.slots[k], s'.tops[k], s'.best)
    {
      PassedOnSlot(s.table.slots[k], s'.table.slots[k], s.tops[k], s.best, m);
    }
    forall f | f in s'.best
      ensures BestOk(s', f)
    {
      PassedOnBest(s, s', m, f);
    }
    forall o | o in s'.offered
      ensures o.flow in s'.best && o.ack <= s'.best[o.flow].ack
    {
      RaiseCovers(s.best, m, o);
    }
  }

  lemma RaiseCovers(best: map<Flow, Msg>, m: Msg, o: Msg)
    requires o == m || (o.flow in best && o.ack <= best[o.flow].ack)
    ensures o.flow in Raise(best, m) && o.ack <= Raise(best, m)[o.flow].ack
  {
  }

  lemma PassedOnSlot(slot: Slot, slot': Slot, top: nat, best: map<Flow, Msg>, m: Msg)
    requires SlotOk(slot, top, best) && SameRecord(slot, slot')
    ensures SlotOk(slot', top, Raise(best, m))
  {
  }

  lemma PassedOnBest(s: State, s': State, m: Msg, f: Flow)
    requires forall i :: 0 <= i < TCP_ACK_NUM ==> SameRecord(s.table.slots[i], s'.table.slots[i])
    requires s'.sent == s.sent + multiset{m} && s'.best == Raise(s.best, m)
    requires f in s'.best && (f in s.best ==> BestOk(s, f))
    ensures BestOk(s', f)
  {
    SameHeldFor(s.table.slots, s'.table.slots, f);
    RaiseAt(s.best, m, f);
    hide HeldFor, SameRecord, Raise;
  }

  lemma RaiseAt(best: map<Flow, Msg>, m: Msg, f: Flow)
    requires f in Raise(best, m)
    ensures (f == m.flow && Raise(best, m)[f] == m) || (f in best && Raise(best, m)[f] == best[f])
  {
  }

  predicate SameRecord(a: Slot, b: Slot) {
    a.busy == b.busy && a.flow == b.flow && a.ackSeq == b.ackSeq && a.held == b.held
  }

  lemma SameHeldFor(slots: Slots, slots': Slots, f: Flow)
    requires forall i :: 0 <= i < TCP_ACK_NUM ==> SameRecord(slots[i], slots'[i])
    ensures Match(slots', f) == Match(slots, f) && HeldFor(slots', f) == HeldFor(slots, f)
  {
    var k, k' := Match(slots, f), Match(slots', f);
    assert k >= 0 ==> SameRecord(slots[k], slots'[k]);
    assert k' >= 0 ==> SameRecord(slots[k'], slots'[k']);
  }

  lemma OfferPasses(s: State, e: Event)
    requires Inv(s) && e.Offer? && Allowed(s, e) && !Handled(s.table, e.m, e.kind, e.enabled)
    ensures Inv(Step(s, e))
  {
    hide Accounted, Handle, SlotOk, BestOk;
    var s' := Step(s, e);
    assert Accounted(s'.table) by { FilterAccounted(s.table, e.m, e.kind, e.winScale, e.enabled, e.at); }
    var i := Match(s.table.slots, e.m.flow);
    if i >= 0 || (e.kind == 0 && e.winScale == 0) || Alloc(s.table).1 < 0 {
      assert Alloc(s.table).1 < 0 ==> Alloc(s.table).0.slots == s.table.slots;
      PassedOn(s, s', e.m);
    } else {
      OfferOpens(s, e, s');
    }
  }

  lemma InvAt(s: State, i: nat, f: Flow)
    requires Inv(s) && i < TCP_ACK_NUM
    ensures Accounted(s.table) && s.table.freeIndex < TCP_ACK_NUM && |s.tops| == TCP_ACK_NUM
    ensures SlotOk(s.table.slots[i], s.tops[i], s.best) && (f in s.best ==> BestOk(s, f))
  {
  }

  lemma OpeningShape(s: State, e: Event, s': State, j: nat)
    requires e.Offer? && Enabled(s, e) && s' == Step(s, e) && j == Alloc(s.table).1
    requires Match(s.table.slots, e.m.flow) < 0 && !(e.kind == 0 && e.winScale == 0)
    ensures s'.table.slots == s.table.slots[j := Opened(s.table.slots[j], e.m, e.winScale, e.at)]
    ensures s'.tops == s.tops[j := e.m.ack] && s'.best == Raise(s.best, e.m)
    ensures s'.sent == s.sent + multiset{e.m} && s'.offered == s.offered + multiset{e.m}
  {
  }

  lemma OfferOpens(s: State, e: Event, s': State)
    requires Inv(s) && e.Offer? && Allowed(s, e) && s' == Step(s, e) && Accounted(s'.table)
    requires Match(s.table.slots, e.m.flow) < 0 && !(e.kind == 0 && e.winScale == 0) && Alloc(s.table).1 >= 0
    ensures Inv(s')
  {
    hide Inv, Step, Filter, Accounted;
    var j, f := Alloc(s.table).1, e.m.flow;
    InvAt(s, j, f);
    OpeningShape(s, e, s', j);
    AllocSucceeds(s.table);
    OnlyMatch(s'.table, f, j);
    SlotChanged(s, s', j, f);
  }

  /** The held message of slot i, if there is one and no send is outstanding, goes out. */
  lemma TimeoutKeeps(s: State, i: nat)
    requires Inv(s) && i < TCP_ACK_NUM
    ensures Inv(Step(s, Timeout(i)))
  {
    var s' := Step(s, Timeout(i));
    TimedOutAccounted(s.table, i);
    if s.table.slots[i].busy { TimeoutOnBusy(s, i, s'); } else { TimeoutOnIdle(s, i, s'); }
  }

  lemma TimeoutOnIdle(s: State, i: nat, s': State)
    requires Inv(s) && i < TCP_ACK_NUM && !s.table.slots[i].busy && Accounted(s'.table) && s' == Step(s, Timeout(i))
    ensures Inv(s')
  {
    InvAt(s, i, s.table.slots[i].flow);
    hide Inv, Accounted, BestOk, SlotOk;
    Unheld(s, s');
  }

  lemma TimeoutOnBusy(s: State, i: nat, s': State)
    requires Inv(s) && i < TCP_ACK_NUM && s.table.slots[i].busy && Accounted(s'.table) && s' == Step(s, Timeout(i))
    ensures Inv(s')
  {
    var f := s.table.slots[i].flow;
    InvAt(s, i, f);
    hide Inv, Accounted;
    OnlyMatch(s.table, f, i);
    OnlyMatch(s'.table, f, i);
    assert s'.best == s.best[f := s'.best[f]] && s'.tops == s.tops[i := s'.tops[i]];
    SlotChanged(s, s', i, f);
  }

  predicate Released(a: Slot, b: Slot) {
    b.flow == a.flow && b.ackSeq == a.ackSeq && b.held == a.held && (b.busy ==> a.busy)
    && (a.busy && a.held.Some? ==> b.busy)
  }

  /** Slots may have been released, but none that held a message; nothing else of the record has changed. */
  lemma Unheld(s: State, s': State)
    requires Inv(s) && Accounted(s'.table) && s' == s.(table := s'.table, ended := s'.ended)
    requires forall i :: 0 <= i < TCP_ACK_NUM ==> Released(s.table.slots[i], s'.table.slots[i])
    ensures Inv(s')
  {
    forall k | 0 <= k < TCP_ACK_NUM
      ensures SlotOk(s'.table.slots[k], s'.tops[k], s'.best)
    {
      assert SlotOk(s.table.slots[k], s.tops[k], s.best);
    }
    forall f | f in s'.best
      ensures BestOk(s', f)
    {
      assert BestOk(s, f);
      var i := Match(s.table.slots, f);
      if i >= 0 && s.table.slots[i].held.Some? {
        OnlyMatch(s'.table, f, i);
      }
    }
  }

  lemma StepKeeps(s: State, e: Event)
    requires Inv(s) && Allowed(s, e)
    ensures Inv(Step(s, e))
  {
    hide Handle, Accounted, SlotOk, BestOk, U32Before;
    match e
    case Age(now) =>
      AgeKeeps(s, now);
    case Offer(m, kind, _, enabled, _) =>
      if Handled(s.table, m, kind, enabled) { OfferHandled(s, e); } else { OfferPasses(s, e); }
    case ReceivePush(f, end) =>
      ReceiveAccounted(s.table, f, end);
      Unheld(s, Step(s, e));
    case Timeout(i) =>
      TimeoutKeeps(s, i);
    case SendDone(m, filtering) =>
      MovedAccounted(s.table, m);
      Unheld(s, Step(s, e));
  }

  lemma AgeKeeps(s: State, now: Jiffies)
    requires Inv(s) && Allowed(s, Age(now))
    ensures Inv(Step(s, Age(now)))
  {
    hide Accounted, SlotOk, BestOk;
    var t := s.table.(lastTime := now);
    assert Accounted(Update(s.table, now, s.timeout)) by { UpdateAccounted(s.table, now, s.timeout); }
    AgeResult(t, TCP_ACK_NUM, now, s.timeout);
    Unheld(s, Step(s, Age(now)));
  }

  lemma UpdateAccounted(t: Table, now: Jiffies, timeout: Jiffies)
    requires Accounted(t)
    ensures Accounted(Update(t, now, timeout))
  {
    AgeAccounted(t.(lastTime := now), TCP_ACK_NUM, now, timeout);
  }

  // ---- runs ----

  /** What tcp_ack_init leaves, whatever the time and the ageing time. */
  function Init(now: Jiffies, timeout: Jiffies): State {
    State(Table(seq(TCP_ACK_NUM, _ => EMPTY.(lastTime := now)), 0, 0, now), multiset{}, multiset{}, multiset{},
          seq(TCP_ACK_NUM, _ => 0), map[], timeout, multiset{})
  }

  lemma InitInv(now: Jiffies, timeout: Jiffies)
    ensures Inv(Init(now, timeout))
  {
    InitAccounted(TCP_ACK_NUM, now);
  }

  predicate Enabled(s: State, e: Event) {
    s.table.freeIndex < TCP_ACK_NUM && |s.tops| == TCP_ACK_NUM && (e.Timeout? ==> e.i < TCP_ACK_NUM)
  }

  function Run(s: State, es: seq<Event>): State {
    if es == [] then s
    else
      var s' := Run(s, es[..|es| - 1]);
      if Enabled(s', es[|es| - 1]) then Step(s', es[|es| - 1]) else s'
  }

  // ---- the books over every run, allowed or not ----

  lemma StepAccounted(s: State, e: Event)
    requires Accounted(s.table) && Enabled(s, e)
    ensures Accounted(Step(s, e).table)
  {
    hide Accounted, Filter, Receive, Update, TopsAfter;
    match e
    case Age(now) => UpdateAccounted(s.table, now, s.timeout);
    case Offer(m, kind, winScale, enabled, at) => FilterAccounted(s.table, m, kind, winScale, enabled, at);
    case ReceivePush(f, end) => ReceiveAccounted(s.table, f, end);
    case Timeout(i) => TimedOutAccounted(s.table, i);
    case SendDone(m, _) => MovedAccounted(s.table, m);
  }

  /** Over every run whatsoever max_num is the number of busy slots and within 0..32, free_index names an idle slot if
      any, and no flow has two slots. */
  lemma {:induction false} RunAccounted(now: Jiffies, timeout: Jiffies, es: seq<Event>)
    ensures var t := Run(Init(now, timeout), es).table; Accounted(t) && 0 <= t.maxNum <= 32 == |t.slots|
  {
    hide Step, Accounted;
    if es == [] {
      InitInv(now, timeout);
      assert Accounted(Init(now, timeout).table) by { BooksOf(Init(now, timeout)); }
    } else {
      RunAccounted(now, timeout, es[..|es| - 1]);
      var s := Run(Init(now, timeout), es[..|es| - 1]);
      if Enabled(s, es[|es| - 1]) { StepAccounted(s, es[|es| - 1]); }
    }
    BusyBounds(Run(Init(now, timeout), es).table);
  }

  lemma BooksOf(s: State)
    requires Inv(s)
    ensures Accounted(s.table)
  {
  }

  lemma BusyBounds(t: Table)
    requires Accounted(t)
    ensures 0 <= t.maxNum <= TCP_ACK_NUM
  {
    CountBusyAtMost(t.slots);
  }

  // ---- what allowed runs keep ----

  /** Every event of the run was allowed in the state it met. */
  ghost predicate AllowedRun(s: State, es: seq<Event>) {
    forall k :: 0 <= k < |es| ==> Allowed(Run(s, es[..k]), es[k])
  }

  lemma {:induction false} RunInv(s: State, es: seq<Event>)
    requires Inv(s) && AllowedRun(s, es)
    ensures Inv(Run(s, es))
  {
    hide Inv, Allowed, Step;
    if es != [] {
      var n := |es| - 1;
      assert forall k :: 0 <= k < n ==> es[..n][..k] == es[..k] && es[..n][k] == es[k];
      RunInv(s, es[..n]);
      InvEnabled(Run(s, es[..n]), es[n]);
      StepKeeps(Run(s, es[..n]), es[n]);
    }
  }

  lemma InvEnabled(s: State, e: Event)
    requires Inv(s) && Allowed(s, e)
    ensures Enabled(s, e)
  {
  }

  /** Over every allowed run, from any start time and with any ageing time: whatever acknowledgement the stack has
      offered, one of the same flow with at least that number has gone out or is held by the live slot of the flow. */
  lemma RunLosesNoAck(now: Jiffies, timeout: Jiffies, es: seq<Event>)
    requires AllowedRun(Init(now, timeout), es)
    ensures NoAckLost(Run(Init(now, timeout), es))
  {
    InitInv(now, timeout);
    RunInv(Init(now, timeout), es);
    InvCovers(Run(Init(now, timeout), es));
  }
}
