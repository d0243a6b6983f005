/** The order and the classes of the packets in the priority frame queue, over whole runs. */
module FrameQueueOrder {
  import opened Wrappers
  import opened FrameQueue
  import opened FrameQueueRuns

  /** Every class is in order of arrival, and nothing in it is as young as the packets still to come. */
  predicate InOrder(lists: Lists, next: nat) {
    forall c :: 0 <= c < |lists| ==> Ascends(lists[c], next)
  }

  predicate Ascends(l: seq<Pkt>, next: nat) {
    && (forall i, j :: 0 <= i < j < |l| ==> l[i] < l[j])
    && forall i :: 0 <= i < |l| ==> l[i] < next
  }

  /** Packets are numbered in the order in which they are offered. */
  predicate Numbered(ops: seq<Op>) {
    forall i, j :: 0 <= i < j < |ops| && ops[i].Enq? && ops[j].Enq? ==> ops[i].p < ops[j].p
  }

  /** One more than the highest number offered. */
  function Next(ops: seq<Op>): nat {
    if ops == [] then 0
    else if ops[|ops| - 1].Enq? then ops[|ops| - 1].p + 1 else Next(ops[..|ops| - 1])
  }

  lemma {:induction false} NextIsAbove(ops: seq<Op>, p: nat)
    requires forall i :: 0 <= i < |ops| && ops[i].Enq? ==> ops[i].p < p
    ensures Next(ops) <= p
  {
    if ops != [] { NextIsAbove(ops[..|ops| - 1], p); }
  }

  lemma StepInOrder(q: Queue, t: Tally, op: Op, x: Pkt, next: nat, next': nat)
    requires Sound(q) && InOrder(q.lists, next) && (op.Enq? ==> op.prio < |q.lists|)
    requires next <= next' && (op.Enq? ==> next <= op.p < next')
    ensures InOrder(Step(q, t, op, x).0.lists, next')
  {
    hide LowestFrom, HighestTo, Total, Ascends;
    var q' := Step(q, t, op, x).0;
    forall c | 0 <= c < |q'.lists|
      ensures Ascends(q'.lists[c], next')
    {
      if c < |q.lists| {
        assert Ascends(q.lists[c], next);
        AscendsOn(q.lists[c], next, next', if op.Enq? then op.p else next);
      }
      AscendsNone(next');
    }
  }

  lemma AscendsNone(next: nat)
    ensures Ascends([], next)
  {
  }

  /** What becomes of a class: it stays, a newer packet comes at its end or in the place of its newest, its oldest
      goes. */
  lemma AscendsOn(l: seq<Pkt>, next: nat, next': nat, p: Pkt)
    requires Ascends(l, next) && next <= next' && next <= p
    ensures Ascends(l, next')
    ensures p < next' ==> Ascends(l + [p], next')
    ensures l != [] ==> Ascends(l[1..], next') && (p < next' ==> Ascends(l[..|l| - 1] + [p], next'))
  {
  }

  /** First in, first out within each class, over every run, evictions and flushes included: packets stand in the order
      in which they were offered. */
  lemma {:induction false} ArrivalOrder(classes: nat, qmax: nat, ops: seq<Op>, x: Pkt)
    requires classes > 0 && Numbered(ops) && forall i :: 0 <= i < |ops| ==> ops[i].Enq? ==> ops[i].prio < classes
    ensures Sound(Empty(classes, qmax))
    ensures InOrder(Run(Empty(classes, qmax), ops, x).0.lists, Next(ops))
  {
    hide Step, Sound, InOrder;
    EmptySound(classes, qmax);
    if ops == [] {
      EmptyInOrder(classes, qmax);
    } else {
      var front, op := ops[..|ops| - 1], ops[|ops| - 1];
      ArrivalOrder(classes, qmax, front, x);
      if op.Enq? { NextIsAbove(front, op.p); }
      var (q, t) := Run(Empty(classes, qmax), front, x);
      StepInOrder(q, t, op, x, Next(front), Next(ops));
    }
  }

  lemma EmptyInOrder(classes: nat, qmax: nat)
    ensures InOrder(Empty(classes, qmax).lists, 0)
  {
  }

  // ---- the class of a packet ----

  /** The packet was offered in the run, for class c or, if low, for a class above it. */
  predicate Offered(ops: seq<Op>, p: Pkt, c: nat, low: bool) {
    exists i :: 0 <= i < |ops| && ops[i].Enq? && ops[i].p == p && (ops[i].prio == c || (low && c < ops[i].prio))
  }

  predicate AllOffered(lists: Lists, ops: seq<Op>, low: bool) {
    forall c, i :: 0 <= c < |lists| && 0 <= i < |lists[c]| ==> Offered(ops, lists[c][i], c, low)
  }

  lemma OfferedMore(ops: seq<Op>, op: Op, p: Pkt, c: nat, low: bool)
    ensures Offered(ops, p, c, low) ==> Offered(ops + [op], p, c, low)
    ensures op.Enq? && op.p == p && (op.prio == c || (low && c < op.prio)) ==> Offered(ops + [op], p, c, low)
  {
    if i :| 0 <= i < |ops| && ops[i].Enq? && ops[i].p == p && (ops[i].prio == c || (low && c < ops[i].prio)) {
      assert (ops + [op])[i] == ops[i];
    }
    assert (ops + [op])[|ops|] == op;
  }

  lemma StepOffered(q: Queue, t: Tally, op: Op, x: Pkt, ops: seq<Op>, low: bool)
    requires Sound(q) && (op.Enq? ==> op.prio < |q.lists|) && AllOffered(q.lists, ops, low)
    requires low || q.qcnt < q.qmax
    ensures AllOffered(Step(q, t, op, x).0.lists, ops + [op], low)
  {
    hide LowestFrom, HighestTo, Offered;
    var q' := Step(q, t, op, x).0;
    if op.Enq? { OverflowRule(q, op.p, op.prio); }
    hide Total;
    forall c, i | 0 <= c < |q'.lists| && 0 <= i < |q'.lists[c]|
      ensures Offered(ops + [op], q'.lists[c][i], c, low)
    {
      OfferedMore(ops, op, q'.lists[c][i], c, low);
    }
  }

  /** Over every run a queued packet is in the class it was offered for or, having taken an evicted one's place, in a
      lower one; with no more operations than there is room, in its own. */
  lemma {:induction false} ClassKept(classes: nat, qmax: nat, ops: seq<Op>, x: Pkt, low: bool)
    requires classes > 0 && forall i :: 0 <= i < |ops| ==> ops[i].Enq? ==> ops[i].prio < classes
    requires low || |ops| <= qmax
    ensures Sound(Empty(classes, qmax))
    ensures var q := Run(Empty(classes, qmax), ops, x).0; AllOffered(q.lists, ops, low) && q.qcnt <= |ops|
  {
    hide Step, Sound, AllOffered;
    EmptySound(classes, qmax);
    if ops == [] {
      NoneOffered(classes, qmax, low);
    } else {
      var front, op := ops[..|ops| - 1], ops[|ops| - 1];
      ClassKept(classes, qmax, front, x, low);
      var (q, t) := Run(Empty(classes, qmax), front, x);
      StepCount(q, t, op, x);
      StepOffered(q, t, op, x, front, low);
      assert front + [op] == ops;
    }
  }

  lemma NoneOffered(classes: nat, qmax: nat, low: bool)
    ensures AllOffered(Empty(classes, qmax).lists, [], low) && Empty(classes, qmax).qcnt == 0
  {
  }

  lemma StepCount(q: Queue, t: Tally, op: Op, x: Pkt)
    requires Sound(q) && (op.Enq? ==> op.prio < |q.lists|)
    ensures Step(q, t, op, x).0.qcnt <= q.qcnt + 1
  {
  }
}
