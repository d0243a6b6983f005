/** Whole runs of the priority frame queue: where every packet ends up. */
module FrameQueueRuns {
  import opened Wrappers
  import opened FrameQueue

  datatype Op = Enq(p: Pkt, prio: nat) | Deq | FlushAll

  /** How often packet x has been accepted, dequeued, evicted and flushed. */
  datatype Tally = Tally(accepted: nat, dequeued: nat, evicted: nat, flushed: nat)

  function One(p: Option<Pkt>, x: Pkt): nat {
    if p == Some(x) then 1 else 0
  }

  function Occurs(l: seq<Pkt>, x: Pkt): nat {
    multiset(l)[x]
  }

  /** How often x is queued, over all classes. */
  function Queued(lists: Lists, x: Pkt): nat {
    if lists == [] then 0 else Queued(lists[..|lists| - 1], x) + Occurs(lists[|lists| - 1], x)
  }

  function Step(q: Queue, t: Tally, op: Op, x: Pkt): (r: (Queue, Tally))
    requires q.hi < |q.lists| && (op.Enq? ==> op.prio < |q.lists|)
  {
    match op
    case Enq(p, prio) =>
      var r := Enqueue(q, p, prio);
      (r.q, t.(accepted := t.accepted + if r.accepted then One(Some(p), x) else 0,
               evicted := t.evicted + One(r.evicted, x)))
    case Deq => (Dequeue(q).0, t.(dequeued := t.dequeued + One(Dequeue(q).1, x)))
    case FlushAll => (Flush(q), t.(flushed := t.flushed + Queued(q.lists, x)))
  }

  function Run(q: Queue, ops: seq<Op>, x: Pkt): (r: (Queue, Tally))
    requires Sound(q) && forall i :: 0 <= i < |ops| ==> ops[i].Enq? ==> ops[i].prio < |q.lists|
    ensures Sound(r.0) && |r.0.lists| == |q.lists| && r.0.qmax == q.qmax
  {
    if ops == [] then (q, Tally(0, 0, 0, 0))
    else
      var (q', t) := Run(q, ops[..|ops| - 1], x);
      StepSound(q', t, ops[|ops| - 1], x);
      Step(q', t, ops[|ops| - 1], x)
  }

  lemma StepSound(q: Queue, t: Tally, op: Op, x: Pkt)
    requires Sound(q) && (op.Enq? ==> op.prio < |q.lists|)
    ensures var q' := Step(q, t, op, x).0; Sound(q') && |q'.lists| == |q.lists| && q'.qmax == q.qmax
  {
    match op
    case Enq(p, prio) => EnqueueSound(q, p, prio);
    case Deq => DequeueHighest(q);
    case FlushAll => FlushSound(q);
  }

  lemma {:induction false} QueuedUpdate(lists: Lists, c: nat, l: seq<Pkt>, x: Pkt)
    requires c < |lists|
    ensures Queued(lists[c := l], x) == Queued(lists, x) - Occurs(lists[c], x) + Occurs(l, x)
  {
    hide Occurs;
    var n := |lists| - 1;
    if c == n {
      assert lists[c := l][..n] == lists[..n];
    } else {
      QueuedUpdate(lists[..n], c, l, x);
      assert lists[c := l][..n] == lists[..n][c := l];
    }
  }

  lemma {:induction false} QueuedEmpty(lists: Lists, x: Pkt)
    requires forall c :: 0 <= c < |lists| ==> lists[c] == []
    ensures Queued(lists, x) == 0
  {
    if lists != [] { QueuedEmpty(lists[..|lists| - 1], x); }
  }

  lemma Ends(l: seq<Pkt>, p: Pkt, x: Pkt)
    ensures Occurs(l + [p], x) == Occurs(l, x) + One(Some(p), x)
    ensures l != [] ==> Occurs(l, x) == Occurs(l[1..], x) + One(Some(l[0]), x)
    ensures l != [] ==> Occurs(l, x) == Occurs(l[..|l| - 1], x) + One(Some(l[|l| - 1]), x)
  {
    if l != [] {
      assert l == [l[0]] + l[1..];
      assert l == l[..|l| - 1] + [l[|l| - 1]];
    }
  }

  predicate Balanced(lists: Lists, t: Tally, x: Pkt) {
    t.accepted == t.dequeued + t.evicted + t.flushed + Queued(lists, x)
  }

  lemma StepBalanced(q: Queue, t: Tally, op: Op, x: Pkt)
    requires Sound(q) && (op.Enq? ==> op.prio < |q.lists|) && Balanced(q.lists, t, x)
    ensures var (q', t') := Step(q, t, op, x); Balanced(q'.lists, t', x)
  {
    hide Occurs, Queued, Total;
    match op
    case Enq(p, prio) =>
      QueuedUpdate(q.lists, prio, q.lists[prio] + [p], x);
      Ends(q.lists[prio], p, x);
      var low := LowestFrom(q.lists, 0, q.hi);
      var l := q.lists[low];
      if l != [] {
        QueuedUpdate(q.lists, low, l[..|l| - 1] + [p], x);
        Ends(l, p, x);
        Ends(l[..|l| - 1], p, x);
      }
    case Deq =>
      var c := HighestTo(q.lists, q.hi);
      Ends(q.lists[c], 0, x);
      if q.lists[c] != [] { QueuedUpdate(q.lists, c, q.lists[c][1..], x); }
    case FlushAll =>
      QueuedEmpty(Flush(q).lists, x);
  }

  /** Conservation, for every run from an empty queue: each accepted packet has been dequeued, evicted or flushed,
      or is still queued. */
  lemma {:induction false} Conservation(classes: nat, qmax: nat, ops: seq<Op>, x: Pkt)
    requires classes > 0 && forall i :: 0 <= i < |ops| ==> ops[i].Enq? ==> ops[i].prio < classes
    ensures Sound(Empty(classes, qmax))
    ensures var (q, t) := Run(Empty(classes, qmax), ops, x);
      Balanced(q.lists, t, x) && Sound(q) && q.qcnt == Total(q.lists) <= qmax
  {
    EmptySound(classes, qmax);
    if ops == [] {
      QueuedEmpty(Empty(classes, qmax).lists, x);
    } else {
      Conservation(classes, qmax, ops[..|ops| - 1], x);
      var (q, t) := Run(Empty(classes, qmax), ops[..|ops| - 1], x);
      StepBalanced(q, t, ops[|ops| - 1], x);
    }
  }

  function Empty(classes: nat, qmax: nat): Queue {
    Queue(seq(classes, _ => []), 0, qmax, 0)
  }

  lemma EmptySound(classes: nat, qmax: nat)
    requires classes > 0
    ensures Sound(Empty(classes, qmax))
  {
    TotalZero(Empty(classes, qmax).lists);
  }

  /** Room is made by taking the newest packet of class low, the lowest in use, and the newcomer takes its place
      there: in class low, not in its own class above. */
  predicate Replaces(q: Queue, r: Enqueued, p: Pkt, prio: nat, low: nat)
    requires low < |q.lists|
  {
    var l := q.lists[low];
    && low < prio && l != [] && (forall c :: 0 <= c < low ==> q.lists[c] == [])
    && r.evicted == Some(l[|l| - 1]) && r.q.lists == q.lists[low := l[..|l| - 1] + [p]]
  }

  lemma EvictionDemotes(q: Queue, p: Pkt, prio: nat)
    requires Sound(q) && prio < |q.lists|
    ensures var r := Enqueue(q, p, prio);
      r.evicted.Some? <==> r.accepted && exists low :: 0 <= low < |q.lists| && Replaces(q, r, p, prio, low)
  {
    var r := Enqueue(q, p, prio);
    var low := LowestFrom(q.lists, 0, q.hi);
    if r.evicted.Some? { assert Replaces(q, r, p, prio, low); }
  }
}
