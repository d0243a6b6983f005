/** The priority frame queue: FIFO classes, a highest class that is lowered lazily, and an overflow rule that
    evicts from the lowest class. */
module FrameQueue {
  import opened Wrappers

  /** A packet buffer, by number. */
  type Pkt = nat

  type Lists = seq<seq<Pkt>>

  /** lists[c] is class c, oldest packet first. */
  datatype Queue = Queue(lists: Lists, hi: nat, qmax: nat, qcnt: int)

  function Total(lists: Lists): nat {
    if lists == [] then 0 else Total(lists[..|lists| - 1]) + |lists[|lists| - 1]|
  }

  /** Classes above hi are empty, and qcnt is the number of packets, which never exceeds qmax. */
  ghost predicate Sound(q: Queue) {
    && q.hi < |q.lists|
    && (forall c :: q.hi < c < |q.lists| ==> q.lists[c] == [])
    && q.qcnt == Total(q.lists) <= q.qmax
  }

  /** The lowest class from c on that has a packet, but no further than top. */
  function LowestFrom(lists: Lists, c: nat, top: nat): (r: nat)
    requires c <= top < |lists|
    ensures c <= r <= top && (forall d :: c <= d < r ==> lists[d] == []) && (r < top ==> lists[r] != [])
    decreases top - c
  {
    if c == top || lists[c] != [] then c else LowestFrom(lists, c + 1, top)
  }

  /** The highest class up to c that has a packet, or 0. */
  function HighestTo(lists: Lists, c: nat): (r: nat)
    requires c < |lists|
    ensures r <= c && (forall d :: r < d <= c ==> lists[d] == []) && (r > 0 ==> lists[r] != [])
  {
    if c == 0 || lists[c] != [] then c else HighestTo(lists, c - 1)
  }

  // ---- what the operations do ----

  datatype Enqueued = Enqueued(q: Queue, accepted: bool, evicted: Option<Pkt>)

  function Put(q: Queue, c: nat, p: Pkt): Queue
    requires c < |q.lists|
  {
    Queue(q.lists[c := q.lists[c] + [p]], if q.hi < c then c else q.hi, q.qmax, q.qcnt + 1)
  }

  /** When the queue is full the newcomer is refused unless its class is strictly above the lowest class in use;
      then the newest packet of that lowest class goes, and the newcomer takes its place there. */
  function Enqueue(q: Queue, p: Pkt, prio: nat): Enqueued
    requires prio < |q.lists| && q.hi < |q.lists|
  {
    if q.qcnt < q.qmax && |q.lists[prio]| < q.qmax then Enqueued(Put(q, prio, p), true, None)
    else if |q.lists[prio]| >= q.qmax then Enqueued(q, false, None)
    else
      var low := LowestFrom(q.lists, 0, q.hi);
      if low >= prio || q.lists[low] == [] then Enqueued(q, false, None)
      else
        var n := |q.lists[low]| - 1;
        Enqueued(q.(lists := q.lists[low := q.lists[low][..n] + [p]]), true, Some(q.lists[low][n]))
  }

  /** The oldest packet of the highest class that has one. */
  function Dequeue(q: Queue): (r: (Queue, Option<Pkt>))
    requires q.hi < |q.lists|
  {
    if q.qcnt == 0 then (q, None)
    else
      var c := HighestTo(q.lists, q.hi);
      if q.lists[c] == [] then (q.(hi := c), None)
      else (Queue(q.lists[c := q.lists[c][1..]], c, q.qmax, q.qcnt - 1), Some(q.lists[c][0]))
  }

  function Flush(q: Queue): Queue {
    q.(lists := seq(|q.lists|, _ => []), qcnt := q.qcnt - Total(q.lists))
  }

  // ---- what they keep ----

  lemma {:induction false} TotalUpdate(lists: Lists, c: nat, l: seq<Pkt>)
    requires c < |lists|
    ensures Total(lists[c := l]) == Total(lists) - |lists[c]| + |l|
  {
    var n := |lists| - 1;
    if c == n {
      assert lists[c := l][..n] == lists[..n];
    } else {
      TotalUpdate(lists[..n], c, l);
      assert lists[c := l][..n] == lists[..n][c := l];
    }
  }

  lemma {:induction false} TotalAtLeast(lists: Lists, c: nat)
    requires c < |lists|
    ensures Total(lists) >= |lists[c]|
  {
    if c < |lists| - 1 { TotalAtLeast(lists[..|lists| - 1], c); }
  }

  lemma {:induction false} TotalZero(lists: Lists)
    ensures Total(lists) == 0 <==> forall c :: 0 <= c < |lists| ==> lists[c] == []
  {
    if lists != [] {
      var n := |lists| - 1;
      TotalZero(lists[..n]);
      assert forall c :: 0 <= c < n ==> lists[..n][c] == lists[c];
    }
  }

  lemma LowestInUse(q: Queue)
    requires Sound(q)
    ensures q.hi < |q.lists| && q.qcnt <= q.qmax
    ensures var l := q.lists[LowestFrom(q.lists, 0, q.hi)]; |l| <= q.qmax && (q.qcnt > 0 ==> l != [])
  {
    TotalZero(q.lists);
    TotalAtLeast(q.lists, LowestFrom(q.lists, 0, q.hi));
  }

  lemma EnqueueSound(q: Queue, p: Pkt, prio: nat)
    requires Sound(q) && prio < |q.lists|
    ensures Sound(Enqueue(q, p, prio).q)
  {
    TotalUpdate(q.lists, prio, q.lists[prio] + [p]);
    var low := LowestFrom(q.lists, 0, q.hi);
    if q.lists[low] != [] {
      TotalUpdate(q.lists, low, q.lists[low][..|q.lists[low]| - 1] + [p]);
    }
  }

  /** In a sound queue the overflow rule is exactly this: a full queue refuses a newcomer unless some lower
      class has a packet, and the one that goes is the newest of the lowest such class. */
  lemma OverflowRule(q: Queue, p: Pkt, prio: nat)
    requires Sound(q) && prio < |q.lists|
    ensures var r := Enqueue(q, p, prio);
      && (q.qcnt < q.qmax ==> r.accepted && r.evicted.None?)
      && (q.qcnt == q.qmax ==> (r.accepted <==> r.evicted.Some?) &&
                               (r.accepted <==> exists c :: 0 <= c < prio && q.lists[c] != []))
      && (!r.accepted ==> r.q == q)
  {
    TotalAtLeast(q.lists, prio);
    TotalZero(q.lists);
    if q.qcnt == q.qmax && |q.lists[prio]| >= q.qmax {
      forall c | 0 <= c < |q.lists| && c != prio
        ensures q.lists[c] == []
      {
        TwoClasses(q.lists, c, prio);
      }
    }
  }

  lemma {:induction false} TwoClasses(lists: Lists, c: nat, d: nat)
    requires c < |lists| && d < |lists| && c != d
    ensures Total(lists) >= |lists[c]| + |lists[d]|
  {
    var n := |lists| - 1;
    if c == n { TotalAtLeast(lists[..n], d); }
    else if d == n { TotalAtLeast(lists[..n], c); }
    else { TwoClasses(lists[..n], c, d); }
  }

  /** Class c is the highest in use, and its oldest packet has been taken. */
  ghost predicate TakenFrom(q: Queue, c: nat)
    requires c < |q.lists| && q.hi < |q.lists|
  {
    && q.lists[c] != [] && (forall d :: c < d < |q.lists| ==> q.lists[d] == [])
    && Dequeue(q).1 == Some(q.lists[c][0]) && Dequeue(q).0.lists == q.lists[c := q.lists[c][1..]]
  }

  /** Dequeuing from a sound queue that is not empty gives the oldest packet of the highest class in use. */
  lemma DequeueHighest(q: Queue)
    requires Sound(q)
    ensures Sound(Dequeue(q).0)
    ensures Dequeue(q).1.None? <==> Total(q.lists) == 0
    ensures Total(q.lists) > 0 ==> exists c :: 0 <= c < |q.lists| && TakenFrom(q, c)
  {
    TotalZero(q.lists);
    var c := HighestTo(q.lists, q.hi);
    if q.lists[c] != [] {
      TotalUpdate(q.lists, c, q.lists[c][1..]);
      assert Total(q.lists) > 0 ==> TakenFrom(q, c);
    }
  }

  lemma FlushSound(q: Queue)
    requires Sound(q)
    ensures Sound(Flush(q)) && Flush(q).qcnt == 0
  {
    TotalZero(Flush(q).lists);
  }

  // ---- the queue in place ----

  class Frames {
    var queuelist: seq<seq<Pkt>>
    var hiPrio: nat
    const qmax: nat
    var qcnt: int

    function View(): Queue
      reads this
    {
      Queue(queuelist, hiPrio, qmax, qcnt)
    }

    ghost predicate Valid()
      reads this
    {
      Sound(View())
    }

    constructor (numPrio: nat, maxLen: nat)
      requires numPrio > 0
      ensures Valid() && View() == Queue(seq(numPrio, _ => []), 0, maxLen, 0)
    {
      queuelist := seq(numPrio, _ => []);
      hiPrio, qcnt := 0, 0;
      qmax := maxLen;
      new;
      TotalZero(queuelist);
    }

    method Penq(prio: nat, p: Pkt) returns (ok: bool)
      requires prio < |queuelist|
      modifies this
      ensures ok <==> |old(queuelist)[prio]| < qmax
      ensures View() == if ok then Put(old(View()), prio, p) else old(View())
    {
      if |queuelist[prio]| >= qmax { return false; }
      queuelist := queuelist[prio := queuelist[prio] + [p]];
      qcnt := qcnt + 1;
      if hiPrio < prio { hiPrio := prio; }
      ok := true;
    }

    /** The newest packet of the lowest class in use, and that class; prio is left alone when there is none. */
    method PeekTail(prio: int) returns (prioOut: int, p: Option<Pkt>)
      requires Valid()
      ensures prioOut == if qcnt == 0 then prio else LowestFrom(queuelist, 0, hiPrio)
      ensures p.None? <==> qcnt == 0
      ensures p.Some? ==> 0 <= prioOut < |queuelist| && queuelist[prioOut] != []
      ensures p.Some? ==> forall c :: 0 <= c < prioOut ==> queuelist[c] == []
      ensures p.Some? ==> p == Some(queuelist[prioOut][|queuelist[prioOut]| - 1])
    {
      LowestInUse(View());
      if qcnt == 0 { return prio, None; }
      var c := 0;
      while c < hiPrio
        invariant c <= hiPrio && LowestFrom(queuelist, 0, hiPrio) == LowestFrom(queuelist, c, hiPrio)
      {
        if queuelist[c] != [] { break; }
        c := c + 1;
      }
      prioOut := c;
      p := if queuelist[c] == [] then None else Some(queuelist[c][|queuelist[c]| - 1]);
    }

    method IsEmpty() returns (empty: bool)
      requires Valid()
      ensures empty <==> forall c :: 0 <= c < |queuelist| ==> queuelist[c] == []
    {
      var len := 0;
      for c := 0 to hiPrio + 1
        invariant len == Total(queuelist[..c])
      {
        len := len + |queuelist[c]|;
        assert queuelist[..c + 1][..c] == queuelist[..c];
      }
      TotalZero(queuelist[..hiPrio + 1]);
      assert forall c :: 0 <= c <= hiPrio ==> queuelist[..hiPrio + 1][c] == queuelist[c];
      empty := !(len > 0);
    }

    method FrameDequeue() returns (p: Option<Pkt>)
      requires Valid()
      modifies this
      ensures Valid() && (View(), p) == Dequeue(old(View()))
    {
      DequeueHighest(View());
      if qcnt == 0 { return None; }
      while hiPrio > 0 && queuelist[hiPrio] == []
        invariant View() == old(View()).(hi := hiPrio) && hiPrio < |queuelist|
        invariant HighestTo(queuelist, hiPrio) == HighestTo(queuelist, old(hiPrio))
      {
        hiPrio := hiPrio - 1;
      }
      if queuelist[hiPrio] == [] { return None; }
      p := Some(queuelist[hiPrio][0]);
      queuelist := queuelist[hiPrio := queuelist[hiPrio][1..]];
      qcnt := qcnt - 1;
    }

    method DequeueTail(prio: nat) returns (p: Option<Pkt>)
      requires prio < |queuelist|
      modifies this`queuelist, this`qcnt
      ensures var l := old(queuelist)[prio];
        if l == [] then p.None? && View() == old(View())
        else p == Some(l[|l| - 1]) && qcnt == old(qcnt) - 1 && queuelist == old(queuelist)[prio := l[..|l| - 1]]
    {
      var l := queuelist[prio];
      if l == [] { return None; }
      p := Some(l[|l| - 1]);
      queuelist := queuelist[prio := l[..|l| - 1]];
      qcnt := qcnt - 1;
    }

    /** aicwf_frame_enq; dropped is the packet freed to make room. */
    method FrameEnq(pkt: Pkt, prio: nat) returns (ok: bool, dropped: Option<Pkt>)
      requires Valid() && prio < |queuelist|
      modifies this
      ensures Valid() && Enqueued(View(), ok, dropped) == Enqueue(old(View()), pkt, prio)
    {
      hide Total, Sound;
      EnqueueSound(View(), pkt, prio);
      LowestInUse(View());
      dropped := None;
      if |queuelist[prio]| < qmax && qcnt < qmax {
        ok := Penq(prio, pkt);
        return true, None;
      }
      var prioModified := -1;
      if |queuelist[prio]| >= qmax {
        prioModified := prio;
      } else if qcnt >= qmax {
        var tail;
        prioModified, tail := PeekTail(prioModified);
        if prioModified > prio { return false, None; }
      }
      ok := false;
      if prioModified >= 0 {
        if prioModified == prio { return false, None; }
        dropped := DequeueTail(prioModified);
        ok := Penq(prioModified, pkt);
        assert ok && dropped.Some?;
        ghost var q := old(View());
        ghost var l := q.lists[prioModified];
        assert queuelist == q.lists[prioModified := l[..|l| - 1] + [pkt]];
        assert View() == Enqueue(q, pkt, prio).q;
      }
    }

    method FrameQueueFlush()
      requires Valid()
      modifies this
      ensures Valid() && View() == Flush(old(View()))
    {
      FlushSound(View());
      ghost var was := View();
      for c := 0 to |queuelist|
        invariant |queuelist| == |was.lists| && hiPrio == was.hi
        invariant forall d :: 0 <= d < |queuelist| ==> queuelist[d] == if d < c then [] else was.lists[d]
        invariant qcnt - Total(queuelist) == was.qcnt - Total(was.lists)
      {
        TotalUpdate(queuelist, c, []);
        qcnt := qcnt - |queuelist[c]|;
        queuelist := queuelist[c := []];
      }
      TotalZero(queuelist);
      assert queuelist == Flush(was).lists;
    }
  }
}
