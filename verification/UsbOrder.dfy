/** The order in which buffers go through the two lists of the USB transmit pool, whatever the threads do. */
module UsbOrder {
  import opened Wrappers
  import opened UsbTx

  /** What a step takes from the front of the post list, and what it adds to it. */
  function TakenFromPost(s: State, t: nat, a: Action): seq<Buf>
    requires t < |s.phases|
  {
    if (a.TransmitTake? || a.RestartTake?) && s.phases[t].Idle? && s.pool.post != [] then [s.pool.post[0]] else []
  }

  function PutOnPost(s: State, t: nat, a: Action): seq<Buf>
    requires t < |s.phases|
  {
    if a.ProducerPost? && s.phases[t].Filling? then [s.phases[t].buf] else []
  }

  /** The same for the free list. */
  function TakenFromFree(s: State, t: nat, a: Action): seq<Buf>
    requires t < |s.phases|
  {
    if a.ProducerTake? && s.phases[t].Idle? && s.pool.free != [] then [s.pool.free[0]] else []
  }

  function PutOnFree(s: State, t: nat, a: Action): seq<Buf>
    requires t < |s.phases|
  {
    match (a, s.phases[t])
    case (SubmitFails, Submitting(b)) => [b]
    case (RestartPut, Draining(b)) => [b]
    case (CompletePut, Completing(b)) => [b]
    case _ => []
  }

  /** Everything a run has taken from a list and put on it, in the order in which it happened. */
  datatype History = History(posted: seq<Buf>, unposted: seq<Buf>, freed: seq<Buf>, unfreed: seq<Buf>)

  function Histories(threads: nat, es: seq<(nat, Action)>): History {
    if es == [] then History([], [], [], [])
    else
      var h, s := Histories(threads, es[..|es| - 1]), Run(Init(threads), es[..|es| - 1]);
      var (t, a) := es[|es| - 1];
      if t < |s.phases|
      then History(h.posted + PutOnPost(s, t, a), h.unposted + TakenFromPost(s, t, a),
                   h.freed + PutOnFree(s, t, a), h.unfreed + TakenFromFree(s, t, a))
      else h
  }

  lemma StepOrder(s: State, t: nat, a: Action)
    requires t < |s.phases|
    ensures s.pool.post + PutOnPost(s, t, a) == TakenFromPost(s, t, a) + Step(s, t, a).pool.post
    ensures s.pool.free + PutOnFree(s, t, a) == TakenFromFree(s, t, a) + Step(s, t, a).pool.free
  {
    PostOrder(s, t, a);
    FreeOrder(s, t, a);
  }

  lemma PostOrder(s: State, t: nat, a: Action)
    requires t < |s.phases|
    ensures s.pool.post + PutOnPost(s, t, a) == TakenFromPost(s, t, a) + Step(s, t, a).pool.post
  {
    hide StopIfLow, WakeIfHigh;
    FlowLists(s.pool);
  }

  lemma FreeOrder(s: State, t: nat, a: Action)
    requires t < |s.phases|
    ensures s.pool.free + PutOnFree(s, t, a) == TakenFromFree(s, t, a) + Step(s, t, a).pool.free
  {
    hide StopIfLow, WakeIfHigh;
    FlowLists(s.pool);
  }

  lemma FlowLists(p: Pool)
    ensures StopIfLow(p).post == p.post == WakeIfHigh(p).post && StopIfLow(p).free == p.free == WakeIfHigh(p).free
  {
  }

  /** In every interleaving of any number of threads both lists are first in, first out: what has left the post list,
      followed by the list, is what was posted, and the same for the free list, which starts with all fifty buffers. */
  lemma {:induction false} FirstInFirstOut(threads: nat, es: seq<(nat, Action)>)
    ensures var h, p := Histories(threads, es), Run(Init(threads), es).pool;
      && h.unposted + p.post == h.posted
      && h.unfreed + p.free == seq(50, i => i) + h.freed
  {
    if es != [] {
      var h, s := Histories(threads, es[..|es| - 1]), Run(Init(threads), es[..|es| - 1]);
      var (t, a) := es[|es| - 1];
      FirstInFirstOut(threads, es[..|es| - 1]);
      if t < |s.phases| {
        StepOrder(s, t, a);
        Shift(h.unposted, s.pool.post, PutOnPost(s, t, a), TakenFromPost(s, t, a), Step(s, t, a).pool.post);
        Shift(h.unfreed, s.pool.free, PutOnFree(s, t, a), TakenFromFree(s, t, a), Step(s, t, a).pool.free);
        Regroup(seq(50, i => i), h.freed, PutOnFree(s, t, a));
      }
      hide Step, PutOnPost, PutOnFree, TakenFromPost, TakenFromFree;
    }
  }

  /** What leaves at the front and comes at the back. */
  lemma Shift<T>(gone: seq<T>, q: seq<T>, put: seq<T>, taken: seq<T>, q': seq<T>)
    requires q + put == taken + q'
    ensures gone + taken + q' == gone + q + put
  {
    Regroup(gone, taken, q');
    Regroup(gone, q, put);
  }

  lemma Regroup<T>(a: seq<T>, b: seq<T>, c: seq<T>)
    ensures a + b + c == a + (b + c)
  {
  }
}
