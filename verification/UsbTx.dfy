/** The USB transmit pool: buffers move free -> post -> in flight -> free under separate locks, and a flag
    stops the network queues when the free list runs low and wakes them when it has filled up again. */
module UsbTx {
  import opened Wrappers

  const TX_URBS: nat := 50
  const LOW_WATER: nat := TX_URBS / 4
  const HIGH_WATER: nat := LOW_WATER * 3

  /** A transmit buffer, by number. */
  type Buf = nat

  datatype Pool = Pool(free: seq<Buf>, freeCount: int, post: seq<Buf>, postCount: int, tbusy: bool)

  // ---- the locked sections, one function each ----

  function TakeFree(p: Pool): (r: (Pool, Option<Buf>)) {
    if p.free == [] then (p, None) else (p.(free := p.free[1..], freeCount := p.freeCount - 1), Some(p.free[0]))
  }

  function TakePost(p: Pool): (r: (Pool, Option<Buf>)) {
    if p.post == [] then (p, None) else (p.(post := p.post[1..], postCount := p.postCount - 1), Some(p.post[0]))
  }

  function PutFree(p: Pool, b: Buf): Pool {
    p.(free := p.free + [b], freeCount := p.freeCount + 1)
  }

  function PutPost(p: Pool, b: Buf): Pool {
    p.(post := p.post + [b], postCount := p.postCount + 1)
  }

  /** The end of aicwf_usb_bus_txdata. */
  function StopIfLow(p: Pool): Pool {
    if p.freeCount < LOW_WATER then p.(tbusy := true) else p
  }

  /** The end of aicwf_usb_tx_complete. */
  function WakeIfHigh(p: Pool): Pool {
    if p.freeCount > HIGH_WATER then p.(tbusy := false) else p
  }

  // ---- many operations at once ----

  /** Where an operation is between two locked sections, and the buffer it has in hand. */
  datatype Phase =
    | Idle
    | Filling(buf: Buf)      // aicwf_usb_bus_txdata, between taking a free buffer and posting it
    | CheckLow               // aicwf_usb_bus_txdata, before its flow control section
    | Submitting(buf: Buf)   // aicwf_usb_tx_process, between taking a posted buffer and what becomes of it
    | Draining(buf: Buf)     // aicwf_usb_tx_prepare, between the post list and the free list
    | Completing(buf: Buf)   // aicwf_usb_tx_complete, before the buffer is back on the free list
    | CheckHigh              // aicwf_usb_tx_complete, before its flow control section

  /** phases[t] is the phase of thread t; inFlight are the buffers the USB core owns. */
  datatype State = State(pool: Pool, inFlight: multiset<Buf>, phases: seq<Phase>)

  datatype Action =
    | ProducerTake | ProducerPost | ProducerCheck
    | TransmitTake | SubmitSucceeds | SubmitFails
    | RestartTake | RestartPut
    | CompleteStart(done: Buf) | CompletePut | CompleteCheck

  function Put(s: State, t: nat, p: Pool, ph: Phase): State
    requires t < |s.phases|
  {
    s.(pool := p, phases := s.phases[t := ph])
  }

  /** One locked section of thread t; nothing happens if t is not where the action starts. */
  function Step(s: State, t: nat, a: Action): State
    requires t < |s.phases|
  {
    match (a, s.phases[t])
    case (ProducerTake, Idle) =>
      var (p, b) := TakeFree(s.pool);
      Put(s, t, p, if b.Some? then Filling(b.value) else CheckLow)
    case (ProducerPost, Filling(b)) => Put(s, t, PutPost(s.pool, b), CheckLow)
    case (ProducerCheck, CheckLow) => Put(s, t, StopIfLow(s.pool), Idle)
    case (TransmitTake, Idle) =>
      var (p, b) := TakePost(s.pool);
      Put(s, t, p, if b.Some? then Submitting(b.value) else Idle)
    case (SubmitSucceeds, Submitting(b)) => Put(s, t, s.pool, Idle).(inFlight := s.inFlight + multiset{b})
    case (SubmitFails, Submitting(b)) => Put(s, t, PutFree(s.pool, b), Idle)
    case (RestartTake, Idle) =>
      var (p, b) := TakePost(s.pool);
      Put(s, t, p, if b.Some? then Draining(b.value) else Idle)
    case (RestartPut, Draining(b)) => Put(s, t, PutFree(s.pool, b), Idle)
    case (CompleteStart(b), Idle) =>
      if b in s.inFlight then Put(s, t, s.pool, Completing(b)).(inFlight := s.inFlight - multiset{b}) else s
    case (CompletePut, Completing(b)) => Put(s, t, PutFree(s.pool, b), CheckHigh)
    case (CompleteCheck, CheckHigh) => Put(s, t, WakeIfHigh(s.pool), Idle)
    case _ => s
  }

  function Run(s: State, es: seq<(nat, Action)>): State {
    if es == [] then s
    else
      var s' := Run(s, es[..|es| - 1]);
      var (t, a) := es[|es| - 1];
      if t < |s'.phases| then Step(s', t, a) else s'
  }

  function Init(threads: nat): State {
    State(Pool(seq(TX_URBS, i => i), TX_URBS, [], 0, false), multiset{}, seq(threads, _ => Idle))
  }

  // ---- conservation ----

  function One(x: Option<Buf>, b: Buf): nat {
    if x == Some(b) then 1 else 0
  }

  /** The buffer a phase has in hand. */
  function Hand(ph: Phase): Option<Buf> {
    match ph
    case Filling(x) => Some(x)
    case Submitting(x) => Some(x)
    case Draining(x) => Some(x)
    case Completing(x) => Some(x)
    case _ => None
  }

  function Hands(phases: seq<Phase>, b: Buf): nat {
    if phases == [] then 0 else Hands(phases[..|phases| - 1], b) + One(Hand(phases[|phases| - 1]), b)
  }

  lemma {:induction false} HandsUpdate(phases: seq<Phase>, t: nat, ph: Phase, b: Buf)
    requires t < |phases|
    ensures Hands(phases[t := ph], b) == Hands(phases, b) - One(Hand(phases[t]), b) + One(Hand(ph), b)
  {
    var n := |phases| - 1;
    if t == n {
      assert phases[t := ph][..n] == phases[..n];
    } else {
      HandsUpdate(phases[..n], t, ph, b);
      assert phases[t := ph][..n] == phases[..n][t := ph];
    }
  }

  function Listed(p: Pool, b: Buf): nat {
    multiset(p.free)[b] + multiset(p.post)[b]
  }

  /** In how many places buffer b is. */
  function Places(s: State, b: Buf): nat {
    Listed(s.pool, b) + s.inFlight[b] + Hands(s.phases, b)
  }

  predicate CountersRight(p: Pool) {
    p.freeCount == |p.free| && p.postCount == |p.post|
  }

  /** What the list operations do to the count of b, and that they keep the counters right. */
  lemma Moves(p: Pool, x: Buf, b: Buf)
    requires CountersRight(p)
    ensures var (q, y) := TakeFree(p); CountersRight(q) && Listed(q, b) + One(y, b) == Listed(p, b)
    ensures var (q, y) := TakePost(p); CountersRight(q) && Listed(q, b) + One(y, b) == Listed(p, b)
    ensures CountersRight(PutFree(p, x)) && Listed(PutFree(p, x), b) == Listed(p, b) + One(Some(x), b)
    ensures CountersRight(PutPost(p, x)) && Listed(PutPost(p, x), b) == Listed(p, b) + One(Some(x), b)
  {
    TakeCount(p.free, b);
    TakeCount(p.post, b);
    PutCount(p.free, x, b);
    PutCount(p.post, x, b);
  }

  lemma TakeCount(q: seq<Buf>, b: Buf)
    ensures q != [] ==> multiset(q)[b] == multiset(q[1..])[b] + One(Some(q[0]), b)
  {
    if q != [] { assert q == [q[0]] + q[1..]; }
  }

  lemma PutCount(q: seq<Buf>, x: Buf, b: Buf)
    ensures multiset(q + [x])[b] == multiset(q)[b] + One(Some(x), b)
  {
  }

  /** The places of b after thread t has gone from one pool, flight and phase to the next. */
  lemma Accounts(s: State, t: nat, p: Pool, flight: multiset<Buf>, ph: Phase, b: Buf)
    requires t < |s.phases|
    requires Listed(p, b) + flight[b] + One(Hand(ph), b) ==
             Listed(s.pool, b) + s.inFlight[b] + One(Hand(s.phases[t]), b)
    ensures Places(State(p, flight, s.phases[t := ph]), b) == Places(s, b)
  {
    HandsUpdate(s.phases, t, ph, b);
  }

  /** A step changes the pool, the flight and the phase of its own thread. */
  lemma StepShape(s: State, t: nat, a: Action)
    requires t < |s.phases|
    ensures var s' := Step(s, t, a);
            |s'.phases| == |s.phases| && s' == State(s'.pool, s'.inFlight, s.phases[t := s'.phases[t]])
  {
    hide TakeFree, TakePost, PutFree, PutPost, StopIfLow, WakeIfHigh;
  }

  /** What a step takes from one place it puts into another. */
  lemma StepBalance(s: State, t: nat, a: Action, b: Buf)
    requires t < |s.phases| && CountersRight(s.pool)
    ensures var s' := Step(s, t, a);
      && CountersRight(s'.pool) && |s'.phases| == |s.phases|
      && Listed(s'.pool, b) + s'.inFlight[b] + One(Hand(s'.phases[t]), b) ==
         Listed(s.pool, b) + s.inFlight[b] + One(Hand(s.phases[t]), b)
  {
    hide TakeFree, TakePost, PutFree, PutPost, StopIfLow, WakeIfHigh, Listed, CountersRight;
    ListedFlow(s.pool, b);
    Moves(s.pool, Hand(s.phases[t]).GetOr(0), b);
    match a
    case SubmitSucceeds =>
    case CompleteStart(_) =>
    case _ =>
  }

  /** No action of any thread moves a buffer into a second place or out of the last one. */
  lemma StepConserves(s: State, t: nat, a: Action, b: Buf)
    requires t < |s.phases| && CountersRight(s.pool)
    ensures Places(Step(s, t, a), b) == Places(s, b) && CountersRight(Step(s, t, a).pool)
  {
    hide Step, Hand, Listed, Places, CountersRight;
    var s' := Step(s, t, a);
    StepShape(s, t, a);
    StepBalance(s, t, a, b);
    Accounts(s, t, s'.pool, s'.inFlight, s'.phases[t], b);
  }

  lemma ListedFlow(p: Pool, b: Buf)
    requires CountersRight(p)
    ensures Listed(StopIfLow(p), b) == Listed(p, b) && CountersRight(StopIfLow(p))
    ensures Listed(WakeIfHigh(p), b) == Listed(p, b) && CountersRight(WakeIfHigh(p))
  {
  }

  lemma {:induction false} NoHands(n: nat, b: Buf)
    ensures Hands(seq(n, _ => Idle), b) == 0
  {
    if n > 0 {
      NoHands(n - 1, b);
      assert seq(n, _ => Idle)[..n - 1] == seq(n - 1, _ => Idle);
    }
  }

  lemma {:induction false} Numbered(n: nat, b: Buf)
    ensures multiset(seq(n, i => i))[b] == if b < n then 1 else 0
  {
    if n > 0 {
      Numbered(n - 1, b);
      assert seq(n, i => i) == seq(n - 1, i => i) + [n - 1];
    }
  }

  /** Whatever the threads do, in whatever order, submit failures and restarts included: each of the fifty
      buffers is in exactly one place, no other buffer is anywhere, and the counters are the list lengths. */
  lemma {:induction false} Conservation(threads: nat, es: seq<(nat, Action)>, b: Buf)
    ensures var s := Run(Init(threads), es);
      Places(s, b) == (if b < TX_URBS then 1 else 0) && CountersRight(s.pool)
  {
    if es == [] {
      NoHands(threads, b);
      Numbered(TX_URBS, b);
    } else {
      Conservation(threads, es[..|es| - 1], b);
      var s := Run(Init(threads), es[..|es| - 1]);
      var (t, a) := es[|es| - 1];
      if t < |s.phases| { StepConserves(s, t, a, b); }
    }
  }

  // ---- flow control ----

  predicate Producing(ph: Phase) {
    ph.Filling? || ph.CheckLow?
  }

  /** Low without being stopped only while a producer has yet to check; high without being woken only
      while a completion has yet to check. */
  ghost predicate WakeInv(s: State) {
    && CountersRight(s.pool)
    && (!s.pool.tbusy && s.pool.freeCount < LOW_WATER ==> exists t :: 0 <= t < |s.phases| && Producing(s.phases[t]))
    && (s.pool.tbusy && s.pool.freeCount > HIGH_WATER ==> exists t :: 0 <= t < |s.phases| && s.phases[t].CheckHigh?)
  }

  /** A buffer goes back to the free list, without a check to follow, just when that makes the list high
      while the queues are stopped and no completion is about to look. */
  ghost predicate Strands(s: State, t: nat, a: Action)
    requires t < |s.phases|
  {
    && ((a.SubmitFails? && s.phases[t].Submitting?) || (a.RestartPut? && s.phases[t].Draining?))
    && s.pool.tbusy && s.pool.freeCount >= HIGH_WATER
    && (forall u :: 0 <= u < |s.phases| ==> !s.phases[u].CheckHigh?)
  }

  /** Every action keeps the invariant except, and always except, the ones that strand the queues. */
  lemma StepWake(s: State, t: nat, a: Action)
    requires WakeInv(s) && t < |s.phases|
    ensures WakeInv(Step(s, t, a)) <==> !Strands(s, t, a)
  {
    var s' := Step(s, t, a);
    assert forall u :: 0 <= u < |s.phases| && u != t ==> s'.phases[u] == s.phases[u];
    if u :| 0 <= u < |s.phases| && Producing(s.phases[u]) { assert u != t ==> Producing(s'.phases[u]); }
    if u :| 0 <= u < |s.phases| && s.phases[u].CheckHigh? { assert u != t ==> s'.phases[u].CheckHigh?; }
    assert a.ProducerTake? && s.phases[t].Idle? ==> Producing(s'.phases[t]);
    assert a.ProducerPost? && s.phases[t].Filling? ==> Producing(s'.phases[t]);
    assert a.CompletePut? && s.phases[t].Completing? ==> s'.phases[t].CheckHigh?;
  }

  predicate Quiet(s: State) {
    forall t :: 0 <= t < |s.phases| ==> s.phases[t].Idle?
  }

  /** Event k of a run strands the queues. */
  ghost predicate StrandsAt(threads: nat, es: seq<(nat, Action)>, k: nat)
    requires k < |es|
  {
    var s := Run(Init(threads), es[..k]);
    es[k].0 < |s.phases| && Strands(s, es[k].0, es[k].1)
  }

  ghost predicate NoneStrands(threads: nat, es: seq<(nat, Action)>) {
    forall k :: 0 <= k < |es| ==> !StrandsAt(threads, es, k)
  }

  ghost predicate WakesThroughout(threads: nat, es: seq<(nat, Action)>) {
    forall k :: 0 <= k <= |es| ==> WakeInv(Run(Init(threads), es[..k]))
  }

  /** The invariant holds after every event of a run if and only if no event of the run strands the queues. */
  lemma {:induction false} WakesExactly(threads: nat, es: seq<(nat, Action)>)
    ensures WakesThroughout(threads, es) <==> NoneStrands(threads, es)
  {
    hide Step, Strands, WakeInv, WakesThroughout, NoneStrands;
    if es == [] {
      NothingYet(threads);
    } else {
      var n := |es| - 1;
      WakesExactly(threads, es[..n]);
      OneMore(threads, es);
      var s := Run(Init(threads), es[..n]);
      if WakeInv(s) && es[n].0 < |s.phases| { StepWake(s, es[n].0, es[n].1); }
    }
  }

  lemma NothingYet(threads: nat)
    ensures WakesThroughout(threads, []) && NoneStrands(threads, [])
  {
    var none: seq<(nat, Action)> := [];
    assert none[..0] == none;
  }

  /** Both sides of the equivalence, one event at a time. */
  lemma OneMore(threads: nat, es: seq<(nat, Action)>)
    requires es != []
    ensures var n := |es| - 1; var front := es[..n];
      && (WakesThroughout(threads, es) <==> WakesThroughout(threads, front) && WakeInv(Run(Init(threads), es)))
      && (NoneStrands(threads, es) <==> NoneStrands(threads, front) && !StrandsAt(threads, es, n))
      && (WakesThroughout(threads, front) ==> WakeInv(Run(Init(threads), front)))
  {
    hide Run, WakeInv, Strands;
    var n := |es| - 1;
    var front := es[..n];
    assert es[..|es|] == es && front[..n] == front;
    assert forall k :: 0 <= k <= n ==> front[..k] == es[..k];
    assert forall k :: 0 <= k < n ==> front[k] == es[k] && StrandsAt(threads, front, k) == StrandsAt(threads, es, k);
  }

  /** No lost wake-up: in every interleaving of any number of threads in which nothing strands the queues, whenever
      nobody is in the middle of an operation, running queues mean at least 12 free buffers and stopped ones at most
      36. */
  lemma NoLostWakeup(threads: nat, es: seq<(nat, Action)>)
    requires NoneStrands(threads, es) && Quiet(Run(Init(threads), es))
    ensures var p := Run(Init(threads), es).pool;
      && (!p.tbusy ==> |p.free| >= 12) && (p.tbusy ==> |p.free| <= 36) && (|p.free| == TX_URBS ==> !p.tbusy)
  {
    hide Run, NoneStrands;
    WakesExactly(threads, es);
    assert es[..|es|] == es;
    assert WakeInv(Run(Init(threads), es[..|es|]));
  }

  /** Nothing strands them, in particular, if submission never fails and the bus is never restarted. */
  lemma SmoothNeverStrands(threads: nat, es: seq<(nat, Action)>)
    requires forall k :: 0 <= k < |es| ==> !es[k].1.SubmitFails? && !es[k].1.RestartPut?
    ensures NoneStrands(threads, es)
  {
  }

  /** The two marks: a step stops the queues only below 12 free buffers and lets them go only above 36. */
  lemma StepMarks(s: State, t: nat, a: Action)
    requires t < |s.phases| && CountersRight(s.pool)
    ensures var s' := Step(s, t, a);
      && (!s.pool.tbusy && s'.pool.tbusy ==> |s.pool.free| < 12)
      && (s.pool.tbusy && !s'.pool.tbusy ==> |s.pool.free| > 36)
  {
  }

  // ---- a wake-up that is lost ----

  function Sends(n: nat): seq<(nat, Action)> {
    if n == 0 then [] else Sends(n - 1) + [(0, ProducerTake)] + [(0, ProducerPost)] + [(0, ProducerCheck)]
  }

  function Failures(n: nat): seq<(nat, Action)> {
    if n == 0 then [] else Failures(n - 1) + [(0, TransmitTake)] + [(0, SubmitFails)]
  }

  lemma {:induction false} RunAppend(s: State, es: seq<(nat, Action)>, es': seq<(nat, Action)>)
    ensures Run(s, es + es') == Run(Run(s, es), es')
  {
    if es' == [] {
      assert es + es' == es;
    } else {
      RunAppend(s, es, es'[..|es'| - 1]);
      assert (es + es')[..|es + es'| - 1] == es + es'[..|es'| - 1];
    }
  }

  lemma RunOne(s: State, es: seq<(nat, Action)>, a: Action)
    requires |Run(s, es).phases| > 0
    ensures Run(s, es + [(0, a)]) == Step(Run(s, es), 0, a)
  {
    hide Step;
    assert (es + [(0, a)])[..|es|] == es;
  }

  lemma SendOnce(s: State)
    requires s.phases == [Idle] && CountersRight(s.pool) && s.pool.free != []
    ensures var s' := Step(Step(Step(s, 0, ProducerTake), 0, ProducerPost), 0, ProducerCheck);
      && s'.phases == [Idle] && CountersRight(s'.pool)
      && s'.pool.freeCount == s.pool.freeCount - 1 && s'.pool.postCount == s.pool.postCount + 1
      && s'.pool.tbusy == (s.pool.tbusy || s'.pool.freeCount < LOW_WATER)
  {
    var s1 := Step(s, 0, ProducerTake);
    assert s1.phases == [Filling(s.pool.free[0])];
    var s2 := Step(s1, 0, ProducerPost);
    assert s2.phases == [CheckLow];
  }

  lemma {:induction false} AfterSends(n: nat)
    requires n <= TX_URBS
    ensures var s := Run(Init(1), Sends(n));
      && s.phases == [Idle] && CountersRight(s.pool) && s.pool.freeCount == TX_URBS - n && s.pool.postCount == n
      && s.pool.tbusy == (TX_URBS - n < LOW_WATER)
  {
    hide Step, Run;
    if n == 0 {
      NoSends();
    } else {
      AfterSends(n - 1);
      var s := Run(Init(1), Sends(n - 1));
      SendOnce(s);
      RunSend(Init(1), Sends(n - 1));
    }
  }

  lemma NoSends()
    ensures Run(Init(1), Sends(0)) == Init(1)
  {
  }

  lemma RunSend(s: State, es: seq<(nat, Action)>)
    requires |Run(s, es).phases| == 1
    ensures Run(s, es + [(0, ProducerTake)] + [(0, ProducerPost)] + [(0, ProducerCheck)]) ==
            Step(Step(Step(Run(s, es), 0, ProducerTake), 0, ProducerPost), 0, ProducerCheck)
  {
    hide Run, Step;
    StepThreads(Run(s, es), ProducerTake);
    StepThreads(Step(Run(s, es), 0, ProducerTake), ProducerPost);
    RunOne(s, es, ProducerTake);
    RunOne(s, es + [(0, ProducerTake)], ProducerPost);
    RunOne(s, es + [(0, ProducerTake)] + [(0, ProducerPost)], ProducerCheck);
  }

  lemma StepThreads(s: State, a: Action)
    requires |s.phases| > 0
    ensures |Step(s, 0, a).phases| == |s.phases|
  {
  }

  lemma FailOnce(s: State)
    requires s.phases == [Idle] && CountersRight(s.pool) && s.pool.post != []
    ensures var s' := Step(Step(s, 0, TransmitTake), 0, SubmitFails);
      && s'.phases == [Idle] && CountersRight(s'.pool) && s'.pool.tbusy == s.pool.tbusy
      && s'.pool.freeCount == s.pool.freeCount + 1 && s'.pool.postCount == s.pool.postCount - 1
  {
    var s1 := Step(s, 0, TransmitTake);
    assert s1.phases == [Submitting(s.pool.post[0])];
  }

  lemma {:induction false} AfterFailures(s: State, n: nat)
    requires s.phases == [Idle] && CountersRight(s.pool) && n <= s.pool.postCount
    ensures var s' := Run(s, Failures(n));
      && s'.phases == [Idle] && CountersRight(s'.pool) && s'.pool.tbusy == s.pool.tbusy
      && s'.pool.freeCount == s.pool.freeCount + n && s'.pool.postCount == s.pool.postCount - n
  {
    hide Step;
    if n > 0 {
      AfterFailures(s, n - 1);
      var s1 := Run(s, Failures(n - 1));
      FailOnce(s1);
      StepThreads(s1, TransmitTake);
      RunOne(s, Failures(n - 1), TransmitTake);
      RunOne(s, Failures(n - 1) + [(0, TransmitTake)], SubmitFails);
    }
  }

  /** When submission fails the wake-up can be lost for good: thirty-nine sends stop the queues, thirty-nine
      failed submissions give every buffer back, and with all fifty free, nothing posted and nobody
      running the queues are still stopped. */
  lemma FailuresLoseTheWakeup()
    ensures var s := Run(Init(1), Sends(39) + Failures(39));
      Quiet(s) && |s.pool.free| == TX_URBS && s.pool.post == [] && s.pool.tbusy
  {
    hide Step, Run, Sends, Failures;
    AfterSends(39);
    AfterFailures(Run(Init(1), Sends(39)), 39);
    RunAppend(Init(1), Sends(39), Failures(39));
  }
}
