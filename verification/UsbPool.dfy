/** The USB device with its lists and counters as fields: what each lock protects, and the operations built of it. */
module UsbPool {
  import opened Wrappers
  import opened UsbTx

  /** One thread at rest beside the pool. */
  function Solo(p: Pool, flight: multiset<Buf>): State {
    State(p, flight, [Idle])
  }

  /** A list operation has taken buffer x, if any, off the lists, with the counters still right. */
  ghost predicate Gives(p: Pool, q: Pool, x: Option<Buf>) {
    && (CountersRight(p) ==> CountersRight(q)) && q.tbusy == p.tbusy
    && forall b :: Listed(p, b) == Listed(q, b) + One(x, b)
  }

  lemma TakeGives(p: Pool)
    ensures Gives(p, TakeFree(p).0, TakeFree(p).1) && Gives(p, TakePost(p).0, TakePost(p).1)
  {
    hide Listed, CountersRight;
    forall b
      ensures Listed(p, b) == Listed(TakeFree(p).0, b) + One(TakeFree(p).1, b)
      ensures Listed(p, b) == Listed(TakePost(p).0, b) + One(TakePost(p).1, b)
    {
      TakeListed(p, b);
    }
    TakeCounters(p);
  }

  lemma TakeListed(p: Pool, b: Buf)
    ensures Listed(p, b) == Listed(TakeFree(p).0, b) + One(TakeFree(p).1, b)
    ensures Listed(p, b) == Listed(TakePost(p).0, b) + One(TakePost(p).1, b)
  {
    TakeCount(p.free, b);
    TakeCount(p.post, b);
  }

  lemma TakeCounters(p: Pool)
    ensures CountersRight(p) ==> CountersRight(TakeFree(p).0) && CountersRight(TakePost(p).0)
  {
  }

  lemma PutGives(p: Pool, x: Buf)
    ensures Gives(PutFree(p, x), p, Some(x)) && Gives(PutPost(p, x), p, Some(x))
    ensures CountersRight(p) ==> CountersRight(PutFree(p, x)) && CountersRight(PutPost(p, x))
  {
    forall b
      ensures Listed(PutFree(p, x), b) == Listed(p, b) + One(Some(x), b)
      ensures Listed(PutPost(p, x), b) == Listed(p, b) + One(Some(x), b)
    {
      PutCount(p.free, x, b);
      PutCount(p.post, x, b);
    }
  }

  /** What a turn of the transmit loop meets: the USB core takes the buffer, refuses it, or refuses it because the
      device is gone; or the device is found down before. */
  datatype Submission = Taken | Failed | Gone | Down

  /** Of the buffers tried, those the USB core took and those that went back. */
  function Submitted(bs: seq<Buf>, rs: seq<Submission>): seq<Buf>
    requires |bs| <= |rs|
  {
    if bs == [] then []
    else
      var n := |bs| - 1;
      Submitted(bs[..n], rs) + if rs[n] == Taken then [bs[n]] else []
  }

  function Refused(bs: seq<Buf>, rs: seq<Submission>): seq<Buf>
    requires |bs| <= |rs|
  {
    if bs == [] then []
    else
      var n := |bs| - 1;
      Refused(bs[..n], rs) + if rs[n] == Taken then [] else [bs[n]]
  }

  lemma SubmittedNone(rs: seq<Submission>)
    ensures Submitted([], rs) == [] && Refused([], rs) == []
  {
  }

  lemma SubmittedSnoc(bs: seq<Buf>, n: nat, rs: seq<Submission>)
    requires n < |bs| <= |rs|
    ensures Submitted(bs[..n + 1], rs) == Submitted(bs[..n], rs) + if rs[n] == Taken then [bs[n]] else []
    ensures Refused(bs[..n + 1], rs) == Refused(bs[..n], rs) + if rs[n] == Taken then [] else [bs[n]]
  {
    assert bs[..n + 1][..n] == bs[..n];
  }

  lemma MoreInFlight(flight: multiset<Buf>, sent: seq<Buf>, b: Buf)
    ensures flight + multiset(sent + [b]) == flight + multiset(sent) + multiset{b}
  {
  }

  lemma FlowCounts(p: Pool)
    ensures CountersRight(StopIfLow(p)) == CountersRight(p)
    ensures forall b :: Listed(StopIfLow(p), b) == Listed(p, b)
  {
  }

  lemma RunNone(s: State)
    ensures Run(s, []) == s
  {
  }

  lemma RunTwo(s: State, a: Action, b: Action)
    requires |s.phases| == 1
    ensures |Step(s, 0, a).phases| == 1
    ensures Run(s, [(0, a), (0, b)]) == Step(Step(s, 0, a), 0, b)
  {
    OneThread(s, a);
    hide Step;
    var es: seq<(nat, Action)> := [(0, a), (0, b)];
    assert es[..1] == [(0, a)] && [(0, a)][..0] == [];
    assert Run(s, [(0, a)]) == Step(s, 0, a);
  }

  lemma RunThree(s: State, a: Action, b: Action, c: Action)
    requires |s.phases| == 1
    ensures |Step(s, 0, a).phases| == 1 && |Step(Step(s, 0, a), 0, b).phases| == 1
    ensures Run(s, [(0, a), (0, b), (0, c)]) == Step(Step(Step(s, 0, a), 0, b), 0, c)
  {
    OneThread(s, a);
    OneThread(Step(s, 0, a), b);
    RunTwo(s, a, b);
    hide Step;
    var es: seq<(nat, Action)> := [(0, a), (0, b), (0, c)];
    assert es[..2] == [(0, a), (0, b)];
  }

  lemma OneThread(s: State, a: Action)
    requires |s.phases| == 1
    ensures |Step(s, 0, a).phases| == 1
  {
  }

  lemma ProducerRuns(p: Pool, flight: multiset<Buf>)
    ensures var (q, x) := TakeFree(p);
      Run(Solo(p, flight), [(0, ProducerTake), (0, ProducerPost), (0, ProducerCheck)])
      == Solo(StopIfLow(if x.Some? then PutPost(q, x.value) else q), flight)
  {
    RunThree(Solo(p, flight), ProducerTake, ProducerPost, ProducerCheck);
  }

  lemma CompletionRuns(p: Pool, flight: multiset<Buf>, done: Buf)
    requires done in flight
    ensures Run(Solo(p, flight), [(0, CompleteStart(done)), (0, CompletePut), (0, CompleteCheck)])
      == Solo(WakeIfHigh(PutFree(p, done)), flight - multiset{done})
  {
    RunThree(Solo(p, flight), CompleteStart(done), CompletePut, CompleteCheck);
  }

  function Turn(taken: bool): seq<(nat, Action)> {
    [(0, TransmitTake), (0, if taken then SubmitSucceeds else SubmitFails)]
  }

  lemma SubmissionRuns(p: Pool, flight: multiset<Buf>, taken: bool)
    requires p.post != []
    ensures var (q, x) := TakePost(p);
      Run(Solo(p, flight), Turn(taken))
      == if taken then Solo(q, flight + multiset{x.value}) else Solo(PutFree(q, x.value), flight)
  {
    RunTwo(Solo(p, flight), TransmitTake, if taken then SubmitSucceeds else SubmitFails);
  }

  class UsbDev {
    var txFreeList: seq<Buf>
    var txFreeCount: int
    var txPostList: seq<Buf>
    var txPostCount: int
    var tbusy: bool

    function View(): Pool
      reads this
    {
      Pool(txFreeList, txFreeCount, txPostList, txPostCount, tbusy)
    }

    constructor ()
      ensures View() == Init(0).pool
    {
      txFreeList, txFreeCount := seq(TX_URBS, i => i), TX_URBS;
      txPostList, txPostCount := [], 0;
      tbusy := false;
    }

    method DequeueFree() returns (buf: Option<Buf>)
      modifies this
      ensures (View(), buf) == TakeFree(old(View())) && Gives(old(View()), View(), buf)
      ensures txPostList == old(txPostList) && (buf.None? <==> old(txFreeList) == [])
      ensures old(txFreeList) == (if buf.Some? then [buf.value] else []) + txFreeList
    {
      TakeGives(View());
      if txFreeList == [] {
        buf := None;
      } else {
        buf := Some(txFreeList[0]);
        txFreeList := txFreeList[1..];
        txFreeCount := txFreeCount - 1;
      }
    }

    method DequeuePost() returns (buf: Option<Buf>)
      modifies this
      ensures (View(), buf) == TakePost(old(View())) && Gives(old(View()), View(), buf)
      ensures txFreeList == old(txFreeList) && (buf.None? <==> old(txPostList) == [])
      ensures old(txPostList) == (if buf.Some? then [buf.value] else []) + txPostList
    {
      TakeGives(View());
      if txPostList == [] {
        buf := None;
      } else {
        buf := Some(txPostList[0]);
        txPostList := txPostList[1..];
        txPostCount := txPostCount - 1;
      }
    }

    method QueueFree(buf: Buf)
      modifies this
      ensures View() == PutFree(old(View()), buf) && Gives(View(), old(View()), Some(buf))
      ensures txFreeList == old(txFreeList) + [buf] && txPostList == old(txPostList)
      ensures old(CountersRight(View())) ==> CountersRight(View())
    {
      PutGives(View(), buf);
      txFreeList := txFreeList + [buf];
      txFreeCount := txFreeCount + 1;
    }

    method QueuePost(buf: Buf)
      modifies this
      ensures View() == PutPost(old(View()), buf) && Gives(View(), old(View()), Some(buf))
      ensures txPostList == old(txPostList) + [buf] && txFreeList == old(txFreeList)
      ensures old(CountersRight(View())) ==> CountersRight(View())
    {
      PutGives(View(), buf);
      txPostList := txPostList + [buf];
      txPostCount := txPostCount + 1;
    }

    method FlowStop()
      modifies this`tbusy
      ensures View() == StopIfLow(old(View()))
      ensures !tbusy ==> txFreeCount >= LOW_WATER
    {
      if txFreeCount < LOW_WATER { tbusy := true; }
    }

    method FlowWake()
      modifies this`tbusy
      ensures View() == WakeIfHigh(old(View()))
      ensures tbusy ==> txFreeCount <= HIGH_WATER
    {
      if txFreeCount > HIGH_WATER {
        if tbusy { tbusy := false; }
      }
    }

    /** aicwf_usb_bus_txdata, as far as the pool goes, is its three sections in a row: a free buffer posted, or none
        when there is none, and the queues not left running when the list is low. */
    method BusTxData(ghost flight: multiset<Buf>) returns (buf: Option<Buf>)
      modifies this
      ensures Run(Solo(old(View()), flight), [(0, ProducerTake), (0, ProducerPost), (0, ProducerCheck)])
              == Solo(View(), flight)
      ensures buf.None? <==> old(txFreeList) == []
      ensures old(txFreeList) == (if buf.Some? then [buf.value] else []) + txFreeList
      ensures txPostList == old(txPostList) + if buf.Some? then [buf.value] else []
      ensures !tbusy ==> txFreeCount >= LOW_WATER
      ensures forall b :: Listed(View(), b) == old(Listed(View(), b))
      ensures old(CountersRight(View())) ==> CountersRight(View())
    {
      hide Run, Step, Listed, CountersRight;
      ProducerRuns(View(), flight);
      buf := DequeueFree();
      if buf.Some? { QueuePost(buf.value); }
      FlowCounts(View());
      FlowStop();
    }

    /** aicwf_usb_tx_complete is its two sections in a row, on a buffer the USB core has had. */
    method TxComplete(done: Buf, ghost flight: multiset<Buf>)
      requires done in flight
      modifies this
      ensures Run(Solo(old(View()), flight), [(0, CompleteStart(done)), (0, CompletePut), (0, CompleteCheck)])
              == Solo(View(), flight - multiset{done})
      ensures tbusy ==> txFreeCount <= HIGH_WATER
      ensures txFreeList == old(txFreeList) + [done] && txPostList == old(txPostList)
    {
      hide Run, Step;
      CompletionRuns(View(), flight, done);
      QueueFree(done);
      FlowWake();
    }

    /** One turn: the oldest posted buffer goes to the USB core, or straight back to the free list. */
    method SubmitOne(taken: bool, ghost flight: multiset<Buf>) returns (buf: Buf)
      requires txPostList != []
      modifies this
      ensures buf == old(txPostList)[0] && txPostList == old(txPostList)[1..] && txPostCount == old(txPostCount) - 1
      ensures txFreeList == old(txFreeList) + (if taken then [] else [buf]) && tbusy == old(tbusy)
      ensures Run(Solo(old(View()), flight), Turn(taken))
              == Solo(View(), if taken then flight + multiset{buf} else flight)
    {
      hide Run, Gives;
      SubmissionRuns(View(), flight, taken);
      var b := DequeuePost();
      buf := b.value;
      if !taken { QueueFree(buf); }
    }

    /** aicwf_usb_tx_process: hands posted buffers to the USB core, oldest first; rs[n] is what the nth turn meets. A
        refused buffer goes straight back to the free list. */
    method TxProcess(rs: seq<Submission>, ghost flight: multiset<Buf>)
      returns (n: nat, sent: seq<Buf>, ghost es: seq<(nat, Action)>)
      requires txPostCount == |txPostList| <= |rs|
      modifies this
      ensures Run(Solo(old(View()), flight), es) == Solo(View(), flight + multiset(sent))
      ensures tbusy == old(tbusy) && txPostCount == |txPostList|
      ensures n <= |old(txPostList)| && txPostList == old(txPostList)[n..]
      ensures sent == Submitted(old(txPostList)[..n], rs)
      ensures txFreeList == old(txFreeList) + Refused(old(txPostList)[..n], rs)
      ensures n < |old(txPostList)| ==> rs[n] == Down || (n > 0 && rs[n - 1] == Gone)
    {
      hide Run, Turn, Submitted, Refused, Solo;
      SubmittedNone(rs);
      assert flight + multiset([]) == flight;
      n, sent, es := 0, [], [];
      ghost var posted, free, start := txPostList, txFreeList, Solo(View(), flight);
      RunNone(start);
      while txPostList != []
        invariant n <= |posted| && txPostList == posted[n..] && txPostCount == |txPostList| && tbusy == old(tbusy)
        invariant sent == Submitted(posted[..n], rs) && txFreeList == free + Refused(posted[..n], rs)
        invariant Run(start, es) == Solo(View(), flight + multiset(sent))
        decreases |txPostList|
      {
        if rs[n] == Down { return; }
        var taken := rs[n] == Taken;
        RunAppend(start, es, Turn(taken));
        es := es + Turn(taken);
        SubmittedSnoc(posted, n, rs);
        var buf := SubmitOne(taken, flight + multiset(sent));
        if taken {
          MoreInFlight(flight, sent, buf);
          sent := sent + [buf];
        }
        n := n + 1;
        if rs[n - 1] == Gone { break; }
      }
    }

    /** aicwf_usb_tx_prepare run without interference: everything posted goes back, in order. */
    method TxPrepare()
      requires txPostCount == |txPostList|
      modifies this
      ensures txPostList == [] && txPostCount == 0 && tbusy == old(tbusy)
      ensures txFreeList == old(txFreeList) + old(txPostList)
      ensures txFreeCount == old(txFreeCount) + |old(txPostList)|
    {
      hide Gives;
      ghost var n := 0;
      while txPostList != []
        invariant n <= |old(txPostList)| && txPostList == old(txPostList)[n..]
        invariant txFreeList == old(txFreeList) + old(txPostList)[..n]
        invariant txFreeCount == old(txFreeCount) + n && txPostCount == |txPostList| && tbusy == old(tbusy)
        decreases |txPostList|
      {
        var buf := DequeuePost();
        QueueFree(buf.value);
        n := n + 1;
      }
    }
  }
}
