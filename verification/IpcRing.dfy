/** The IPC transmit ring of one queue and user: a power-of-two array of host ids between two
    free-running 32-bit counters, confirmed in order by a handler that advances first and rolls back. */
module IpcRing {
  import opened Integers
  import opened Wrappers

  type Index = U32

  /** A host pointer; 0 is NULL. */
  type HostId = int

  /** The sizes for which masking and the 32-bit counters fit together: the divisors of 2^32. */
  predicate RingSize(size: nat)
    ensures RingSize(size) ==> 0 < size < TWO32
  {
    0 < size < TWO32 && TWO32 % size == 0
  }

  lemma DriverRingSizes()
    ensures RingSize(8) && RingSize(32) && RingSize(64)
  {
  }

  /** Masking with size - 1, which for the power-of-two sizes of the driver is the remainder. */
  function Slot(j: int, size: nat): (k: nat)
    requires size > 0
    ensures k < size
  {
    j % size
  }

  lemma MaskIsRemainder(b: bv32)
    ensures b & 7 == b % 8 && b & 31 == b % 32 && b & 63 == b % 64
  {
  }

  lemma SlotNext(j: int, size: nat)
    requires size > 0
    ensures Slot(j + size, size) == Slot(j, size)
  {
    var q := j / size;
    assert j == q * size + j % size;
    assert j + size == (q + 1) * size + j % size by { assert (q + 1) * size == q * size + size; }
    Remainder(j + size, size, q + 1, j % size);
  }

  lemma MulBounds(p: int, d: nat)
    ensures p >= 1 ==> p * d >= d
    ensures p <= -1 ==> p * d + d <= 0
    ensures p == 0 ==> p * d == 0
  {
  }

  lemma Remainder(x: int, d: nat, q: int, r: nat)
    requires d > 0 && r < d && x == q * d + r
    ensures x % d == r
  {
    var p := x / d - q;
    assert p * d == (x / d) * d - q * d == r - x % d;
    MulBounds(p, d);
  }

  /** Within a window as long as the ring no two positions share a slot. */
  lemma SlotsDiffer(i: int, j: int, size: nat)
    requires size > 0 && i < j < i + size
    ensures Slot(i, size) != Slot(j, size)
  {
    var p := j / size - i / size;
    assert j - i == p * size + (j % size - i % size) by {
      assert p * size == (j / size) * size - (i / size) * size;
    }
    MulBounds(p, size);
  }

  /** The counters wrap at 2^32 without the slot noticing. */
  lemma SlotOfWrapped(j: nat, size: nat)
    requires RingSize(size)
    ensures Slot(j % TWO32, size) == Slot(j, size)
  {
    var m := TWO32 / size;
    assert TWO32 == m * size;
    var q, r := j / TWO32, j % TWO32;
    var q', r' := r / size, r % size;
    assert j == (q * m + q') * size + r' by {
      assert q * TWO32 == q * (m * size) == (q * m) * size;
      assert (q * m + q') * size == (q * m) * size + q' * size;
    }
    Remainder(j, size, q * m + q', r');
  }

  class TxRing {
    const size: nat
    const slots: array<HostId>
    var usedIdx: Index
    var freeIdx: Index
    /** Every id ever pushed, oldest first, and every id that has left, in the order it left. */
    ghost var pushed: seq<HostId>
    ghost var left: seq<HostId>

    /** The ids still in the ring, oldest first. */
    ghost function Queue(): seq<HostId>
      reads this
    {
      if |left| <= |pushed| then pushed[|left|..] else []
    }

    /** What a position of the window holds: a pushed id that has not left, or nothing. */
    ghost predicate Holds(j: nat)
      requires slots.Length == size > 0
      reads this, slots
    {
      slots[Slot(j, size)] == if j < |pushed| then pushed[j] else 0
    }

    ghost predicate Valid()
      reads this, slots
    {
      && slots.Length == size && RingSize(size)
      && left <= pushed && |pushed| - |left| <= size
      && usedIdx == |left| % TWO32 && freeIdx == |pushed| % TWO32
      && (forall j {:trigger Holds(j)} :: |left| <= j < |left| + size ==> Holds(j))
      && (forall j :: 0 <= j < |pushed| ==> pushed[j] != 0)
    }

    constructor (size: nat)
      requires RingSize(size)
      ensures Valid() && this.size == size && pushed == left == []
    {
      hide Slot, RingSize;
      this.size := size;
      slots := new HostId[size](_ => 0);
      usedIdx, freeIdx := 0, 0;
      pushed, left := [], [];
    }

    /** ipc_host_txdesc_get: the slot of the next free descriptor, or nothing when the ring is full. */
    method TxDescGet() returns (r: Option<nat>)
      requires Valid()
      ensures r.None? <==> |Queue()| == size
      ensures r.Some? ==> r.value == Slot(|pushed|, size) && slots[r.value] == 0
    {
      hide Slot, RingSize;
      IndexGap(|pushed|, |left|, size);
      SlotOfWrapped(|pushed|, size);
      if freeIdx != (usedIdx + size) % TWO32 {
        assert Holds(|pushed|);
        r := Some(Slot(freeIdx, size));
      } else {
        r := None;
      }
    }

    /** ipc_host_txdesc_push, after a successful get. */
    method TxDescPush(hostId: HostId)
      requires Valid() && |Queue()| < size && hostId != 0
      modifies this`freeIdx, this`pushed, slots
      ensures Valid() && pushed == old(pushed) + [hostId]
      ensures Queue() == old(Queue()) + [hostId]
    {
      hide Slot, RingSize;
      SlotOfWrapped(|pushed|, size);
      Advance(|pushed|);
      slots[Slot(freeIdx, size)] := hostId;
      freeIdx := (freeIdx + 1) % TWO32;
      pushed := pushed + [hostId];
      forall j | |left| <= j < |left| + size
        ensures Holds(j)
      {
        assert old(Holds(j));
        OtherSlot(|pushed| - 1, j, size);
      }
    }

    twostate lemma SameWindow()
      requires old(Valid()) && pushed == old(pushed) && left == old(left) && slots[..] == old(slots[..])
      ensures forall j :: |left| <= j < |left| + size ==> Holds(j)
    {
      hide Slot, RingSize;
      forall j | |left| <= j < |left| + size
        ensures Holds(j)
      {
        assert old(Holds(j));
        assert slots[Slot(j, size)] == slots[..][Slot(j, size)];
      }
    }

    /** The oldest id has left and its slot has been cleared: the window has moved on by one. */
    twostate lemma WindowAfterLeaving()
      requires old(Valid()) && pushed == old(pushed) && |left| == |old(left)| + 1 <= |pushed|
      requires slots[..] == old(slots[..])[Slot(|old(left)|, size) := 0]
      ensures forall j :: |left| <= j < |left| + size ==> Holds(j)
    {
      hide Slot, RingSize;
      forall j | |left| <= j < |left| + size
        ensures Holds(j)
      {
        assert slots[Slot(j, size)] == slots[..][Slot(j, size)];
        if j < |old(left)| + size {
          assert old(Holds(j));
          OtherSlot(|old(left)|, j, size);
        } else {
          SlotNext(|old(left)|, size);
        }
      }
    }

    lemma Head()
      requires Valid()
      ensures Queue() != [] <==> |left| < |pushed|
      ensures Queue() != [] ==> Queue()[0] == pushed[|left|]
    {
      hide Slot, RingSize;
    }

    /** One turn of the confirmation loop. The used index is advanced and the slot cleared before anything
        is known; both are put back when there is nothing to confirm or the callback refuses. */
    method ConfirmNext(accept: (HostId, nat) -> bool, n: nat) returns (more: bool)
      requires Valid()
      modifies this`usedIdx, this`left, slots
      ensures Valid() && pushed == old(pushed)
      ensures more <==> old(Queue()) != [] && accept(old(Queue())[0], n)
      ensures left == old(left) + if more then [old(Queue())[0]] else []
    {
      hide Slot, RingSize, Queue;
      SlotOfWrapped(|left|, size);
      Head();
      Advance(|left|);
      assert Holds(|left|);
      var used := usedIdx;
      usedIdx := (usedIdx + 1) % TWO32;
      var k := Slot(used, size);
      var hostId := slots[k];
      slots[k] := 0;
      more := false;
      if hostId == 0 {
        usedIdx := used;
      } else if !accept(hostId, n) {
        usedIdx := used;
        slots[k] := hostId;
      } else {
        assert left + [hostId] <= pushed;
        left := left + [hostId];
        more := true;
      }
      assert slots[..] == old(slots[..]) || left != old(left);
      if left == old(left) { SameWindow(); } else { WindowAfterLeaving(); }
    }

    /** ipc_host_tx_cfm_handler: confirms the longest prefix of the queue that the callback accepts.
        The callback may answer differently each time; accept(id, n) is its answer to the nth call. */
    method TxCfmHandler(accept: (HostId, nat) -> bool) returns (n: nat)
      requires Valid()
      modifies this`usedIdx, this`left, slots
      ensures Valid() && pushed == old(pushed)
      ensures n <= |old(Queue())| && Queue() == old(Queue())[n..] && left == old(left) + old(Queue())[..n]
      ensures forall i :: 0 <= i < n ==> accept(old(Queue())[i], i)
      ensures n < |old(Queue())| ==> !accept(old(Queue())[n], n)
    {
      hide Slot, RingSize;
      ghost var queue := Queue();
      n := 0;
      while true
        invariant Valid() && pushed == old(pushed)
        invariant n <= |queue| && left == old(left) + queue[..n]
        invariant forall i :: 0 <= i < n ==> accept(queue[i], i)
        decreases |queue| - n
      {
        assert Queue() == queue[n..];
        var more := ConfirmNext(accept, n);
        if !more { break; }
        n := n + 1;
      }
    }

    /** ipc_host_tx_flush: takes the oldest id off the ring, whatever the callback would say; 0 when there is none. */
    method TxFlush() returns (hostId: HostId)
      requires Valid()
      modifies this`usedIdx, this`left, slots
      ensures Valid() && pushed == old(pushed)
      ensures hostId == if old(Queue()) == [] then 0 else old(Queue())[0]
      ensures left == old(left) + if old(Queue()) == [] then [] else [hostId]
    {
      hide Slot, RingSize, Queue;
      SlotOfWrapped(|left|, size);
      Head();
      Advance(|left|);
      assert Holds(|left|);
      hostId := slots[Slot(usedIdx, size)];
      if hostId != 0 {
        slots[Slot(usedIdx, size)] := 0;
        usedIdx := (usedIdx + 1) % TWO32;
        assert left + [hostId] <= pushed;
        left := left + [hostId];
      }
      if left == old(left) { SameWindow(); } else { WindowAfterLeaving(); }
    }

    /** Read through the wrapped counters: a slot is occupied exactly from used up to, but not including, free. */
    lemma OccupiedWindow(x: Index)
      requires Valid() && (x - usedIdx) % TWO32 < size
      ensures slots[Slot(x, size)] != 0 <==> (x - usedIdx) % TWO32 < (freeIdx - usedIdx) % TWO32
    {
      hide Slot, RingSize;
      var d := (x - usedIdx) % TWO32;
      var j := |left| + d;
      IndexGap(|pushed|, |left|, size);
      IndexGap(j, |left|, TWO32 - 1);
      assert j % TWO32 == x by { SameResidue(j % TWO32, x, usedIdx); }
      SlotOfWrapped(j, size);
      assert Holds(j);
    }

    /** Conservation, for all time: whatever was pushed has left, once and in order, or is still queued. */
    lemma Conservation()
      requires Valid()
      ensures pushed == left + Queue() && |Queue()| <= size
      ensures usedIdx == freeIdx <==> Queue() == []
    {
      hide Slot, RingSize;
      IndexGap(|pushed|, |left|, size);
    }
  }

  lemma Advance(n: nat)
    ensures (n % TWO32 + 1) % TWO32 == (n + 1) % TWO32
  {
  }

  lemma SameResidue(x: Index, y: Index, used: Index)
    requires (x - used) % TWO32 == (y - used) % TWO32
    ensures x == y
  {
  }

  /** ipc_host_tx_frames_pending over all rings. */
  method TxFramesPending(rings: seq<seq<TxRing>>) returns (pending: bool)
    requires forall i, j :: 0 <= i < |rings| && 0 <= j < |rings[i]| ==> rings[i][j].Valid()
    ensures pending <==> exists i, j :: 0 <= i < |rings| && 0 <= j < |rings[i]| && rings[i][j].Queue() != []
  {
    pending := false;
    var i := 0;
    while i < |rings| && !pending
      invariant i <= |rings|
      invariant pending ==> exists i, j :: 0 <= i < |rings| && 0 <= j < |rings[i]| && rings[i][j].Queue() != []
      invariant !pending ==> forall k, j :: 0 <= k < i && 0 <= j < |rings[k]| ==> rings[k][j].Queue() == []
    {
      for j := 0 to |rings[i]|
        invariant !pending && forall k :: 0 <= k < j ==> rings[i][k].Queue() == []
      {
        rings[i][j].Conservation();
        if rings[i][j].usedIdx != rings[i][j].freeIdx {
          pending := true;
          break;
        }
      }
      i := i + 1;
    }
  }

  lemma OtherSlot(i: int, j: int, size: nat)
    requires size > 0 && i - size < j < i + size
    ensures i != j ==> Slot(i, size) != Slot(j, size)
  {
    if i < j { SlotsDiffer(i, j, size); } else if j < i { SlotsDiffer(j, i, size); }
  }

  /** The wrapped full test is exact. */
  lemma IndexGap(free: nat, used: nat, size: nat)
    requires used <= free <= used + size && size < TWO32
    ensures free % TWO32 == (used % TWO32 + size) % TWO32 <==> free == used + size
    ensures free % TWO32 == used % TWO32 <==> free == used
    ensures (free % TWO32 - used % TWO32) % TWO32 == free - used
  {
    var d := free - used;
    var q := used / TWO32;
    assert used == q * TWO32 + used % TWO32;
    assert free % TWO32 == (used % TWO32 + d) % TWO32;
  }
}
