/** The NAT2.5 bridge database: sixteen hash chains linked through nextHash and pprevHash and
    changed in place. Each chain is specified by the sequence of cells it holds, head first. */
module Nat25Table {
  import opened Integers
  import opened Ethernet
  import opened Wrappers
  import opened Nat25Address
  import opened Nat25Spec
  import Nat25Cache

  /** Where the pointer to an entry lives: the chain head, or another entry's nextHash. */
  datatype BackLink = Detached | HeadOf(chain: Chain) | NextOf(prev: Entry)

  class Entry {
    var nextHash: Entry?
    var pprevHash: BackLink
    var useCount: int
    var macAddr: Mac
    var ageingTimer: Jiffies
    const networkAddr: Address

    constructor (networkAddr: Address, macAddr: Mac, now: Jiffies)
      ensures Cell() == (networkAddr, Record(macAddr, now, 1))
    {
      this.networkAddr := networkAddr;
      this.macAddr := macAddr;
      useCount := 1;
      ageingTimer := now;
      nextHash := null;
      pprevHash := Detached;
    }

    function Cell(): Cell
      reads this
    {
      (networkAddr, Record(macAddr, ageingTimer, useCount))
    }
  }

  /** No two entries of the sequence carry the same address. */
  ghost predicate Distinct(nodes: seq<Entry>) {
    nodes == [] || (NotAmong(nodes[0].networkAddr, nodes[1..]) && Distinct(nodes[1..]))
  }

  ghost predicate NotAmong(a: Address, nodes: seq<Entry>) {
    forall k :: 0 <= k < |nodes| ==> nodes[k].networkAddr != a
  }

  lemma {:induction false} DistinctAt(nodes: seq<Entry>, k: nat)
    requires Distinct(nodes) && k < |nodes|
    ensures forall l :: 0 <= l < |nodes| && l != k ==> nodes[l].networkAddr != nodes[k].networkAddr
  {
    var tail := nodes[1..];
    assert forall l :: 0 < l < |nodes| ==> nodes[l] == tail[l - 1];
    if k > 0 { DistinctAt(tail, k - 1); }
  }

  lemma OnlyAt(nodes: seq<Entry>, k: nat)
    requires Distinct(nodes) && k < |nodes|
    ensures forall l :: 0 <= l < |nodes| && l != k ==> nodes[l] != nodes[k]
  {
    DistinctAt(nodes, k);
  }

  lemma {:induction false} DistinctWithout(nodes: seq<Entry>, k: nat)
    requires Distinct(nodes) && k < |nodes|
    ensures Distinct(Without(nodes, k))
  {
    if k == 0 {
      assert Without(nodes, 0) == nodes[1..];
    } else {
      DistinctWithout(nodes[1..], k - 1);
      assert Without(nodes, k)[1..] == Without(nodes[1..], k - 1);
    }
  }

  /** One slot of the nethash array together with the entries hanging off it. */
  class Chain {
    var head: Entry?
    ghost var nodes: seq<Entry>

    ghost predicate Valid()
      reads this, nodes
    {
      && head == (if nodes == [] then null else nodes[0])
      && (forall k {:trigger LinkedAt(k)} :: 0 <= k < |nodes| ==> LinkedAt(k))
      && Distinct(nodes)
    }

    /** The kth entry points to its successor, and back to wherever the pointer to it lives. */
    ghost predicate LinkedAt(k: nat)
      requires k < |nodes|
      reads this, nodes
    {
      && nodes[k].nextHash == (if k + 1 < |nodes| then nodes[k + 1] else null)
      && nodes[k].pprevHash == (if k == 0 then HeadOf(this) else NextOf(nodes[k - 1]))
    }

    ghost function Cells(): (c: seq<Cell>)
      reads this, nodes
      ensures |c| == |nodes|
    {
      seq(|nodes|, k requires 0 <= k < |nodes| reads this, nodes => nodes[k].Cell())
    }

    constructor ()
      ensures Valid() && nodes == []
    {
      head := null;
      nodes := [];
    }

    method Link(ent: Entry)
      requires Valid() && NotAmong(ent.networkAddr, nodes)
      modifies this, nodes, ent
      ensures Valid() && nodes == [ent] + old(nodes)
      ensures Cells() == [old(ent.Cell())] + old(Cells())
    {
      if head != null { OnlyAt(nodes, 0); }
      ent.nextHash := head;
      if ent.nextHash != null {
        ent.nextHash.pprevHash := NextOf(ent);
      }
      head := ent;
      ent.pprevHash := HeadOf(this);
      nodes := [ent] + nodes;
      forall k | 0 <= k < |nodes|
        ensures LinkedAt(k)
      {
        if k > 0 { assert old(LinkedAt(k - 1)); }
      }
    }

    /** Walks the chain for an address; k is where it was found, or the length of the chain. */
    method Find(addr: Address) returns (db: Entry?, ghost k: nat)
      requires Valid()
      ensures db == null <==> forall l :: 0 <= l < |nodes| ==> nodes[l].networkAddr != addr
      ensures db != null ==> db.networkAddr == addr
      ensures db == null ==> k == |nodes|
      ensures db != null ==> k < |nodes| && nodes[k] == db
      ensures forall l :: 0 <= l < k ==> nodes[l].networkAddr != addr
    {
      db, k := head, 0;
      while db != null
        invariant k <= |nodes| && db == (if k == |nodes| then null else nodes[k])
        invariant forall l :: 0 <= l < k ==> nodes[l].networkAddr != addr
        decreases |nodes| - k
      {
        assert LinkedAt(k);
        if db.networkAddr == addr { return; }
        db, k := db.nextHash, k + 1;
      }
    }
  }

  /** Takes an entry out of whatever chain it hangs in; k is its position there. */
  method Unlink(ent: Entry, ghost c: Chain, ghost k: nat)
    requires c.Valid() && k < |c.nodes| && c.nodes[k] == ent
    modifies c, c.nodes
    ensures c.Valid() && c.nodes == Without(old(c.nodes), k)
    ensures ent.nextHash == null && ent.pprevHash == Detached
    ensures c.Cells() == Without(old(c.Cells()), k)
  {
    Bypass(ent, c, k);
    CellsWithout(c, k);
  }

  /** Relinking does not touch records. */
  twostate lemma CellsWithout(c: Chain, new k: nat)
    requires k < |old(c.nodes)|
    requires c.nodes == Without(old(c.nodes), k)
    requires forall l :: 0 <= l < |old(c.nodes)| ==> old(c.nodes)[l].Cell() == old(c.nodes[l].Cell())
    ensures c.Cells() == Without(old(c.Cells()), k)
  {
  }

  /** The successor of entry k has taken over the link back, its predecessor the link on. */
  twostate lemma Relinked(c: Chain, new k: nat)
    requires old(c.Valid()) && k < |old(c.nodes)| && c.nodes == Without(old(c.nodes), k)
    requires var was := old(c.nodes); c.head == if k == 0 then old(was[k].nextHash) else old(c.head)
    requires var was := old(c.nodes); forall m :: 0 <= m < |was| && m != k ==>
      && was[m].nextHash == (if m + 1 == k then old(was[k].nextHash) else old(was[m].nextHash))
      && was[m].pprevHash == (if m == k + 1 then old(was[k].pprevHash) else old(was[m].pprevHash))
    ensures c.Valid()
  {
    ghost var was := old(c.nodes);
    DistinctWithout(was, k);
    hide Distinct;
    assert old(c.LinkedAt(k));
    forall l | 0 <= l < |c.nodes|
      ensures c.LinkedAt(l)
    {
      ghost var m := if l < k then l else l + 1;
      assert c.nodes[l] == was[m] && old(c.LinkedAt(m));
    }
  }

  /** The writes of __network_hash_unlink. */
  method Bypass(ent: Entry, ghost c: Chain, ghost k: nat)
    requires c.Valid() && k < |c.nodes| && c.nodes[k] == ent
    modifies c, c.nodes`nextHash, c.nodes`pprevHash
    ensures c.Valid() && c.nodes == Without(old(c.nodes), k)
    ensures ent.nextHash == null && ent.pprevHash == Detached
  {
    ghost var was := c.nodes;
    OnlyAt(was, k);
    if k > 0 { OnlyAt(was, k - 1); assert c.LinkedAt(k - 1); }
    if k + 1 < |was| { OnlyAt(was, k + 1); }
    hide Distinct;
    assert c.LinkedAt(k);
    match ent.pprevHash {
      case HeadOf(chain) => chain.head := ent.nextHash;
      case NextOf(prev) => prev.nextHash := ent.nextHash;
      case Detached => assert false;
    }
    if ent.nextHash != null {
      ent.nextHash.pprevHash := ent.pprevHash;
    }
    ent.nextHash := null;
    ent.pprevHash := Detached;
    c.nodes := Without(was, k);
    Relinked(c, k);
  }

  method DropUse(f: Entry, ghost chain: Chain, ghost k: nat)
    requires chain.Valid() && k < |chain.nodes| && chain.nodes[k] == f
    modifies f`useCount
    ensures chain.Valid()
    ensures f.useCount == WrapInt(old(f.useCount) - 1)
    ensures chain.Cells() == old(chain.Cells())[k := f.Cell()]
  {
    OnlyAt(chain.nodes, k);
    f.useCount := WrapInt(f.useCount - 1);
    forall l | 0 <= l < |chain.nodes|
      ensures chain.LinkedAt(l)
      ensures chain.Cells()[l] == old(chain.Cells())[k := f.Cell()][l]
    {
      assert old(chain.LinkedAt(l));
    }
  }

  ghost predicate Among(nodes: seq<Entry>, own: set<Entry>) {
    forall i {:trigger nodes[i]} :: 0 <= i < |nodes| ==> nodes[i] in own
  }

  /** What is left of nodes from k on is what was left of was from n on. */
  ghost predicate SameRest(nodes: seq<Entry>, k: nat, was: seq<Entry>, n: nat)
    decreases |nodes| - k
  {
    && k <= |nodes| && n <= |was|
    && (if k == |nodes| then n == |was| else n < |was| && nodes[k] == was[n] && SameRest(nodes, k + 1, was, n + 1))
  }

  lemma {:induction false} SameRestShift(
      nodes: seq<Entry>, k: nat, was: seq<Entry>, n: nat, nodes': seq<Entry>, k': nat)
    requires SameRest(nodes, k, was, n) && k' <= |nodes'| && nodes'[k'..] == nodes[k..]
    ensures SameRest(nodes', k', was, n)
    decreases |nodes| - k
  {
    if k < |nodes| {
      assert nodes'[k'] == nodes'[k'..][0] == nodes[k..][0] == nodes[k];
      assert nodes'[k' + 1..] == nodes'[k'..][1..] == nodes[k + 1..];
      SameRestShift(nodes, k + 1, was, n + 1, nodes', k' + 1);
    } else {
      assert |nodes'[k'..]| == 0;
    }
  }

  lemma SameRestNext(nodes: seq<Entry>, k: nat, was: seq<Entry>, n: nat)
    requires SameRest(nodes, k, was, n) && k < |nodes|
    ensures SameRest(nodes, k + 1, was, n + 1)
  {
  }

  lemma {:induction false} SameRestSelf(nodes: seq<Entry>, k: nat)
    requires k <= |nodes|
    ensures SameRest(nodes, k, nodes, k)
    decreases |nodes| - k
  {
    if k < |nodes| { SameRestSelf(nodes, k + 1); }
  }

  /** One turn of the expiry loop: age the entry, and free it if its last use is gone.
      g is the entry to go on with, cached what the cache pointer scdb becomes. */
  method ExpireEntry(f: Entry, ghost chain: Chain, ghost k: nat, now: Jiffies, hz: nat, scdb: Entry?,
                     ghost was: seq<Entry>, ghost n: nat, ghost p: nat, ghost own: set<Entry>)
    returns (g: Entry?, cached: Entry?, ghost freed: bool, ghost p': nat)
    requires chain.Valid() && k < |chain.nodes| && chain.nodes[k] == f && Among(chain.nodes, own)
    requires SameRest(chain.nodes, k, was, n)
    modifies chain, own
    ensures chain.Valid() && Among(chain.nodes, own)
    ensures var next := if freed then k else k + 1;
            next <= |chain.nodes| && g == (if next == |chain.nodes| then null else chain.nodes[next]) &&
            SameRest(chain.nodes, next, was, n + 1)
    ensures freed <==> Dies(old(chain.Cells())[k].1, now, hz)
    ensures chain.Cells() == SweptAt(old(chain.Cells()), k, now, hz)
    ensures cached == if freed && scdb == f then null else scdb
    ensures cached != null && p < |old(chain.nodes)| && old(chain.nodes)[p] == cached ==>
              p' < |chain.nodes| && chain.nodes[p'] == cached
  {
    hide Distinct, WrapInt, Expired, SweptAt, Dies, SameRest;
    assert chain.LinkedAt(k);
    SameRestNext(chain.nodes, k, was, n);
    SweptCases(chain.Cells(), k, now, hz);
    g, cached, freed, p' := f.nextHash, scdb, false, p;
    if Expired(now, hz, f.ageingTimer) {
      DropUse(f, chain, k);
      if f.useCount == 0 {
        if scdb == f { cached := null; }
        WithoutSet(old(chain.Cells()), k, f.Cell());
        Unlink(f, chain, k);
        freed := true;
        assert chain.nodes[k..] == old(chain.nodes)[k + 1..];
        p' := if p > k then p - 1 else p;
        SameRestShift(old(chain.nodes), k + 1, was, n + 1, chain.nodes, k);
      }
    }
  }

  lemma SweptCases(c: seq<Cell>, k: nat, now: Jiffies, hz: nat)
    requires k < |c|
    ensures var (a, r) := c[k]; var uses := WrapInt(r.uses - 1);
      && (!Expired(now, hz, r.age) ==> !Dies(r, now, hz) && SweptAt(c, k, now, hz) == c)
      && (Expired(now, hz, r.age) ==>
            && (Dies(r, now, hz) <==> uses == 0)
            && SweptAt(c, k, now, hz) == if uses == 0 then Without(c, k) else c[k := (a, r.(uses := uses))])
  {
  }

  lemma WithoutSet<T>(c: seq<T>, k: nat, x: T)
    requires k < |c|
    ensures Without(c[k := x], k) == Without(c, k)
  {
  }

  /** The sweep applied to position k alone. */
  function SweptAt(c: seq<Cell>, k: nat, now: Jiffies, hz: nat): seq<Cell>
    requires k < |c|
  {
    if Dies(c[k].1, now, hz) then Without(c, k) else c[k := (c[k].0, Aged(c[k].1, now, hz))]
  }

  /** The chain after n turns of the expiry loop, and the position the loop has reached. */
  function Swept(c: seq<Cell>, n: nat, now: Jiffies, hz: nat): (r: (seq<Cell>, nat)) {
    if n == 0 then (c, 0)
    else
      var (cur, k) := Swept(c, n - 1, now, hz);
      if k < |cur| then (SweptAt(cur, k, now, hz), if Dies(cur[k].1, now, hz) then k else k + 1) else (cur, k)
  }

  lemma SweepStep(c: seq<Cell>, n: nat, kept: seq<Cell>, cur: seq<Cell>, now: Jiffies, hz: nat)
    requires n < |c| && kept == SweepChain(c[..n], now, hz) && cur == kept + c[n..]
    ensures cur[|kept|] == c[n]
    ensures SweptAt(cur, |kept|, now, hz) == SweepChain(c[..n + 1], now, hz) + c[n + 1..]
    ensures |SweepChain(c[..n + 1], now, hz)| == if Dies(c[n].1, now, hz) then |kept| else |kept| + 1
  {
    assert c[..n + 1][..n] == c[..n];
    assert c[n + 1..] == c[n..][1..];
  }

  lemma {:induction false} SweptIs(c: seq<Cell>, n: nat, now: Jiffies, hz: nat)
    requires n <= |c|
    ensures Swept(c, n, now, hz).0 == SweepChain(c[..n], now, hz) + c[n..]
    ensures Swept(c, n, now, hz).1 == |SweepChain(c[..n], now, hz)|
  {
    if n == 0 {
      assert c[..0] == [] && [] + c[0..] == c;
    } else {
      var cur, k := Swept(c, n - 1, now, hz).0, Swept(c, n - 1, now, hz).1;
      SweptIs(c, n - 1, now, hz);
      SweepStep(c, n - 1, SweepChain(c[..n - 1], now, hz), cur, now, hz);
      SweptNext(c, n, now, hz, cur, k);
    }
  }

  lemma SweptNext(c: seq<Cell>, n: nat, now: Jiffies, hz: nat, cur: seq<Cell>, k: nat)
    requires 0 < n && cur == Swept(c, n - 1, now, hz).0 && k == Swept(c, n - 1, now, hz).1 && k < |cur|
    ensures Swept(c, n, now, hz).0 == SweptAt(cur, k, now, hz)
    ensures Swept(c, n, now, hz).1 == if Dies(cur[k].1, now, hz) then k else k + 1
  {
  }

  /** What the loop is about to look at. */
  lemma SweptCell(c: seq<Cell>, n: nat, now: Jiffies, hz: nat)
    requires n < |c|
    ensures var (cur, k) := Swept(c, n, now, hz); k < |cur| && cur[k] == c[n]
  {
    SweptIs(c, n, now, hz);
  }

  lemma SweptAll(c: seq<Cell>, now: Jiffies, hz: nat)
    ensures Swept(c, |c|, now, hz).0 == SweepChain(c, now, hz)
  {
    SweptIs(c, |c|, now, hz);
    assert c[..|c|] == c;
  }

  /** The expiry loop over one bucket, whose entries are all among own. The cache pointer scdb, if it
      points into this chain at all, points at position q. */
  method ExpireChain(chain: Chain, now: Jiffies, hz: nat, scdb: Entry?, ghost q: nat, ghost own: set<Entry>)
    returns (cached: Entry?, ghost p: nat)
    requires chain.Valid() && Among(chain.nodes, own)
    requires if q < |chain.nodes| then chain.nodes[q] == scdb else scdb !in chain.nodes
    modifies chain, own
    ensures chain.Valid() && Among(chain.nodes, own)
    ensures chain.Cells() == SweepChain(old(chain.Cells()), now, hz)
    ensures cached != null && q < |old(chain.nodes)| ==> p < |chain.nodes| && chain.nodes[p] == cached
    ensures cached == if q < |old(chain.nodes)| && Dies(old(chain.Cells())[q].1, now, hz) then null else scdb
  {
    hide SweptAt, SweepChain, Dies, Distinct;
    cached, p := scdb, q;
    ghost var was, cells := chain.nodes, chain.Cells();
    ghost var k, n := 0, 0;
    var f := chain.head;
    if q < |was| { OnlyAt(was, q); }
    SameRestSelf(was, 0);
    while f != null
      invariant chain.Valid() && Among(chain.nodes, own)
      invariant k <= |chain.nodes| && SameRest(chain.nodes, k, was, n)
      invariant f == if k == |chain.nodes| then null else chain.nodes[k]
      invariant chain.Cells() == Swept(cells, n, now, hz).0 && k == Swept(cells, n, now, hz).1
      invariant cached != null && q < |was| ==> p < |chain.nodes| && chain.nodes[p] == cached
      invariant cached == if q < n && Dies(cells[q].1, now, hz) then null else scdb
      decreases |was| - n
    {
      SweptCell(cells, n, now, hz);
      ghost var freed;
      ghost var cur, k0 := chain.Cells(), k;
      f, cached, freed, p := ExpireEntry(f, chain, k, now, hz, cached, was, n, p, own);
      k, n := if freed then k else k + 1, n + 1;
      SweptNext(cells, n, now, hz, cur, k0);
    }
    SweptAll(cells, now, hz);
  }

  /** The clean-up loop over one bucket: every entry is freed, and the cache pointer forgets any of them. */
  method CleanupChain(chain: Chain, scdb: Entry?, ghost own: set<Entry>) returns (cached: Entry?)
    requires chain.Valid() && Among(chain.nodes, own)
    modifies chain, own
    ensures chain.Valid() && chain.nodes == []
    ensures cached == if scdb in old(chain.nodes) then null else scdb
  {
    cached := scdb;
    ghost var was, n := chain.nodes, 0;
    var f := chain.head;
    while f != null
      invariant chain.Valid() && Among(chain.nodes, own)
      invariant n <= |was| && chain.nodes == was[n..] && f == chain.head
      invariant cached == if scdb in was[..n] then null else scdb
      decreases |was| - n
    {
      assert chain.LinkedAt(0);
      var g := f.nextHash;
      if cached == f { cached := null; }
      Unlink(f, chain, 0);
      assert was[..n + 1] == was[..n] + [was[n]];
      f, n := g, n + 1;
    }
    assert was[..n] == was;
  }

  class BridgeTable {
    const nethash: seq<Chain>
    var scdbEntry: Entry?
    var scdbMac: Mac
    var scdbIp: Ip

    ghost var entries: set<Entry>

    constructor ()
      ensures Valid() && View() == map[] && fresh(nethash) && fresh(entries) && |nethash| == 16
    {
      var table: seq<Chain> := [];
      for i := 0 to HASH_SIZE
        invariant |table| == i && fresh(table)
        invariant forall j :: 0 <= j < i ==> table[j].Valid() && table[j].nodes == []
        invariant forall j, k :: 0 <= j < k < i ==> table[j] != table[k]
      {
        var chain := new Chain();
        table := table + [chain];
      }
      nethash := table;
      scdbEntry, scdbMac, scdbIp := null, NO_MAC, NO_IP;
      entries := {};
      new;
      TableEmpty(Cells());
    }

    ghost predicate Contained()
      reads this`entries, nethash
    {
      && |nethash| == HASH_SIZE
      && (forall i :: 0 <= i < HASH_SIZE ==> Among(nethash[i].nodes, entries))
    }

    ghost predicate Valid()
      reads this, nethash, entries
    {
      && Contained()
      && (forall i, j :: 0 <= i < j < HASH_SIZE ==> nethash[i] != nethash[j])
      && (forall i :: 0 <= i < HASH_SIZE ==> Own(i))
      && (scdbEntry != null ==> scdbEntry in nethash[Bucket(scdbEntry.networkAddr)].nodes)
    }

    /** Chain i is well linked and holds only addresses that hash to i. */
    ghost predicate Own(i: nat)
      requires i < |nethash|
      reads nethash[i], nethash[i].nodes
    {
      var nodes := nethash[i].nodes;
      && nethash[i].Valid()
      && (forall k :: 0 <= k < |nodes| ==> Bucket(nodes[k].networkAddr) == i)
    }

    ghost function Cells(): (cs: Buckets)
      requires Contained()
      reads this`entries, nethash, entries
      ensures |cs| == HASH_SIZE
    {
      var es := entries;
      seq(HASH_SIZE, i requires 0 <= i < HASH_SIZE == |nethash| && Among(nethash[i].nodes, es) reads nethash, es =>
          nethash[i].Cells())
    }

    ghost function View(): View
      requires Contained()
      reads this`entries, nethash, entries
    {
      TableView(Cells())
    }

    /** The single-entry cache, its entry named by its address. */
    ghost function Cache(): Nat25Cache.Cached
      reads this
    {
      Nat25Cache.Cached(if scdbEntry == null then None else Some(scdbEntry.networkAddr), scdbMac, scdbIp)
    }

    /** The cached entry is in the map. */
    lemma CachedRecord()
      requires Valid() && scdbEntry != null
      ensures scdbEntry.networkAddr in View() && View()[scdbEntry.networkAddr] == scdbEntry.Cell().1
    {
      var i := Bucket(scdbEntry.networkAddr);
      assert Own(i);
      var k :| 0 <= k < |nethash[i].nodes| && nethash[i].nodes[k] == scdbEntry;
      CellsFiled();
      TableViewAt(Cells(), scdbEntry.networkAddr);
      assert Cells()[i] == nethash[i].Cells();
      ChainViewAt(Cells()[i], k);
    }

    lemma CellsFiled()
      requires Valid()
      ensures Filed(Cells())
    {
      forall i | 0 <= i < HASH_SIZE
        ensures Unique(Cells()[i]) && forall k :: 0 <= k < |Cells()[i]| ==> Bucket(Cells()[i][k].0) == i
      {
        assert Own(i);
        forall k, l | 0 <= k < l < |Cells()[i]|
          ensures Cells()[i][k].0 != Cells()[i][l].0
        {
          DistinctAt(nethash[i].nodes, k);
        }
      }
    }

    /** Only chain i and its entries have changed, so only cell row i can differ. */
    twostate lemma OneRow(i: nat)
      requires old(Valid()) && Contained() && i < HASH_SIZE
      requires forall j :: 0 <= j < HASH_SIZE && j != i ==> unchanged(nethash[j])
      requires forall e :: e in old(entries) && Bucket(e.networkAddr) != i ==> unchanged(e)
      ensures forall j :: 0 <= j < HASH_SIZE && j != i ==> Own(j)
      ensures Cells() == old(Cells())[i := nethash[i].Cells()]
    {
      forall j | 0 <= j < HASH_SIZE && j != i
        ensures Own(j) && nethash[j].Cells() == old(nethash[j].Cells())
      {
        assert old(Own(j));
        assert forall k :: 0 <= k < |old(nethash[j].nodes)| ==> unchanged(old(nethash[j].nodes)[k]);
      }
    }

    /** Finds the entry of an address, and with it whether the map knows the address. */
    method FindEntry(addr: Address) returns (db: Entry?, ghost k: nat)
      requires Valid()
      ensures db == null <==> addr !in View()
      ensures db != null ==> k < |nethash[Bucket(addr)].nodes| && nethash[Bucket(addr)].nodes[k] == db
      ensures db != null ==> db.Cell() == (addr, View()[addr])
    {
      var hash := NetworkHash(addr);
      assert Own(hash);
      db, k := nethash[hash].Find(addr);
      CellsFiled();
      TableViewAt(Cells(), addr);
      assert Cells()[hash] == nethash[hash].Cells();
      ChainViewKeys(Cells()[hash], addr);
      if db != null {
        ChainViewAt(Cells()[hash], k);
      }
    }

    /** Only the record of entry k of chain i has been written. */
    twostate lemma AfterWrite(new i: nat, new k: nat)
      requires old(Valid()) && Filed(old(Cells())) && i < HASH_SIZE && k < |old(nethash[i].nodes)|
      requires forall j :: 0 <= j < HASH_SIZE ==> unchanged(nethash[j])
      requires entries == old(entries) && scdbEntry == old(scdbEntry)
      requires var db := old(nethash[i].nodes)[k];
        && (forall e :: e in old(entries) && e != db ==> unchanged(e))
        && db.nextHash == old(db.nextHash) && db.pprevHash == old(db.pprevHash)
      ensures Valid()
      ensures var (addr, record) := old(nethash[i].nodes)[k].Cell();
              View() == old(View())[addr := record]
    {
      hide TableView, Filed, Bucket, Distinct;
      var (addr, record) := old(nethash[i].nodes)[k].Cell();
      assert old(Own(i)) && nethash[i].nodes == old(nethash[i].nodes);
      OnlyAt(old(nethash[i].nodes), k);
      OneRow(i);
      forall l | 0 <= l < |nethash[i].nodes|
        ensures nethash[i].LinkedAt(l)
      {
        assert old(nethash[i].LinkedAt(l));
      }
      assert Own(i);

      TableUpdate(old(Cells()), i, k, record);
      assert nethash[i].Cells() == old(nethash[i].Cells())[k := (addr, record)];
    }

    /** A new entry has been linked at the head of chain i. */
    twostate lemma AfterLink(new ent: Entry, new i: nat)
      requires old(Valid()) && Filed(old(Cells())) && i < HASH_SIZE && Contained()
      requires Bucket(ent.networkAddr) == i && ent.networkAddr !in old(View())
      requires forall j :: 0 <= j < HASH_SIZE && j != i ==> unchanged(nethash[j])
      requires forall e :: e in old(entries) && Bucket(e.networkAddr) != i ==> unchanged(e)
      requires nethash[i].Valid() && nethash[i].nodes == [ent] + old(nethash[i].nodes)
      requires nethash[i].Cells() == [ent.Cell()] + old(nethash[i].Cells())
      requires scdbEntry == old(scdbEntry)
      ensures Valid()
      ensures View() == old(View())[ent.networkAddr := ent.Cell().1]
    {
      hide TableView, Filed, Bucket, Distinct;
      assert old(Own(i));
      OneRow(i);
      TablePrepend(old(Cells()), ent.networkAddr, ent.Cell().1);
    }

    method Insert(macAddr: Mac, addr: Address, now: Jiffies, memory: bool)
      requires Valid()
      modifies this`entries, nethash, entries
      ensures Valid() && fresh(entries - old(entries))
      ensures View() == InsertView(old(View()), addr, macAddr, now, memory)
    {
      hide TableView, Filed, Bucket, Distinct;
      var db, k := FindEntry(addr);
      var hash := NetworkHash(addr);
      CellsFiled();
      assert Own(hash);
      if db != null {
        OnlyAt(nethash[hash].nodes, k);
        db.macAddr := macAddr;
        db.ageingTimer := now;
        AfterWrite(hash, k);
      } else if memory {
        Unknown(addr);
        LinkNew(macAddr, addr, now, hash);
      }
    }

    /** The tail of the insert: allocate an entry and put it in front of its chain. */
    method LinkNew(macAddr: Mac, addr: Address, now: Jiffies, hash: nat)
      requires Valid() && Filed(Cells()) && hash == Bucket(addr) && addr !in View()
      requires nethash[hash].Valid() && NotAmong(addr, nethash[hash].nodes)
      modifies this`entries, nethash[hash], entries
      ensures Valid() && fresh(entries - old(entries))
      ensures View() == old(View())[addr := Record(macAddr, now, 1)]
    {
      hide TableView, Filed, Bucket, Distinct, NotAmong;
      var db := new Entry(addr, macAddr, now);
      assert Own(hash) && Among(nethash[hash].nodes, entries);
      nethash[hash].Link(db);
      entries := entries + {db};
      assert nethash[hash].Cells()[0] == db.Cell();
      AfterLink(db, hash);
    }

    lemma Unknown(addr: Address)
      requires Valid() && addr !in View()
      ensures NotAmong(addr, nethash[Bucket(addr)].nodes)
    {
      var hash := Bucket(addr);
      CellsFiled();
      TableViewAt(Cells(), addr);
      ChainViewKeys(Cells()[hash], addr);
      assert forall k :: 0 <= k < |nethash[hash].nodes| ==> Cells()[hash][k].0 == nethash[hash].nodes[k].networkAddr;
    }

    method CopyMac(packet: array<Byte>, mac: Mac)
      requires packet.Length >= 6
      modifies packet
      ensures packet[..6] == mac && packet[6..] == old(packet[6..])
    {
      forall i | 0 <= i < 6 { packet[i] := mac[i]; }
    }

    /** Rewrites the destination address, the first six bytes of packet, from an unexpired entry. */
    method LookupAndReplace(packet: array<Byte>, addr: Address, now: Jiffies, hz: nat) returns (found: int)
      requires Valid() && packet.Length >= 6
      modifies packet, entries
      ensures Valid()
      ensures found == if addr in old(View()) then 1 else 0
      ensures View() == LookupView(old(View()), addr, now, hz)
      ensures packet[..6] == LookupMac(old(View()), addr, now, hz, old(packet[..6]))
      ensures packet[6..] == old(packet[6..])
    {
      hide TableView, Filed, Bucket, Distinct, Expired, WrapInt;
      var db, k := FindEntry(addr);
      if db == null { return 0; }
      found := 1;
      if !Expired(now, hz, db.ageingTimer) {
        assert Own(Bucket(addr));
        CellsFiled();
        OnlyAt(nethash[Bucket(addr)].nodes, k);
        CopyMac(packet, db.macAddr);
        db.useCount := WrapInt(db.useCount + 1);
        AfterWrite(Bucket(addr), k);
      }
    }

    /** What the receive path does for an IP frame: the cached MAC for the cached IP address, the map for any other. */
    method Translate(packet: array<Byte>, dest: Ip, now: Jiffies, hz: nat)
      requires Valid() && packet.Length >= 6
      modifies packet, entries
      ensures Valid() && Cache() == old(Cache())
      ensures packet[..6] == Nat25Cache.Translated(
        Nat25Cache.State(old(View()), old(Cache())), dest, now, hz, old(packet[..6]))
      ensures packet[6..] == old(packet[6..])
      ensures View() == if old(scdbIp) == dest then old(View()) else LookupView(old(View()), Ipv4Address(dest), now, hz)
    {
      hide TableView, Bucket, LookupView, LookupMac, Ipv4Address, Own;
      if scdbIp == dest {
        CopyMac(packet, scdbMac);
      } else {
        var _ := LookupAndReplace(packet, Ipv4Address(dest), now, hz);
      }
    }

    /** The transmit path points the single-entry cache at the entry of a source address, if there is one. */
    method RememberSource(mac: Mac, ip: Ip, now: Jiffies)
      requires Valid()
      modifies this`scdbEntry, this`scdbMac, this`scdbIp, entries
      ensures Valid()
      ensures scdbEntry != null <==> Ipv4Address(ip) in old(View())
      ensures scdbEntry != null ==> scdbEntry.networkAddr == Ipv4Address(ip) && scdbMac == mac && scdbIp == ip
      ensures scdbEntry == null ==> View() == old(View()) && scdbMac == old(scdbMac) && scdbIp == old(scdbIp)
      ensures scdbEntry != null ==>
                View() == old(View())[Ipv4Address(ip) := old(View())[Ipv4Address(ip)].(age := now)]
    {
      hide TableView, Bucket, Ipv4Address, Distinct;
      var addr := Ipv4Address(ip);
      var db, k := FindEntry(addr);
      scdbEntry := db;
      if db != null {
        scdbMac, scdbIp := mac, ip;
        StampCached(now, k);
      }
    }

    /** A cache hit refreshes the age of the cached entry. */
    method StampCached(now: Jiffies, ghost k: nat)
      requires Valid() && scdbEntry != null
      requires var nodes := nethash[Bucket(scdbEntry.networkAddr)].nodes; k < |nodes| && nodes[k] == scdbEntry
      modifies entries
      ensures Valid() && scdbEntry.networkAddr in old(View())
      ensures View() == old(View())[scdbEntry.networkAddr := old(View())[scdbEntry.networkAddr].(age := now)]
    {
      hide TableView, Filed, Bucket, Distinct;
      var hash := Bucket(scdbEntry.networkAddr);
      assert Own(hash);
      CellsFiled();
      OnlyAt(nethash[hash].nodes, k);
      TableViewAt(Cells(), scdbEntry.networkAddr);
      ChainViewAt(Cells()[hash], k);
      scdbEntry.ageingTimer := now;
      AfterWrite(hash, k);
    }

    /** What the transmit path does for an IP frame. hit says that translation is not needed. */
    method CacheSource(mac: Mac, ip: Ip, now: Jiffies) returns (hit: bool)
      requires Valid()
      modifies this`scdbEntry, this`scdbMac, this`scdbIp, entries
      ensures Valid() && (hit <==> scdbEntry != null)
      ensures Nat25Cache.State(View(), Cache())
              == Nat25Cache.Sourced(Nat25Cache.State(old(View()), old(Cache())), mac, ip, now)
    {
      hide TableView, Bucket, Ipv4Address;
      if scdbMac != mac {
        RememberSource(mac, ip, now);
        hit := scdbEntry != null;
      } else if scdbEntry != null {
        ghost var k :| 0 <= k < |nethash[Bucket(scdbEntry.networkAddr)].nodes|
                       && nethash[Bucket(scdbEntry.networkAddr)].nodes[k] == scdbEntry;
        StampCached(now, k);
        hit := true;
      } else {
        scdbMac, scdbIp := NO_MAC, NO_IP;
        hit := false;
      }
    }

    ghost function InBucket(i: nat): set<Entry>
      reads this`entries
    {
      set e | e in entries && Bucket(e.networkAddr) == i
    }

    method ForgetCached()
      modifies this`scdbEntry, this`scdbMac, this`scdbIp
      ensures scdbEntry == null && scdbMac == NO_MAC && scdbIp == NO_IP
    {
      scdbMac := NO_MAC;
      scdbIp := NO_IP;
      scdbEntry := null;
    }

    method ExpireBucket(i: nat, now: Jiffies, hz: nat)
      requires Valid() && i < HASH_SIZE
      modifies this`scdbEntry, this`scdbMac, this`scdbIp, nethash[i], InBucket(i)
      ensures Valid() && entries == old(entries)
      ensures Cells() == old(Cells())[i := SweepChain(old(Cells())[i], now, hz)]
      ensures scdbEntry == if old(scdbEntry != null && Bucket(scdbEntry.networkAddr) == i
                                  && Dies(scdbEntry.Cell().1, now, hz))
                           then null else old(scdbEntry)
      ensures scdbMac == if old(scdbEntry) != null && scdbEntry == null then NO_MAC else old(scdbMac)
      ensures scdbIp == if old(scdbEntry) != null && scdbEntry == null then NO_IP else old(scdbIp)
    {
      hide TableView, Bucket, SweepChain, Dies, Filed, Distinct;
      ghost var q := PositionOfCached(i);
      var cached;
      ghost var p;
      cached, p := ExpireChain(nethash[i], now, hz, scdbEntry, q, InBucket(i));
      if cached == null && scdbEntry != null { ForgetCached(); }
      OneRow(i);
      InOwnBucket(i);
    }

    lemma InOwnBucket(i: nat)
      requires i < |nethash| == HASH_SIZE && nethash[i].Valid() && Among(nethash[i].nodes, InBucket(i))
      ensures Own(i) && Among(nethash[i].nodes, entries)
    {
    }

    lemma PositionOfCached(i: nat) returns (q: nat)
      requires Valid() && i < HASH_SIZE
      ensures Own(i) && Among(nethash[i].nodes, InBucket(i))
      ensures q < |nethash[i].nodes| <==> scdbEntry != null && Bucket(scdbEntry.networkAddr) == i
      ensures if q < |nethash[i].nodes| then nethash[i].nodes[q] == scdbEntry else scdbEntry !in nethash[i].nodes
    {
      assert Own(i) && Among(nethash[i].nodes, entries);
      q := |nethash[i].nodes|;
      if scdbEntry != null && Bucket(scdbEntry.networkAddr) == i {
        q :| 0 <= q < |nethash[i].nodes| && nethash[i].nodes[q] == scdbEntry;
      }
    }

    method Expire(now: Jiffies, hz: nat)
      requires Valid()
      modifies this`scdbEntry, this`scdbMac, this`scdbIp, nethash, entries
      ensures Valid() && View() == SweepView(old(View()), now, hz)
      ensures scdbEntry == if old(scdbEntry != null && Dies(scdbEntry.Cell().1, now, hz)) then null else old(scdbEntry)
      ensures scdbMac == if old(scdbEntry) != null && scdbEntry == null then NO_MAC else old(scdbMac)
      ensures scdbIp == if old(scdbEntry) != null && scdbEntry == null then NO_IP else old(scdbIp)
      ensures Cache() == Nat25Cache.SweptCache(old(View()), old(Cache()), now, hz)
    {
      hide Dies, TableView, Bucket;
      if scdbEntry != null { CachedRecord(); }
      ghost var cs := Cells();
      CellsFiled();
      for i := 0 to HASH_SIZE
        invariant Valid() && entries == old(entries)
        invariant forall j :: 0 <= j < HASH_SIZE ==> Cells()[j] == if j < i then SweepChain(cs[j], now, hz) else cs[j]
        invariant scdbEntry == if old(scdbEntry != null && Bucket(scdbEntry.networkAddr) < i
                                      && Dies(scdbEntry.Cell().1, now, hz))
                               then null else old(scdbEntry)
        invariant scdbMac == if old(scdbEntry) != null && scdbEntry == null then NO_MAC else old(scdbMac)
        invariant scdbIp == if old(scdbEntry) != null && scdbEntry == null then NO_IP else old(scdbIp)
        invariant old(scdbEntry) != null && Bucket(old(scdbEntry).networkAddr) >= i ==>
                    old(scdbEntry).Cell() == old(scdbEntry.Cell())
      {
        ExpireBucket(i, now, hz);
      }
      assert Cells() == SweepAll(cs, now, hz);
      CellsFiled();
      TableSweep(cs, now, hz);
    }

    method CleanupBucket(i: nat)
      requires Valid() && i < HASH_SIZE
      modifies this`scdbEntry, this`scdbMac, this`scdbIp, nethash[i], InBucket(i)
      ensures Valid() && entries == old(entries) && Cells() == old(Cells())[i := []]
      ensures scdbEntry == if old(scdbEntry != null && Bucket(scdbEntry.networkAddr) == i) then null else old(scdbEntry)
      ensures scdbMac == if old(scdbEntry) != null && scdbEntry == null then NO_MAC else old(scdbMac)
      ensures scdbIp == if old(scdbEntry) != null && scdbEntry == null then NO_IP else old(scdbIp)
    {
      ghost var q := PositionOfCached(i);
      var cached := CleanupChain(nethash[i], scdbEntry, InBucket(i));
      if cached == null && scdbEntry != null { ForgetCached(); }
      OneRow(i);
      InOwnBucket(i);
    }

    method Cleanup()
      requires Valid()
      modifies this`scdbEntry, this`scdbMac, this`scdbIp, nethash, entries
      ensures Valid() && View() == map[] && scdbEntry == null
      ensures scdbMac == if old(scdbEntry) != null then NO_MAC else old(scdbMac)
      ensures scdbIp == if old(scdbEntry) != null then NO_IP else old(scdbIp)
      ensures Cache() == Nat25Cache.CleanedCache(old(Cache()))
    {
      for i := 0 to HASH_SIZE
        invariant Valid() && entries == old(entries)
        invariant forall j :: 0 <= j < i ==> Cells()[j] == []
        invariant scdbEntry != null ==> Bucket(scdbEntry.networkAddr) >= i
        invariant scdbMac == if old(scdbEntry) != null && scdbEntry == null then NO_MAC else old(scdbMac)
        invariant scdbIp == if old(scdbEntry) != null && scdbEntry == null then NO_IP else old(scdbIp)
        invariant scdbEntry == null || scdbEntry == old(scdbEntry)
      {
        CleanupBucket(i);
      }
      TableEmpty(Cells());
    }
  }
}
