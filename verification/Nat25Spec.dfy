/** What the bridge database means: a map from network address to record, one function per operation on it, and how
    chains and tables of chains stand for such maps. */
module Nat25Spec {
  import opened Integers
  import opened Ethernet
  import opened Nat25Address

  const AGEING_TIME: nat := 300

  datatype Record = Record(mac: Mac, age: Jiffies, uses: int)

  type Cell = (Address, Record)

  type View = map<Address, Record>

  /** What is left of x in a 32-bit signed counter. */
  function WrapInt(x: int): (r: int) {
    (x + TWO31) % TWO32 - TWO31
  }

  /** time_before_eq(age, now - 300 * HZ) on 64-bit unsigned jiffies. */
  predicate Expired(now: Jiffies, hz: nat, age: Jiffies) {
    (now - AGEING_TIME * hz - age) % TWO64 < TWO63
  }

  /** As long as a stamp is less than 2^63 ticks older than the time-out, and no more than that younger, the wrapping
      comparison is exact. */
  lemma ExpiredIsExact(stamped: nat, current: nat, hz: nat)
    requires -TWO63 <= current - AGEING_TIME * hz - stamped < TWO63
    ensures Expired(current % TWO64, hz, stamped % TWO64) <==> current - stamped >= AGEING_TIME * hz
  {
    var d := current - AGEING_TIME * hz - stamped;
    ModDifference(current, stamped, AGEING_TIME * hz);
    if d < 0 { assert d % TWO64 == d + TWO64; } else { assert d % TWO64 == d; }
  }

  lemma ModDifference(x: int, y: int, z: int)
    ensures (x % TWO64 - z - y % TWO64) % TWO64 == (x - z - y) % TWO64
  {
    var q := (x / TWO64) - (y / TWO64);
    var d := x % TWO64 - z - y % TWO64;
    assert x - z - y == d + q * TWO64;
    ModAdd(d, q);
  }

  lemma ModAdd(d: int, q: int)
    ensures (d + q * TWO64) % TWO64 == d % TWO64
  {
  }

  // ---- operations on the map ----

  function InsertView(v: View, addr: Address, mac: Mac, now: Jiffies, memory: bool): View {
    if addr in v then v[addr := v[addr].(mac := mac, age := now)]
    else if memory then v[addr := Record(mac, now, 1)]
    else v
  }

  function LookupView(v: View, addr: Address, now: Jiffies, hz: nat): View {
    if addr in v && !Expired(now, hz, v[addr].age)
    then v[addr := v[addr].(uses := WrapInt(v[addr].uses + 1))]
    else v
  }

  /** The destination address of a frame after a lookup. */
  function LookupMac(v: View, addr: Address, now: Jiffies, hz: nat, dest: Mac): Mac {
    if addr in v && !Expired(now, hz, v[addr].age) then v[addr].mac else dest
  }

  predicate Dies(r: Record, now: Jiffies, hz: nat) {
    Expired(now, hz, r.age) && WrapInt(r.uses - 1) == 0
  }

  function Aged(r: Record, now: Jiffies, hz: nat): Record {
    if Expired(now, hz, r.age) then r.(uses := WrapInt(r.uses - 1)) else r
  }

  function SweepView(v: View, now: Jiffies, hz: nat): View {
    map a | a in v && !Dies(v[a], now, hz) :: Aged(v[a], now, hz)
  }

  // ---- one chain as a sequence of cells ----

  predicate Unique(c: seq<Cell>) {
    forall k, l :: 0 <= k < l < |c| ==> c[k].0 != c[l].0
  }

  function ChainView(c: seq<Cell>): View {
    if c == [] then map[] else ChainView(c[1..])[c[0].0 := c[0].1]
  }

  function Without<T>(c: seq<T>, k: nat): (r: seq<T>)
    requires k < |c|
    ensures |r| == |c| - 1
    ensures forall l :: 0 <= l < |r| ==> r[l] == if l < k then c[l] else c[l + 1]
  {
    c[..k] + c[k + 1..]
  }

  function SweepChain(c: seq<Cell>, now: Jiffies, hz: nat): seq<Cell> {
    if c == [] then []
    else
      var n := |c| - 1;
      var rest := SweepChain(c[..n], now, hz);
      if Dies(c[n].1, now, hz) then rest else rest + [(c[n].0, Aged(c[n].1, now, hz))]
  }

  lemma {:induction false} ChainViewAt(c: seq<Cell>, k: nat)
    requires Unique(c) && k < |c|
    ensures c[k].0 in ChainView(c) && ChainView(c)[c[k].0] == c[k].1
  {
    if k > 0 { ChainViewAt(c[1..], k - 1); }
  }

  lemma {:induction false} ChainViewKeys(c: seq<Cell>, a: Address)
    ensures a in ChainView(c) <==> exists k :: 0 <= k < |c| && c[k].0 == a
  {
    if c != [] {
      ChainViewKeys(c[1..], a);
      if a in ChainView(c[1..]) {
        var k :| 0 <= k < |c[1..]| && c[1..][k].0 == a;
        assert c[k + 1].0 == a;
      }
    }
  }

  /** A chain and a map that agree cell by cell and key by key are the same map. */
  lemma ChainViewIs(c: seq<Cell>, v: View)
    requires Unique(c)
    requires forall k :: 0 <= k < |c| ==> c[k].0 in v && v[c[k].0] == c[k].1
    requires forall a :: a in v ==> exists k :: 0 <= k < |c| && c[k].0 == a
    ensures ChainView(c) == v
  {
    hide ChainView, Unique;
    forall a
      ensures a in ChainView(c) <==> a in v
      ensures a in v ==> ChainView(c)[a] == v[a]
    {
      ChainViewKeys(c, a);
      if a in v {
        var k :| 0 <= k < |c| && c[k].0 == a;
        ChainViewAt(c, k);
      }
    }
  }

  lemma ChainViewSet(c: seq<Cell>, k: nat, r: Record)
    requires Unique(c) && k < |c|
    ensures Unique(c[k := (c[k].0, r)])
    ensures ChainView(c[k := (c[k].0, r)]) == ChainView(c)[c[k].0 := r]
  {
    var c', v := c[k := (c[k].0, r)], ChainView(c)[c[k].0 := r];
    forall l | 0 <= l < |c'|
      ensures c'[l].0 in v && v[c'[l].0] == c'[l].1
    {
      ChainViewAt(c, l);
    }
    forall a | a in v
      ensures exists l :: 0 <= l < |c'| && c'[l].0 == a
    {
      assert c'[k].0 == c[k].0;
      if a != c[k].0 {
        ChainViewKeys(c, a);
        var l :| 0 <= l < |c| && c[l].0 == a;
        assert c'[l].0 == a;
      }
    }
    ChainViewIs(c', v);
  }

  lemma ChainViewSnoc(c: seq<Cell>, x: Cell)
    requires Unique(c) && x.0 !in ChainView(c)
    ensures Unique(c + [x])
    ensures ChainView(c + [x]) == ChainView(c)[x.0 := x.1]
  {
    var c', v := c + [x], ChainView(c)[x.0 := x.1];
    forall k | 0 <= k < |c|
      ensures c'[k].0 in v && v[c'[k].0] == c'[k].1 && c'[k].0 != x.0
    {
      ChainViewAt(c, k);
    }
    forall a | a in v
      ensures exists l :: 0 <= l < |c'| && c'[l].0 == a
    {
      ChainViewKeys(c, a);
      if a == x.0 { assert c'[|c|].0 == a; } else {
        var l :| 0 <= l < |c| && c[l].0 == a;
        assert c'[l].0 == a;
      }
    }
    ChainViewIs(c', v);
  }

  lemma ChainViewInit(c: seq<Cell>)
    requires Unique(c) && c != []
    ensures var x := c[|c| - 1];
            x.0 !in ChainView(c[..|c| - 1]) && ChainView(c) == ChainView(c[..|c| - 1])[x.0 := x.1]
  {
    var init, x := c[..|c| - 1], c[|c| - 1];
    ChainViewKeys(init, x.0);
    assert forall k :: 0 <= k < |init| ==> init[k] == c[k];
    ChainViewSnoc(init, x);
    assert init + [x] == c;
  }

  lemma SweepViewAdd(v: View, a: Address, r: Record, now: Jiffies, hz: nat)
    requires a !in v
    ensures a !in SweepView(v, now, hz)
    ensures SweepView(v[a := r], now, hz) ==
            if Dies(r, now, hz) then SweepView(v, now, hz) else SweepView(v, now, hz)[a := Aged(r, now, hz)]
  {
    hide Dies, Aged;
  }

  lemma {:induction false} ChainViewSweep(c: seq<Cell>, now: Jiffies, hz: nat)
    requires Unique(c)
    ensures Unique(SweepChain(c, now, hz))
    ensures ChainView(SweepChain(c, now, hz)) == SweepView(ChainView(c), now, hz)
  {
    if c == [] {
    } else {
      hide SweepView, ChainView, Dies, Aged;
      var n := |c| - 1;
      var (a, r) := c[n];
      ChainViewSweep(c[..n], now, hz);
      ChainViewInit(c);
      SweepViewAdd(ChainView(c[..n]), a, r, now, hz);
      if !Dies(r, now, hz) {
        ChainViewSnoc(SweepChain(c[..n], now, hz), (a, Aged(r, now, hz)));
      }
    }
  }

  // ---- sixteen chains ----

  type Buckets = seq<seq<Cell>>

  /** Each cell sits in the bucket of its hash, and no chain holds an address twice. */
  predicate Filed(cs: Buckets) {
    && |cs| <= HASH_SIZE
    && (forall i, k :: 0 <= i < |cs| && 0 <= k < |cs[i]| ==> Bucket(cs[i][k].0) == i)
    && (forall i :: 0 <= i < |cs| ==> Unique(cs[i]))
  }

  function TableView(cs: Buckets): View {
    if cs == [] then map[] else TableView(cs[..|cs| - 1]) + ChainView(cs[|cs| - 1])
  }

  /** The table knows about an address exactly what the one chain of its hash knows. */
  lemma {:induction false} TableViewAt(cs: Buckets, a: Address)
    requires Filed(cs)
    ensures a in TableView(cs) <==> Bucket(a) < |cs| && a in ChainView(cs[Bucket(a)])
    ensures a in TableView(cs) ==> TableView(cs)[a] == ChainView(cs[Bucket(a)])[a]
  {
    hide ChainView, Bucket;
    if cs != [] {
      var n := |cs| - 1;
      TableViewAt(cs[..n], a);
      ChainViewKeys(cs[n], a);
    }
  }

  /** Replacing one chain changes the map at the addresses of that bucket and nowhere else. */
  lemma TableViewSet(cs: Buckets, i: nat, c: seq<Cell>, v: View)
    requires Filed(cs) && i < |cs| && Filed(cs[i := c])
    requires forall a: Address :: Bucket(a) == i ==>
               (a in v <==> a in ChainView(c)) && (a in v ==> v[a] == ChainView(c)[a])
    requires forall a: Address :: Bucket(a) != i ==>
               (a in v <==> a in TableView(cs)) && (a in v ==> v[a] == TableView(cs)[a])
    ensures TableView(cs[i := c]) == v
  {
    forall a: Address
      ensures a in TableView(cs[i := c]) <==> a in v
      ensures a in v ==> TableView(cs[i := c])[a] == v[a]
    {
      TableViewAt(cs, a);
      TableViewAt(cs[i := c], a);
    }
  }

  lemma TableSet(cs: Buckets, a: Address, c: seq<Cell>, r: Record)
    requires Filed(cs) && |cs| == HASH_SIZE && Filed(cs[Bucket(a) := c])
    requires ChainView(c) == ChainView(cs[Bucket(a)])[a := r]
    ensures TableView(cs[Bucket(a) := c]) == TableView(cs)[a := r]
  {
    forall b: Address { TableViewAt(cs, b); }
    TableViewSet(cs, Bucket(a), c, TableView(cs)[a := r]);
  }

  /** The record of cell k of its chain is replaced. */
  lemma TableUpdate(cs: Buckets, i: nat, k: nat, r: Record)
    requires Filed(cs) && |cs| == HASH_SIZE && i < HASH_SIZE && k < |cs[i]|
    ensures Filed(cs[i := cs[i][k := (cs[i][k].0, r)]])
    ensures TableView(cs[i := cs[i][k := (cs[i][k].0, r)]]) == TableView(cs)[cs[i][k].0 := r]
  {
    ChainViewSet(cs[i], k, r);
    TableSet(cs, cs[i][k].0, cs[i][k := (cs[i][k].0, r)], r);
  }

  /** A new cell is put at the head of its chain. */
  lemma TablePrepend(cs: Buckets, a: Address, r: Record)
    requires Filed(cs) && |cs| == HASH_SIZE && a !in TableView(cs)
    ensures Filed(cs[Bucket(a) := [(a, r)] + cs[Bucket(a)]])
    ensures TableView(cs[Bucket(a) := [(a, r)] + cs[Bucket(a)]]) == TableView(cs)[a := r]
  {
    hide TableView, Bucket;
    var i := Bucket(a);
    var c := [(a, r)] + cs[i];
    TableViewAt(cs, a);
    ChainViewKeys(cs[i], a);
    assert c[1..] == cs[i];
    TableSet(cs, a, c, r);
  }

  /** Every chain swept. */
  function SweepAll(cs: Buckets, now: Jiffies, hz: nat): (r: Buckets)
    ensures |r| == |cs|
  {
    seq(|cs|, i requires 0 <= i < |cs| => SweepChain(cs[i], now, hz))
  }

  lemma TableSweepAt(cs: Buckets, a: Address, now: Jiffies, hz: nat)
    requires Filed(cs) && |cs| == HASH_SIZE && Filed(SweepAll(cs, now, hz))
    ensures var swept := TableView(SweepAll(cs, now, hz));
      && (a in swept <==> a in SweepView(TableView(cs), now, hz))
      && (a in swept ==> swept[a] == SweepView(TableView(cs), now, hz)[a])
  {
    TableViewAt(cs, a);
    TableViewAt(SweepAll(cs, now, hz), a);
    ChainViewSweep(cs[Bucket(a)], now, hz);
  }

  /** Sweeping chain by chain is sweeping the map. */
  lemma TableSweep(cs: Buckets, now: Jiffies, hz: nat)
    requires Filed(cs) && |cs| == HASH_SIZE && Filed(SweepAll(cs, now, hz))
    ensures TableView(SweepAll(cs, now, hz)) == SweepView(TableView(cs), now, hz)
  {
    forall a: Address { TableSweepAt(cs, a, now, hz); }
  }

  lemma {:induction false} TableEmpty(cs: Buckets)
    requires forall i :: 0 <= i < |cs| ==> cs[i] == []
    ensures TableView(cs) == map[]
  {
    if cs != [] { TableEmpty(cs[..|cs| - 1]); }
  }
}
