/** Whole runs of the bridge database, over the map that the table is proved to be. */
module Nat25Runs {
  import opened Integers
  import opened Ethernet
  import opened Wrappers
  import opened Nat25Address
  import opened Nat25Spec

  datatype Op =
    | Insert(addr: Address, mac: Mac, now: Jiffies, memory: bool)
    | Lookup(addr: Address, now: Jiffies)
    | Stamp(addr: Address, now: Jiffies)
    | Expire(now: Jiffies)
    | Cleanup

  function Step(v: View, op: Op, hz: nat): View {
    match op
    case Insert(addr, mac, now, memory) => InsertView(v, addr, mac, now, memory)
    case Lookup(addr, now) => LookupView(v, addr, now, hz)
    case Stamp(addr, now) => if addr in v then v[addr := v[addr].(age := now)] else v
    case Expire(now) => SweepView(v, now, hz)
    case Cleanup => map[]
  }

  function Run(v: View, ops: seq<Op>, hz: nat): View {
    if ops == [] then v else Step(Run(v, ops[..|ops| - 1], hz), ops[|ops| - 1], hz)
  }

  // ---- use counts ----

  /** Every entry has at least one use left, in a counter that has not wrapped. */
  ghost predicate InUse(v: View) {
    forall a :: a in v ==> 1 <= v[a].uses < TWO31
  }

  /** The one way to spoil a use count: an unexpired hit on a counter that is at its maximum. */
  predicate Overflows(v: View, op: Op, hz: nat) {
    op.Lookup? && op.addr in v && !Expired(op.now, hz, v[op.addr].age) && v[op.addr].uses == TWO31 - 1
  }

  lemma StepInUse(v: View, op: Op, hz: nat)
    requires InUse(v)
    ensures InUse(Step(v, op, hz)) <==> !Overflows(v, op, hz)
  {
    if Overflows(v, op, hz) {
      assert Step(v, op, hz)[op.addr].uses == -TWO31;
    }
  }

  /** The counter does wrap: one lookup takes an entry from the largest count to the smallest. */
  lemma UseCountWraps(a: Address, mac: Mac, hz: nat)
    requires 0 < AGEING_TIME * hz <= TWO63
    ensures var v := map[a := Record(mac, 0, TWO31 - 1)];
      InUse(v) && Step(v, Lookup(a, 0), hz)[a].uses == -TWO31
  {
    ExpiredIsExact(0, 0, hz);
  }

  ghost predicate UsesAtMost(v: View, n: nat) {
    forall a :: a in v ==> 1 <= v[a].uses <= 1 + n
  }

  lemma StepUses(v: View, op: Op, hz: nat, n: nat)
    requires UsesAtMost(v, n) && n < TWO31 - 2
    ensures UsesAtMost(Step(v, op, hz), n + 1)
  {
    hide Expired;
  }

  lemma {:induction false} RunUses(ops: seq<Op>, hz: nat)
    requires |ops| < TWO31 - 1
    ensures UsesAtMost(Run(map[], ops, hz), |ops|)
  {
    if ops != [] {
      hide Step, UsesAtMost;
      RunUses(ops[..|ops| - 1], hz);
      StepUses(Run(map[], ops[..|ops| - 1], hz), ops[|ops| - 1], hz, |ops| - 1);
    }
  }

  /** From an empty table, no run of fewer than 2^31 - 1 operations spoils a use count. */
  lemma RunInUse(ops: seq<Op>, hz: nat)
    requires |ops| < TWO31 - 1
    ensures UsesAtMost(Run(map[], ops, hz), |ops|) && InUse(Run(map[], ops, hz))
  {
    hide Run;
    RunUses(ops, hz);
  }

  // ---- one address at a time ----

  function At(v: View, a: Address): Option<Record> {
    if a in v then Some(v[a]) else None
  }

  /** What one operation does to the record of one address, whatever else is in the table. */
  function StepAt(r: Option<Record>, op: Op, a: Address, hz: nat): Option<Record> {
    match op
    case Insert(addr, mac, now, memory) =>
      if addr != a then r
      else if r.Some? then Some(r.value.(mac := mac, age := now))
      else if memory then Some(Record(mac, now, 1)) else None
    case Lookup(addr, now) =>
      if addr == a && r.Some? && !Expired(now, hz, r.value.age)
      then Some(r.value.(uses := WrapInt(r.value.uses + 1))) else r
    case Stamp(addr, now) =>
      if addr == a && r.Some? then Some(r.value.(age := now)) else r
    case Expire(now) =>
      if r.None? || Dies(r.value, now, hz) then None else Some(Aged(r.value, now, hz))
    case Cleanup => None
  }

  function RunAt(r: Option<Record>, ops: seq<Op>, a: Address, hz: nat): Option<Record> {
    if ops == [] then r else StepAt(RunAt(r, ops[..|ops| - 1], a, hz), ops[|ops| - 1], a, hz)
  }

  lemma StepIsPointwise(v: View, op: Op, a: Address, hz: nat)
    ensures At(Step(v, op, hz), a) == StepAt(At(v, a), op, a, hz)
  {
    hide Expired, Dies, Aged;
  }

  /** Addresses never interfere: over every run the table is the product of one small machine per address. */
  lemma {:induction false} RunIsPointwise(v: View, ops: seq<Op>, a: Address, hz: nat)
    ensures At(Run(v, ops, hz), a) == RunAt(At(v, a), ops, a, hz)
  {
    hide Step, StepAt, At;
    if ops != [] {
      RunIsPointwise(v, ops[..|ops| - 1], a, hz);
      StepIsPointwise(Run(v, ops[..|ops| - 1], hz), ops[|ops| - 1], a, hz);
    }
  }

  /** The run consists of expiry sweeps and of operations on other addresses. */
  predicate LeavesAlone(ops: seq<Op>, a: Address) {
    forall i :: 0 <= i < |ops| ==> match ops[i]
      case Insert(addr, _, _, _) => addr != a
      case Lookup(addr, _) => addr != a
      case Stamp(addr, _) => addr != a
      case Expire(_) => true
      case Cleanup => false
  }

  /** How many of the sweeps come after the address has timed out. */
  function LateSweeps(ops: seq<Op>, age: Jiffies, hz: nat): nat {
    if ops == [] then 0
    else LateSweeps(ops[..|ops| - 1], age, hz) +
         if ops[|ops| - 1].Expire? && Expired(ops[|ops| - 1].now, hz, age) then 1 else 0
  }

  /** An entry outlives exactly as many late sweeps as it has uses, less one; until then it keeps MAC and age. */
  lemma {:induction false} Retention(v: View, ops: seq<Op>, a: Address, hz: nat)
    requires a in v && 1 <= v[a].uses < TWO31 && LeavesAlone(ops, a)
    ensures var late := LateSweeps(ops, v[a].age, hz);
      At(Run(v, ops, hz), a) == if late < v[a].uses then Some(v[a].(uses := v[a].uses - late)) else None
  {
    RunIsPointwise(v, ops, a, hz);
    RetentionAt(v[a], ops, a, hz);
  }

  /** An address that is recorded once and then left alone goes with the first late sweep. */
  lemma RecordedOnce(v: View, a: Address, mac: Mac, now: Jiffies, ops: seq<Op>, hz: nat)
    requires a !in v && LeavesAlone(ops, a)
    ensures At(Run(InsertView(v, a, mac, now, true), ops, hz), a) ==
            if LateSweeps(ops, now, hz) == 0 then Some(Record(mac, now, 1)) else None
  {
    Retention(InsertView(v, a, mac, now, true), ops, a, hz);
  }

  lemma {:induction false} RetentionAt(r: Record, ops: seq<Op>, a: Address, hz: nat)
    requires 1 <= r.uses < TWO31 && LeavesAlone(ops, a)
    ensures var late := LateSweeps(ops, r.age, hz);
      RunAt(Some(r), ops, a, hz) == if late < r.uses then Some(r.(uses := r.uses - late)) else None
  {
    if ops != [] {
      RetentionAt(r, ops[..|ops| - 1], a, hz);
    }
  }
}
