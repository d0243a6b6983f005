/** The bridge database and its cache in true time: for how long, and to what, frames for an address are translated. */
module Nat25Times {
  import opened Integers
  import opened Ethernet
  import opened Wrappers
  import opened Nat25Address
  import opened Nat25Spec
  import opened Nat25Cache

  /** The clock an event carries is the wrapped reading of true time t. */
  predicate Clocked(e: Event, t: nat) {
    match e
    case Source(_, _, now) => now == t % TWO64
    case Insert(_, _, now, _) => now == t % TWO64
    case Lookup(_, now) => now == t % TWO64
    case Expire(now) => now == t % TWO64
    case Cleanup => true
  }

  /** The event records address a, or marks it as used. */
  predicate Touches(s: State, e: Event, a: Address) {
    match e
    case Source(mac, ip, _) => if s.cache.mac != mac then Ipv4Address(ip) == a else s.cache.entry == Some(a)
    case Insert(addr, _, _, _) => addr == a
    case Lookup(_, _) => false
    case Expire(_) => false
    case Cleanup => true
  }

  /** All of it happens from one time to another, and none of it touches a. */
  ghost predicate Elsewhere(s: State, es: seq<(Event, nat)>, a: Address, from: nat, to: nat, hz: nat) {
    forall k :: 0 <= k < |es| ==>
      && from <= es[k].1 <= to && Clocked(es[k].0, es[k].1)
      && !Touches(After(s, es[..k], hz), es[k].0, a)
  }

  function After(s: State, es: seq<(Event, nat)>, hz: nat): State {
    if es == [] then s else Step(After(s, es[..|es| - 1], hz), es[|es| - 1].0, hz)
  }

  /** What is left of a record that nothing touches: its MAC and its stamp, and all of it until it times out. */
  ghost predicate Left(v: View, a: Address, m: Mac, stamped: nat, now: nat, hz: nat) {
    && (a in v ==> v[a].mac == m && v[a].age == stamped % TWO64)
    && (now - stamped < 300 * hz ==> a in v)
  }

  lemma StepLeft(s: State, e: Event, t: nat, a: Address, m: Mac, stamped: nat, to: nat, hz: nat)
    requires Left(s.view, a, m, stamped, to, hz) && Clocked(e, t) && !Touches(s, e, a)
    requires stamped <= t <= to && to - stamped < TWO63 && 300 * hz <= TWO63
    ensures Left(Step(s, e, hz).view, a, m, stamped, to, hz)
  {
    ExpiredIsExact(stamped, t, hz);
    hide Expired, WrapInt, Ipv4Address;
  }

  lemma {:induction false} AfterLeft(
      s: State, es: seq<(Event, nat)>, a: Address, m: Mac, stamped: nat, to: nat, hz: nat)
    requires Left(s.view, a, m, stamped, to, hz) && Elsewhere(s, es, a, stamped, to, hz)
    requires to - stamped < TWO63 && 300 * hz <= TWO63
    ensures Left(After(s, es, hz).view, a, m, stamped, to, hz)
  {
    hide Step, Left, Touches, Clocked;
    if es != [] {
      var n := |es| - 1;
      assert forall k :: 0 <= k < n ==> es[..n][..k] == es[..k] && es[..n][k] == es[k];
      AfterLeft(s, es[..n], a, m, stamped, to, hz);
      StepLeft(After(s, es[..n], hz), es[n].0, es[n].1, a, m, stamped, to, hz);
    }
  }

  /** An address recorded at one time, whether it was known or not, is translated to its MAC for 300 seconds and no
      longer, whatever is recorded, looked up or swept in between. */
  lemma TranslatedFor300Seconds(
      s: State, a: Address, m: Mac, memory: bool, es: seq<(Event, nat)>, stamped: nat, to: nat, hz: nat, dest: Mac)
    requires a in s.view || memory
    requires stamped <= to && to - stamped < TWO63 && 300 * hz <= TWO63
    requires Elsewhere(Step(s, Insert(a, m, stamped % TWO64, memory), hz), es, a, stamped, to, hz)
    ensures var s' := After(Step(s, Insert(a, m, stamped % TWO64, memory), hz), es, hz);
      var mac := if to - stamped < 300 * hz then m else dest;
      && LookupMac(s'.view, a, to % TWO64, hz, dest) == mac
      && forall ip: Ip :: Ipv4Address(ip) == a && s'.cache.ip != ip ==> Translated(s', ip, to % TWO64, hz, dest) == mac
  {
    var s1 := Step(s, Insert(a, m, stamped % TWO64, memory), hz);
    AfterLeft(s1, es, a, m, stamped, to, hz);
    ExpiredIsExact(stamped, to, hz);
    hide Expired;
  }

  /** A source that hits keeps the MAC on record and starts the 300 seconds anew. */
  lemma RefreshedFor300Seconds(
      s: State, mac: Mac, ip: Ip, a: Address, es: seq<(Event, nat)>, stamped: nat, to: nat, hz: nat, dest: Mac)
    requires Inv(s) && a in s.view && Touches(s, Source(mac, ip, stamped % TWO64), a)
    requires stamped <= to && to - stamped < TWO63 && 300 * hz <= TWO63
    requires Elsewhere(Step(s, Source(mac, ip, stamped % TWO64), hz), es, a, stamped, to, hz)
    ensures var s' := After(Step(s, Source(mac, ip, stamped % TWO64), hz), es, hz);
      LookupMac(s'.view, a, to % TWO64, hz, dest) == if to - stamped < 300 * hz then s.view[a].mac else dest
  {
    var s1 := Step(s, Source(mac, ip, stamped % TWO64), hz);
    AfterLeft(s1, es, a, s.view[a].mac, stamped, to, hz);
    ExpiredIsExact(stamped, to, hz);
    hide Expired, Ipv4Address;
  }

  /** An address that is not recorded, because nobody has sent from it or for want of memory, is not translated. */
  lemma UnknownStays(v: View, a: Address, m: Mac, now: Jiffies, later: Jiffies, hz: nat, dest: Mac)
    requires a !in v
    ensures LookupMac(InsertView(v, a, m, now, false), a, later, hz, dest) == dest
    ensures LookupMac(v, a, later, hz, dest) == dest
  {
  }
}
