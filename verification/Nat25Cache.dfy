/** The single-entry cache beside the bridge database: an entry, and a MAC and IP address that are meant to be that
    entry's. The transmit path sets all three; the receive path translates from the pair and does not look at the
    entry. */
module Nat25Cache {
  import opened Integers
  import opened Ethernet
  import opened Wrappers
  import opened Nat25Address
  import opened Nat25Spec

  /** The cached entry, by its address, and the pair. */
  datatype Cached = Cached(entry: Option<Address>, mac: Mac, ip: Ip)

  function Cleared(): Cached {
    Cached(None, NO_MAC, NO_IP)
  }

  predicate Wiped(c: Cached) {
    c.mac == NO_MAC && c.ip == NO_IP
  }

  datatype State = State(view: View, cache: Cached)

  datatype Event =
    | Source(mac: Mac, ip: Ip, now: Jiffies)
    | Insert(addr: Address, mac: Mac, now: Jiffies, memory: bool)
    | Lookup(addr: Address, now: Jiffies)
    | Expire(now: Jiffies)
    | Cleanup

  function Stamped(v: View, addr: Address, now: Jiffies): View {
    if addr in v then v[addr := v[addr].(age := now)] else v
  }

  /** What an IP frame from a source does: a MAC that is not the cached one is looked for by its IP address, and the
      pair stays as it was when that is unknown; the cached MAC, with any IP address, refreshes the cached entry or
      clears the pair when there is none. */
  function Sourced(s: State, mac: Mac, ip: Ip, now: Jiffies): State {
    if s.cache.mac != mac then
      var a := Ipv4Address(ip);
      if a in s.view then State(Stamped(s.view, a, now), Cached(Some(a), mac, ip))
      else s.(cache := s.cache.(entry := None))
    else if s.cache.entry.Some? then s.(view := Stamped(s.view, s.cache.entry.value, now))
    else s.(cache := Cleared())
  }

  /** A sweep clears the cache exactly when the cached entry dies of it. */
  function SweptCache(v: View, c: Cached, now: Jiffies, hz: nat): Cached {
    if c.entry.Some? && c.entry.value in v && Dies(v[c.entry.value], now, hz) then Cleared() else c
  }

  function CleanedCache(c: Cached): Cached {
    if c.entry.Some? then Cleared() else c
  }

  function Step(s: State, e: Event, hz: nat): State {
    match e
    case Source(mac, ip, now) => Sourced(s, mac, ip, now)
    case Insert(addr, mac, now, memory) => s.(view := InsertView(s.view, addr, mac, now, memory))
    case Lookup(addr, now) => s.(view := LookupView(s.view, addr, now, hz))
    case Expire(now) => State(SweepView(s.view, now, hz), SweptCache(s.view, s.cache, now, hz))
    case Cleanup => State(map[], CleanedCache(s.cache))
  }

  function Run(s: State, es: seq<Event>, hz: nat): State {
    if es == [] then s else Step(Run(s, es[..|es| - 1], hz), es[|es| - 1], hz)
  }

  /** The destination the receive path writes for an IP frame to dest. */
  function Translated(s: State, dest: Ip, now: Jiffies, hz: nat, mac: Mac): Mac {
    if s.cache.ip == dest then s.cache.mac else LookupMac(s.view, Ipv4Address(dest), now, hz, mac)
  }

  /** The cached entry is in the map, under the cached IP address. */
  predicate Inv(s: State) {
    s.cache.entry.Some? ==> s.cache.entry.value in s.view && s.cache.entry.value == Ipv4Address(s.cache.ip)
  }

  /** The pair is what the map holds. */
  predicate Right(s: State) {
    Ipv4Address(s.cache.ip) in s.view && s.view[Ipv4Address(s.cache.ip)].mac == s.cache.mac
  }

  predicate Trusted(s: State) {
    Wiped(s.cache) || Right(s)
  }

  /** The ways a pair that was right becomes wrong: a source is cached under a MAC other than the one the map has for
      its IP address; the address of the pair gets another MAC; or the entry of the pair goes while nothing is
      cached. */
  predicate Breaks(s: State, e: Event, hz: nat) {
    match e
    case Source(mac, ip, _) =>
      && s.cache.mac != mac && !(mac == NO_MAC && ip == NO_IP)
      && Ipv4Address(ip) in s.view && s.view[Ipv4Address(ip)].mac != mac
    case Insert(addr, mac, _, _) => !Wiped(s.cache) && addr == Ipv4Address(s.cache.ip) && mac != s.cache.mac
    case Lookup(_, _) => false
    case Expire(now) =>
      && !Wiped(s.cache) && s.cache.entry.None?
      && Ipv4Address(s.cache.ip) in s.view && Dies(s.view[Ipv4Address(s.cache.ip)], now, hz)
    case Cleanup => !Wiped(s.cache) && s.cache.entry.None?
  }

  /** Every event keeps the cached entry in the map, and keeps the pair right if and only if it is none of those. */
  lemma StepTrusted(s: State, e: Event, hz: nat)
    requires Inv(s)
    ensures Inv(Step(s, e, hz))
    ensures Trusted(s) ==> (Trusted(Step(s, e, hz)) <==> !Breaks(s, e, hz))
  {
    hide Expired, WrapInt, Ipv4Address;
    SameIp();
  }

  lemma SameIp()
    ensures forall a: Ip, b: Ip :: Ipv4Address(a) == Ipv4Address(b) ==> a == b
  {
    forall a: Ip, b: Ip | Ipv4Address(a) == Ipv4Address(b)
      ensures a == b
    {
      assert Ipv4Address(a)[7..11] == a && Ipv4Address(b)[7..11] == b;
    }
  }

  predicate AlwaysTrusted(es: seq<Event>, hz: nat) {
    forall k :: 0 <= k <= |es| ==> Trusted(Run(State(map[], Cleared()), es[..k], hz))
  }

  predicate NeverBreaks(es: seq<Event>, hz: nat) {
    forall k :: 0 <= k < |es| ==> !Breaks(Run(State(map[], Cleared()), es[..k], hz), es[k], hz)
  }

  /** From an empty table the pair is cleared or right after every event of a run if and only if no event of the run is
      one of those. */
  lemma {:induction false} TrustedExactly(es: seq<Event>, hz: nat)
    ensures Inv(Run(State(map[], Cleared()), es, hz))
    ensures AlwaysTrusted(es, hz) <==> NeverBreaks(es, hz)
  {
    hide Step, Breaks, Trusted;
    var start := State(map[], Cleared());
    if es == [] {
      assert es[..0] == [];
      StartTrusted();
    } else {
      var n := |es| - 1;
      var front := es[..n];
      TrustedExactly(front, hz);
      StepTrusted(Run(start, front, hz), es[n], hz);
      assert es[..|es|] == es;
      assert forall k :: 0 <= k <= n ==> front[..k] == es[..k];
      assert forall k :: 0 <= k < n ==> front[k] == es[k];
      FrontTrusted(es, hz);
    }
  }

  lemma StartTrusted()
    ensures Trusted(State(map[], Cleared()))
  {
  }

  /** Both sides of the equivalence, one event at a time. */
  lemma FrontTrusted(es: seq<Event>, hz: nat)
    requires es != []
    ensures var front, s := es[..|es| - 1], State(map[], Cleared());
      && (AlwaysTrusted(es, hz) <==> AlwaysTrusted(front, hz) && Trusted(Run(s, es, hz)))
      && (NeverBreaks(es, hz) <==> NeverBreaks(front, hz) && !Breaks(Run(s, front, hz), es[|es| - 1], hz))
      && (AlwaysTrusted(front, hz) ==> Trusted(Run(s, front, hz)))
  {
    hide Run, Trusted, Breaks;
    var n := |es| - 1;
    var front := es[..n];
    assert es[..|es|] == es && front[..n] == front;
    assert forall k :: 0 <= k <= n ==> front[..k] == es[..k];
    assert forall k :: 0 <= k < n ==> front[k] == es[k];
  }

  /** So in such a run the receive path writes, for every destination it takes from a pair that is not cleared, the MAC
      the map holds for it. */
  lemma FastPathRight(es: seq<Event>, hz: nat, now: Jiffies, mac: Mac)
    requires NeverBreaks(es, hz)
    ensures var s := Run(State(map[], Cleared()), es, hz); var a := Ipv4Address(s.cache.ip);
      Wiped(s.cache) || (a in s.view && Translated(s, s.cache.ip, now, hz, mac) == s.view[a].mac)
  {
    TrustedExactly(es, hz);
    assert es[..|es|] == es;
    assert Trusted(Run(State(map[], Cleared()), es[..|es|], hz));
  }

  /** No other event than a source changes the cache, except that it is cleared when its entry goes. */
  lemma CacheFollowsEntry(s: State, e: Event, hz: nat)
    requires Inv(s) && !e.Source?
    ensures var s' := Step(s, e, hz);
      s'.cache == if s.cache.entry.Some? && s.cache.entry.value !in s'.view then Cleared() else s.cache
  {
    hide Expired, WrapInt, Ipv4Address;
  }

  /** What a source leaves for the next received frames: one that is found has its own MAC written for its address; a
      miss leaves frames for the old address with the old MAC; the cached MAC changes nothing while its entry lives, and
      ends the fast path when it is gone. */
  lemma FramesAfterSource(s: State, mac: Mac, ip: Ip, now: Jiffies, later: Jiffies, hz: nat, dest: Mac)
    ensures var s' := Step(s, Source(mac, ip, now), hz);
      && (s.cache.mac != mac && Ipv4Address(ip) in s.view ==>
            && s'.cache.entry == Some(Ipv4Address(ip)) && s'.cache.mac == mac
            && Translated(s', ip, later, hz, dest) == mac)
      && (s.cache.mac != mac && Ipv4Address(ip) !in s.view ==>
            s'.cache.entry == None && Translated(s', s.cache.ip, later, hz, dest) == s.cache.mac)
      && (s.cache.mac == mac && s.cache.entry.Some? ==> s'.cache == s.cache)
      && (s.cache.mac == mac && s.cache.entry.None? ==>
            s'.cache.entry == None && s'.cache.mac == [0, 0, 0, 0, 0, 0] && s'.cache.ip == [0, 0, 0, 0])
  {
    hide Ipv4Address, LookupMac;
  }

  /** After a miss nothing is cached, and until the next source no event touches the pair: it outlives its entry. */
  lemma PairOutlives(s: State, e: Event, hz: nat)
    requires s.cache.entry.None? && !e.Source?
    ensures Step(s, e, hz).cache == s.cache
    ensures e.Cleanup? && !Wiped(s.cache) ==> !Trusted(Step(s, e, hz))
  {
  }
}
