/** Network addresses of the NAT2.5 bridge database and the hash that picks a chain for them. */
module Nat25Address {
  const ADDR_LEN: nat := 17
  const HASH_SIZE: nat := 16

  const NAT25_IPV4: bv8 := 1
  const NAT25_IPV6: bv8 := 2
  const NAT25_IPX: bv8 := 3
  const NAT25_APPLE: bv8 := 4
  const NAT25_PPPOE: bv8 := 5

  type Address = a: seq<bv8> | |a| == 17 witness seq(17, _ => 0)
  type Ip = i: seq<bv8> | |i| == 4 witness [0, 0, 0, 0]

  const NO_IP: Ip := [0, 0, 0, 0]

  /** The address under which an IPv4 host is recorded. */
  function Ipv4Address(ip: Ip): (a: Address) {
    [NAT25_IPV4, 0, 0, 0, 0, 0, 0] + ip + [0, 0, 0, 0, 0, 0]
  }

  /** Exclusive or of the bytes a[lo..hi]. */
  function Xor(a: seq<bv8>, lo: nat, hi: nat): bv8
    requires lo <= hi <= |a|
    decreases hi
  {
    if lo == hi then 0 else Xor(a, lo, hi - 1) ^ a[hi - 1]
  }

  /** The first and one-past-last byte that take part in the hash, by address type. */
  function HashedFrom(a: Address): (lo: nat) {
    if a[0] == NAT25_IPV4 then 7
    else if a[0] == NAT25_IPX || a[0] == NAT25_APPLE || a[0] == NAT25_IPV6 then 1
    else 0
  }

  function HashedTo(a: Address): (hi: nat)
    ensures HashedFrom(a) < hi <= ADDR_LEN
  {
    if a[0] == NAT25_IPV4 || a[0] == NAT25_IPX then 11
    else if a[0] == NAT25_APPLE then 4
    else if a[0] == NAT25_PPPOE then 9
    else ADDR_LEN
  }

  function Bucket(a: Address): (h: nat)
    ensures h < HASH_SIZE
  {
    (Xor(a, HashedFrom(a), HashedTo(a)) & 15) as nat
  }

  // ---- the bytes that count, written out for each type of address ----

  lemma XorLast(a: Address, lo: nat, hi: nat)
    requires lo <= hi < 17
    ensures Xor(a, lo, lo) == 0 && Xor(a, lo, hi + 1) == Xor(a, lo, hi) ^ a[hi]
  {
  }

  lemma XorFour(a: Address, lo: nat, k: nat)
    requires lo <= k <= 13
    ensures Xor(a, lo, lo) == 0
    ensures Xor(a, lo, k + 4) == Xor(a, lo, k) ^ a[k] ^ a[k + 1] ^ a[k + 2] ^ a[k + 3]
  {
    hide Xor;
    XorLast(a, lo, k);
    XorLast(a, lo, k + 1);
    XorLast(a, lo, k + 2);
    XorLast(a, lo, k + 3);
  }

  lemma HashIpv4(a: Address)
    requires a[0] == 1
    ensures Bucket(a) == ((a[7] ^ a[8] ^ a[9] ^ a[10]) & 15) as nat
  {
    hide Xor;
    XorFour(a, 7, 7);
  }

  lemma HashApple(a: Address)
    requires a[0] == 4
    ensures Bucket(a) == ((a[1] ^ a[2] ^ a[3]) & 15) as nat
  {
    hide Xor;
    XorLast(a, 1, 1);
    XorLast(a, 1, 2);
    XorLast(a, 1, 3);
  }

  lemma HashIpx(a: Address)
    requires a[0] == 3
    ensures Bucket(a) ==
      ((a[1] ^ a[2] ^ a[3] ^ a[4] ^ a[5] ^ a[6] ^ a[7] ^ a[8] ^ a[9] ^ a[10]) & 15) as nat
  {
    hide Xor;
    XorFour(a, 1, 1);
    XorFour(a, 1, 5);
    XorLast(a, 1, 9);
    XorLast(a, 1, 10);
  }

  lemma HashPppoe(a: Address)
    requires a[0] == 5
    ensures Bucket(a) == ((a[0] ^ a[1] ^ a[2] ^ a[3] ^ a[4] ^ a[5] ^ a[6] ^ a[7] ^ a[8]) & 15) as nat
  {
    hide Xor;
    XorFour(a, 0, 0);
    XorFour(a, 0, 4);
    XorLast(a, 0, 8);
  }

  lemma HashIpv6(a: Address)
    requires a[0] == 2
    ensures Bucket(a) ==
      ((a[1] ^ a[2] ^ a[3] ^ a[4] ^ a[5] ^ a[6] ^ a[7] ^ a[8] ^ a[9] ^ a[10] ^ a[11] ^ a[12] ^ a[13] ^ a[14] ^ a[15]
        ^ a[16]) & 15) as nat
  {
    assert Bucket(a) == (Xor(a, 1, 17) & 15) as nat;
    hide Xor, Bucket;
    XorFour(a, 1, 1);
    XorFour(a, 1, 5);
    XorFour(a, 1, 9);
    XorFour(a, 1, 13);
  }

  lemma HashOther(a: Address)
    requires a[0] !in {1, 2, 3, 4, 5}
    ensures Bucket(a) ==
      ((a[0] ^ a[1] ^ a[2] ^ a[3] ^ a[4] ^ a[5] ^ a[6] ^ a[7] ^ a[8] ^ a[9] ^ a[10] ^ a[11] ^ a[12] ^ a[13] ^ a[14]
        ^ a[15] ^ a[16]) & 15) as nat
  {
    hide Xor;
    XorFour(a, 0, 0);
    XorFour(a, 0, 4);
    XorFour(a, 0, 8);
    XorFour(a, 0, 12);
    XorLast(a, 0, 16);
  }

  /** The hash as the driver runs it: fold the bytes that count for this address type, keep four bits. */
  method NetworkHash(networkAddr: Address) returns (hash: nat)
    ensures hash == Bucket(networkAddr)
  {
    var x: bv8 := 0;
    for i := HashedFrom(networkAddr) to HashedTo(networkAddr)
      invariant x == Xor(networkAddr, HashedFrom(networkAddr), i)
    {
      x := x ^ networkAddr[i];
    }
    hash := (x & 15) as nat;
  }
}
