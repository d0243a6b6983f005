/** Ethernet addresses. */
module Ethernet {
  import opened Integers

  const ETH_ALEN: nat := 6

  type Mac = m: seq<Byte> | |m| == ETH_ALEN witness [0, 0, 0, 0, 0, 0]

  const NO_MAC: Mac := [0, 0, 0, 0, 0, 0]
}
