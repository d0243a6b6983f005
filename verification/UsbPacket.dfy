/** What a received packet's header says, wherever the packet is cut out of a transfer or put together from several. */
module UsbPacket {
  import opened Integers

  const RX_HWHRD_LEN: nat := 60

  /** A configuration message; anything else is a data packet. */
  predicate IsCfg(t: Byte) {
    t / 16 % 2 == 1
  }

  function AlignUp(x: nat, a: nat): (r: nat)
    requires a > 0
  {
    (x + a - 1) / a * a
  }
}
