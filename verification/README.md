# A verified model of the AIC8800 driver cores and its packaging protocol

This project models the parts of the driver and of its packaging scripts that keep state with invariants, and proves
those invariants for all inputs, all runs and, where threads or processes compete, all interleavings. Each subject is a
group of modules of its own; `Integers`, `Ethernet` and `Wrappers` hold machine integers, MAC addresses and `Option`.

- **NAT2.5 bridge database** (`Nat25Address`, `Nat25Spec`, `Nat25Table`, `Nat25Runs`, `Nat25Cache`, `Nat25Times`):
  sixteen hash chains of entries with next pointers and back links, changed in place, proved to be a map from network
  address to MAC, age and use count, the single-entry cache beside it, and how long a received frame finds what a source
  has left there. `BackLink` is what a `pprev_hash` can point at: a chain head or another entry's next field.
- **PPPoE relay tag** (`PppoeSpec`, `PppoeFrame`): the tag inserted into and stripped from the bytes of a discovery
  frame, against what that does to a list of tags.
- **DHCP broadcast bit** (`DhcpFlag`): the UDP checksum corrected by one folding loop.
- **MD5** (`Md5Spec`, `Md5`, `Md5Laws`): the incremental digest against the one-shot function of sections 3.1 to 3.5 of
  RFC 1321, and that function against laws of its parts and a digest listed in appendix A.5.
- **TCP ACK suppressor** (`TcpAckSpec`, `TcpAck`, `TcpAckAccounts`, `TcpAckRate`, `TcpAckRuns`, `TcpAckTimes`,
  `TcpAckLedger`, `TcpAckMarkers`): the class is proved against functions on the flow table, and runs of those functions
  lose no cumulative acknowledgement and keep a slot for as long as its flow is heard.
- **USB transmit pool** (`UsbTx`, `UsbOrder`, `UsbPool`): the separately locked sections of any number of threads as a
  state machine, and the lists and counters as a class whose operations are runs of that machine.
- **USB receive path** (`UsbPacket`, `Reassembly`, `Deaggregation`, `UsbHeaders`): packets put together from transfers
  and records cut out of a transfer.
- **IPC transmit ring** (`IpcRing`): a power-of-two ring between two free-running 32-bit counters; the callback is an
  oracle that answers each call.
- **Priority frame queue** (`FrameQueue`, `FrameQueueRuns`, `FrameQueueOrder`).
- **Install record** (`InstallSpec`, `Install`, `InstallRuns`): begin, finish, file changes, kills and power failures;
  a record is seen as soon as it is replaced and survives a power failure once it is synced.
- **Publishing** (`PublishSpec`, `PublishRuns`, `PublishLocal`): concurrent builders that link and compare step by step,
  or replace, and may crash.
- **Checksum list** (`Checksums`, `ChecksumsRoundTrip`, `PackageNames`, `PackageVerify`): printed by the builder,
  parsed by the verifier, and what is installed from it; the digest is a parameter.
- **Command line** (`ParseLine`, `ParseLineJoin`, `Strtoul`, `StrtoulRoundTrip`).

`dafny verify dfyconfig.toml` checks the whole project.

## What the code does not promise

Some properties one would expect hold only under a condition. Each of them is proved with that condition, as an
equivalence where the table says "if and only if".

- A use count is a 32-bit counter that every unexpired hit increments: at its maximum it wraps
  (`Nat25Runs.StepInUse`, `Nat25Runs.UseCountWraps`).
- The receive path translates from the cached MAC and IP address without looking at the cached entry. The pair is
  cleared or what the map holds throughout a run if and only if the run has none of four kinds of event
  (`Nat25Cache.TrustedExactly`); after a miss the pair is not cleared and outlives its entry
  (`Nat25Cache.PairOutlives`).
- The room for a relay tag is computed from a length in network order that is not converted (aic_br_ext.c:93). Only a
  big-endian host asks for the tag's size and gets the frame it means. A little-endian one asks for 2052 bytes or more:
  with less the frame is refused and has lost an earlier relay tag; with as much it is passed on with that many bytes
  before its tags and never carries the relay tag that was meant (`PppoeFrame.RoomIsSize`,
  `PppoeFrame.Frame.InsertRelay`). An earlier relay tag without data does not come back (`PppoeSpec.RoundTrip`). One
  relay tag at most need not be assumed: the first one is meant.
- The folding loop adds the new DHCP flags without taking the old ones out, so the sum is kept if and only if they were
  clear; it can write a zero, which means no checksum, and gives a checksum to datagrams that had none (`DhcpFlag`).
- The cursor test of `MD5Update` wraps exactly for a chunk of 2^32 - 64 bytes or more whose length modulo 64 is at
  least the residue of the cursors, which is 64 less the buffer index, or 0 when the index is 0
  (`Md5.CursorFitsExactly`). `MD5Update` then does not return (`Md5.CursorNeverStops`).
- A slot that ages out while it holds a message loses an acknowledgement exactly if no sent one makes it redundant
  (`TcpAckLedger.AgeingLosesExactly`). A timer that fires during a send does nothing and is not set again, so a held
  message then waits for the next acknowledgement (`TcpAckLedger.StepArmed`).
- The end of a send clears the in-send marker of busy slots only, and only while the filter is enabled; a slot that has
  aged out in the meantime keeps the marker for the flow that gets it next. Markers name outstanding sends over a run if
  and only if no end of a send comes that late (`TcpAckMarkers.MarkersExactly`); a slot marked for nothing passes
  nothing by count or timer (`TcpAckMarkers.MarkedSlotWaits`), so `TcpAckAccounts.OneInTenPasses` is not about it.
- Failed submissions and restarts return buffers without looking at the high mark, and can leave the queues stopped with
  every buffer free. The wake-up invariant holds over a run if and only if none of them does so past the mark
  (`UsbTx.WakesExactly`, `UsbTx.FailuresLoseTheWakeup`).
- When the frame queue is full a newcomer takes its place in the class it evicts from, below its own
  (`FrameQueueRuns.EvictionDemotes`).
- An install record can be seen and yet not survive a power failure between the replacement and the directory sync. The
  record seen goes back exactly by a power failure while the surviving record is of another package
  (`InstallRuns.SeenAscendsExactly`, `InstallRuns.SeenMayGoBack`); what survives never does.
- Local builds replace. Their receipts describe their artifacts in every interleaving if and only if all local
  candidates of a version have one description (`PublishLocal.DescribedExactly`), and their artifacts never
  change if and only if there is one candidate at most (`PublishLocal.KeptExactly`).
- A name with a line break, a non-ASCII character or a path that is not normal is listed but not read back
  (`ChecksumsRoundTrip.ListedUndoesPrint`); an argument that needs quotes and holds one cannot be written
  (`ParseLineJoin.ParseUndoesJoin`); a decimal numeral with a leading zero is read as octal
  (`StrtoulRoundTrip.LeadingZero`).

## Model

| member | source | states |
|---|---|---|
| Nat25Address.NetworkHash | src/aic8800-1.0.9/aic8800_fdrv/aic_br_ext.c:311-360 | folds exactly the bytes that count for the address type and yields the four-bit bucket every other result uses |
| Nat25Address.HashIpv4 | src/aic8800-1.0.9/aic8800_fdrv/aic_br_ext.c:313-318 | the bucket of an IPv4 address is the exclusive or of its four address bytes, cut to four bits |
| Nat25Address.HashIpx | src/aic8800-1.0.9/aic8800_fdrv/aic_br_ext.c:319-325 | that of an IPX address, of its network, node and socket bytes |
| Nat25Address.HashApple | src/aic8800-1.0.9/aic8800_fdrv/aic_br_ext.c:326-331 | that of an AppleTalk address, of network and node |
| Nat25Address.HashPppoe | src/aic8800-1.0.9/aic8800_fdrv/aic_br_ext.c:332-337 | that of a PPPoE address, of MAC and session |
| Nat25Address.HashIpv6 | src/aic8800-1.0.9/aic8800_fdrv/aic_br_ext.c:340-348 | that of an IPv6 address, of its sixteen bytes |
| Nat25Address.HashOther | src/aic8800-1.0.9/aic8800_fdrv/aic_br_ext.c:351-359 | and of any other type, of all seventeen bytes |
| Nat25Spec.ExpiredIsExact | src/aic8800-1.0.9/aic8800_fdrv/aic_br_ext.c:128-144 | the wrapping test on unsigned jiffies is the true comparison with the time-out for all true times from 2^63 ticks back to just under 2^63 ticks ahead |
| Nat25Table.Chain.Link | src/aic8800-1.0.9/aic8800_fdrv/aic_br_ext.c:363-376 | the entry becomes the head of its chain; every next pointer and back link of the chain is right afterwards and no other entry is touched |
| Nat25Table.Unlink | src/aic8800-1.0.9/aic8800_fdrv/aic_br_ext.c:379-393 | exactly the given entry leaves its chain, wherever it stands; all remaining next pointers and back links are right |
| Nat25Table.Chain.Find | src/aic8800-1.0.9/aic8800_fdrv/aic_br_ext.c:396-458 | finds the entry of an address if and only if the chain has one |
| Nat25Table.BridgeTable.FindEntry | src/aic8800-1.0.9/aic8800_fdrv/aic_br_ext.c:1543-1567 | returns an entry exactly for the addresses the map knows, and that entry carries the mapped record |
| Nat25Table.BridgeTable.Insert | src/aic8800-1.0.9/aic8800_fdrv/aic_br_ext.c:461-504 | the table refines the map: a known address gets the new MAC and age and keeps its uses, an unknown one enters with one use unless memory runs out; the 16 chains stay well linked, disjoint and filed by hash |
| Nat25Table.BridgeTable.LookupAndReplace | src/aic8800-1.0.9/aic8800_fdrv/aic_br_ext.c:396-458 | returns 1 exactly for present addresses; rewrites the first six packet bytes and counts a use only if the entry has not expired; all other packet bytes stay |
| Nat25Table.ExpireChain | src/aic8800-1.0.9/aic8800_fdrv/aic_br_ext.c:621-705 | one pass over one chain with entries freed under the loop: the chain becomes the swept chain, and the cached pointer is cleared if and only if its entry died |
| Nat25Table.BridgeTable.Expire | src/aic8800-1.0.9/aic8800_fdrv/aic_br_ext.c:621-705 | the table becomes the swept map: expired entries lose one use and those that reach zero are gone; the cache pointer, and with it the cached MAC and IP, is cleared exactly when its entry died, so it never dangles; otherwise the three fields stay, also when the pair is all that is left of a dead entry |
| Nat25Table.BridgeTable.Cleanup | src/aic8800-1.0.9/aic8800_fdrv/aic_br_ext.c:593-618 | empties all chains and clears the cache pointer; the cached MAC and IP are cleared if there was a cached entry and kept if not |
| Nat25Table.BridgeTable.RememberSource | src/aic8800-1.0.9/aic8800_fdrv/rwnx_tx.c:1111-1118 | the search for an IP source that is not the cached one: the cache pointer is set to the live entry of its address or to null; a hit refreshes the age of that record and changes nothing else |
| Nat25Table.BridgeTable.CacheSource | src/aic8800-1.0.9/aic8800_fdrv/rwnx_tx.c:1106-1128 | the whole branch for IP frames, on the map and on all three cache fields: an unknown MAC is looked for by its IP address, a hit caches entry, MAC and IP, a miss clears the entry alone and keeps the old pair; a known MAC refreshes the cached entry and keeps all three, or clears the pair when there is none; the frame needs no translation exactly when there is an entry afterwards |
| Nat25Table.BridgeTable.StampCached | src/aic8800-1.0.9/aic8800_fdrv/rwnx_tx.c:1084-1086 | a hit on the cache refreshes the age of one record of the map and nothing else |
| Nat25Table.BridgeTable.Translate | src/aic8800-1.0.9/aic8800_fdrv/aic_br_ext.c:1405-1416 | an IP frame on the receive path gets the cached MAC exactly when it is for the cached IP address, and then the map is not looked at and no use counted; any other is looked up in the map; the rest of the packet stays |
| Nat25Cache.StepTrusted | src/aic8800-1.0.9/aic8800_fdrv/rwnx_tx.c:1106-1128 | every event keeps the cached entry in the map under the cached IP address; it keeps the pair cleared or equal to what the map holds if and only if it is not one of the four that break it: caching a MAC that differs from the mapped one, remapping the cached address, and the cached address dying of a sweep or of the clean-up while no entry is cached |
| Nat25Cache.TrustedExactly | src/aic8800-1.0.9/aic8800_fdrv/aic_br_ext.c:1405-1410 | over every run from an empty table the pair is cleared or what the map holds after every event if and only if no event of the run is one of those |
| Nat25Cache.FastPathRight | src/aic8800-1.0.9/aic8800_fdrv/aic_br_ext.c:1405-1410 | after such a run the receive path writes for the cached address, unless the pair is cleared, the MAC the map holds for it |
| Nat25Cache.PairOutlives | src/aic8800-1.0.9/aic8800_fdrv/aic_br_ext.c:593-618 | after a miss nothing but the next source touches the pair, no sweep and no clean-up: it outlives its entry, and after a clean-up it is in no map |
| Nat25Cache.CacheFollowsEntry | src/aic8800-1.0.9/aic8800_fdrv/aic_br_ext.c:593-705 | every other event leaves all three cache fields alone, except that they are cleared when the cached entry is no longer in the map |
| Nat25Cache.FramesAfterSource | src/aic8800-1.0.9/aic8800_fdrv/rwnx_tx.c:1106-1128 | the next received frames after a source whose MAC is not the cached one: if it is found its MAC is written for its address, if not the old pair is still used |
| Nat25Times.TranslatedFor300Seconds | src/aic8800-1.0.9/aic8800_fdrv/aic_br_ext.c:396-504 | an address recorded or refreshed with a MAC, followed by any run of events, sweeps included, that neither records or refreshes it again nor cleans up: a frame for it gets that MAC in its six bytes exactly if it comes less than 300 seconds after, in the lookup and on the receive path behind the cache; otherwise its destination stays |
| Nat25Times.RefreshedFor300Seconds | src/aic8800-1.0.9/aic8800_fdrv/rwnx_tx.c:1084-1128 | a source frame of the address, a hit on the cache included, starts these 300 seconds anew and keeps the mapped MAC |
| Nat25Times.UnknownStays | src/aic8800-1.0.9/aic8800_fdrv/aic_br_ext.c:396-504 | an address that is not in the map, or was refused for want of memory, changes no destination |
| Nat25Spec.TableSweep | src/aic8800-1.0.9/aic8800_fdrv/aic_br_ext.c:621-705 | sweeping every chain is sweeping the map |
| Nat25Spec.TablePrepend | src/aic8800-1.0.9/aic8800_fdrv/aic_br_ext.c:461-504 | an entry put in front of the chain its address hashes to is one more key of the map |
| Nat25Spec.TableUpdate | src/aic8800-1.0.9/aic8800_fdrv/aic_br_ext.c:461-504 | writing one entry in place changes the map at its address and nowhere else |
| Nat25Runs.StepInUse | src/aic8800-1.0.9/aic8800_fdrv/aic_br_ext.c:396-458 | an operation keeps every use count at least 1 if and only if it is not an unexpired hit on a counter that is at its maximum |
| Nat25Runs.UseCountWraps | src/aic8800-1.0.9/aic8800_fdrv/aic_br_ext.c:396-458 | the concrete hit that takes a use count from its largest value to the smallest |
| Nat25Runs.RunInUse | src/aic8800-1.0.9/aic8800_fdrv/aic_br_ext.c:396-504 | over every run of fewer than 2^31 - 1 operations from an empty table all use counts are at least 1 |
| Nat25Runs.RunIsPointwise | src/aic8800-1.0.9/aic8800_fdrv/aic_br_ext.c:396-705 | over every run each address evolves on its own: the table is the product of one small machine per address |
| Nat25Runs.Retention | src/aic8800-1.0.9/aic8800_fdrv/aic_br_ext.c:621-705 | an entry that is left alone survives exactly as many late sweeps as it has uses, less one, with MAC and age unchanged |
| Nat25Runs.RecordedOnce | src/aic8800-1.0.9/aic8800_fdrv/aic_br_ext.c:461-705 | an address recorded once and left alone has its MAC, age and one use until the first late sweep, and is then gone |
| PppoeFrame.Frame.FindTag | src/aic8800-1.0.9/aic8800_fdrv/aic_br_ext.c:70-86 | the position of the first tag of a kind in the bytes of the frame, or 0 if and only if there is none; padding behind the tags is not read as tags |
| PppoeFrame.Frame.PullAndMerge | src/aic8800-1.0.9/aic8800_fdrv/aic_br_ext.c:108-126 | cuts the bytes out in place if and only if they lie within the frame |
| PppoeFrame.Frame.AddTag | src/aic8800-1.0.9/aic8800_fdrv/aic_br_ext.c:88-106 | on a host of either byte order: refuses, changing nothing, if and only if there is less room than it asks for; otherwise as many bytes as it asked room for, the tag and what lies behind it in memory, stand before the old payload, and the length field counts them |
| PppoeFrame.RoomIsSize | src/aic8800-1.0.9/aic8800_fdrv/aic_br_ext.c:93-97 | the room asked for is the size of the tag if and only if the host is big-endian; a little-endian host asks for 2052 bytes or more |
| PppoeFrame.Frame.InsertRelay | src/aic8800-1.0.9/aic8800_fdrv/aic_br_ext.c:1109-1149 | succeeds if and only if the code is PADI or PADR, an earlier relay tag is short enough and there is the room asked for; the frame then carries the tags of Insert if and only if the host is big-endian; a refusal for room has lost the earlier relay tag |
| PppoeFrame.InsertedOnly | src/aic8800-1.0.9/aic8800_fdrv/aic_br_ext.c:88-106 | bytes put before the tags are the relay tag that was meant on a big-endian host only; elsewhere the length field alone tells |
| PppoeFrame.Frame.FindOurs | src/aic8800-1.0.9/aic8800_fdrv/aic_br_ext.c:1188-1210 | finds the first relay tag exactly when it is the driver's own, and the client address in it |
| PppoeFrame.Frame.StripRelay | src/aic8800-1.0.9/aic8800_fdrv/aic_br_ext.c:1180-1224 | succeeds if and only if the first relay tag is the driver's own; the frame is then readdressed to the client and carries the tags of Strip, both length fields corrected; a refusal leaves the frame as it was |
| PppoeFrame.FrameLayout | src/aic8800-1.0.9/aic8800_fdrv/aic_br_ext.c:70-106 | what it means for a frame to carry a list of tags: the length is in bytes 18 and 19, high byte first, and the tags start at byte 20 |
| PppoeFrame.FreedIs | src/aic8800-1.0.9/aic8800_fdrv/aic_br_ext.c:1129-1133 | taking the earlier relay tag out makes the room the model counts on |
| PppoeSpec.Echo | src/aic8800-1.0.9/aic8800_fdrv/aic_br_ext.c:1180-1224 | a relay tag copied into a reply with any other tags around it gives back the client address and what the tag held before |
| PppoeSpec.RoundTrip | src/aic8800-1.0.9/aic8800_fdrv/aic_br_ext.c:1109-1224 | inserting and stripping, for every list of tags: the client is recovered; the tags come back unchanged without an earlier relay tag; with one, its data come back in front if and only if there were any |
| PppoeSpec.RelayBytes | src/aic8800-1.0.9/aic8800_fdrv/aic_br_ext.c:1119-1142 | the relay tag byte by byte, and that an earlier one may hold 28 bytes |
| DhcpFlag.Fold | src/aic8800-1.0.9/aic8800_fdrv/aic_br_ext.c:1530-1531 | the folding loop ends with a 16-bit number congruent to its start modulo 65535, zero for zero only |
| DhcpFlag.SetBroadcast | src/aic8800-1.0.9/aic8800_fdrv/aic_br_ext.c:1498-1540 | only a DHCP request without the bit is changed, and only in its flags and checksum words, on hosts of either byte order |
| DhcpFlag.RequestInBytes | src/aic8800-1.0.9/aic8800_fdrv/aic_br_ext.c:1513-1519 | in the bytes of the frame, on hosts of either byte order: a request is ports 68 and 67 and the cookie 99.130.83.99, the flag is the top bit of byte 18 |
| DhcpFlag.ChangedBytes | src/aic8800-1.0.9/aic8800_fdrv/aic_br_ext.c:1526-1532 | in the bytes: the rewrite sets that bit and changes the two checksum bytes, and no other |
| DhcpFlag.ResidueAfter | src/aic8800-1.0.9/aic8800_fdrv/aic_br_ext.c:1526-1532 | the one's-complement sum of the datagram goes down by exactly the old flags |
| DhcpFlag.SumKept | src/aic8800-1.0.9/aic8800_fdrv/aic_br_ext.c:1526-1532 | the sum is kept if and only if the flags were clear before |
| DhcpFlag.ChecksumGone | src/aic8800-1.0.9/aic8800_fdrv/aic_br_ext.c:1528-1532 | a zero checksum field is written exactly when the old checksum equals the new flags, or there was none and the new flags are all ones |
| DhcpFlag.GoodStaysGood | src/aic8800-1.0.9/aic8800_fdrv/aic_br_ext.c:1526-1532 | a datagram with a right checksum is still accepted afterwards if and only if the flags were clear or the checksum equals the new flags |
| DhcpFlag.UncheckedIsChecked | src/aic8800-1.0.9/aic8800_fdrv/aic_br_ext.c:1526-1532 | a datagram sent without a checksum gets one, and exactly when it is accepted afterwards |
| Md5.Transform | src/aic8800-1.0.9/aic8800_fdrv/md5.c:79-161 | the 64 macro steps, written out in order, compute one compression of RFC 1321 section 3.4 |
| Md5.DecodeBlock | src/aic8800-1.0.9/aic8800_fdrv/md5.c:66-78 | the 16 words of a block, low-order byte first |
| Md5.Md5Context.BumpCount | src/aic8800-1.0.9/aic8800_fdrv/md5.c:21-26 | two words that hold 8 times a number of bytes modulo 2^64 hold 8 times the larger number after the update, the carry included |
| Md5.Md5Context.Update | src/aic8800-1.0.9/aic8800_fdrv/md5.c:18-41 | after any chunk that the 32-bit cursor fits the state is the fold over the complete blocks of everything seen, the buffer holds the rest and the count is right |
| Md5.CursorFitsExactly | src/aic8800-1.0.9/aic8800_fdrv/md5.c:28-33 | the 32-bit loop test is exact at every cursor the loop can reach if and only if the chunk is shorter than 2^32 - 64 bytes or its length modulo 64 is below the residue of the cursors, which the buffer index fixes |
| Md5.CursorNeverStops | src/aic8800-1.0.9/aic8800_fdrv/md5.c:28-33 | otherwise the loop never ends: the test passes again after any number of turns |
| Md5.Final | src/aic8800-1.0.9/aic8800_fdrv/md5.c:42-52 | padding and length bring the digest of RFC 1321 of everything seen |
| Md5.Encode | src/aic8800-1.0.9/aic8800_fdrv/md5.c:53-65 | each word as four bytes, low-order byte first |
| Md5.HashChunks | src/aic8800-1.0.9/aic8800_fdrv/md5.c:9-52 | for every message and every way of cutting it into chunks that the cursor fits, which every chunk shorter than 2^32 - 64 bytes is: Init, the Updates and Final give the one-shot digest of sections 3.1 to 3.5 of RFC 1321 |
| Md5.CountAdvance | src/aic8800-1.0.9/aic8800_fdrv/md5.c:23-26 | the two-word addition with its carry test is addition modulo 2^64 |
| Md5.FinalBytes | src/aic8800-1.0.9/aic8800_fdrv/md5.c:42-51 | the padding length and the saved count are the padding and the length of RFC 1321 sections 3.1 and 3.2 |
| Md5Laws.Selects | src/aic8800-1.0.9/aic8800_fdrv/md5.h:12 | the first round function takes y where x is set and z elsewhere |
| Md5Laws.SelectsBy | src/aic8800-1.0.9/aic8800_fdrv/md5.h:13 | the second is the first with z as the selector |
| Md5Laws.Parity | src/aic8800-1.0.9/aic8800_fdrv/md5.h:14 | the third is symmetric, and a word that is there twice does not count |
| Md5Laws.Agrees | src/aic8800-1.0.9/aic8800_fdrv/md5.h:15 | the fourth is the opposite of y where x is set and tells where y and z agree elsewhere |
| Md5Laws.Rotates | src/aic8800-1.0.9/aic8800_fdrv/md5.h:16 | a rotation moves what stays in the word up and what leaves it on top to the bottom |
| Md5Laws.WordReads | src/aic8800-1.0.9/aic8800_fdrv/md5.c:53-78 | a word is read back from the four bytes it is written as, wherever they stand |
| Md5Laws.PaddingAndLength | src/aic8800-1.0.9/aic8800_fdrv/md5.c:42-51 | the padded message: whole blocks, the message, the byte 128, zeros, and its length in bits as a number modulo 2^64, low-order byte first |
| Md5Laws.AbcDigest | src/aic8800-1.0.9/aic8800_fdrv/md5.c:79-161 | the digest of "abc" is the one in appendix A.5 of RFC 1321; all 64 steps, constants and shifts of the compression enter it |
| TcpAckSpec.BeforeIsExact | src/aic8800-1.0.9/aic8800_fdrv/aicwf_tcp_ack.h:19 | U32_BEFORE orders any two true numbers that are less than 2^31 apart as they are |
| TcpAckSpec.BeforeFailsAtHalf | src/aic8800-1.0.9/aic8800_fdrv/aicwf_tcp_ack.h:19 | one step further and it is wrong, for every number |
| TcpAckSpec.AfterIsExact | src/aic8800-1.0.9/aic8800_fdrv/aicwf_tcp_ack.c:293-301 | time_after on wrapped jiffies orders any two true times that are less than 2^63 ticks apart as they are |
| TcpAck.AckManage.AckMatch | src/aic8800-1.0.9/aic8800_fdrv/aicwf_tcp_ack.c:260-285 | the first busy slot of the flow, or -1 |
| TcpAck.AckManage.AckUpdate | src/aic8800-1.0.9/aic8800_fdrv/aicwf_tcp_ack.c:288-310 | the ageing sweep, from the last slot to the first, does to the table what Update says |
| TcpAck.AckManage.AllocIndex | src/aic8800-1.0.9/aic8800_fdrv/aicwf_tcp_ack.c:313-348 | hands out the index Alloc names and leaves the table it leaves |
| TcpAck.AckManage.HandleNew | src/aic8800-1.0.9/aic8800_fdrv/aicwf_tcp_ack.c:447-527 | the slot, the verdict and the message to be freed are those of Handle, the marker, counter and timer included |
| TcpAck.AckManage.FilterSend | src/aic8800-1.0.9/aic8800_fdrv/aicwf_tcp_ack.c:555-622 | one call is the ageing sweep followed by Filter, on table, return value and freed message |
| TcpAck.AckManage.FilterRx | src/aic8800-1.0.9/aic8800_fdrv/aicwf_tcp_ack.c:529-552 | records the end of a push on the slot of the flow |
| TcpAck.AckManage.AckTimeout | src/aic8800-1.0.9/aic8800_fdrv/aicwf_tcp_ack.c:47-60 | sends the held message exactly when the slot is busy and nothing is being sent |
| TcpAck.AckManage.MoveMsg | src/aic8800-1.0.9/aic8800_fdrv/aicwf_tcp_ack.c:625-647 | clears the in-send marker wherever it is this message |
| TcpAckAccounts.FilterAccounted | src/aic8800-1.0.9/aic8800_fdrv/aicwf_tcp_ack.c:555-622 | each call keeps the books: max_num is the number of busy slots, free_index names an idle one, busy flows are distinct |
| TcpAckAccounts.AgeAccounted | src/aic8800-1.0.9/aic8800_fdrv/aicwf_tcp_ack.c:288-310 | so does the ageing sweep |
| TcpAckAccounts.TimedOutAccounted | src/aic8800-1.0.9/aic8800_fdrv/aicwf_tcp_ack.c:47-60 | so does the timer |
| TcpAckAccounts.MovedAccounted | src/aic8800-1.0.9/aic8800_fdrv/aicwf_tcp_ack.c:625-647 | so does the end of a send |
| TcpAckAccounts.AllocSucceeds | src/aic8800-1.0.9/aic8800_fdrv/aicwf_tcp_ack.c:313-348 | allocation succeeds if and only if fewer than 32 slots are busy; it hands out the idle slot free_index names, or else the lowest idle one, and counts it |
| TcpAckAccounts.OneInTenPasses | src/aic8800-1.0.9/aic8800_fdrv/aicwf_tcp_ack.c:471-505 | of any ten acknowledgements in a row that do not go back, each one's send over and its marker cleared before the next, one is passed on |
| TcpAckRate.EveryTenth | src/aic8800-1.0.9/aic8800_fdrv/aicwf_tcp_ack.c:471-527 | exactly which: the one at which the count from where the slot stands reaches a multiple of ten; the newest of the others is held |
| TcpAckRate.FirstAfterOpening | src/aic8800-1.0.9/aic8800_fdrv/aicwf_tcp_ack.c:599-619 | a flow that has just got its slot has its next acknowledgement passed on, and every tenth after that |
| TcpAckRate.TimerRestartsCount | src/aic8800-1.0.9/aic8800_fdrv/aicwf_tcp_ack.c:47-60 | after the timer has sent the held message nine are held and the tenth is passed on |
| TcpAckRate.TimerWithHeld | src/aic8800-1.0.9/aic8800_fdrv/aicwf_tcp_ack.c:471-527 | after an acknowledgement that does not go back the timer runs exactly if something is held |
| TcpAckRate.PushIsAnswered | src/aic8800-1.0.9/aic8800_fdrv/aicwf_tcp_ack.c:464-552 | a received push is recorded on the slot of its flow alone; the next acknowledgement goes out at once if its true number is beyond it, and otherwise leaves it to be answered |
| TcpAckRate.ScaleIsKept | src/aic8800-1.0.9/aic8800_fdrv/aicwf_tcp_ack.c:577-609 | the window scale of a slot is the last its flow has shown, and 1 before that |
| TcpAckRuns.RunAccounted | src/aic8800-1.0.9/aic8800_fdrv/aicwf_tcp_ack.c:260-622 | over every run whatsoever max_num is the number of busy slots and within 0..32, free_index names an idle slot if any, and no flow has two slots |
| TcpAckRuns.StepKeeps | src/aic8800-1.0.9/aic8800_fdrv/aicwf_tcp_ack.c:47-60 | every event that the next row allows keeps the invariant behind it: offers, regressing ones included, the timer, the sweep and the end of a send |
| TcpAckRuns.RunLosesNoAck | src/aic8800-1.0.9/aic8800_fdrv/aicwf_tcp_ack.c:447-622 | from any start time, with any ageing time, over every run in which no slot ages out with a message in it and true numbers stay within 2^31 of the record: each acknowledgement offered is covered by one of its flow with at least its number that has gone out or is held by the live slot |
| TcpAckTimes.AgeInTime | src/aic8800-1.0.9/aic8800_fdrv/aicwf_tcp_ack.c:288-310 | on true times: a sweep is due once more than the time-out has passed since the last, and gives up exactly the slots not heard within the time-out |
| TcpAckTimes.SlotsLiveByTime | src/aic8800-1.0.9/aic8800_fdrv/aicwf_tcp_ack.c:288-622 | after every run from any start time: a flow heard within the time-out keeps its slot through the next call, one silent for longer loses it if the sweep is due, and none silent for more than twice the time-out is left |
| TcpAckLedger.StepLedger | src/aic8800-1.0.9/aic8800_fdrv/aicwf_tcp_ack.c:447-622 | no event whatever makes or loses a message |
| TcpAckLedger.AtMostOnce | src/aic8800-1.0.9/aic8800_fdrv/aicwf_tcp_ack.c:47-60 | over every run a message offered once is sent, freed or held, in exactly one of these ways and at most once |
| TcpAckLedger.StepArmed | src/aic8800-1.0.9/aic8800_fdrv/aicwf_tcp_ack.c:47-60 | a held message keeps its timer if and only if the event is not a timer that fires while a send is outstanding; that one does nothing and is not set again |
| TcpAckLedger.AgeingLosesExactly | src/aic8800-1.0.9/aic8800_fdrv/aicwf_tcp_ack.c:288-310 | from a state that has lost nothing the ageing sweep loses an acknowledgement if and only if some slot ages out holding a message no sent one makes redundant |
| TcpAckMarkers.StepMarkers | src/aic8800-1.0.9/aic8800_fdrv/aicwf_tcp_ack.c:625-647 | every event keeps the in-send marker of every slot the name of an outstanding send if and only if it is not the last end of a send that meets its slot idle or the filter disabled |
| TcpAckMarkers.MarkersExactly | src/aic8800-1.0.9/aic8800_fdrv/aicwf_tcp_ack.c:599-647 | over every run in which only sends that have begun end: all markers, those of idle slots included, name outstanding sends after every event if and only if there was no such end |
| TcpAckMarkers.MarkedSlotWaits | src/aic8800-1.0.9/aic8800_fdrv/aicwf_tcp_ack.c:599-621 | what a marker that stays does: the flow that opens the slot inherits it, its timer sends nothing, and no acknowledgement passes except one that answers a push |
| IpcRing.DriverRingSizes | src/aic8800-1.0.9/aic8800_fdrv/ipc_shared.h:30-35 | the queue sizes of the driver are among those for which masking and 32-bit wrap-around fit together |
| IpcRing.MaskIsRemainder | src/aic8800-1.0.9/aic8800_fdrv/ipc_host.c:226-266 | masking with size - 1 is the remainder for these sizes |
| IpcRing.SlotOfWrapped | src/aic8800-1.0.9/aic8800_fdrv/ipc_host.c:226-266 | the slot of a position is the same before and after its counter has wrapped |
| IpcRing.IndexGap | src/aic8800-1.0.9/aic8800_fdrv/ipc_host.c:565-586 | the full test and the empty test on wrapped counters are exact |
| IpcRing.TxRing.TxDescGet | src/aic8800-1.0.9/aic8800_fdrv/ipc_host.c:565-586 | a descriptor is refused if and only if the ring is full; the slot given is free |
| IpcRing.TxRing.TxDescPush | src/aic8800-1.0.9/aic8800_fdrv/ipc_host.c:591-611 | the id joins the queue at its end, for all time |
| IpcRing.TxRing.ConfirmNext | src/aic8800-1.0.9/aic8800_fdrv/ipc_host.c:226-266 | one turn takes the head exactly when there is one and the callback accepts it; otherwise counter and slot are put back |
| IpcRing.TxRing.TxCfmHandler | src/aic8800-1.0.9/aic8800_fdrv/ipc_host.c:226-266 | terminates; removes exactly the longest prefix of the queue that the callback accepts, in order, and keeps the refused id at the head |
| IpcRing.TxRing.TxFlush | src/aic8800-1.0.9/aic8800_fdrv/ipc_host.c:299-315 | takes the oldest id, or nothing from an empty ring |
| IpcRing.TxRing.OccupiedWindow | src/aic8800-1.0.9/aic8800_fdrv/ipc_host.c:226-315 | slot k is non-null exactly for k in [used, free) modulo 2^32 |
| IpcRing.TxRing.Conservation | src/aic8800-1.0.9/aic8800_fdrv/ipc_host.c:226-611 | whatever was pushed has left, once and in order, or is queued; never more than the size; the counters are equal exactly when it is empty |
| IpcRing.TxFramesPending | src/aic8800-1.0.9/aic8800_fdrv/ipc_host.c:271-293 | frames are pending if and only if some ring is not empty |
| UsbPool.UsbDev.DequeueFree | src/aic8800-1.0.9/aic8800_fdrv/aicwf_usb.c:75-92 | none exactly from an empty list; otherwise the oldest buffer, the rest of the list in its order; the one buffer the two lists have lost; counters right, post list and flag untouched |
| UsbPool.UsbDev.DequeuePost | src/aic8800-1.0.9/aic8800_fdrv/aicwf_usb.c:75-92 | the same for the post list |
| UsbPool.UsbDev.QueueFree | src/aic8800-1.0.9/aic8800_fdrv/aicwf_usb.c:94-104 | the buffer comes to the end of the list, the one buffer the two lists have gained; counters right |
| UsbPool.UsbDev.QueuePost | src/aic8800-1.0.9/aic8800_fdrv/aicwf_usb.c:94-104 | the same for the post list |
| UsbPool.UsbDev.BusTxData | src/aic8800-1.0.9/aic8800_fdrv/aicwf_usb.c:1750-1890 | run by one thread it is the run of its three locked sections: the oldest free buffer comes to the end of the post list, no buffer is gained or lost over the two lists, none is refused while there is one, and running queues mean at least the low mark |
| UsbPool.UsbDev.TxComplete | src/aic8800-1.0.9/aic8800_fdrv/aicwf_usb.c:246-256 | run by one thread it is the run of its sections: the buffer comes back from the USB core to the end of the free list, and stopped queues mean at most the high mark |
| UsbPool.UsbDev.TxProcess | src/aic8800-1.0.9/aic8800_fdrv/aicwf_usb.c:1182-1221 | the loop is a run of take and submit sections: posted buffers go out in order until the list is empty or the device is down or gone; those taken are in flight and those refused back on the free list, each in order |
| UsbPool.UsbDev.TxPrepare | src/aic8800-1.0.9/aic8800_fdrv/aicwf_usb.c:965-981 | everything posted goes back to the free list, in order |
| UsbOrder.FirstInFirstOut | src/aic8800-1.0.9/aic8800_fdrv/aicwf_usb.c:75-104 | over every interleaving of any number of threads: the buffers taken from the post list, followed by the list, are the buffers posted, in that order; so are those of the free list, which starts with all fifty |
| UsbTx.StepConserves | src/aic8800-1.0.9/aic8800_fdrv/aicwf_usb.c:212-257 | no locked section of any thread puts a buffer into a second place or out of its last one |
| UsbTx.Conservation | src/aic8800-1.0.9/aic8800_fdrv/aicwf_usb.c:1168-1222 | in every interleaving of any number of threads, submit failures and restarts included: each of the 50 buffers is in exactly one place, no other buffer is anywhere, both counters are the list lengths |
| UsbTx.StepWake | src/aic8800-1.0.9/aic8800_fdrv/aicwf_usb.c:246-256 | each section keeps the wake-up invariant if and only if it does not strand the queues: a failed submission or a restart that fills the list past the high mark with the queues stopped and no completion about to look |
| UsbTx.StepMarks | src/aic8800-1.0.9/aic8800_fdrv/aicwf_usb.c:212-257 | a section stops the queues only below 12 free buffers and lets them go only above 36 |
| UsbTx.WakesExactly | src/aic8800-1.0.9/aic8800_fdrv/aicwf_usb.c:1168-1222 | over every run of any number of threads the invariant holds after every event if and only if no event of the run strands the queues |
| UsbTx.NoLostWakeup | src/aic8800-1.0.9/aic8800_fdrv/aicwf_usb.c:1750-1890 | if no event of the run strands the queues, whenever nobody is in mid-operation: running queues mean at least 12 free buffers, stopped ones at most 36, and all 50 free means running |
| UsbTx.SmoothNeverStrands | src/aic8800-1.0.9/aic8800_fdrv/aicwf_usb.c:1168-1222 | runs in which submission never fails and the bus is never restarted are among those |
| UsbTx.FailuresLoseTheWakeup | src/aic8800-1.0.9/aic8800_fdrv/aicwf_usb.c:1168-1222 | the run that shows the condition is needed: 39 sends, 39 failed submissions, and the queues stay stopped with every buffer free |
| Reassembly.Reassembler.RxComplete | src/aic8800-1.0.9/aic8800_fdrv/aicwf_usb.c:616-717 | the callback, its fields updated in place, delivers and keeps what Receive says, with and without memory |
| Reassembly.ReceiveSound | src/aic8800-1.0.9/aic8800_fdrv/aicwf_usb.c:616-717 | while a packet is put together cur_len = 2048 * cur_frags < total_len and total_frags is the ceiling; no copy passes the allocation |
| Reassembly.MisfitStartsAfresh | src/aic8800-1.0.9/aic8800_fdrv/aicwf_usb.c:616-717 | a transfer that breaks the pattern costs the packet in progress and is then examined as a first one |
| Reassembly.FragsIsCeiling | src/aic8800-1.0.9/aic8800_fdrv/aicwf_usb.c:616-717 | the fragment count is the ceiling of the length over 2048 |
| Reassembly.FeedPacket | src/aic8800-1.0.9/aic8800_fdrv/aicwf_usb.c:416-545 | a packet of any length sent in full transfers and a remainder is delivered once, byte for byte, and leaves nothing behind |
| Reassembly.FeedPackets | src/aic8800-1.0.9/aic8800_fdrv/aicwf_usb.c:416-545 | any number of packets back to back arrive, all of them, in order and nothing else |
| FrameQueue.Frames.FrameEnq | src/aic8800-1.0.9/aic8800_fdrv/aicwf_txrxif.c:1261-1291 | accepts, refuses or evicts as Enqueue says, on lists, hi_prio and qcnt |
| FrameQueue.Frames.FrameDequeue | src/aic8800-1.0.9/aic8800_fdrv/aicwf_txrxif.c:1226-1246 | takes what Dequeue takes, lowering hi_prio in its loop |
| FrameQueue.Frames.FrameQueueFlush | src/aic8800-1.0.9/aic8800_fdrv/aicwf_txrxif.c:1166-1181 | empties every class |
| FrameQueue.Frames.PeekTail | src/aic8800-1.0.9/aic8800_fdrv/aicwf_txrxif.c:1196-1211 | the newest packet of the lowest class in use and that class |
| FrameQueue.Frames.IsEmpty | src/aic8800-1.0.9/aic8800_fdrv/aicwf_txrxif.c:1213-1224 | true exactly when no class has a packet |
| FrameQueue.EnqueueSound | src/aic8800-1.0.9/aic8800_fdrv/aicwf_txrxif.c:1261-1291 | classes above hi_prio stay empty, qcnt stays the sum of the class lengths and at most qmax |
| FrameQueue.OverflowRule | src/aic8800-1.0.9/aic8800_fdrv/aicwf_txrxif.c:1261-1291 | a full queue accepts a newcomer if and only if a strictly lower class has a packet, and then exactly one goes |
| FrameQueue.DequeueHighest | src/aic8800-1.0.9/aic8800_fdrv/aicwf_txrxif.c:1226-1246 | the oldest packet of the highest class in use, or nothing exactly from an empty queue |
| FrameQueueRuns.EvictionDemotes | src/aic8800-1.0.9/aic8800_fdrv/aicwf_txrxif.c:1261-1291 | eviction takes the newest packet of the lowest class in use, and the newcomer takes its place there, in the lower class |
| FrameQueueRuns.Conservation | src/aic8800-1.0.9/aic8800_fdrv/aicwf_txrxif.c:1150-1291 | over every run each accepted packet has been dequeued, evicted or flushed, or is queued; the invariants hold throughout |
| FrameQueueOrder.ArrivalOrder | src/aic8800-1.0.9/aic8800_fdrv/aicwf_txrxif.c:1150-1291 | over every run each class holds its packets in the order in which they were offered, evictions and flushes included |
| FrameQueueOrder.ClassKept | src/aic8800-1.0.9/aic8800_fdrv/aicwf_txrxif.c:1261-1291 | over every run a queued packet is in the class it was offered for or, having taken an evicted one's place, in a lower one; with no more operations than room, in its own |
| Deaggregation.RxBuffer.AnotherPtk | src/aic8800-1.0.9/aic8800_fdrv/aicwf_txrxif.c:327-345 | goes on exactly when a header fits and its length is not zero |
| Deaggregation.RxBuffer.Split | src/aic8800-1.0.9/aic8800_fdrv/aicwf_txrxif.c:565-648 | over the preallocated buffer: exactly the records concatenated, in order, and the cursor behind them; terminates |
| Deaggregation.SkBuff.Split | src/aic8800-1.0.9/aic8800_fdrv/aicwf_txrxif.c:725-810 | the same over the socket buffer that is pulled forward, so the two loops agree |
| Deaggregation.RxBuffer.TakeRecord | src/aic8800-1.0.9/aic8800_fdrv/aicwf_txrxif.c:583-640 | one turn delivers one record and moves the cursor by its padded size in 16-bit arithmetic |
| Deaggregation.SkBuff.TakeRecord | src/aic8800-1.0.9/aic8800_fdrv/aicwf_txrxif.c:747-806 | the same with skb_pull |
| Deaggregation.FirstRecord | src/aic8800-1.0.9/aic8800_fdrv/aicwf_txrxif.c:565-648 | the first record can be read off the stream as if it stood alone |
| Deaggregation.OneReading | src/aic8800-1.0.9/aic8800_fdrv/aicwf_txrxif.c:327-363 | bytes can be cut into records in one way only |
| UsbHeaders.BitFour | src/aic8800-1.0.9/aic8800_fdrv/aicwf_usb.h:94-98 | bit four of the type byte tells messages from data |
| UsbHeaders.Extent | src/aic8800-1.0.9/aic8800_fdrv/aicwf_txrxif.c:583-640 | a data packet takes its length and sixty bytes, a message four and its length rounded up to a multiple of four |
| UsbHeaders.SameExtent | src/aic8800-1.0.9/aic8800_fdrv/aicwf_usb.c:416-545 | reassembly and splitting, written apart, agree on how long a packet is, for every header; and which packets each endpoint knows |
| InstallRuns.StepKeeps | scripts/verify_package.py:168-221 | every step, finished or interrupted, keeps the order between the record that would survive, the one seen and the one being written |
| InstallRuns.NeverBack | scripts/verify_package.py:168-221 | over every run of begins, finishes, file changes, kills and power failures the surviving record never goes back in build number or version, and one build number is one package |
| InstallRuns.AnyTwoMoments | scripts/verify_package.py:168-221 | so for any two moments of any run, and for what is seen against what has survived |
| InstallRuns.SeenStep | scripts/verify_package.py:168-221 | for the record a read gives: a step keeps it from going back if and only if it is not a power failure while the surviving record is of another package |
| InstallRuns.SeenNeverBack | scripts/verify_package.py:168-221 | between any two moments of a run without such a power failure the record seen never goes back in build number or version, and one number is one package |
| InstallRuns.SeenNeverBackByKills | scripts/verify_package.py:168-221 | so through any kills |
| InstallRuns.SeenAscendsExactly | scripts/verify_package.py:168-221 | a run never takes the record seen back if and only if it has no such power failure |
| InstallRuns.WaitingStep | scripts/verify_package.py:187-221 | a pending record that is seen stays the one seen and written after a step if and only if the step is neither its own finish with token and files nor a power failure before it was synced |
| InstallRuns.OnlyItsOwnFinish | scripts/verify_package.py:187-221 | a pending record, synced or not, can only be advanced by its own package: over every run until one of these two, nothing else is seen or written, through any kills and any other begin or finish |
| InstallRuns.SyncedWaits | scripts/verify_package.py:187-221 | once synced, its own finish alone ends the wait, whatever power failures there are |
| InstallRuns.RecordsAreExplained | scripts/verify_package.py:187-221 | every installed record has a finish in the run that met the matching pending record and token with all target files matching at that moment; every pending one has its begin |
| InstallRuns.SeenMayGoBack | scripts/verify_package.py:168-184 | a power failure between the replacement and the directory sync takes a higher number back, for every such pair of packages: it was seen and had not survived |
| InstallRuns.InstallSettles | scripts/verify_package.py:187-221 | an undisturbed begin and finish with the files in place installs the package |
| InstallRuns.BeginsExactly | scripts/verify_package.py:187-212 | a begin is let through if and only if its record follows the one that is there, a pending one being of the same package and an installed one still describing the files, and if there is none, no other driver either |
| InstallRuns.OnlyValidBegins | scripts/verify_package.py:54-68 | of these exactly the packages with files and a build number in 1..2^53 - 1 are written down |
| InstallRuns.ResumeSettles | scripts/verify_package.py:187-221 | a pending package can be begun again whatever the files and drivers there, and a finish with its files in place then installs it |
| InstallSpec.VersionOrder | scripts/verify_package.py:197-200 | versions are in one strict order: major number first, then minor, then patch |
| Install.RecordFile.BeginInstall | scripts/verify_package.py:187-212 | gives a token exactly when the package may be installed, and is the run of begin, replace and sync |
| Install.RecordFile.FinishInstall | scripts/verify_package.py:215-221 | succeeds exactly when pending record, token and files match, and is the run of finish, replace and sync |
| Install.RecordFile.SaveState | scripts/verify_package.py:168-184 | from a record that has passed its checks it is the run of replacement and directory sync, after which a power failure changes nothing |
| PublishRuns.ActKeeps | scripts/build_package.py:217-249 | no step of a builder changes what is at a formal or an output path |
| PublishRuns.ActSound | scripts/build_package.py:217-238 | no step leaves a formal receipt that does not describe the artifact beside it |
| PublishRuns.ActHonest | scripts/build_package.py:217-249 | a builder past its link has its own bytes at its path |
| PublishRuns.NothingChanges | scripts/build_package.py:217-249 | under every interleaving and crash of any number of formal and local builders: a formal artifact, a formal receipt and an output never change once there, and each formal receipt describes its artifact |
| PublishRuns.OneWinner | scripts/build_package.py:217-249 | two formal builders that finish for one path had the same candidate, and it is there with its receipt and both outputs |
| PublishRuns.ReplayStep | scripts/build_package.py:217-249 | building the same bytes again, with or without an output of its own, never fails; no artifact changes, receipts change only by gaining the missing one and outputs only by gaining the missing one |
| PublishRuns.ReplayCompletes | scripts/build_package.py:217-249 | seven steps of its own bring such a builder to the end, however others interleave, after a crash between artifact and receipt as well; its output must be there with these bytes already or be nobody else's |
| PublishRuns.BuildPublishes | scripts/build_package.py:217-249 | from every reachable state, a formal builder whose path is free or holds its bytes, and whose path and output no other bytes are wanted for, is done after seven steps of its own under every interleaving: artifact, receipt and output are there |
| PublishRuns.FreshPublishes | scripts/build_package.py:217-249 | so does a builder that starts where its path and output are free and nobody else's: a first build publishes |
| PublishLocal.RunLocal | scripts/build_package.py:227-232 | over every interleaving and crash of local and formal builders: local receipts keep describing their artifacts if the local candidates of the version agree, and local artifacts keep their bytes if there is one |
| PublishLocal.LocalRace | scripts/build_package.py:227-232 | the interleaving of any two local builders of a version that leaves the receipt of one beside the artifact of the other |
| PublishLocal.DescribedExactly | scripts/build_package.py:227-232 | local receipts are right in every run of builders of given candidates if and only if all local candidates of the version have one description |
| PublishLocal.KeptExactly | scripts/build_package.py:227-232 | local artifacts never change in any such run if and only if there is at most one such candidate |
| Checksums.ReadSums | scripts/verify_package.py:87-97 | the parsing loop reads what Listed says and refuses what it refuses |
| Checksums.HexDigits | scripts/verify_package.py:89-91 | what counts as a digest: the sixteen hexadecimal digits in lower case |
| ChecksumsRoundTrip.ListedUndoesPrint | scripts/build_package.py:190-192 | parsing the printed list gives back the map of digests if and only if every name is legal, ASCII and without line breaks |
| ChecksumsRoundTrip.ParsedIsListable | scripts/verify_package.py:89-97 | whatever is parsed, every name read is legal, ASCII and without line breaks |
| ChecksumsRoundTrip.LineEnds | scripts/verify_package.py:89 | where a line ends: at a newline, carriage return or the two together, and at the other control characters that break lines |
| PackageNames.LegalExactly | scripts/verify_package.py:92-96 | a name is let through if and only if it is the join of parts that are neither empty, "." nor "..", without a backslash, and not the list itself; or a single dot |
| PackageNames.DeclaredAlone | scripts/verify_package.py:98-104 | the thirteen required names alone are a package |
| PackageNames.DeclaredMore | scripts/verify_package.py:98-104 | one name more keeps a set of names a package if and only if it is one of these or lies in the firmware folder |
| PackageNames.EssentialsInstalled | scripts/verify_package.py:71-78 | an accepted package installs both modules, the rules and the autoload file, and nothing else outside the firmware folder |
| PackageVerify.Walk | scripts/verify_package.py:105-117 | the walk over the files found, in any order, succeeds exactly when the files are the listed ones with the listed digests |
| PackageVerify.Verify | scripts/verify_package.py:81-129 | accepts exactly the trees Accepted describes, and gives the digest to be installed at each destination |
| PackageVerify.AcceptsOnlyWhatWasBuilt | scripts/verify_package.py:81-129 | with the list a builder printed, and digests that tell the contents apart, the one tree accepted is the one that was built, if it has the declared names and some firmware |
| PackageVerify.DestinationsDiffer | scripts/verify_package.py:71-78 | no two names of a package are installed at one place |
| PackageVerify.FirmwareIs | scripts/verify_package.py:126-128 | firmware is installed if and only if the list names some |
| ParseLine.Parse | src/aic8800-1.0.9/aic8800_fdrv/aic_priv_cmd.c:186-233 | returns where the arguments start and leaves the line with a NUL behind each |
| ParseLine.ArgumentHeld | src/aic8800-1.0.9/aic8800_fdrv/aic_priv_cmd.c:186-233 | the line then holds each argument as a NUL-terminated string |
| ParseLine.SlicesOrdered | src/aic8800-1.0.9/aic8800_fdrv/aic_priv_cmd.c:186-233 | the arguments are in order, disjoint and inside the line |
| ParseLine.SeparatorsOnly | src/aic8800-1.0.9/aic8800_fdrv/aic_priv_cmd.c:186-233 | only separators and closing quotes are written over |
| ParseLineJoin.ParseUndoesJoin | src/aic8800-1.0.9/aic8800_fdrv/aic_priv_cmd.c:186-233 | for every list of arguments: the first thirty come back if and only if each can be written, that is, none that needs quotes holds one |
| Strtoul.Strtoul | src/aic8800-1.0.9/aic8800_fdrv/aic_priv_cmd.c:235-264 | value modulo 2^32 and stopping place for every text and every 32-bit base, prefix, sign and wrap-around included |
| Strtoul.StepWraps | src/aic8800-1.0.9/aic8800_fdrv/aic_priv_cmd.c:254-257 | the 32-bit accumulation is the true value modulo 2^32 |
| StrtoulRoundTrip.DecimalRoundTrip | src/aic8800-1.0.9/aic8800_fdrv/aic_priv_cmd.c:235-264 | every 32-bit value printed in decimal reads back, and reading stops behind it |
| StrtoulRoundTrip.HexRoundTrip | src/aic8800-1.0.9/aic8800_fdrv/aic_priv_cmd.c:235-264 | so does every value printed as 0x and digits of either case, whatever base is given |
| StrtoulRoundTrip.NegativeRoundTrip | src/aic8800-1.0.9/aic8800_fdrv/aic_priv_cmd.c:235-264 | a minus sign in front of a decimal numeral negates the value modulo 2^32 |
| StrtoulRoundTrip.LeadingZero | src/aic8800-1.0.9/aic8800_fdrv/aic_priv_cmd.c:239-248 | with a leading zero and no base a decimal numeral reads back if and only if it is less than eight |

Where a method of a class stands beside a function of the specification (`Insert` and `InsertView`, `FilterSend` and
`Filter`, `FrameEnq` and `Enqueue`, `RxComplete` and `Receive`, `Parse` and `Slices`), the method follows the code step
by step and its contract ties the new state to that function; the results about runs are lemmas about the functions.

## Left out

- Locks, sequence locks and memory ordering as such: each locked section is one atomic step. In the USB pool the
  sections of different threads interleave freely; the TCP ACK filter, the bridge table and the frame queue are modelled
  one call at a time.
- Hardware and kernel services: URB submission, DMA, timers, netlink and threads are nondeterministic events or
  parameters; the length of a jiffy is the parameter hz.
- Bridge table: key generation for IPX, AppleTalk, IPv6 and PPPoE sessions (keys are opaque 17-byte strings); the fixed
  exclusive-or chains of the hash are written as a fold, which the Hash lemmas show to be these chains; the table belongs
  to one interface.
- Nat25Table.BridgeTable.CacheSource: VLAN frames, the bridge's own address and the frames that are not IP take other
  branches of the transmit path and are not modelled.
- Nat25Table.BridgeTable.Translate: IP frames with the translation and its cache switched on, once a VLAN tag is gone.
- PppoeFrame.Frame.FindTag: asks for a well-formed list of tags; a walk over lengths that do not add up leaves
  the frame.
- PppoeFrame.Frame.AddTag: asks that the length field does not exceed the frame; what lies in memory behind the tag is a
  parameter.
- PppoeFrame.Frame.FindOurs: asks for a well-formed list of tags.
- PppoeFrame.Frame.InsertRelay: asks for a well-formed frame shorter than 64 KiB.
- PppoeFrame.Frame.StripRelay: asks for the same; the discovery frames of hosts that do not add relay tags, and session
  frames, take the other branches of the same switch and are not modelled.
- DhcpFlag.SetBroadcast: the Ethernet and IP headers in front of the UDP segment, and the switch that turns the rewrite
  off.
- Md5.Md5Context.Update: asks that the cursor fits the chunk, as it does not return otherwise (`CursorNeverStops`);
  does not model an input that aliases the context; MD5Decode's or of shifted bytes is a sum.
- Md5.HashChunks: asks the same of every chunk.
- TCP ACK suppressor: option parsing and the window size test (what the parser said is a parameter of each call), the
  unused tcp_ack_handle, changes of max_drop_cnt and the time-out at run time, and deinit.
- TcpAckRuns.RunLosesNoAck: asks that true numbers of a flow stay within 2^31 of its record and that no slot ages out
  with a message in it; `AgeingLosesExactly` says what happens otherwise.
- TcpAckMarkers.MarkersExactly: asks that only sends that have begun end.
- TcpAckTimes.SlotsLiveByTime: asks for a run of less than 2^63 ticks and a time-out of less; Nat25Times asks for less
  than 2^63 ticks between record and frame, as the wrapped clock cannot tell longer times.
- Md5Laws.AbcDigest: one digest of the standard's list; the laws of the parts are for all inputs.
- UsbTx.NoLostWakeup: assumes that nothing strands the queues; `WakesExactly` says that the invariant fails otherwise.
- The aggregated USB transmit path, SDIO, and the station-level flow control of aicwf_usb.c.
- IpcRing.TxRing.TxDescPush: asks for a successful get before it and a non-null id, and does not model the ready flag of
  the descriptor; ipc_host_queue_full compares addresses, not indices, and is not part of this model.
- Reassembly: the 12288-byte limit of another build, for which the fragment formula does not hold; requeueing of URBs.
- Reassembly.FeedPacket: asks that allocation succeeds; `RxComplete` and `ReceiveSound` include its failure.
- Deaggregation.RxBuffer.Split: asks for a concatenation of well-formed records; what the code makes of other bytes
  depends on what lies behind them in memory. Allocation failures are not modelled.
- Deaggregation.SkBuff.Split: the same.
- Deaggregation.RxBuffer.TakeRecord: asks for a cursor at such a record.
- Deaggregation.SkBuff.TakeRecord: asks for data that start with such a record.
- The receive-buffer queue of aicwf_txrxif.c, a plain FIFO.
- Install: symlink and path checks, JSON decoding and the validation of single fields; a record changed by anything but
  the installer. The check for a driver without a record is a boolean of the begin event.
- PackageVerify.Verify: the checks of build.json, VERSION and native.json, and of symlinks and special files; the
  constants for kernel, architecture and module names are written out.
- PackageVerify.AcceptsOnlyWhatWasBuilt: names the digest property it needs, that no two contents compared collide.
- Checksums.ReadSums: splitlines is modelled for ASCII, the only text that gets that far.
- Publishing: how a candidate is built and reread, tar and gzip, symlinks; paths are pairs of version and build number,
  which the file names spell out. Output paths are taken to lie outside the shared directory.
- SHA-256 is a function parameter throughout.
- parse_line's entry for the terminating null pointer in argv, and its message for too many arguments.
