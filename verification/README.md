# Verified model of the MT7603U driver

The MT7603U driver is a USB Wi-Fi driver with a C skeleton and Rust code that builds and parses byte
frames. This project models its algorithms over byte buffers, register words and device steps, and
proves what they are for. Results are stated for every input, every run and every outcome of a
transfer or allocation.

- **Key, station and session tables** (`Regmap`, `Device`, `BlockAck`, `Wtbl`, `WtblRun`,
  `WtblDriver`): the bit-packed table registers, reached through the address translation, refine
  abstract tables over every run. Following a station's cross-link finds the last key installed.
- **Keys in use** (`Protection`): the station that the descriptor of a sent frame names is the one whose
  key was stored for such frames.
- **Receiving** (`RxDescriptor`, `RxWalk`, `RxInverse`): the de-aggregation loop inverts aggregation, stays
  inside its buffer, and delivers exactly the frames that subframes were built from.
- **Transmitting** (`Txd`, `TxFrame`, `TxSelect`, `TxLedger`, `TxDriver`): the descriptor reads back,
  completion restores the original frame, and no buffer is lost or released twice.
- **Firmware download** (`McuFrame`, `Rom`, `CmdSeq`, `Delivery`, `Firmware`): a boot ROM fed with what
  the driver sends ends up running exactly the announced image; every exit goes through the scheduler's restoration.
- **Information elements and calibration data** (`Elements`, `Efuse`): the element walk, the builders
  and their round trips; the fuse array and the image read from it.

`Machine` holds integer widths, byte order and the copy loop. Integers that travel as bytes are numbers
with an explicit range; register contents that are only masked and shifted are bit-vectors. Functions
specify; methods follow the code's loops and updates in place and are proved against the functions.
Which transfers, accesses and allocations succeed, and what the device answers, is arbitrary: it is either an
input or decided nondeterministically.

Verify with `dafny verify dfyconfig.toml --resource-limit 2000000`.

## Where the code differs from what is said about it

- `BlockAck.NarrowingLosesWindow`: the peer's buffer size is narrowed to eight bits on its way to the
  session builder. A size of 256 or more whose low byte is below 42 gets too small a window.
- `Txd.Word0Fields`, `TxFrame.EncapByteCount`: the builder checks the length before padding is added, and
  the data path rounds it up afterwards, so that both can leave sixteen bits.
- `TxFrame.DecapEncap`: the original length is remembered in sixteen bits; longer frames do not come
  back.
- `Txd.RateRecovered`: 1 Mbit/s with short preamble is sent as 2 Mbit/s.
- `RxWalk.WalkInvertsAggregate`: a subframe of less than nine bytes ends the walk.
- `Elements.BeaconRoundTrip`: the walk stops at an element of length zero, so that a hidden network's
  channel is not found.
- `CmdSeq.LostNumbersCollide`: a number is assigned before it is known whether a command will be sent, so
  that commands in a row can carry the same number; `CmdSeq.FifteenInARow` says exactly when.
- `TxLedger.LengthReadTooLate`: log lines behind a successful submission read the buffer's length
  (src/c/mac80211.c:1089-1096); `TxLedger.AliveUntilEnd` says exactly when that is safe.
- `McuFrame.DlLenWraps`: the release build wraps where the image's last word is within four of 2^32.
- `Firmware.Cable.Poll`: waiting for the ROM tests only bit 0 of the status register; the module
  specification asks for bit 1 to be clear as well. The code is modelled.
- `Regmap.PhysicalAddrMap` leaves 0x50029018 alone; the comment at src/c/regops.c:57-64 says that it
  would be moved.
- `WtblRun.StaAddStations`: setting up a station rewrites the entries of both stations.

## Model

| member | source | states |
|---|---|---|
| WtblRun.KeyLookup | src/c/mac80211.c:1177-1274 | From power-on, after `start` and any sequence of station, association, key and session calls, the key cross-link of either station leads to its key memory, and the key in use there is the last one installed and not since removed or reset |
| WtblRun.PairwiseKeyFound | src/c/mac80211.c:1188-1270 | After any run that ends with a pairwise key, or one of a known station, the hardware uses exactly that key, also to receive, for station 1, from the sixteen bytes at 0x42040; station 0 goes on as before |
| WtblRun.GroupKeyFound | src/c/mac80211.c:1188-1270 | A group key is used for station 0, from the bytes at 0x42000, to receive exactly when the interface is no access point; station 1 goes on as before |
| Protection.NewKeyEncrypts | src/c/mac80211.c:915-943 | A frame sent to the peer after any run that ends with a pairwise key is encrypted with that key, and a group frame with a group key: the station that the descriptor names is the one whose key was stored |
| Protection.EncryptedWith | src/c/mac80211.c:915-943 | After any run, the station that a sent frame's descriptor names uses what the caller last gave for that kind of frame |
| Protection.NamedStation | src/c/mac80211.c:915-943 | The descriptor names station 1 exactly for unicast frames of the interface itself, and asks for encryption exactly when the stack gave a key |
| WtblRun.RunRefinesTable | src/c/mac80211.c:1098-1274 | The bit-packed registers refine an abstract table of two stations over every run |
| WtblRun.RunTableExpect | src/c/mac80211.c:1177-1274 | The table refines the caller's view: the last key given to station 1 (pairwise, or of a known station) or to station 0 (any other), until removal, set-up or tear-down |
| WtblRun.RunRefinesSessions | src/c/mac80211.c:1293-1333 | Over every run, DW15 decodes to the map from traffic identifier to window; no call disturbs another session |
| WtblRun.RunStaysSound | src/c/mac80211.c:1177-1274 | From a table where every receive key has a cipher, no run reaches one where a receive key has none |
| WtblRun.StartLinks | src/c/mac80211.c:496-503 | After `start` both cross-links are right and both stations are empty, whatever the memory held |
| WtblRun.AddedPeer | src/c/mac80211.c:1098-1155 | A new peer is found under its address, may be received from and sent to, and has no key |
| WtblRun.RemovedPeer | src/c/mac80211.c:1157-1169 | A removed one is found under no address, neither valid nor admitted, and the broadcast station stays |
| WtblRun.AddedBssid | src/c/mac80211.c:1137-1147 | A station interface gets the peer as current BSSID, least significant byte first; an access point keeps its own |
| WtblRun.ChangedBssid | src/c/mac80211.c:797-818 | A changed association sets the BSSID registers and clears both bits of the multiple-BSSID mask, and no other bit |
| WtblRun.KeyRegisters | src/c/mac80211.c:1232-1265 | A new key comes with packet number 1 and a flush register that ends at 0 |
| WtblRun.SessionsFound | src/c/mac80211.c:1293-1333 | The session map of every run is in the last word of the station's second entry |
| WtblRun.StaAddStations | src/rust/src/sta.rs:148-233 | `sta_add` rewrites all four entry words of both stations and no key word |
| WtblRun.InstallKeyStations | src/c/mac80211.c:1218-1270 | `set_key` changes key, cipher and key flags of one station, and keeps address, cross-links and the other station |
| WtblRun.RemoveKeyStations | src/c/mac80211.c:1193-1211 | Key removal clears cipher and key-valid bits of one station and leaves everything else |
| WtblRun.SessionKeepsStations | src/c/mac80211.c:1310-1326 | Session calls change no entry and no key |
| Wtbl.CrossLinkFields | src/rust/src/sta.rs:109-146 | For every station below 128 the six page and element fields come back from DW3 and DW4 without overlap |
| Wtbl.KeyLinkReachesKey | src/rust/src/sta.rs:109-146 | The link in DW4 gives 0x42000 + 64 * wcid, the address that `set_key` computes on its own; the one in DW3 gives the session entry |
| Wtbl.CountersBehindKeys | src/rust/src/sta.rs:109-146 | The third link, from both words, gives 0x44000 + 32 * wcid |
| Wtbl.LinkValues | src/rust/src/sta.rs:291-304 | The words that the unit tests expect for the first stations |
| Wtbl.StaOpsValues | src/rust/src/sta.rs:306-354 | The twelve writes that the unit test expects |
| Wtbl.KeyWordValues | src/c/mac80211.c:1193-1256 | Which bits of DW0 and DW2 a key sets and its removal clears, as words |
| Wtbl.KeyedFields | src/c/mac80211.c:1234-1256 | Setting the key bits of DW0 and DW2 stores key index, receive flags and cipher, and keeps the address bits |
| Wtbl.UnkeyedFields | src/c/mac80211.c:1193-1208 | Clearing the key bits leaves no key and no cipher, and keeps the address bits |
| Wtbl.KeyWordsRoundTrip | src/c/mac80211.c:1222-1231 | The sixteen key bytes come back from the four words they are stored in |
| Wtbl.StoreKeyEffect | src/c/mac80211.c:1218-1270 | The write list of `set_key` turns exactly one station into its keyed form |
| WtblDriver.BuildWtblStaSequence | src/rust/src/sta.rs:148-233 | Fills the operation buffer with the list that the lemmas are about; -ENOSPC leaves it alone |
| WtblDriver.StaAdd | src/c/mac80211.c:1098-1155 | With working transfers the registers change as the step of the run says; nothing happens for a zero address |
| WtblDriver.StaRemove | src/c/mac80211.c:1157-1169 | `sta_remove` changes the registers as the step of the run says, when transfers work |
| WtblDriver.ChangeBss | src/c/mac80211.c:737-833 | The association part of `bss_info_changed` does, too: a station interface is set up anew or torn down, an access point only gets its BSSID |
| WtblRun.BssFollowsWords | src/c/mac80211.c:797-833 | What it does to the words of the two stations |
| WtblDriver.InstallKey | src/c/mac80211.c:1177-1274 | `set_key` leaves the registers that the run's step says, when transfers work, and reports the station as hardware slot; any other cipher than CCMP is declined without a write |
| WtblDriver.RemoveKey | src/c/mac80211.c:1193-1211 | Key removal leaves the registers that the run's step says, when transfers work |
| WtblDriver.HandleAmpdu | src/c/mac80211.c:1293-1333 | Starting and stopping a session leave the registers that the run's step says, for station 1 exactly when the station is known; the start of a receive session writes its two registers, and nothing else changes anything |
| WtblDriver.RxStartFields | src/c/mac80211.c:1306-1312 | Those two registers hold the six address bytes in order, the traffic identifier and the start bit |
| BlockAck.OpenSession | src/rust/src/mac.rs:456-497 | Enabling a session adds exactly one pair to the decoded map |
| BlockAck.CloseSession | src/rust/src/mac.rs:456-497 | Disabling one removes exactly one pair |
| BlockAck.NoSessions | src/c/mac80211.c:1150 | A zero word means no sessions |
| BlockAck.BuildBaSession | src/rust/src/mac.rs:456-497 | The one operation written, or -EINVAL / -ENOSPC and no change |
| BlockAck.SearchWindow | src/rust/src/mac.rs:473-485 | The search loop, which overshoots and steps back, ends at the greatest window that fits |
| BlockAck.WindowIndexIsGreatestFit | src/rust/src/mac.rs:473-485 | An index is chosen if and only if it is the greatest whose size does not exceed the request (or 0) |
| BlockAck.WindowIndexMonotone | src/rust/src/mac.rs:473-485 | A larger request never gets a smaller window |
| BlockAck.WindowThresholds | src/rust/src/mac.rs:471-485 | The eight thresholds |
| BlockAck.SessionValues | src/rust/src/mac.rs:600-619 | A size of 0 stands for 64, and the session words of some calls, those of the unit test included |
| BlockAck.NarrowingLosesWindow | src/c/mac80211.c:1314-1320 | Exactly when narrowing the peer's 16-bit buffer size to 8 bits costs window size |
| Regmap.MapInjectiveBelow | src/rust/src/regmap.rs:33-57 | Below 0x5000_0000 no two registers meet |
| Regmap.MapIdempotent | src/rust/src/regmap.rs:33-57 | Translating twice is translating once, on all 32-bit addresses |
| Regmap.MapMovesUp | src/rust/src/regmap.rs:33-57 | Every moved address comes from below 0x5000_0000 and lands at or above it |
| Regmap.MapCollisions | src/rust/src/regmap.rs:33-57 | On all addresses, two meet exactly when one is the other or its translation |
| Regmap.BlocksInOrder | src/rust/src/regmap.rs:10-29 | The translation of the MAC blocks keeps their order and never brings two addresses closer |
| Regmap.AnchorValues | src/rust/src/regmap.rs:59-127 | The first and last address of each window, as the unit tests expect |
| Device.DriverRunSimulatesPlain | src/c/regops.c:16-109 | Any list of writes to registers that have one name, run through the translation and read back through it, agrees with a register file without translation |
| Device.FuseRegistersNamed | src/c/regops.c:111-117 | The fuse array's registers, which lie above the kernel-facing ones, are such registers |
| Device.MappedExecSimulatesPlain | src/c/regops.c:16-109 | The same holds under any translation that keeps the kernel-facing registers apart |
| Device.AliasingShows | src/c/regops.c:16-109 | A translation under which two registers meet fails that after two writes |
| Device.ExecGet | src/c/regops.c:100-109 | A register holds the last value that a write list sends to it |
| Device.ExecKeeps | src/c/regops.c:100-109 | A register that a list does not name keeps its value |
| Device.UsbDevice.ReadReg | src/c/regops.c:16-36 | Reading returns the register of that name, or an error |
| Device.UsbDevice.WriteReg | src/c/regops.c:38-55 | Writing changes the register of that name and no other |
| Device.UsbDevice.ExecuteRegOps | src/c/regops.c:100-109 | On every exit a beginning of the list has reached the device, on success all of it |
| RxInverse.BuiltDelivered | src/rust/src/rx.rs:8-154 | For every subframe built from a base, optional groups 4, 1, 2 and 3 (16, 16, 8 and 24 bytes), alignment bytes and a frame, exactly that frame is delivered, with signal, rate and decryption of its own parts, if and only if type and checksum allow it and it has more than four bytes |
| RxInverse.TransferDelivered | src/c/mac80211.c:109-279 | The same for every aggregate of such subframes: the loop hands up, subframe by subframe, exactly what was built |
| RxInverse.BuiltClassified | src/rust/src/rx.rs:119-151 | Channel, beacon and data marks of every built subframe |
| RxInverse.ReportRead | src/c/mac80211.c:143-171 | A status report built from 20-byte entries yields exactly these entries in order |
| RxInverse.EntryRead | src/c/mac80211.c:155-166 | Packet id and failure mark of an entry, whatever the other bits hold |
| RxInverse.HtReceived | src/rust/src/rx.rs:79-117 | A receive vector with an HT mode yields its index, width and guard interval |
| RxInverse.OfdmReceived | src/rust/src/rx.rs:86-110 | The OFDM code that the transmitter uses for its rate i is received as index i + 4 |
| RxInverse.CckReceived | src/rust/src/rx.rs:86-117 | Either CCK code of rate i is received as index i |
| RxWalk.WalkInvertsAggregate | src/c/mac80211.c:127-279 | De-aggregation visits exactly the aggregated subframes, in order, if and only if none is shorter than nine bytes |
| RxWalk.WalkIgnoresRemainder | src/c/mac80211.c:127-279 | A remainder that holds no subframe adds none |
| RxWalk.WalkStaysInside | src/c/mac80211.c:127-136 | On arbitrary buffers every visited subframe lies inside the buffer, behind its predecessor, and announces its own length |
| RxWalk.OffsetAligned | src/c/mac80211.c:272-277 | Every subframe starts at a multiple of four |
| RxWalk.EventsLocal | src/c/mac80211.c:130-270 | All that a subframe causes depends on its own bytes only |
| RxWalk.TxsLocal | src/c/mac80211.c:143-171 | The transmit-status entries of a subframe depend on its own bytes only, and all lie within them |
| RxWalk.RxComplete | src/c/mac80211.c:109-279 | The loop hands up, subframe by subframe, what each one causes, and nothing on a failed transfer |
| RxWalk.ReportTxs | src/c/mac80211.c:143-179 | Entries are reported if and only if the announced length is exactly right for their number |
| RxWalk.DeliverFrame | src/c/mac80211.c:180-270 | A frame is handed up exactly when it parses, is longer than four bytes and has no checksum error, with the payload, signal, rate and decrypted flag of its descriptor |
| RxDescriptor.ParseRxFrame | src/rust/src/rx.rs:8-154 | The parser meets its specification, which does not depend on the order of the checks |
| RxDescriptor.ParsedInBounds | src/rust/src/rx.rs:29-151 | On success header and payload lie inside the buffer, and the separately computed start of group 3 agrees with the header length |
| RxDescriptor.DeliverLocal | src/c/mac80211.c:180-270 | Delivery, payload, signal, rate and decrypted flag are those of the exact slice, whatever follows it |
| RxDescriptor.ShortYieldsNothing | src/c/mac80211.c:180-211 | A subframe below 16 bytes never yields a frame |
| RxDescriptor.HeaderCutOff | src/rust/src/rx.rs:29-58 | A subframe that ends within its own header yields nothing |
| RxDescriptor.RateCodeRoundTrip | src/rust/src/rx.rs:79-117 | The one-byte code carries mode, index, width and guard interval to mac80211; indices fit its tables |
| RxDescriptor.AccumulateHeader | src/rust/src/rx.rs:29-51 | The header length found flag by flag is the specified one |
| RxDescriptor.ReadVector | src/rust/src/rx.rs:66-117 | Signal and rate come from group 3, whose offset is computed again |
| RxDescriptor.EncodeRate | src/rust/src/rx.rs:86-117 | The rate code built bit by bit is the specified one |
| RxDescriptor.Classify | src/rust/src/rx.rs:131-148 | Beacon and data classification |
| TxFrame.DecapEncap | src/c/mac80211.c:861-878 | Completion restores the original frame if and only if its length fits the sixteen bits it is stored in |
| TxFrame.UnwrapWrap | src/c/mac80211.c:861-878 | Unwrapping undoes wrapping exactly when the remembered length is the frame's own |
| TxFrame.EncapLength | src/c/mac80211.c:1047-1065 | The transfer is roundup4(32 + length + pad) + 4 bytes, and its tail is zero |
| TxFrame.EncapByteCount | src/c/mac80211.c:1047-1056 | The byte count is the builder's for management frames, and for others the rounded length exactly when that fits sixteen bits |
| TxFrame.MetaFields | src/c/mac80211.c:1067-1072 | Length, header length and pad come back from the remembered word |
| TxFrame.Skb.InsertPad | src/c/mac80211.c:1013-1034 | Alignment bytes are zero, and header and payload are intact around them |
| TxFrame.Skb.Restore | src/c/mac80211.c:861-878 | The in-place undoing equals its specification |
| TxFrame.Skb.MoveUp | src/c/mac80211.c:1029-1031 | The overlapping move towards the end |
| TxFrame.Skb.MoveDown | src/c/mac80211.c:872-876 | The overlapping move towards the start |
| TxFrame.Skb.CopyExpand | src/c/mac80211.c:1021-1024 | A copy holds the same data and has the rooms asked for |
| Txd.BuildTxwi | src/rust/src/tx.rs:59-153 | Writes the descriptor, or -ENOSPC / -EINVAL with either no change or a cleared descriptor |
| Txd.Word0Fields | src/rust/src/tx.rs:63-86 | The queue always reads back; the byte count exactly when padding does not push it past sixteen bits |
| Txd.Word1Fields | src/rust/src/tx.rs:88-102 | Station, header length, pad, acknowledgement policy and protection read back |
| Txd.Word2Fields | src/rust/src/tx.rs:104-112 | Type, subtype and multicast mark read back |
| Txd.Word6Fields | src/rust/src/tx.rs:120-150 | Bandwidth, rate and guard interval read back |
| Txd.RateRecovered | src/rust/src/tx.rs:35-57 | The rate code reads back as the rate asked for, except exactly for short-preamble 1 Mbit/s, which reads as 2 Mbit/s |
| Txd.RateValues | src/rust/src/tx.rs:300-343 | The rate codes that the unit tests expect |
| Txd.QosDataBytes | src/rust/src/tx.rs:259-298 | All 32 bytes of the descriptor of one protected data frame, that of the unit test |
| TxSelect.ParamsInRange | src/c/mac80211.c:915-995 | The driver never asks for a rate outside the builder's tables |
| TxSelect.SentTells | src/c/mac80211.c:915-1065 | While the rounded length fits, the descriptor in front of every sent frame tells byte count, type, multicast, station, queue, acknowledgement, protection, header length and pad of that frame, and the rate, streams, guard interval and bandwidth that the stack chose, or those of the fallback |
| TxSelect.SentLayout | src/c/mac80211.c:1013-1065 | Behind the descriptor come the header, zero bytes up to a multiple of four, the payload, and a zero tail of four to seven bytes |
| TxSelect.SentAlways | src/rust/src/tx.rs:96-144 | Every sent descriptor turns aggregation off and fixes rate and bandwidth, allows fifteen retries, and asks for a status report with packet id 0x42 exactly for data frames |
| TxSelect.SentFields | src/c/mac80211.c:915-1056 | Each field is the one built from the parameters, with the byte count rewritten for data |
| TxSelect.SentRate | src/c/mac80211.c:961-990 | The rate in front of a sent frame is the one the stack wanted, with the one exception |
| TxSelect.RewrittenFields | src/c/mac80211.c:1049-1053 | Rewriting the byte count changes no other field |
| TxLedger.SkbConservation | src/c/mac80211.c:841-1096 | Over every run, with completions falling anywhere between the steps of a submission, each buffer given or made is in flight under one transfer, or was released exactly once, or is being worked on; made = released + in flight + worked on; reports show the original frames |
| TxLedger.TransmittedInSteps | src/c/mac80211.c:897-1096 | One call of the transmit entry point is the run of its steps, for every combination of answers |
| TxLedger.AliveUntilEnd | src/c/mac80211.c:1078-1096 | After its transfer started, a buffer may be touched exactly until that transfer ends |
| TxLedger.LengthReadTooLate | src/c/mac80211.c:1089-1096 | The log lines behind a successful submission may read the length of a buffer that is gone |
| TxLedger.RunKeeps | src/c/mac80211.c:841-1096 | Conservation and fidelity are invariants of every run |
| TxLedger.StepConserves | src/c/mac80211.c:841-1096 | No step loses a buffer or releases one twice |
| TxLedger.StepFaithful | src/c/mac80211.c:861-894 | Every transfer carries the encapsulation of the frame its buffer stands for, and every report shows that frame |
| TxLedger.Submits | src/c/mac80211.c:908-1096 | A submission adds a transfer if and only if every call it makes succeeds, and never more than one |
| TxLedger.SucceedsExactly | src/c/mac80211.c:897-1096 | That condition in numbers: radio up, length and header length, each of the three rooms that may be missing, and the transfer |
| TxLedger.Delivered | src/c/mac80211.c:861-894 | When the transfer of a submitted frame ends, that very frame is reported, acknowledged if the transfer succeeded and an acknowledgement was wanted, if and only if the radio is up and it is no beacon; otherwise it is freed |
| TxLedger.OutcomeTold | src/c/mac80211.c:861-894 | The same for any transfer that carries a frame of less than 65536 bytes; with the radio down every buffer is freed |
| TxLedger.EndingsTold | src/c/mac80211.c:841-895 | The same for every transfer that ends in any run: one buffer is released, and what becomes of it follows from the frame it was handed over with |
| TxLedger.TransmittedKeeps | src/c/mac80211.c:897-1096 | A call of the transmit entry point keeps both invariants |
| TxLedger.Counted | src/c/mac80211.c:841-1096 | made = released + in flight + worked on, as numbers |
| TxDriver.Transmitter.Tx | src/c/mac80211.c:897-1096 | The transmit entry point on real buffers changes the books as the ledger says, with a copy wherever one was needed and granted; the transfer starts exactly when the frame is not declined and the kernel grants all that is needed |
| TxDriver.Transmitter.TxComplete | src/c/mac80211.c:841-895 | Completion on real buffers releases one buffer, reported or freed as its frame, the radio and the transfer's outcome say; buffers still in flight are untouched |
| TxDriver.Kernel.Assemble | src/c/mac80211.c:1013-1065 | Every path through the three reallocations: a copy is made exactly when needed, reached and granted, the old buffer is freed exactly when a copy was needed, and what is left holds the whole encapsulation |
| TxDriver.Kernel.Align | src/c/mac80211.c:1013-1034 | Copy if room for the alignment bytes is missing, free the original, insert the bytes; on failure nothing is held |
| TxDriver.Kernel.Prepend | src/c/mac80211.c:1036-1048 | Copy if room for the descriptor is missing, free the original, prepend it; on failure nothing is held |
| TxDriver.Kernel.Append | src/c/mac80211.c:1058-1065 | Copy if room for the tail is missing, free the original, append zeros; on failure nothing is held |
| TxDriver.BuildTxd | src/c/mac80211.c:992-1011 | The tagged descriptor, or the builder's refusal |
| Firmware.Download | src/c/usb.c:369-540 | Against a device that shows readiness in bit 0 and running firmware in bit 1 within a poll, when nothing fails and the image is complete, it succeeds and the device runs fw[0..dl_len] from 0x100000. On every exit what was sent is a beginning of the plan, a restart is in it exactly when bit 1 of the second access is set and the restart arrives, nothing else is sent before the ROM was seen ready, and the scheduler register saw its words in order; only an incomplete image, a failing call or a silent device prevents success |
| Firmware.Arrives | src/c/usb.c:369-540 | The success of a download against such a device, from the history of any one |
| Firmware.PlanNumbers | src/c/usb.c:363-515 | The commands are numbered from 1 in order, with the restart in front if firmware was seen running |
| Firmware.Scheduler.FourWrites | src/c/usb.c:405-539 | The four words written to the scheduler register, one of them the pulse of the reset bit |
| Firmware.Scheduler.NormalAgain | src/c/usb.c:405-539 | Once bypass mode was entered, whatever failed later, a restoring reading that succeeds and a last write that takes effect leave bypass, forced queue and reset bits clear and all other bits as before |
| Firmware.Scheduler.Restore | src/c/usb.c:527-539 | What the reading and the three writes leave, for every outcome of each |
| Firmware.InBypass | src/c/usb.c:417-540 | Every exit in bypass mode goes through the restoration |
| Firmware.PlanStartsImage | src/c/usb.c:423-523 | When all that is due arrives, the boot ROM runs exactly fw[0..dl_len] |
| Firmware.RestartDecides | src/c/usb.c:385-403 | A device that still runs firmware ends up running the image if and only if the restart reached it |
| Firmware.PlanFits | src/c/usb.c:75-97 | No transfer of a download, the restart included, exceeds 4096 bytes |
| Firmware.RestoredWord | src/c/usb.c:527-538 | Bypass, forced queue and reset bits end up clear and all other bits as before |
| Firmware.Cable.Poll | src/c/usb.c:303-315 | It stops at the first reading that shows the bit or fails, and after 500 that do neither |
| Firmware.Load | src/c/usb.c:430-523 | Nothing is sent before a reading showed the ROM ready, and success ends with a reading that shows the firmware running |
| Firmware.Probe | src/c/usb.c:377-403 | A restart is sent exactly when bit 1 of the status reading is set; its sequence number; its ignored outcome |
| Firmware.EnterBypass | src/c/usb.c:405-415 | The loader's word, or no effect but that of a failing write |
| Delivery.Scatter | src/c/usb.c:471-493 | The chunk loop sends exactly the scatter frames of the image when no transfer fails, and otherwise a beginning of them |
| Delivery.Transmit | src/c/usb.c:439-515 | Announcement, image and start order in this order; it succeeds exactly when no call fails and the image is as long as announced, and nothing follows the announcement of one that is not |
| Delivery.Pipe.Send | src/c/usb.c:75-97 | One transfer with four bytes of padding |
| Rom.ScriptLoads | src/rust/src/mcu.rs:130-185 | The ROM accepts the sent sequence and ends with exactly the announced bytes, or waits for them when they do not exist |
| Rom.ScattersLoad | src/c/usb.c:471-493 | The scatter payloads concatenate to the image |
| Rom.ChunksCover | src/c/usb.c:471-495 | The pieces make up the image; there are ceil(n / 4064) of them, each of 1 to 4064 bytes |
| Rom.ScattersCarryChunks | src/rust/src/mcu.rs:436-454 | One frame per piece, each within 4096 bytes with its padding |
| Rom.RestartWorks | src/rust/src/mcu.rs:198-210 | A restart makes running firmware accept the download |
| McuFrame.ParseInvertsFrame | src/rust/src/mcu.rs:64-121 | Parsing recovers command, queue, sequence number, acknowledgement and payload, with a zero reserved block, if and only if the frame fits its length field |
| McuFrame.BuildFwTxdFrame | src/rust/src/mcu.rs:64-121 | The frame, with the bytes past it untouched; an error writes nothing |
| McuFrame.BuildAddrLen | src/rust/src/mcu.rs:130-154 | The announcement frame |
| McuFrame.BuildStart | src/rust/src/mcu.rs:162-185 | The start frame |
| McuFrame.BuildRestart | src/rust/src/mcu.rs:198-210 | The restart frame |
| McuFrame.BuildScatter | src/rust/src/mcu.rs:436-454 | The scatter frame; a chunk above 4064 bytes is refused |
| McuFrame.DlLenWraps | src/rust/src/mcu.rs:456-460 | The announced length is the last word plus four exactly when that does not wrap |
| McuFrame.AnnouncementBytes | src/rust/src/mcu.rs:130-154 | The announcement byte by byte |
| McuFrame.StartBytes | src/rust/src/mcu.rs:162-185 | The start order byte by byte |
| McuFrame.RestartBytes | src/rust/src/mcu.rs:198-210 | The restart byte by byte |
| McuFrame.ScatterBytes | src/rust/src/mcu.rs:436-454 | A piece of the image on the wire: its own queue, no number |
| McuFrame.AckByte | src/rust/src/mcu.rs:64-121 | An answer is asked for exactly by numbered extended commands that set or query and wait |
| Machine.CopyBytes | src/rust/src/util.rs:16-26 | The copy loop changes its window and nothing else |
| CmdSeq.CountersAgree | src/c/usb.c:363-367 | The two counter formulas agree exactly on 0 to 15 and on multiples of fifteen |
| CmdSeq.NextCmdSeq | src/c/usb.c:363-367 | A number is in 1 to 15 |
| CmdSeq.NextDevSeq | src/c/mac80211.c:394 | A number is in 1 to 15, and one more modulo 15 |
| CmdSeq.Counter.StartDevice | src/c/mac80211.c:442-533 | The numbers that a start assigns and sends, for every outcome of its commands |
| CmdSeq.Counter.Perform | src/c/mac80211.c:372-533 | A run of starts and channel switches leaves exactly the log that the lemmas are about |
| CmdSeq.Counter.SetChannel | src/c/mac80211.c:372-423 | The two numbers that a channel switch assigns and sends |
| CmdSeq.StartTakes | src/c/mac80211.c:442-533 | How many numbers a start takes, and for which commands |
| CmdSeq.SwitchTakes | src/c/mac80211.c:372-423 | A change of the channel takes two |
| CmdSeq.SameNumber | src/c/mac80211.c:394-449 | Two assigned numbers are the same exactly at a distance divisible by fifteen; none is zero |
| CmdSeq.Collide | src/c/mac80211.c:372-533 | In every run, two commands that were sent carry the same number exactly when the sends and the losses between them add up to a multiple of fifteen |
| CmdSeq.FifteenInARow | src/c/mac80211.c:372-533 | In every run, any fifteen commands sent in a row differ if and only if between no two of them the losses fill up a round |
| CmdSeq.NoLossNoCollision | src/c/mac80211.c:372-533 | A run that loses no number meets that condition |
| CmdSeq.LostNumbersCollide | src/c/mac80211.c:394-464 | A run that does not: two channel switches with thirteen starts without memory between them send number 1 twice in a row |
| Elements.WalkInvertsEncoding | src/rust/src/sta.rs:68-92 | The walk reads back every list of non-empty elements, whatever unreadable rest follows |
| Elements.ParseBeacon | src/rust/src/sta.rs:54-94 | The loop meets the specification by elements, on every input |
| Elements.FirstSsidWins | src/rust/src/sta.rs:80-84 | The first name element counts, cut to 32 bytes |
| Elements.LastChannelWins | src/rust/src/sta.rs:85-88 | The last channel element counts |
| Elements.FrameRead | src/rust/src/sta.rs:54-94 | Whatever the rest of a frame holds, address, capability, name and channel come from their places in it |
| Elements.BuildBeacon | src/rust/src/ap.rs:4-63 | The beacon, with the bytes past it untouched; -ENOSPC changes nothing |
| Elements.BuildProbeRequest | src/rust/src/sta.rs:6-52 | The probe request, with the bytes past it untouched; -ENOSPC changes nothing |
| Elements.BeaconBytes | src/rust/src/ap.rs:4-63 | The beacon byte by byte |
| Elements.ProbeBytes | src/rust/src/sta.rs:6-52 | The probe request byte by byte: source and BSSID in this order |
| Elements.BeaconRoundTrip | src/rust/src/ap.rs:4-63 | Parsing a built beacon returns what it was built from exactly for names of 1 to 32 bytes (or no name and channel 0) |
| Elements.ProbeRoundTrip | src/rust/src/sta.rs:6-52 | Name and rates read back exactly for names of 1 to 255 bytes |
| Efuse.ReadAll | src/c/regops.c:167-182 | Success means that every full block of the window is the device's row 16 k, or all 0xff where the device has none, for windows up to 1024 bytes; nothing behind the last full block changes; at most 102 readings per block |
| Efuse.ReadBlock | src/c/regops.c:125-163 | One block, with everything outside its window untouched |
| Efuse.Fuses.Ask | src/c/regops.c:130-143 | The command selects the block, and the answer is waited for at most 100 times |
| Efuse.RowOfBlock | src/c/regops.c:176-180 | Block n comes from row 16 n |
| Efuse.ImageAt | src/c/regops.c:176-180 | Where each block is in the image |
| Efuse.AddressIs | src/c/regops.c:176-180 | Block n is at address 16 n |
| Efuse.RequestSelectsRow | src/c/regops.c:132-133 | Whatever was in the command word, the device sees the block asked for |
| Efuse.AnswerSays | src/c/regops.c:149-153 | The driver takes a block for blank exactly when it is invalid or reports all ones |
| Efuse.RequestBits | src/c/regops.c:130-135 | The command word: read mode, the start bit, the row, and all other bits as before |
| Efuse.AnswerAt | src/c/regops.c:138-153 | Which bits of the command word say that the array is done, and what it found |

## Left out

- USB core, URB scheduling, work queues, mac80211 internals and logging: foreign calls, of which only success or failure is kept.
- Answers to commands: the sessions that wait for them in src/c/usb.c have no effect on what is sent, apart from failing to start.
- Diagnostic output, including the receive path's short-frame dump, which reads fields that a failing parse leaves unset.
- Register tables that are constants (MAC initialisation, synchronisation, filters, contention parameters), settled by inspection.
- Runtime command payloads (channel switch, transmit power, calibration upload): clients of the framing that is modelled; only their sequence numbers are kept.
- Association frames, EEPROM fields, station rate tables, beacon work and interface bookkeeping: they would only add easy members.
- Access-point part of `bss_info_changed` (own address, beacon timing): registers outside the tables.
- TxLedger.SkbConservation: completions may fall anywhere, but two submissions do not overlap one another.
- `verify_firmware`: a comparison of constants.
- Null checks and struct layouts at the language border, and the volatile accesses of `copy_bytes`.
- TxFrame.Skb.CopyExpand: the kernel may give more room than asked for; the model gives exactly as much.
- TxDriver.Transmitter.Tx: the header length is a parameter, because the kernel computes it from the frame control word; so are the rate control flags that the driver reads.
- Device.UsbDevice.ReadReg: the wire address is a number; its split over two request fields is not modelled.
- Firmware.Download: the reading that follows a poll without success only feeds a log line and is not modelled.
