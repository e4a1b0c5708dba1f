# A verified model of the keyboard firmware's state machines

This project models the protocols, schedulers, caches and bit-level loops of the
ESP32 keyboard firmware in Dafny and proves what they keep over whole runs. Each
component has a specification of its steps as functions on plain state, a class
whose methods follow the C code and are proved to do exactly those steps, and
lemmas about every run of the steps. For what a step decides there are lemmas that
state it without the step's own functions: ranks, schedules, answers and timelines
defined on the inputs and on nothing else.

| file | component |
|---|---|
| `Numbers.dfy`, `Options.dfy`, `KeyMatrix.dfy` | shared small definitions |
| `Bits.dfy` | byte-addressed bitmaps and the loop over set bits |
| `CommCrc.dfy` | the packet checksum, as polynomial division |
| `CommPacket.dfy`, `CommRx.dfy`, `CommTx.dfy`, `CommBlast.dfy`, `CommRecovery.dfy` | Blast+Reconcile transfer between two nodes over lossy FIFO channels: safety, and recovery from losses |
| `CommSingle.dfy` | messages that do not use Blast |
| `SplitRole.dfy`, `SplitSession.dfy` | role decision and negotiation between two paired halves |
| `SplitPair.dfy` | pairing among any number of devices |
| `ConfigSync.dfy` | fragmentation and reassembly of configuration blobs |
| `TapHold.dfy`, `TapHoldRuns.dfy` | the tap-hold resolver and what it keeps over whole runs |
| `TapHoldAnswers.dfy`, `TapHoldPresses.dfy`, `TapHoldHeld.dfy`, `TapHoldReports.dfy` | which presses it takes, how it answers them and when, told from events and rules alone |
| `Combo.dfy`, `ComboRuns.dfy`, `ComboActs.dfy` | key combos: their records, and what they dispatch |
| `SystemAction.dfy`, `ActionTiming.dfy` | tap, double tap and hold trackers, and what each press comes to |
| `Macro.dfy`, `MacroKeys.dfy` | the macro executor, and which keys a macro presses and releases when |
| `TapSlots.dfy`, `TapTimes.dfy` | the tap scheduler, and when each tap is pressed and released |
| `BleReconnect.dfy`, `BleSelected.dfy` | the BLE reconnect scheduler |
| `Layouts.dfy`, `LayoutRuns.dfy` | the layer cache, the layer order and the action lookup |
| `Debounce.dfy`, `EdgeWalk.dfy` | the scan path |

Conventions. Bit masks that the source only tests and sets (layer masks, pending
profiles) are sets of bit numbers; bitmaps whose bytes matter are sequences or
arrays of bytes. Messages that may be lost, repeated or reordered are a growing
list or set from which any element may arrive at any time. Fields called `log`,
`trace`, `taps`, `done`, `derived` and the like are history: they record what has
happened and decide nothing. Random numbers, clocks, the outcome of storage, radio
and crypto calls, and what other modules answer are parameters of the step that
meets them. Cryptographic functions are arbitrary function values; ECDH is assumed
to commute.

Where the code and its comments differ, the code is followed. The comment above the
checksum table calls the polynomial reflected, but the table is that of plain
division by x^8 + x^2 + x + 1. The one above the replay check describes a window in a
16-bit space, but the code compares 64-bit numbers. `split_protocol.h` comments a
payload of 240 bytes and 225 bytes of configuration data per fragment; its definitions
give 236 and 221.

What the proofs found in the code, each with a run or input that shows it and the
exact condition:

- A half whose session-key derivation fails still becomes CONNECTED
  (`SplitSession.KeyMismatchReachable`). If it remembers the peer's salt, no negotiation
  gives it a key (`SplitSession.KeylessRepairedIff`), so it stays connected without one
  until something else disconnects it (`SplitSession.KeylessForever`); more than five
  authentication failures do (components/split/split_task.c:316-319).
- A half that alone loses the connection sends the first number of its epoch again. The
  other half, still connected, takes that for a replay exactly when it has seen this or a
  larger number, and then does not answer; else its answer alone brings both back with
  the same key (`SplitSession.ResumedIff`).
- A layer index that arrives from outside can leave the swap slot naming a layer that
  no longer exists; a layer created under that id then shows the old codes. It is
  harmless exactly when it keeps the layer swapped in at that moment
  (`LayoutRuns.ReplaceIndexHarmlessIff`, `LayoutRuns.CreatesMakeStale`). The input is a
  SET of the key `lay_idx` over USB: it is refused unless it has the size of a layer,
  216 bytes (components/config_module/cfgmod.c:306), and those then replace the mask, the
  order and the first names. Firmware halves push the key `ly_idx`, which the callback
  takes for an update of layer 0.
- Reordering accepts repeated ids and loses layers
  (`LayoutRuns.ReorderKeepsOrderIff`, `LayoutRuns.ReorderAcceptsRepeats`).
- The fragment count of a configuration push wraps around above 255 fragments, and
  the tail of the blob is not sent (`ConfigSync.PushCoversIff`, `ConfigSync.WrappedToNothing`).
- A fragment does not say to which push it belongs. A push that is broken off and
  followed by one of another blob, under the same kind, key and count and before a
  reset, leaves a mixture to be written (`ConfigSync.TornBlob`); `ConfigSync.WhatWaits`
  says exactly when what waits is one blob.
- A press out of order makes a strict combo forget its keys but leaves it active: press
  both keys of a combo of two, release the first and press it again
  (`ComboRuns.StuckComboReachable`, `ComboRuns.PressForgetsIff`).
- Releases on a layer that the combo is not on are not seen by it: press both keys of a
  combo of two, leave its layers and release both, and it stays active
  (`ComboRuns.HeldThoughReleased`). Releases end an active combo exactly when some key of
  it is recorded and the releases that it sees free one recorded key, for a combo that
  goes by the first, or all of them (`ComboRuns.EndsIff`).
- A seventeenth input while a tap-hold press is undecided decides for a hold, also when
  the press came too soon after another key for a hold and in any flavor
  (`TapHoldAnswers.AnswerIs`).
- A transfer whose bitmap does not fit into one payload can never be completed
  (`CommRecovery.DeliverableIff`); with 15 bytes to a packet that is everything from 1816
  to 5760 bytes (`CommRecovery.TooLongForSmallPackets`).
- Failed connections use up no cycles of the finite reconnect phase, so any number of
  them prolongs it; it ends exactly when the timeouts number the remaining cycles
  (`BleReconnect.FiniteEndsIff`). The branch that would alternate a selected profile with
  others is never taken (`BleReconnect.SelectedIsAlone`).

## Model

| member | source | states |
|---|---|---|
| `Bits.BitSet` | components/keyboard/kb_bitmap.h:20-22 | sets the addressed bit of the bitmap and no other |
| `Bits.BitClear` | components/keyboard/kb_bitmap.h:24-26 | clears the addressed bit and no other |
| `Bits.BitGet` | components/keyboard/kb_bitmap.h:28-30 | reads the addressed bit |
| `Bits.NextBit` | components/keyboard/kb_manager.c:416-445 | a step of the loop over set bits finds the lowest one and clears only it |
| `CommCrc.ComputeCrc8` | components/comm_module/comm_crc.c:29-35 | the loop computes the checksum function of the bytes |
| `CommCrc.PreparePacket` | components/comm_module/comm_crc.c:38-43 | only the last byte changes, and the packet is then accepted; an empty packet stays |
| `CommCrc.VerifyPacket` | components/comm_module/comm_crc.c:46-50 | answers whether the packet is accepted; an empty packet is not |
| `CommCrc.TableIsDivision` | components/comm_module/comm_crc.c:9-26 | every table entry is eight steps of bitwise division by x^8 + x^2 + x + 1 |
| `CommCrc.CrcIsRemainder` | components/comm_module/comm_crc.c:29-35 | the table loop equals bitwise division of the whole message, for any length |
| `CommCrc.AcceptsIffMultiple` | components/comm_module/comm_crc.c:46-50 | exactly the multiples of the generator polynomial are accepted |
| `CommCrc.DivisionAlgorithm` | components/comm_module/comm_crc.c:29-35 | dividend = quotient times generator plus the register's remainder |
| `CommCrc.OnlyItsChecksumIsAccepted` | components/comm_module/comm_crc.c:38-50 | of the 256 last bytes exactly the prepared one is accepted |
| `CommCrc.CrcLinear` | components/comm_module/comm_crc.c:29-35 | the checksum of the XOR of two messages is the XOR of their checksums |
| `CommCrc.UndetectedIffNoRemainder` | components/comm_module/comm_crc.c:46-50 | a damaged packet passes exactly when its error polynomial has no remainder |
| `CommCrc.BurstRejected` | components/comm_module/comm_crc.c:46-50 | every error confined to 8 consecutive bits is rejected |
| `CommCrc.OddErrorRejected` | components/comm_module/comm_crc.c:46-50 | every error of odd weight is rejected |
| `CommCrc.NoSmallerPeriod` | components/comm_module/comm_crc.c:9-26 | x has order exactly 127 modulo the generator |
| `CommCrc.DoubleErrorAcceptedIff` | components/comm_module/comm_crc.c:46-50 | a two-bit error passes exactly when the distance is a multiple of 127 bits |
| `CommRx.Receiver.EraseBuffer` | components/comm_module/comm_rx.c:267-275 | buffer, Blast mode, bitmap and lengths are reset |
| `CommRx.Receiver.ReceivePacket` | components/comm_module/comm_rx.c:92-123 | index and offset from the remaining count, bounds, duplicate test, copy, length and bit |
| `CommRx.Receiver.BuildBitmapResponse` | components/comm_module/comm_rx.c:125-140 | the bitmap cut to the bytes needed and to what one packet carries at this moment |
| `CommRx.Receiver.SumLens` | components/comm_module/comm_rx.c:163-171 | the loop adds up the stored lengths as a uint16_t |
| `CommRx.Receiver.BlastCommit` | components/comm_module/comm_rx.c:142-190 | stores LAST, delivers buffer and length without looking at the bitmap, answers OK or ERR, resets |
| `CommRx.Receiver.ProcessRxRequest` | components/comm_module/comm_rx.c:192-265 | FIRST opens a transfer, MID stores, LAST outside a commit does nothing, the rest goes the append path |
| `CommRx.Receiver.OnPacket` | components/comm_module/comm_dispatch.c:49-132 | checksum failures, STATUS_REQ, BITMAP and requests are routed as the code does |
| `CommTx.Sender.SendPacketByIndex` | components/comm_module/comm_tx.c:159-184 | the packet of an index, or failure |
| `CommTx.Sender.SendMissingPackets` | components/comm_module/comm_tx.c:112-133 | every MID packet the bitmap does not report is sent in order until a send fails |
| `CommTx.Sender.StartTransfer` | components/comm_module/comm_tx.c:393-415 | a multi-packet transfer starts with FIRST, or is erased when that cannot be sent |
| `CommTx.Sender.HandleBitmap` | components/comm_module/comm_tx.c:93-157 | at most five rounds; repair and STATUS_REQ, or LAST, or ABORT |
| `CommTx.Sender.ProcessResponse` | components/comm_module/comm_tx.c:194-291 | the new transfer state and what is sent, for every flags byte |
| `CommBlast.StoreGood` | components/comm_module/comm_rx.c:92-123 | storing a genuine packet keeps every stored packet right and marks exactly its own bit |
| `CommBlast.CommitGood` | components/comm_module/comm_rx.c:142-190 | a commit when all but LAST are stored delivers exactly the payload: the lengths add up to it and every byte is in place |
| `CommBlast.BitmapGood` | components/comm_module/comm_rx.c:125-140 | a bitmap response reports exactly the stored packets within its length |
| `CommBlast.LastNeedsFullBitmap` | components/comm_module/comm_tx.c:93-157 | LAST is released exactly by a bitmap that reports every MID packet, within five rounds; a short one cannot |
| `CommBlast.StepKeepsInv` | components/comm_module/comm_dispatch.c:73-122 | every step of the two nodes and of the channels keeps the protocol invariant |
| `CommBlast.DeliveredOnceAndCorrectly` | components/comm_module/comm_rx.c:142-190 | in every run with losses, corruption and refused sends the callback runs at most once and on exactly the sender's payload |
| `CommBlast.RepairsBounded` | components/comm_module/comm_tx.c:99-133 | at most 5 (n - 2) MID packets are sent as repairs in a run |
| `CommRecovery.MissingSent` | components/comm_module/comm_tx.c:112-133 | of the MID packets that a bitmap lacks each is sent once and in ascending order, and no other packet; all of them unless the transport stops accepting |
| `CommRecovery.BitmapRepairsExactly` | components/comm_module/comm_tx.c:93-157 | with a round and the transport left, a bitmap makes the sender send MID packet i, for each i, if and only if bit i is not set, closed by STATUS_REQ, and LAST alone when none is missing; the round is counted |
| `CommRecovery.Recovers` | components/comm_module/comm_tx.c:93-291 | from every reachable state, whatever was lost, corrupted or refused before, in which something that keeps the transfer going is on its way and two rounds are left, a continuation without loss delivers |
| `CommRecovery.OkMeansDelivered` | components/comm_module/comm_dispatch.c:73-122 | in every run OK is on its way to the sender only after the payload has been delivered |
| `CommRecovery.LosslessRunDelivers` | components/comm_module/comm_tx.c:93-291 | some run delivers when one bitmap response can cover the MID packets |
| `CommRecovery.DeliverableIff` | components/comm_module/comm_rx.c:130-137 | a transfer that fits can be delivered by some run if and only if one bitmap response covers its MID packets |
| `CommRecovery.TooLongForSmallPackets` | components/comm_module/comm_rx.c:130-137 | with 15 bytes to a packet no run delivers a payload of 1816 to 5760 bytes, which is accepted for sending |
| `CommSingle.MessageIsDelivered` | components/comm_module/comm_rx.c:234-265 | a message that fits, in one packet or several, is delivered once and as it was sent; every packet is acknowledged, and ERR follows exactly when the callback refuses |
| `SplitRole.DecideComplementaryIff` | components/split/split_role.c:49-115 | the two halves take complementary roles exactly when they differ in something the decision looks at |
| `SplitRole.MasterIffHigherRank` | components/split/split_role.c:49-105 | a half becomes master if and only if its rank is the larger one; the rank is a number made of one half alone: unsynced data above USB above BLE above the last role (master over none over slave) above the address |
| `SplitRole.PersistingKeepsDecision` | components/split/split_role.c:86-98 | persisting the decided role on either or both halves never changes the decision |
| `SplitSession.SessionKeySymmetric` | components/split/split_crypto.c:341-347 | both halves derive the same key from the two salts |
| `SplitSession.Session.CheckRxSeq` | components/split/split_session.c:146-159 | a frame passes exactly when its number is larger than the last one, which it then replaces |
| `SplitSession.Session.ResetSeqs` | components/split/split_session.c:130-165 | sequence numbers restart from the epoch and the receive window is open |
| `SplitSession.Session.SendNegotiate` | components/split/split_task.c:88-114 | the message carries the inputs, the persisted role and the salt, unless the throttle swallows it |
| `SplitSession.Session.HandleDisconnect` | components/split/split_task.c:120-146 | state, role, key and sequence numbers are cleared |
| `SplitSession.Session.DeriveSessionKey` | components/split/split_crypto.c:331-366 | the smaller salt goes first; no key on failure |
| `SplitSession.Session.OnRoleNegotiate` | components/split/split_dispatch.c:122-192 | the early path for a known salt, else decision, key, role, persistence and answer |
| `SplitSession.Session.HandleRoleNegotiate` | components/split/split_dispatch.c:93-120 | the replay gate, and the restart of a connected session on a new salt |
| `SplitSession.Session.TaskTick` | components/split/split_task.c:207-215 | a connecting half sends, a disconnected one starts connecting |
| `SplitSession.RunGood` | components/split/split_dispatch.c:93-192 | over every run: persisted roles, connected roles, keys and messages stay within the initial decision |
| `SplitSession.SingleMaster` | components/split/split_dispatch.c:93-192 | whenever both halves are connected one is master and one slave, as decided at the start |
| `SplitSession.MasterHasHigherRank` | components/split/split_dispatch.c:93-192 | in every run a connected half is, and has persisted itself as, master exactly when its rank at the start was the larger one, and slave otherwise |
| `SplitSession.UsbHalfIsMaster` | components/split/split_role.c:71-79 | so of two connected halves the only one on USB is master when they do not differ in unsynced data |
| `SplitSession.DerivedIsLatestKdf` | components/split/split_dispatch.c:122-166 | in a connected half the latest derivation is the one at the last arrival at which it decided |
| `SplitSession.SameKeyIff` | components/split/split_dispatch.c:122-166 | connected halves share a key exactly when the key derivation ended alike at the last arrivals at which they decided |
| `SplitSession.OneKey` | components/split/split_dispatch.c:71-91 | without a failing derivation connected halves always share the session key |
| `SplitSession.KeylessRepairedIff` | components/split/split_dispatch.c:108-128 | a connected half without a key is repaired by the next negotiation exactly when the salt is not the remembered one |
| `SplitSession.KeylessForever` | components/split/split_dispatch.c:124-138 | otherwise it stays connected without a key in every continuation without a disconnect of it |
| `SplitSession.KeyMismatchReachable` | components/split/split_dispatch.c:71-91 | a run in which both are connected and only one has the key |
| `SplitSession.Reconnect` | components/split/split_task.c:351-378 | from wherever a run has led both halves can be brought back to one master and one key |
| `SplitSession.ResumedIff` | components/split/split_session.c:130-159 | when one half alone has lost the connection, its first message is answered if and only if its number is above the last one the other has seen, and then the answer alone brings both back with one key |
| `SplitPair.Pairing.Cancel` | components/split/split_pair.c:99-104 | the ephemeral key is dropped and the phase is idle |
| `SplitPair.Pairing.HandleDiscovery` | components/split/split_pair.c:120-162 | a fresh key and a request, or the failure paths |
| `SplitPair.Pairing.HandleRequest` | components/split/split_pair.c:164-223 | the address tie-break, key derivation, response and completion, with each failure path |
| `SplitPair.Pairing.HandleResponse` | components/split/split_pair.c:225-260 | only the expected peer with a live key completes |
| `SplitPair.RunGood` | components/split/split_pair.c:120-260 | the invariant on devices and messages holds over every run |
| `SplitPair.InitiatorAgrees` | components/split/split_pair.c:225-260 | a device that completed as initiator is answered by a completed responder naming it, with the same key |
| `SplitPair.NeverBothResponders` | components/split/split_pair.c:164-179 | two devices never both complete as responder to each other |
| `SplitPair.PairingAgrees` | components/split/split_pair.c:120-260 | two devices completed with each other share one key and exactly one was the initiator |
| `SplitPair.KeyIsSharedSecret` | components/split/split_pair.c:181-250 | that key is the secret that either one derives from its own private key and the other one's public key of this pairing |
| `SplitPair.LargerAddressResponds` | components/split/split_pair.c:166-179 | a device that has asked itself completes as responder only to a peer whose address is not larger |
| `SplitPair.CanPair` | components/split/split_pair.c:120-260 | any two devices can complete; when only the response is lost the responder alone has completed |
| `ConfigSync.Push` | components/split/split_config_sync.c:170-208 | the fragments of the blob up to the first failing one |
| `ConfigSync.PushCoversIff` | components/split/split_config_sync.c:170-198 | the fragments make up the blob exactly when it needs at most 255 of them |
| `ConfigSync.WrappedToNothing` | components/split/split_config_sync.c:170-187 | a blob of exactly 256 full fragments is not sent at all |
| `ConfigSync.Reassembler.ResetTransfer` | components/split/split_config_sync.c:384-410 | everything is cleared unless a blob waits to be written |
| `ConfigSync.Reassembler.CheckComplete` | components/split/split_config_sync.c:499-506 | whether every fragment has been received |
| `ConfigSync.Reassembler.AcceptFragment` | components/split/split_config_sync.c:466-510 | index and size checks, storing once, largest end offset, completion |
| `ConfigSync.Reassembler.Receive` | components/split/split_config_sync.c:413-510 | a new transfer replaces another one unless that waits to be written or memory is missing |
| `ConfigSync.Reassembled` | components/split/split_config_sync.c:434-510 | in any order and with repeats, a transfer completes exactly when every fragment has arrived, with exactly the sent bytes and length |
| `ConfigSync.ArrivesWhole` | components/split/split_config_sync.c:170-510 | a blob of at most 255 fragments arrives whole |
| `ConfigSync.WhatWaits` | components/split/split_config_sync.c:413-510 | with the fragments of any blobs mixed, repeated, interrupted or refused for want of memory, also when blobs change under one kind, key and count: a transfer waits exactly when each fragment has come since it began; what waits is a given blob exactly when it has its length and each region reads as it, from the fragment that came first; and it is so whenever only fragments of that blob have come since |
| `ConfigSync.TornBlob` | components/split/split_config_sync.c:434-491 | a broken-off push followed by one of another blob leaves the first chunk of one and the second of the other waiting |
| `ConfigSync.CurrentCame` | components/split/split_config_sync.c:434-510 | what counts as come has come under that kind and key |
| `TapHold.TapHoldResolver.BufferPush` | components/keyboard/kb_tap_hold.c:31-40 | the event is appended, or refused when sixteen are held |
| `TapHold.TapHoldResolver.BufferFlush` | components/keyboard/kb_tap_hold.c:42-49 | the held events are dispatched in order and the buffer is empty |
| `TapHold.TapHoldResolver.IsKeyInBufferPressed` | components/keyboard/kb_tap_hold.c:51-58 | whether a press of the key is held |
| `TapHold.TapHoldResolver.ResolvePendingToHold` | components/keyboard/kb_tap_hold.c:71-89 | sustained or timed hold, then the held events, then a report |
| `TapHold.TapHoldResolver.ResolvePendingToTap` | components/keyboard/kb_tap_hold.c:91-108 | waits for a double tap, or taps and flushes |
| `TapHold.TapHoldResolver.HandleKey` | components/keyboard/kb_tap_hold.c:147-286 | the whole new state and all effects of one key event |
| `TapHold.TapHoldResolver.HandleTick` | components/keyboard/kb_tap_hold.c:288-313 | the decisions that time takes |
| `TapHoldRuns.StepGood` | components/keyboard/kb_tap_hold.c:147-313 | every key event and tick keeps order, faithfulness, conservation and counts |
| `TapHoldRuns.Linearised` | components/keyboard/kb_tap_hold.c:71-108 | effects answer the inputs in order of arrival, none twice, each with the action its rules give |
| `TapHoldRuns.OrdinaryKeysConserved` | components/keyboard/kb_tap_hold.c:42-49 | for keys that are not tap-hold keys, what was passed on plus what is held equals what was typed; nothing is held unless a decision is pending |
| `TapHoldRuns.TapHoldPressesConserved` | components/keyboard/kb_tap_hold.c:158-192 | captured presses = taps + holds + 2 double taps + 1 if undecided; sustained presses exceed releases by one exactly while held |
| `TapHoldRuns.PendingAwaited` | components/keyboard/kb_tap_hold.c:147-299 | in every run a pending decision belongs to a press of the run, with that press's rules, and no tick since has come after its threshold |
| `TapHoldRuns.TickDecidesIff` | components/keyboard/kb_tap_hold.c:288-299 | a tick takes it exactly when it comes after the threshold of that press, and nothing typed is then held back |
| `TapHoldAnswers.AnswerIs` | components/keyboard/kb_tap_hold.c:71-313 | in every run, for each press taken to decide on, the one effect that answers it, and when, from the events since and its rules: the first tick at or after the threshold decides for a hold, or for a tap when another key came less than the prior idle time before the press; its own release for a tap; the press of another key, or the release of one pressed since, for a hold if its flavor says so and the press was not too soon; a seventeenth waiting input for a hold; a tap waits for a double tap if there is one and no input waits, until the same press, any other key or a tick at or after its threshold |
| `TapHoldPresses.TakenIff` | components/keyboard/kb_tap_hold.c:242-280 | in every run a press of a tap-hold key is taken to decide on exactly when nothing is undecided or held and it does not repeat the last tap within the quick-tap time, or when a second tap of another key is awaited; one that repeats it is a tap at once |
| `TapHoldPresses.QuickTapIs` | components/keyboard/kb_tap_hold.c:243-254 | the key and time that quick taps are measured by are those of the last tap in the effects |
| `TapHoldPresses.HeldUntilReleased` | components/keyboard/kb_tap_hold.c:157-173 | from the decision for a sustained hold on, every input is passed on until its key comes up, which releases the held action |
| `TapHoldHeld.HeldArePassedOn` | components/keyboard/kb_tap_hold.c:194-236 | when the decision on a press falls, every input since the press has been passed on, of whatever key, and so is the one that forces it |
| `TapHoldReports.DecisionsAreReported` | components/keyboard/kb_tap_hold.c:71-313 | in every run each tap, hold, double tap and release of a held action is followed by a report, with only passed-on inputs between |
| `Combo.ComboEngine.IsSubset` | components/keyboard/kb_combo.c:44-56 | whether all keys of one combo are keys of the other |
| `Combo.ComboEngine.DiscardFor` | components/keyboard/kb_combo.c:72-91 | the suppressed buffer afterwards |
| `Combo.ComboEngine.ReleaseIndividualKeys` | components/keyboard/kb_combo.c:93-104 | one release for each trigger key that has an action |
| `Combo.ComboEngine.CancelSmaller` | components/keyboard/kb_combo.c:232-241 | the shorter contained combos are deactivated in turn, each with a release |
| `Combo.ComboEngine.PressOne` | components/keyboard/kb_combo.c:182-257 | what a press does to one combo |
| `Combo.ComboEngine.ReleaseOne` | components/keyboard/kb_combo.c:259-273 | what a release does to one combo |
| `Combo.ComboEngine.ProcessKey` | components/keyboard/kb_combo.c:173-313 | the whole new state, the dispatched actions and whether the key is consumed |
| `ComboRuns.CancelledAre` | components/keyboard/kb_combo.c:232-241 | cancelling deactivates exactly the active shorter contained combos |
| `ComboRuns.DiscardIs` | components/keyboard/kb_combo.c:72-91 | exactly the entries of the combo's keys are discarded, the rest stay in order |
| `ComboRuns.MatchedCountsRecordedKeys` | components/keyboard/kb_combo.c:196-273 | in every reachable state matched_count is the number of recorded keys |
| `ComboRuns.LongestActiveOnly` | components/keyboard/kb_combo.c:216-251 | in every reachable state no active combo's keys are contained in those of a longer active one |
| `ComboRuns.ActiveHasKey` | components/keyboard/kb_combo.c:259-273 | an active combo that is not strict has a recorded key |
| `ComboRuns.LoopStays` | components/keyboard/kb_combo.c:173-257 | after any number of combos, the loop of a press has consumed it, touched records and shadowed combos exactly as the state before the press tells |
| `ComboRuns.PressForgetsIff` | components/keyboard/kb_combo.c:173-257 | in every reachable state a press takes the records from a combo exactly when the combo is strict, sees the press, has the key but not as its next one, and no combo before it consumes the press: none is delayed, completed by it and without a longer combo over it that is active or completed before |
| `ComboRuns.StuckComboReachable` | components/keyboard/kb_combo.c:199-273 | a run that leaves a strict combo of two keys active without a record |
| `ComboRuns.EndsIff` | components/keyboard/kb_combo.c:259-273 | in every reachable state and for all releases, an active combo ends exactly when a key of it is recorded and the releases under a mask with a layer of it free one recorded key, or all of them unless it goes by the first |
| `ComboRuns.HeldThoughReleased` | components/keyboard/kb_combo.c:182-273 | a run of any combo of two keys that ends with both released, outside its layers, and the combo still active with both recorded |
| `ComboRuns.ReleasesEndIff` | components/keyboard/kb_combo.c:259-273 | some list of releases ends an active combo if and only if it has a recorded key |
| `ComboActs.PressTold` | components/keyboard/kb_combo.c:173-303 | from any state, a press is kept from the layout exactly when a combo consumes or delays it, with all that PressDispatches says |
| `ComboActs.PressDispatches` | components/keyboard/kb_combo.c:173-303 | in every reachable state a press dispatches, in order, for exactly the combos that it completes, that no longer active or completed combo is over and that no earlier one cuts off: the releases of the active ones they are over, their own keys' releases if they cancel keys and do not delay them, and the press of their action; then, if no combo consumes or delays it, the presses of the suppressed keys; and exactly which combos are active and which keys suppressed afterwards |
| `ComboActs.ReleaseDispatches` | components/keyboard/kb_combo.c:259-313 | in every reachable state a release dispatches exactly the releases of the combos that it ends and then a press and a release for each suppressed entry of the key |
| `ComboActs.ChangesAreTold` | components/keyboard/kb_combo.c:173-313 | in every run a combo that an event makes active gets its action pressed in that event, and one that it ends gets it released |
| `SystemAction.ActionEngine.FreeTracker` | components/keyboard/kb_system_action.c:79-85 | the tracker is idle and the count one lower |
| `SystemAction.ActionEngine.ProcessAction` | components/keyboard/kb_system_action.c:133-177 | notifications, tracker pool and count after a press or release |
| `SystemAction.ActionEngine.PollTrackers` | components/keyboard/kb_system_action.c:89-122 | the due holds, then the due single taps, and the pool afterwards |
| `SystemAction.TrackersDistinctAndCounted` | components/keyboard/kb_system_action.c:48-85 | busy trackers have distinct codes and their number is the active count, in every run |
| `SystemAction.PressesConserved` | components/keyboard/kb_system_action.c:89-177 | for every code, tracked presses = holds + single taps + 2 double taps + 1 if one waits |
| `ActionTiming.GestureIs` | components/keyboard/kb_system_action.c:89-177 | in every run a press that is taken up comes to a hold exactly at the first poll at least its hold time after it if its key has not come up before; else, after the release, to a double tap at the first press before a poll at least the double-tap time after the release, or to a single tap at that poll; nothing else is notified of the code meanwhile, and then it is no longer tracked |
| `ActionTiming.QuietOutside` | components/keyboard/kb_system_action.c:89-177 | while a code is not tracked nothing but a press of it changes that, and nothing of it is notified but presses and releases |
| `ActionTiming.MovesAreNotified` | components/keyboard/kb_system_action.c:133-137 | every press and release is notified once and in order, tracked or not |
| `Macro.Engine.ForceClear` | components/keyboard/kb_macro.c:137-143 | the virtual key bitmap is all zero and a report is sent |
| `Macro.Engine.Pause` | components/keyboard/kb_macro.c:254-293 | a delay waits in full, in chunks or not, or stops at the look that finds a cancel request; when it can be cancelled there is a look before every 10 ms of it |
| `Macro.Engine.Execute` | components/keyboard/kb_macro.c:188-296 | the run performs exactly the macro's expansion; cancelled, a prefix of it and then an empty bitmap and a report; cancelled exactly when the last look found the request; and it presses, and releases, at most e to the power of its levels times |
| `Macro.ExpandPrefix` | components/keyboard/kb_macro.c:209-294 | the events up to any point expand to a prefix of the whole |
| `Macro.LeavesBounded` | components/keyboard/kb_macro.c:188-296 | for any table, cyclic or not, an execution has at most e to the power of its levels leaf events |
| `Macro.ActsAtMostLeaves` | components/keyboard/kb_macro.c:216-252 | what it performs has at most one press and one release for each leaf |
| `Macro.PerformedAtMost` | components/keyboard/kb_macro.c:188-296 | so finished or cancelled it adds at most that many presses and that many releases to what the keyboard has done |
| `Macro.SixthPower` | components/keyboard/kb_macro.c:188-193 | from depth 0 at most e^6 presses and e^6 releases |
| `Macro.LimitInvisible` | components/keyboard/kb_macro.c:190-193 | the depth limit cuts off nothing from macros whose references go less deep |
| `Macro.SelfReferenceIsSilent` | components/keyboard/kb_macro.c:190-224 | a macro that only taps itself ends and does nothing |
| `MacroKeys.ExpandSounds` | components/keyboard/kb_macro.c:188-296 | a macro presses and releases exactly what its events say with the references resolved, at exactly these milliseconds, takes exactly as long, and sends a report after each and no other |
| `MacroKeys.EventIsHeard` | components/keyboard/kb_macro.c:216-252 | each tap of an ordinary key, through any nesting, is a press of its code at its time and next a release of it exactly its duration later; a press is a press and a release a release of its own code |
| `MacroKeys.FindsFirst` | components/keyboard/kb_macro.c:195-204 | a reference means the first macro of the table with that id, or none |
| `MacroKeys.BitsTell` | components/keyboard/kb_macro.c:64-87 | after a finished run a key is down exactly if the last event with its code is a press, or there is none and it was down before |
| `MacroKeys.TapsLeaveNothingDown` | components/keyboard/kb_macro.c:238-252 | after a finished run that only taps and waits, exactly the keys that were down before and were not tapped are down |
| `TapSlots.Scheduler.Request` | components/keyboard/kb_macro.c:625-649 | the first free slot gets the tap with its deadlines; a full pool and code 0 drop it |
| `TapSlots.Scheduler.TapTick` | components/keyboard/kb_macro.c:651-686 | the due releases and presses in slot order and the slots afterwards |
| `TapSlots.Scheduler.HasActiveTaps` | components/keyboard/kb_macro.c:688-699 | whether some slot is busy |
| `TapSlots.ExactlyOnce` | components/keyboard/kb_macro.c:625-686 | in every run an accepted tap is pressed once unless it still waits and released once unless it still has its slot |
| `TapSlots.OnTime` | components/keyboard/kb_macro.c:651-686 | with its code, never before its deadlines, and released in a later tick than pressed |
| `TapSlots.AllDone` | components/keyboard/kb_macro.c:651-686 | two ticks after all deadlines every tap has been pressed and released |
| `TapTimes.TapIsTold` | components/keyboard/kb_macro.c:625-686 | in every run a tap is accepted exactly when it has a code and a slot is free; it is pressed by the first tick not before its delay is over, released by the first later tick not before its duration is over too, and nothing else is sent for it |
| `TapTimes.ReleasesFirst` | components/keyboard/kb_macro.c:671-681 | in one tick the releases go out before the presses |
| `BleReconnect.Reconnect.Pick` | components/ble_module/ble_reconnect.c:49-74 | the next pending profile after the last one, or idle |
| `BleReconnect.Reconnect.AdvTimeout` | components/ble_module/ble_reconnect.c:76-128 | the whole new state and the action |
| `BleReconnect.Reconnect.ConnectFailed` | components/ble_module/ble_reconnect.c:130-151 | the whole new state and the action |
| `BleReconnect.Reconnect.Connected` | components/ble_module/ble_reconnect.c:153-173 | the whole new state and the action |
| `BleReconnect.NextInRound` | components/ble_module/ble_reconnect.c:49-74 | whatever is left of a round, the search goes on with the next profile of it, around the end |
| `BleReconnect.ConnectionStartsFresh` | components/ble_module/ble_reconnect.c:153-168 | a connection enters the finite phase with no cycle used up and the last profile kept |
| `BleReconnect.FiniteRoundRobin` | components/ble_module/ble_reconnect.c:49-122 | from whatever profile was last, after q rounds and j timeouts it is the j-th pending profile's turn, the first j one cycle ahead of the others |
| `BleReconnect.FiniteEnds` | components/ble_module/ble_reconnect.c:113-122 | a phase that starts afresh is idle after exactly five timeouts per pending profile and no earlier, with five cycles each |
| `BleReconnect.FiniteEndsIff` | components/ble_module/ble_reconnect.c:113-151 | from any state of the finite phase, in every sequence of timeouts and failed connections of the advertised profile, it is idle exactly when the timeouts number the remaining cycles, and then no profile has any left |
| `BleReconnect.FreshRemaining` | components/ble_module/ble_reconnect.c:113-122 | a phase that starts afresh has five cycles to go for each pending profile |
| `BleReconnect.ForeverRoundRobin` | components/ble_module/ble_reconnect.c:109-112 | the forever phase repeats the same order without end, from whatever profile was last |
| `BleReconnect.SelectedIsAlone` | components/ble_module/ble_reconnect.c:85-99 | in every run, with the picks and the fields that the BLE module sets itself, nothing else is pending while a profile is selected, so a timeout with retries left retries it |
| `BleReconnect.TimeoutUsesACycle` | components/ble_module/ble_reconnect.c:113-122 | a timeout of a pending profile lowers the sum of the remaining cycles by one |
| `BleReconnect.FailureUsesNone` | components/ble_module/ble_reconnect.c:130-151 | a failed connection leaves phase, pending profiles and cycles as they are and goes on with a pending profile |
| `BleSelected.SelectedRetries` | components/ble_module/ble_reconnect.c:20-105 | a selected profile is retried until it has been tried as often as asked, at least once; then it is advertised for good if it is valid, and nothing is otherwise; with the action each time |
| `BleSelected.ConnectionLeads` | components/ble_module/ble_reconnect.c:153-173 | in any state a connection takes its profile out, and the others are then searched for, with fresh cycles after a selected or endless search; with none left or from idle the scheduler is idle |
| `BleSelected.ActionTells` | components/ble_module/ble_reconnect.c:76-151 | in every reachable state the action after a timeout or failure is to fall back exactly when the search is over, to retry exactly while a profile is selected, and else to advertise to a pending profile |
| `Layouts.LayerCache.constructor` | components/config_module/cfg_layouts.c:73-133 | the cache after loading, with the base layer forced |
| `Layouts.LoadedIsCoherent` | components/config_module/cfg_layouts.c:73-133 | after loading the cache is coherent, and every active layer and the base are the stored ones |
| `Layouts.LayerCache.GetActionCode` | components/config_module/cfg_layouts.c:138-169 | the code and the swap slot afterwards |
| `Layouts.LayerCache.GetLayer` | components/config_module/cfg_layouts.c:174-188 | the tier entry of an existing layer |
| `Layouts.LayerCache.PutLayer` | components/config_module/cfg_layouts.c:193-210 | tier and mirrors change together, if the layer exists and is stored |
| `Layouts.LayerCache.CreateLayer` | components/config_module/cfg_layouts.c:214-263 | the lowest free id, appended to the order, transparent |
| `Layouts.LayerCache.DeleteLayer` | components/config_module/cfg_layouts.c:265-306 | removed from index, order, tier and swap slot |
| `Layouts.LayerCache.ReorderLayers` | components/config_module/cfg_layouts.c:324-350 | the order, if the ids pass the source's checks |
| `Layouts.LayerCache.DirectCode` | components/keyboard/kb_layout.c:61-78 | the search for the top layer and the fallback to base |
| `Layouts.LayerCache.StackCode` | components/keyboard/kb_layout.c:80-93 | the search down the stack |
| `Layouts.LookupRefines` | components/config_module/cfg_layouts.c:138-169 | a lookup in a coherent cache answers like a plain map and changes no layer |
| `Layouts.LayerCache.TakeIndex` | components/config_module/cfg_layouts.c:55-58 | mask and order become those of the index that arrived, and nothing else changes |
| `LayoutRuns.CacheIsPlainMap` | components/config_module/cfg_layouts.c:41-306 | after any operations, updates and replaced indexes that keep the layer swapped in, layers and lookups are those of sixteen plain slots under the same operations |
| `LayoutRuns.ReplaceIndexHarmlessIff` | components/config_module/cfg_layouts.c:55-58 | after an index from outside every lookup in every continuation is right if and only if the index keeps the layer swapped in at that moment |
| `LayoutRuns.CreatesMakeStale` | components/config_module/cfg_layouts.c:55-58 | otherwise creating layers, whichever ids are in use, leads to a lookup that shows an old code instead of a transparent one |
| `LayoutRuns.CreateKeepsOrder` | components/config_module/cfg_layouts.c:214-235 | the order stays base first, without repeats, exactly the active layers |
| `LayoutRuns.CreateAppends` | components/config_module/cfg_layouts.c:214-235 | a new layer comes last in the order and the others keep their places |
| `LayoutRuns.DeleteKeepsOrder` | components/config_module/cfg_layouts.c:265-284 | likewise for delete |
| `LayoutRuns.DeleteTakesOut` | components/config_module/cfg_layouts.c:265-284 | a deleted layer is taken out of the order and the others keep theirs |
| `LayoutRuns.ReorderKeepsOrderIff` | components/config_module/cfg_layouts.c:324-341 | likewise for an accepted reorder exactly when it repeats no id |
| `LayoutRuns.ReorderAcceptsRepeats` | components/config_module/cfg_layouts.c:324-341 | repeats are accepted and lose a layer |
| `LayoutRuns.ReorderTakes` | components/config_module/cfg_layouts.c:324-350 | an accepted reordering is the order from then on |
| `LayoutRuns.OrderStaysGood` | components/config_module/cfg_layouts.c:214-341 | the order stays good over every sequence of operations whose reorders repeat no id and whose indexes from outside have a good order |
| `LayoutRuns.StackFindsTopmost` | components/keyboard/kb_layout.c:80-93 | the first code that is not transparent from the highest masked position down, else base |
| `LayoutRuns.StackMissesNothing` | components/keyboard/kb_layout.c:80-93 | with a good order an active masked layer with a code is never missed |
| `LayoutRuns.TopLayerIs` | components/keyboard/kb_layout.c:61-71 | the search finds the layer in the highest masked position, or layer 0 when none is masked |
| `LayoutRuns.DirectFallsToBase` | components/keyboard/kb_layout.c:61-78 | the code of the layer in the highest masked position, or base when transparent or none is masked |
| `Debounce.Debouncer.UpdateStable` | components/keyboard/kb_debounce.c:34-55 | all counters and stable bits after one scan; padding bits stay |
| `Debounce.MergeRemote` | components/keyboard/kb_manager.c:285-290 | bitwise union with the remote half |
| `Debounce.CounterIs` | components/keyboard/kb_debounce.c:34-55 | the counter measures the time since the last press and the stable bit shows whether it runs |
| `Debounce.StableIffSeenInWindow` | components/keyboard/kb_debounce.c:34-55 | a key is stable exactly when one of the last five scans saw it, whatever is merged between scans |
| `EdgeWalk.Walker.HandleEdge` | components/keyboard/kb_manager.c:426-443 | what one edge dispatches and remembers |
| `EdgeWalk.Walker.OnScan` | components/keyboard/kb_manager.c:405-454 | the XOR and lowest-bit loop visits exactly the changed keys |
| `EdgeWalk.WalkBitsVisits` | components/keyboard/kb_manager.c:414-447 | the loop over the set bits of a byte equals a walk over its changed keys, stopping at padding |
| `EdgeWalk.VisitedExactlyOnce` | components/keyboard/kb_manager.c:405-447 | each changed key once, ascending, no other key and no padding bit |
| `EdgeWalk.ScanReports` | components/keyboard/kb_manager.c:405-454 | from any state a scan reports exactly the keys that differ from the scan before, one edge each and ascending: a release, a press that a combo consumed, or a press with the code that the layout gives then |
| `EdgeWalk.ReleasesMatchPresses` | components/keyboard/kb_manager.c:426-443 | over every run presses and releases of a key alternate and a release carries the code of its press, or none if a combo consumed it |
| `EdgeWalk.EdgesReplayToMatrix` | components/keyboard/kb_manager.c:405-454 | replaying the edges of a run gives the last matrix |

## Left out

- EdgeWalk.Walker.OnScan: the scan of a master or a lone half; a slave half only copies its matrix (components/keyboard/kb_manager.c:399-408) and hands it on.
- CommRx.Receiver.BlastCommit: totals above 384 packets, for which the source writes past its length table.
- CommTx.Sender.StartTransfer: a transfer of several packets with lock and memory at hand; starts of single packets and failing locks or allocations are not modelled.
- CommTx.Sender.ProcessResponse: responses during a Blast transfer only.
- SplitSession.Session.HandleRoleNegotiate: messages of the same protocol version only. Other frames, which share the sequence numbers, are events that move those of a half in any way.
- SplitSession.Session.TaskTick: timers and backoff are events that may happen at any time, and a connected tick does nothing; what it may cause is the disconnect event.
- Layouts.LayerCache.constructor: the index of a first boot and the defaults of a layer are parameters.
- Drivers and stacks (NimBLE, TinyUSB, ESP-NOW, GPIO, storage, FreeRTOS tasks and queues, logging) and the configurator. Critical sections are single steps.
- Blast timeouts, the sender's side of single packets, messages left over from an earlier transfer and responses of the callback's own: a run is one transfer on empty channels, with the session lock held by the one transport. Checksum failures are events; errors that the checksum misses are the subject of `CommCrc` only.
- Blast payloads of more than 384 packets, for which the source writes past its tables, and unequal payload sizes at the two ends.
- A refused send in the Blast sender is modelled as a budget of sends that the transport still accepts while one response is handled.
- ROLE_SWAP, protocol version mismatch, inputs or salts that change during a run, and failing storage of the persisted role.
- Pairing messages that are malformed or forged, a second pairing session of the same device, and a send that reports failure although the message goes out.
- The bond and BLE conflict rules of the configuration sync, the deferred write beyond its end, and its acknowledgement.
- Tap-hold keys pressed while another one is pending are passed on as they are (`TapHoldHeld.HeldArePassedOn`). The lookup is fixed during a run and the callbacks are set.
- Timeouts of suppressed combo keys (`kb_combo_tick`) and reloading of combos; what each event dispatches is told, but no balance of the presses and releases of a combo's action over a run is claimed, for a combo that is still active can be completed again.
- Macro queueing modes around the executor, and other tasks that change the virtual key bitmap during a run. Actions outside the HID range are recorded but not carried out.
- Layer names, and the key strings by which layer updates are told from index updates: an update is given as what it changes. The cache is assumed to have been allocated.
- The non-eager debounce build and other scan counts than the defaults.
- Status cache, telemetry, config index masks, battery filter, button and power manager: each is a few independent fields or one formula, with nothing to prove that spans operations.
