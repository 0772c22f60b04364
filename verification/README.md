# Frame handling and configuration storage of the rtl8712u (r92su) and rtlwifi drivers, in Dafny

This project models the parts of the two drivers whose correctness depends on state kept over many calls or on
two pieces of code agreeing with each other, and proves what they keep. Code that works by updating records,
buffers and arrays is modelled by classes and methods with the same branches and loops; each such method is
proved against a specification function, and the theorems are about those functions, over every input or every
run.

* **Receive reordering** (`SequenceNumbers`, `ReorderSpec`, `ReorderBuffer`, `ReorderTheorems`, `ReorderRules`,
  `ReorderRestores`). One aggregation session: a ring of frames indexed by 12-bit sequence numbers, a window, a
  duplicate check, a timer. `RxTid` mirrors the driver's arrays; its ghost `view` is the same window over
  unwrapped positions. Delivery is in strictly increasing position over every run, every frame is delivered,
  dropped or buffered exactly once, and a shuffled train of frames comes out in order and complete. `ReorderRules`
  states which frames may be given up on without the walk over the buffer.
* **Defragmentation** (`Defragmentation`, `DefragTheorems`). The queue always is the open train of fragments at
  the very end of the arrivals. A last fragment completes a frame exactly when it continues that train.
* **EFUSE** (`EfuseLog`, `EfuseRecords`, `EfuseUpdate`, `EfuseDevice`, `EepromFetch`). A log of packets in cells whose
  bits can only be cleared, decoded to a 128-byte image and updated by appending packets. The model follows the
  writer through its reuse of empty packets, and states exactly when an update leaves the device decoding to the
  wanted map; the reader understands extended headers too.
* **Encryption of frames** (`Words`, `PacketNumbers`, `Ieee80211`, `Michael`, `TkipMixing`, `Encapsulation`,
  `CipherStreams`, `CipherPath`). TKIP and CCMP: IV, MIC and trailer on transmit, replay check and verification on
  receive, the round trip, uniqueness of per-packet keys and nonces, and the counters over whole streams.
  `FrameLayout` says byte by byte what is on the air and exactly which frames are accepted; `TkipSchedule` gives the
  key mixing as two recurrences; `MichaelVectors` and `TkipVectors`, the latter with the driver's table in
  `TkipTable`, compute one code and one packet key to the end.
* **Both together** (`AggregatedTrains`). The reordering buffer in front of the replay check: a shuffled train of
  encrypted frames loses nothing with it, and without it exactly the frames that were overtaken.
* **Queues, rings and codecs** (`TxRing`, `UrbThrottle`, `InfoElements`, `Wowlan`, `SignalWindow`). The URB throttle
  is a state machine over single atomic actions of any number of processors.

`Wrappers` holds the shared `Option`.

`dafny verify dfyconfig.toml` checks the whole project.

## What the model assumes

* Frames are byte sequences with their metadata; a locked section is one step. Only the URB throttle is modelled
  at the level of single atomic actions.
* Time is a 32-bit jiffies value given to each step.
* RC4, the CRC-32 checksum, the AES-CCM transform and the TKIP substitution box are parameters
  (`Encapsulation.Primitives`, `TkipMixing.Sbox`). The round trips assume only that decryption inverts encryption
  and keeps lengths; the checksum and the substitution box may be any function. `TkipTable.Substituted` is the box
  that the driver uses.
* EFUSE cells are fault-free: a programmed cell holds the bitwise AND of its old content and the data. Sizes are
  those of the rtl8192ce: 512 cells, 16 sections of 8 bytes, 15 protected bytes at the end
  (`rtlwifi/rtl8192ce/reg.h:544`).
* cfg80211 passes SSIDs of at most 32 bytes and wake-up patterns of at least 13 bytes (`rtlwifi/wifi.h:203`).
* Memory allocations succeed, except that enlarging a fragment's buffer may fail (`Defragmentation.Skb.room`), as it
  must be expected to for a negative size, and that there may be no URB for a frame (`UrbThrottle.Usb.UsbTx`).

## Where the code differs from its documentation or the standard

The model follows the code in each case.

* `r92su_check_if_match` refuses a fragment only when sequence number and fragment number are both wrong, while
  IEEE 802.11-2012 section 9.6 needs both to be right. Fragments of two frames can be joined
  (`DefragTheorems.MixesFrames`); `LinkExact` gives the exact condition under which the code is right about two
  frames, with or without CCMP, and `TrainIntended` the one for a whole train without CCMP.
* `r92su_defrag_add` clears the packet number that the CCMP continuity test compares with. The test then passes
  only for packet number 1, so no frame that was fragmented and CCMP-encrypted is ever reassembled
  (`DefragTheorems.CcmpNeverCompletes`).
* Sender and receiver counters of a fresh key start at the same value, and the receiver wants a larger one: the
  first frame of a fresh pair is refused, and only that one (`CipherStreams.FreshPair`).
* A CCMP frame with an empty body is sealed by the sender and refused by the receiver
  (`Encapsulation.EmptyCcmpBodyRefused`).
* `efuse_shadow_update` means to leave the device decoding to the modified map. It does so exactly when
  `EfuseUpdate.Sound` holds, in particular on every log without empty packets. It can fail in two ways: a reused
  empty packet may already be overridden by a later one (`StaleReuse`), and the reuse counter is static and never
  reset, so that after three reuses leftover words are given up silently (`RepeatsExhausted`, after a run of updates
  of a blank device).
* `read_efuse` does not count the second byte of an extended header as used, so that the capacity check of a later
  update finds one byte more free for each than there is (`EfuseDevice.Efuse.ReadEfuse`).
* On a QoS header with HT control the authenticated header is four zero bytes longer than that of IEEE 802.11-2012
  section 11.4.3.3.3 (`FrameLayout.AadLayout`); sender and receiver of this driver agree with each other.
* The search bound `(index - 1) % size` of the reorder timer is -1 when the index is 0; the loop still ends, because
  the buffer is not empty then (`ReorderBuffer.RxTid.ArmTimer`).
* `r92su_find_ie` reads one byte behind its buffer exactly when the search comes to a lone last byte. The byte is a
  parameter of `InfoElements.FindIe`, and its value does not change the result. A buffer of printed elements is never
  read beyond its end (`PrintedNeverOverread`).
* Overlapping calls of `r92su_tx_schedule` can leave a URB waiting although fewer than eight are outstanding and
  nobody is about to send it (`UrbThrottle.WakeupLost`). `StepCovered` says exactly which actions do that, and
  `RunCoveredExactly` that over any interleaving nobody waits in vain iff none of them occurs.
* `rtl_pci_tx` relies on mac80211 respecting a stopped queue: on a full ring whose oldest descriptor has come back it
  overwrites a descriptor that has not been reaped (`TxRing.TxRing.Tx` states the exact condition, `TxRing.Overrun`
  gets there).
* `r92su_rx_defrag` asks `pskb_expand_head` for a headroom that is the queued payload less the length of a header,
  which is negative when less than that is queued (`DefragTheorems.GrowthExact`, `GrowthMayBeNegative`).

## Model

| member | source | states |
|---|---|---|
| `SequenceNumbers.LessIsUnwrappedLess` | r92su/rx.c:943-946 | on positions less than half the number space apart the wrapped comparison is the real one |
| `SequenceNumbers.WrapDifference` | r92su/rx.c:853 | the difference of two wrapped numbers, less n, is the wrapped difference of the positions less n |
| `ReorderSpec.WindowTests` | r92su/rx.c:943-948 | the handler's three comparisons and its new head, expressed by how far ahead of the unwrapped head the frame is |
| `ReorderSpec.WalkStops` | r92su/rx.c:869-884 | where the walk over holes stops, nothing before is left and the stopping frame is the first one still buffered |
| `ReorderBuffer.SlotOfIndex` | r92su/rx.c:853 | the index computed from wrapped numbers is the unwrapped position modulo the size, relative to the first position |
| `ReorderBuffer.SlotsDiffer` | r92su/rx.c:954-957 | positions up to one buffer apart share a slot iff they are exactly one buffer apart |
| `ReorderBuffer.PositionOf` | r92su/rx.c:853-854 | each slot belongs to exactly one position of the window |
| `ReorderBuffer.LastIndex` | r92su/rx.c:897 | the search bound is the window's last slot, or a value no index takes when the head is in slot 0 |
| `ReorderBuffer.RxTid.constructor` | r92su/sta.c:93-122 | a fresh session: empty window at the starting sequence number, no timer |
| `ReorderBuffer.RxTid.ReleaseFrame` | r92su/rx.c:829-844 | the head's frame, if there is one, goes onto the queue and leaves the window; the head moves on by one |
| `ReorderBuffer.RxTid.ReleaseFrames` | r92su/rx.c:846-856 | exactly the frames before the new head go onto the queue, in order, and the head is the new head |
| `ReorderBuffer.RxTid.ReleaseRun` | r92su/rx.c:886-890 | the run of frames at the head goes out and the head is at the first hole behind it |
| `ReorderBuffer.RxTid.ReleasePastHoles` | r92su/rx.c:868-884 | frames behind holes go out as far as they are overdue; the slot reported back is the first one still occupied |
| `ReorderBuffer.RxTid.ArmTimer` | r92su/rx.c:893-905 | the search ends, and the timer is pending iff a frame is buffered, one tick after the due time of the first one |
| `ReorderBuffer.RxTid.StaRelease` | r92su/rx.c:860-906 | releasing ends in the specified window with the specified timer, and puts exactly its frames on the queue |
| `ReorderBuffer.RxTid.Receive` | r92su/rx.c:938-979 | one frame: window, drop decision, timer and released frames are those of the specification, and the array invariant is kept |
| `ReorderBuffer.RxReorderAmpdu` | r92su/rx.c:908-979 | frames outside any session go straight onto the queue and leave the session alone; all others as in Receive |
| `ReorderBuffer.RxTid.TimerFires` | r92su/rx.c:1087-1120 | a connected station releases what is overdue and re-arms; otherwise nothing changes and the timer is gone |
| `ReorderBuffer.RxTid.Free` | r92su/sta.c:41-59 | teardown cancels the timer and frees exactly the frames still buffered |
| `ReorderTheorems.StepSettles` | r92su/rx.c:866-891 | after every step the window is consistent, the head's frame is missing, and the head has not moved back |
| `ReorderTheorems.RunInOrder` | r92su/rx.c:829-979 | over every run, across any number of wrap-arounds, delivered positions strictly increase and lie behind the head |
| `ReorderTheorems.RunConserves` | r92su/rx.c:829-979 | over every run, frames received are delivered, dropped or buffered, each exactly once |
| `ReorderTheorems.DroppedExactly` | r92su/rx.c:942-957 | a frame is dropped iff its number precedes the head or is already buffered, and a drop changes and releases nothing |
| `ReorderTheorems.TimerMakesProgress` | r92su/rx.c:893-906 | the timer is pending iff a frame is buffered, and whenever it fires it delivers the first buffered frame |
| `ReorderRules.ReleaseStopsExactly` | r92su/rx.c:866-891 | releasing ends in the one place where: the last frame out is right before it and the frame there is missing; with the head present just the contiguous run is out; without it every frame out is overdue or follows a present predecessor, and the first frame left is not overdue |
| `ReorderRules.ReleaseMoves` | r92su/rx.c:829-844 | exactly the frames before that place are delivered; the others stay with their due times |
| `ReorderRules.ArriveRule` | r92su/rx.c:938-979 | in plain numbers: a frame is dropped iff more than 2048 ahead or already there; else the window of 32 moves as little as it can, what it leaves goes out, and the release rule holds with the frame in, due one timeout later |
| `ReorderRules.StillToCome` | r92su/rx.c:876-877 | a time is after now iff the 32-bit clock reaches it in one to 2^31 ticks |
| `ReorderRules.TimerRule` | r92su/rx.c:893-905 | no timer iff nothing is buffered; else one tick past the due time of the first buffered frame |
| `ReorderRestores.OrderIsRestored` | r92su/rx.c:908-979 | a shuffled train with no frame a whole buffer late or overdue is delivered completely, in order, leaving the buffer empty |
| `Defragmentation.DefragEntry.CheckIfMatch` | r92su/rx.c:714-746 | accepts iff something is queued, one of the two numbers continues the tail, and under CCMP the packet number follows the stored one |
| `Defragmentation.DefragEntry.DefragDrop` | r92su/rx.c:748-754 | queue and size are empty, and the dropped count grows by the queue's length |
| `Defragmentation.DefragEntry.DefragAdd` | r92su/rx.c:756-766 | the fragment is at the tail with its per-frame data wiped, and size grows by its payload |
| `Defragmentation.DefragEntry.TakeBackwards` | r92su/rx.c:806-814 | working back through the queue yields the first header, all payloads in order and an empty queue |
| `Defragmentation.DefragEntry.RxDefrag` | r92su/rx.c:768-827 | state, verdict, resulting frame and number of purged fragments for each of the handler's branches; a frame that is not fragmented is handed on as it is and everything queued is purged and counted |
| `DefragTheorems.QueueIsSuffix` | r92su/rx.c:714-827 | in every reachable state the queue is the open train at the end of the arrivals and size is its payload length |
| `DefragTheorems.QueueInvariant` | r92su/rx.c:756-766 | a non-empty queue starts with fragment 0, every entry expects more, size is the sum of the payloads |
| `DefragTheorems.CompletionExact` | r92su/rx.c:789-816 | a last fragment completes iff it continues an open train and its buffer can grow; the result is first header and all payloads, the queue is empty |
| `DefragTheorems.UnfragmentedPasses` | r92su/rx.c:789-795 | after any arrivals, a frame whose header says fragment 0 and no more is handed on unchanged, nothing stays queued, and what was queued counts as lost |
| `DefragTheorems.MatchesExactly` | r92su/rx.c:714-746 | in terms of the 16-bit sequence control fields: same upper twelve bits, or lower four bits one larger, and under CCMP the next packet number |
| `DefragTheorems.TrainIsQueued` | r92su/rx.c:781-822 | an open train at the end of the arrivals is what is queued, whatever came before |
| `DefragTheorems.RunConserves` | r92su/rx.c:748-827 | fragments that arrived are handed on, lost and counted, or queued |
| `DefragTheorems.LinkExact` | r92su/rx.c:728-743 | for every frame that is not a first fragment: driver and standard agree iff, without CCMP, both numbers fit or neither; with CCMP and both fitting, iff the first packet number is 0 or the second is neither 1 nor the next; with CCMP otherwise, iff neither fits or the second packet number is not 1 |
| `DefragTheorems.TrainIntended` | r92su/rx.c:728-735 | a completed frame without CCMP is one the sender split iff no two neighbours agree in only one number |
| `DefragTheorems.MixesFrames` | r92su/rx.c:734 | a first fragment and the second fragment of another frame are joined |
| `DefragTheorems.CcmpNeverCompletes` | r92su/rx.c:737-763 | with the increasing packet numbers that the replay check lets through, no fragmented CCMP frame ever completes |
| `DefragTheorems.GrowthExact` | r92su/rx.c:800-803 | the headroom asked for is the queued payload less the header, negative iff less than a header is queued |
| `DefragTheorems.GrowthMayBeNegative` | r92su/rx.c:800-803 | a one-byte first fragment makes it -23 |
| `DefragTheorems.ReassemblyUndoesSplitting` | r92su/rx.c:768-827 | two to sixteen fragments in a row give back the whole payload under the first header, whatever came before |
| `EfuseLog.LastWriterDecides` | rtlwifi/efuse.c:311-341 | a byte of the image is that of the last packet with its word, or erased if there is none |
| `EfuseLog.FormatExample` | rtlwifi/efuse.c:303-361 | two packets in literal cells and where their bytes are in the image; the cells hold this log iff they read so |
| `EfuseRecords.ExtendedExample` | rtlwifi/efuse.c:284-301 | a packet under an extended header in literal cells |
| `EfuseRecords.PlainHolds` | rtlwifi/efuse.c:302-305 | a log is a sequence of records without extended headers, of the same packets and size |
| `EfuseDevice.Efuse.OneByteWrite` | rtlwifi/efuse.c:649-676 | the addressed cell takes the AND of content and data, no other cell changes |
| `EfuseDevice.Efuse.ReadWords` | rtlwifi/efuse.c:311-341 | for any content: only words of that packet change, and a complete packet's words are those in its cells |
| `EfuseDevice.Efuse.DecodeWords` | rtlwifi/efuse.c:274-351 | ends on any content; on records with one-byte and extended headers the table holds the image of their packets, and the count is their size less the second header bytes |
| `EfuseDevice.Efuse.ReadEfuse` | rtlwifi/efuse.c:229-378 | refuses ranges beyond the image; from cells that hold records copies out the last-writer-wins image, and counts all bytes but second header bytes as used |
| `EfuseDevice.Efuse.CurrentSize` | rtlwifi/efuse.c:1213-1233 | on a well-formed log the size is where the log ends, the same number that reading counts |
| `EfuseDevice.Efuse.EnableDataWrite` | rtlwifi/efuse.c:1065-1123 | on any cells every present word is ANDed into its cells and nothing else changes; the words reported bad are exactly those that do not read back |
| `EfuseDevice.Efuse.FillPacket` | rtlwifi/efuse.c:821-826 | filling an empty packet replaces its data in the log and changes no programmed cell |
| `EfuseDevice.Efuse.WriteDataCase1` | rtlwifi/efuse.c:768-875 | a packet that cannot be reused is passed over unchanged; one that can is filled, and mask, address, count and continuation are as specified |
| `EfuseDevice.Efuse.WriteDataCase2` | rtlwifi/efuse.c:877-942 | the header is programmed behind the log and the data state is entered |
| `EfuseDevice.Efuse.WriteData` | rtlwifi/efuse.c:1000-1010 | the log grows by the finished packet |
| `EfuseDevice.Efuse.PgPacketWrite` | rtlwifi/efuse.c:944-1039 | refused iff too little room; otherwise log and reuse count are those of the specification, and no programmed cell changes |
| `EfuseDevice.Efuse.ReadAllMap` | rtlwifi/efuse.c:678-684 | the init map is the device's image and the used-byte count its size |
| `EfuseDevice.Efuse.CountChanges` | rtlwifi/efuse.c:389-405 | the number of words of a section in which the two maps differ |
| `EfuseDevice.Efuse.ShadowUpdateChk` | rtlwifi/efuse.c:380-419 | true iff headers and words of the changed sections fit below the protected bytes |
| `EfuseDevice.Efuse.TakeChanges` | rtlwifi/efuse.c:470-489 | the word mask of the differing words of a section |
| `EfuseDevice.Efuse.ShadowUpdate` | rtlwifi/efuse.c:446-518 | without room nothing changes; otherwise the maps agree with the device afterwards, no programmed cell changes, and the modified map survives iff the update was sound |
| `EfuseUpdate.PgWriteEffect` | rtlwifi/efuse.c:944-1039 | what one packet write does to every byte of the image: exactly the effective words of that section take the new data |
| `EfuseUpdate.PgWriteSize` | rtlwifi/efuse.c:944-1039 | a packet write never shrinks the log and adds at most a header and its words, exactly that if nothing is reused |
| `EfuseUpdate.ReuseEffect` | rtlwifi/efuse.c:821-866 | a write that finds an empty packet, byte by byte: its words take the data unless a later packet has them; left-over words take it iff fewer than three reuses are counted |
| `EfuseUpdate.AppendEffect` | rtlwifi/efuse.c:893-942 | a write that finds none reaches the image whole and is not counted as reuse |
| `EfuseUpdate.ReusableExactly` | rtlwifi/efuse.c:781-826 | a packet can be reused iff it is of that section, its present words read 0xFF, and it shares a word with the write |
| `EfuseUpdate.UpdateEffect` | rtlwifi/efuse.c:468-507 | what the whole update does to every byte of the image |
| `EfuseUpdate.UpdateExact` | rtlwifi/efuse.c:446-518 | the device decodes to the wanted map afterwards iff every changed word finds no empty packet, or one no later packet overrides, or is left over within the reuse threshold |
| `EfuseUpdate.LeftOversWritten` | rtlwifi/efuse.c:861-865 | while count at entry and reuses stay within three, every changed word that no empty packet of its section has is written |
| `EfuseUpdate.UnchangedUntouched` | rtlwifi/efuse.c:470-493 | a section without changes keeps its packets and gets none |
| `EfuseUpdate.SoundWithoutEmptyPackets` | rtlwifi/efuse.c:446-518 | on a log without empty packets every update succeeds |
| `EfuseUpdate.UpdateFits` | rtlwifi/efuse.c:380-419 | the log never grows by more than the capacity check counted |
| `EfuseUpdate.NeedExact` | rtlwifi/efuse.c:380-419 | on a log without empty packets the update takes exactly the room that the capacity check counts |
| `EfuseUpdate.ResetLeavesEmptyPackets` | rtlwifi/efuse.c:944-1039 | the driver's own writes leave empty packets behind |
| `EfuseUpdate.StaleReuse` | rtlwifi/efuse.c:821-866 | a reachable log on which a write goes into an overridden packet and the image keeps the old value |
| `EfuseUpdate.Cycles` | rtlwifi/efuse.c:821-866 | programming a word of a blank device, then n times resetting and programming it, leaves n + 1 equal packets and a reuse count of n |
| `EfuseUpdate.RepeatsExhausted` | rtlwifi/efuse.c:861-865 | after n resets and rewrites of one word of a blank device, a write of two words into the next empty packet keeps both iff n is below the threshold, and otherwise gives the second up |
| `EepromFetch.FetchBlock` | r92su/eeprom.c:182-199 | for any content only bytes of the block's usable words are written, inside the image |
| `EepromFetch.FetchEeprom` | r92su/eeprom.c:150-201 | ends and stays in bounds for any 512 bytes; on a well-formed log the result is the image that read_efuse returns |
| `Michael.BlockBijective` | r92su/michael.c:16-28 | for each word the block step is a bijection on (l, r) |
| `Michael.PaddingAsSpecified` | r92su/michael.c:65-82 | the words fed in are the little-endian words of the data, 0x5a and four to seven zero bytes |
| `Michael.MessageAsSpecified` | r92su/michael.c:30-82 | the words fed in are those of destination, source, priority, three zero bytes, and the padded data |
| `Michael.DataWordsInjective` | r92su/michael.c:65-82 | different data give different word sequences |
| `Michael.FoldBijective` | r92su/michael.c:56-86 | over a fixed message the final state determines the key state, and every state is reached |
| `Michael.MicDeterminesKey` | r92su/michael.c:56-86 | for one message two keys with the same code are the same |
| `Michael.MichaelCtx.Block` | r92su/michael.c:16-28 | the context advances by one block step |
| `Michael.MichaelCtx.MicHdr` | r92su/michael.c:30-54 | folded in are the four words of destination, source, priority and three zero bytes |
| `Michael.MichaelCtx.WholeBlocks` | r92su/michael.c:65-70 | the whole words of the data are folded in |
| `Michael.PartialBlock` | r92su/michael.c:72-79 | the value of the last one to three bytes under the 0x5a mark |
| `Michael.MichaelMic` | r92su/michael.c:56-86 | the code is the fold of the block step over pseudo-header and padded data |
| `MichaelVectors.CodeVector` | r92su/michael.c:30-86 | the eight bytes of the code of one QoS frame with different addresses and a priority |
| `Ieee80211.AddressFields` | r92su/michael.c:35-40 | where destination and source are for the four settings of the distribution system bits |
| `Ieee80211.HeaderLengths` | r92su/rx.c:383 | header lengths of data and management frames with and without fourth address, QoS and HT control |
| `TkipMixing.PacketKeyUnique` | r92su/tkip.c:81-136 | under one temporal key the RC4 key determines transmitter and packet number, for any substitution box |
| `TkipMixing.RoundsInjective` | r92su/tkip.c:93-100 | phase 1 loses nothing of its start |
| `TkipMixing.TkipCtx.MixingPhase1` | r92su/tkip.c:81-102 | the context holds phase 1 of transmitter and upper counter |
| `TkipMixing.TkipCtx.MixingPhase2` | r92su/tkip.c:104-136 | the key is phase 2 of the context and lower counter |
| `TkipMixing.FirstSweep` | r92su/tkip.c:118-123 | the six words after the first sweep |
| `TkipMixing.SecondSweep` | r92su/tkip.c:124-129 | the six words after the second sweep |
| `TkipMixing.EmitKey` | r92su/tkip.c:131-135 | the sixteen key bytes, the three clear ones first |
| `TkipSchedule.Phase1Schedule` | r92su/tkip.c:81-102 | phase 1 is the last five of 45 words, each made of the words one and five before it and sixteen key bits |
| `TkipSchedule.Phase2Schedule` | r92su/tkip.c:104-136 | the key is made of the last six of 18 words, each made of the words one and six before it, and of the clear bytes |
| `TkipVectors.PacketKeyVector` | r92su/tkip.c:26-136 | with the driver's table, the sixteen key bytes of one transmitter and packet number |
| `Encapsulation.IvRoundTrip` | r92su/rx.c:407-443 | the receiver reads back the packet number the sender wrote and finds the extended-IV flag |
| `Encapsulation.ClearKeyBytes` | r92su/tkip.c:66-72 | the first three bytes of the RC4 key are the ones the IV carries |
| `Encapsulation.RetouchedInvisible` | r92su/aes_ccm.c:32-91 | nonce, authenticated header and MIC addresses do not depend on subtype, retry, power management, more-data and sequence number |
| `Encapsulation.WepRoundTrip` | r92su/wep.c:93-112 | decryption with checksum undoes encryption with checksum |
| `Encapsulation.OpenSealed` | r92su/tkip.c:158-173 | what is opened is what was sealed, trailer included, and passes verification |
| `Encapsulation.RoundTrip` | r92su/rx.c:376-559 | receiving undoes sending for every header, body and packet number, TKIP and CCMP; a packet number not above the receiver's is refused |
| `Encapsulation.HardwareRoundTrip` | r92su/rx.c:520-552 | with the ciphers in hardware the driver still undoes its part, whatever trailer the hardware leaves, empty bodies included |
| `Encapsulation.EmptyCcmpBodyRefused` | r92su/aes_ccm.c:145-146 | an empty body is sealed and then refused |
| `FrameLayout.IvLayout` | r92su/tx.c:197-219 | the eight IV bytes of both suites from the six bytes of the packet number |
| `FrameLayout.NonceLayout` | r92su/aes_ccm.c:59-71 | one, priority, transmitter, and the packet number with the highest byte first |
| `FrameLayout.AadLayout` | r92su/aes_ccm.c:32-91 | byte by byte the header without duration, under the mask of protected bits, with the protected flag set |
| `FrameLayout.CcmpOnAir` | r92su/aes_ccm.c:94-126 | header, IV, ciphertext and code; with hardware encryption header, IV and body |
| `FrameLayout.TkipOnAir` | r92su/tx.c:229-290 | header, IV, and body, Michael code and checksum under the stream; with hardware encryption body and code in the clear |
| `FrameLayout.CcmpAccepted` | r92su/rx.c:376-559 | for any bytes: accepted iff extended IV, number above the counter, not empty, and the cipher opens it; and what is handed on |
| `FrameLayout.TkipAccepted` | r92su/rx.c:376-559 | for any bytes: accepted iff extended IV, number above the counter, checksum and Michael code fit; hardware-decrypted frames without the checksum |
| `CipherStreams.LetThrough` | r92su/rx.c:494-559 | a frame is let through iff it moves the counter, to its own packet number and upwards, and then comes out verified and without its trailer |
| `CipherStreams.StreamIncreases` | r92su/rx.c:407-547 | over any stream packet numbers let through strictly increase and dropped frames leave the counter alone |
| `CipherStreams.AllDelivered` | r92su/tx.c:197-219 | a sender ahead of its receiver has every frame delivered unchanged |
| `CipherStreams.FreshPair` | r92su/sta.c:236-251 | a fresh pair loses exactly its first frame |
| `CipherStreams.NonceUnique` | r92su/aes_ccm.c:59-71 | a CCMP nonce determines transmitter, priority and packet number |
| `AggregatedTrains.PnIncreases` | r92su/tx.c:197-219 | while the counter lasts, a later message has a larger packet number |
| `AggregatedTrains.TrainDelivered` | r92su/rx.c:908-1014 | a train of sealed frames, shuffled within reach, comes out of the reordering buffer and the decapsulation behind it with every body in the order sent |
| `AggregatedTrains.OvertakenRefused` | r92su/rx.c:407-547 | frames arriving in any order, with any repetitions, without the buffer: each comes through iff every frame before it is numbered lower |
| `CipherPath.R92suKey.constructor` | r92su/sta.c:233-251 | both counters of a new key start at the same number |
| `CipherPath.WriteIv` | r92su/tx.c:197-219 | the eight bytes of the IV |
| `CipherPath.TxAddIv` | r92su/tx.c:154-227 | the IV stands between header and body, and the counter has gone up by one |
| `CipherPath.WepEncryptData` | r92su/wep.c:40-52 | in place: data and checksum under the key stream |
| `CipherPath.WepDecryptData` | r92su/wep.c:93-112 | accepts iff the checksum fits, and then holds the plain data |
| `CipherPath.TkipKey` | r92su/tkip.c:149-153 | both phases give the packet key of transmitter and packet number |
| `CipherPath.CcmpNonce` | r92su/aes_ccm.c:59-71 | flags, transmitter and packet number in their places |
| `CipherPath.CcmpAad` | r92su/aes_ccm.c:32-91 | the masked header as it is authenticated, with and without a fourth address |
| `CipherPath.TxAddCrypto` | r92su/tx.c:229-290 | behind header and IV stands the sealed body, or only the signed one when the hardware encrypts |
| `CipherPath.SendFrame` | r92su/tx.c:645-646 | both transmit handlers together give the specified frame |
| `CipherPath.ReadPn` | r92su/rx.c:414-443 | the packet number from the IV's bytes |
| `CipherPath.RxIvHandle` | r92su/rx.c:376-458 | passes iff extended IV and not replayed, and then the IV is gone |
| `CipherPath.Decrypt` | r92su/tkip.c:158-173 | the software decryption of either suite |
| `CipherPath.RxTkipHandle` | r92su/rx.c:460-492 | passes iff the Michael code between data and checksum fits |
| `CipherPath.RxCryptoHandle` | r92su/rx.c:494-559 | verdict, counter and resulting frame, with decryption in software or by the hardware |
| `CipherPath.ReceiveFrame` | r92su/rx.c:1013-1014 | both receive handlers together give the specified verdict, counter and frame |
| `TxRing.TxRing.constructor` | rtlwifi/pci.c:1210-1275 | an empty ring, all descriptors the driver's |
| `TxRing.TxRing.Tx` | rtlwifi/pci.c:1635-1712 | busy iff the ring is full and nothing came back; otherwise the frame is queued and in its descriptor; the ring stays sound iff it was not full with its oldest frame done |
| `TxRing.TxRing.HwComplete` | rtlwifi/pci.c:1696-1702 | the hardware sends what the next descriptor names: the oldest queued frame not yet sent |
| `TxRing.TxRing.TxIsr` | rtlwifi/pci.c:561-638 | exactly the frames that came back are reported, oldest first, and the queue is woken if the level was low |
| `TxRing.Overrun` | rtlwifi/pci.c:1641-1672 | as many calls as there are descriptors, one frame sent, one call more: the oldest descriptor names the new frame while its own is still queued |
| `TxRing.SlotIsModulo` | rtlwifi/pci.c:1641-1642 | the index computed with the remainder is the position counted around the ring |
| `TxRing.RunConsistent` | rtlwifi/pci.c:561-638 | over every run frames are sent and reported once and in order, the ring never fills, and mac80211 is stopped iff one descriptor is left |
| `TxRing.InterruptWakes` | rtlwifi/pci.c:619-629 | a report always leaves mac80211 running |
| `TxRing.StoppedAndWoken` | rtlwifi/pci.c:619-629 | stopped iff the frame leaves at most one descriptor; woken by a report iff at most four are left behind the first frame reported |
| `TxRing.Drains` | rtlwifi/pci.c:568-632 | from every reachable state, once the hardware is done one interrupt reports everything and wakes mac80211 |
| `UrbThrottle.Usb.TxSchedule` | r92su/usb.c:202-232 | in one go: nothing unless there is room and a URB waits; then the oldest goes out, or fails and frees its place |
| `UrbThrottle.Usb.UsbTx` | r92su/usb.c:360-390 | a frame is refused iff the device is not up or there is no URB, and then nothing changes; otherwise the URB is queued behind those waiting, then scheduling as above |
| `UrbThrottle.Usb.TxUsbCb` | r92su/usb.c:234-249 | a completion frees a place and schedules |
| `UrbThrottle.AtMostEight` | r92su/usb.c:202-249 | in every interleaving at most eight URBs are submitted and each is in as many places as it was issued times |
| `UrbThrottle.FirstComeFirstServed` | r92su/usb.c:202-215 | in every interleaving URBs leave the waiting list in the order in which they came onto it |
| `UrbThrottle.StepCovered` | r92su/usb.c:202-249 | an atomic action leaves more URBs waiting than processors coming, with a place free, iff it is a refused increment or a failed submit, with more URBs waiting than processors then still coming and not all places taken or spoken for |
| `UrbThrottle.CoveredAtRest` | r92su/usb.c:202-232 | when no processor is inside, being covered means that URBs wait only while eight are outstanding |
| `UrbThrottle.RunCoveredExactly` | r92su/usb.c:202-249 | in every interleaving of any number of processors nobody ever waits in vain iff no action of the run is such a losing one |
| `UrbThrottle.CarefulRunsCover` | r92su/usb.c:202-249 | in every interleaving without a failed submit, and without an increment refused while a place is free, URBs wait at rest only while eight are outstanding |
| `UrbThrottle.SendRuns` | r92su/usb.c:360-390 | the atomic steps of an undisturbed sender amount to its sequential effect |
| `UrbThrottle.GiveBackRuns` | r92su/usb.c:234-249 | the atomic steps of an undisturbed completion amount to its sequential effect |
| `UrbThrottle.NoneWaitsInVain` | r92su/usb.c:202-249 | the sequential case: without overlap and failures URBs wait only while eight are outstanding |
| `UrbThrottle.WakeupLost` | r92su/usb.c:207-231 | with two overlapping calls a URB is left waiting with seven outstanding and nobody about to send it |
| `InfoElements.FindIe` | r92su/rx.c:1250-1266 | the position of the first complete element of that kind before any clipped one, whatever byte lies behind the buffer; that byte is read iff the walk comes to a lone last byte |
| `InfoElements.FindPrinted` | r92su/rx.c:1250-1266 | in a buffer of encoded elements the first of the kind is found, else what follows is searched |
| `InfoElements.LoneByteBehind` | r92su/rx.c:1250-1266 | behind encoded elements the byte after the buffer is read iff the kind is not among them and the walk over the rest reads it |
| `InfoElements.PrintedNeverOverread` | r92su/rx.c:1250-1266 | a buffer of encoded elements is never read beyond its end; with one byte more it is iff the kind is not in it |
| `InfoElements.IeBuffer.AddIes` | r92su/main.c:239-251 | appended iff it fits, and cursor and room keep adding up to 256 |
| `InfoElements.IeBuffer.AddIe` | r92su/main.c:253-269 | the encoded element is appended iff it fits, and cursor and room keep adding up to 256 |
| `InfoElements.IeBuffer.HtUpdate` | r92su/main.c:271-292 | the capability element is appended unless HT is off |
| `InfoElements.SupportedRates` | r92su/main.c:1123-1128 | at most sixteen rate bytes, the basic ones marked |
| `InfoElements.IeBuffer.IbssBuildIe` | r92su/main.c:1111-1158 | buffer and status for every way of running out of room |
| `InfoElements.PrintedExact` | r92su/main.c:1130-1157 | success iff everything fits, and the two errors tell elements and user data apart |
| `InfoElements.PrintedBytes` | r92su/main.c:1111-1158 | the printed buffer in literal element identifiers, lengths and order, and when it fits into 256 bytes |
| `InfoElements.RateBytes` | r92su/main.c:1123-1128 | a rate byte is the rate in 500 kb/s rounded down, 128 more iff basic |
| `InfoElements.BssRecord.BuildFwBss` | r92su/main.c:1160-1218 | the record, filled as far as the parser gets, and whether it got to the end |
| `InfoElements.ParsedExactly` | r92su/main.c:1160-1218 | for any bytes: success iff SSID, channel and rates are there, and each field with its cut-offs |
| `InfoElements.ParsePrinted` | r92su/main.c:1111-1218 | parsing what was printed recovers SSID, channel, ATIM window and all rates, whatever user elements follow |
| `Wowlan.MaskShifted` | rtlwifi/core.c:535-542 | hardware mask bit k is bit k + 6 of the given mask for k of at least 6, and clear below |
| `Wowlan.ContentSelected` | rtlwifi/core.c:553-563 | the checksummed bytes are those six behind the set bits of the hardware mask, in order |
| `Wowlan.ContentOfMask` | rtlwifi/core.c:557-563 | a full mask selects everything from the thirteenth byte on, a mask with one bit that byte |
| `Wowlan.SelectsOnlyPattern` | rtlwifi/core.c:535-563 | the hardware selects only pattern bytes iff the given mask has no bit beyond the pattern |
| `Wowlan.BitwiseStep` | rtlwifi/core.c:427-451 | patching single bits is shift and division by the CCITT polynomial |
| `Wowlan.CrcLinear` | rtlwifi/core.c:421-467 | the register is linear in its start and in the bytes |
| `Wowlan.OneByteShows` | rtlwifi/core.c:421-467 | changing any one byte of a selection changes its checksum |
| `Wowlan.ChecksumVector` | rtlwifi/core.c:421-467 | the checksums of the empty selection and of two bytes |
| `Wowlan.Crc16Ccitt` | rtlwifi/core.c:421-454 | one byte, the lowest bit first |
| `Wowlan.CalculateWolPatternCrc` | rtlwifi/core.c:456-467 | the inverted register after all bytes |
| `Wowlan.TranslateMask` | rtlwifi/core.c:535-542 | the whole shifted mask |
| `Wowlan.SelectContent` | rtlwifi/core.c:557-563 | the selected bytes from the thirteenth on |
| `Wowlan.MaskWords` | rtlwifi/core.c:546-551 | four registers, each of four mask bytes, the low byte first |
| `Wowlan.KindOfAddress` | rtlwifi/core.c:502-510 | broadcast iff all ones, multicast iff the prefix is that of IPv4 or IPv6, unicast only if it is the own address |
| `Wowlan.AddPattern` | rtlwifi/core.c:484-574 | skipped iff too long; otherwise address kind, mask registers bit by bit, and the checksum of what those registers select |
| `SignalWindow.TailSlides` | rtlwifi/stats.c:104-113 | a new sample pushes the oldest out of the window, in contents and in sum |
| `SignalWindow.SmoothData.Add` | rtlwifi/stats.c:104-116 | the total is the sum of exactly the last samples, and the average is theirs |
| `SignalWindow.AverageBetween` | rtlwifi/stats.c:115-116 | the average lies between the smallest and the largest sample in the window |
| `SignalWindow.AverageRounds` | rtlwifi/stats.c:115-116 | the average is rounded down |
| `SignalWindow.DbmScale` | rtlwifi/stats.c:51-59 | half a dB for each percent, rounded up, from -95 to -45 dBm |
| `SignalWindow.Stats.ProcessUiRssi` | rtlwifi/stats.c:90-119 | samples of frames neither for us nor beacons change nothing; otherwise the average of the last 100, in dBm |
| `SignalWindow.Stats.ProcessUiLinkQuality` | rtlwifi/stats.c:214-238 | zero samples change nothing; otherwise the average of the last 20 |

## Left out

* RCU, spinlocks, reference counts and the memory layout of sk_buffs, headroom in particular; in the defragmenter
  the size handed to `pskb_expand_head` matters only through `Skb.room`.
* Parts of `rx.c` around the modelled handlers: deduplication, header checks, conversion to 802.3, delivery.
* WEP: its IV, its software encryption of whole frames, and its software decryption, which passes a length that
  still includes the ICV (`r92su/wep.c:135`).
* HT control in headers with four addresses and QoS: `ccmp_special_blocks` has no room for it.
* Frames shorter than IV and CCMP trailer on receive: the lengths computed there are unsigned and wrap.
* `r92su_tx_fragment`, whose remainder arithmetic omits a fragment and which is not enabled.
* Faulty EFUSE cells, and with them bad-word rewriting, `efuse_pg_packet_read` and failed header writes. Extended
  headers are only read: no writer of the driver produces them, and the other reader does not know them.
* The branch of `efuse_shadow_update` that can never be taken because its flag is never set, usage
  percentages and hardware registers.
* The EEPROM type and autoload checks in front of `r92su_fetch_eeprom_data`'s loop.
* Beacon rings, the new TRX flow, early mode, and the firmware command ring, which stops a mac80211 queue it never
  wakes (`rtlwifi/pci.c:604-608`).
* Sequence number bookkeeping and statistics inside `rtl_pci_tx`.
* Devices other than one PCI ring with one mac80211 queue.
* `r92su_find_wmm_ie`, and the fields of the firmware's BSS record that do not come from elements.
* The contents of the HT capability element: its 26 bytes are a parameter.
* Wake-on-WLAN register writes, and the loop over patterns: each pattern is handled on its own.
* The exponential averages and per-path statistics in `rtlwifi/stats.c`.
* Radiotap, H2C and C2H messages, debugfs, regulatory tables, cfg80211 plumbing: no state worth an invariant.

Contracts that promise less than the cited lines do, or ask for more:

- Defragmentation.DefragEntry.RxDefrag: whether the buffer can grow is a property of the frame, not of the size asked
  for; `DefragTheorems.GrowthExact` gives that size.
- EfuseDevice.Efuse.ReadEfuse: the usage percentage and the register writes around the loops are not part of this model.
- EfuseDevice.Efuse.FillPacket: on a well-formed log in fault-free cells; the words of the packet filled are erased then.
- EfuseDevice.Efuse.WriteDataCase1: on a well-formed log in fault-free cells, where no word is bad after filling.
- EfuseDevice.Efuse.WriteDataCase2: on erased fault-free cells the header reads back as written, so the retry is left
  out.
- EfuseDevice.Efuse.WriteData: on erased fault-free cells no word is bad, so the rewrite of bad words is left out.
- EfuseDevice.Efuse.PgPacketWrite: content that is not a well-formed log only occurs with faulty cells or another writer.
- EfuseDevice.Efuse.ShadowUpdate: the init map and used count are in step with the log, as they are after reading the
  device and after every update.
- CipherPath.R92suKey.constructor: WEP keys and the error for unknown ciphers are not part of this model.
- CipherPath.TxAddIv: without the WEP branch.
- CipherPath.TxAddCrypto: without the WEP branch.
- CipherPath.CcmpNonce: data frames only.
- CipherPath.CcmpAad: data frames only, and no HT control beside four addresses and QoS, for which there is no room.
- CipherPath.RxIvHandle: on frames with room for header and IV.
- CipherPath.Decrypt: on bodies with room for the CCMP trailer; shorter lengths wrap around in the driver.
- CipherPath.RxCryptoHandle: on frames with room for header and CCMP trailer.
- CipherPath.ReceiveFrame: on frames with room for header, IV and CCMP trailer.
- TxRing.TxRing.Tx: without sequence numbers and the new flow; keeping the stop flag exact needs a caller that respects
  it, and the contract says so.
- TxRing.TxRing.TxIsr: without the statistics, and for a ring other than the firmware command ring.
- InfoElements.BssRecord.BuildFwBss: only the fields that come from elements.
- SignalWindow.Stats.ProcessUiRssi: the two counters kept beside the window, and the copy into the frame, are left out.
