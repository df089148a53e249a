# FMan offload core: a verified model

This project models the parts of the LS1046A FMan support code that are hardest to get right and
proves what they are for. Five systems are covered.

**The external-hash flow table** (`Bytes`, `Layout`, `Bucket`, `Pools`, `NodeFill`, `NodeBuild`, `EhashView`,
`EhashSteps`, `EhashAdd`, `EhashDel`, `EhashDrain`, `EhashLookup`, `EhashHistory`, `EhashTable`, `FpmSync`,
`Epoch`, `Reclaim`, `EhashRuns`, `EhashNoFMan`). `EhashTable.Table` is the table as the code keeps it: bucket heads, a per-bucket flow
index, published node lists, the flow list, and pool memory as bytes. Insert, delete and drain are
methods that allocate blocks, write node bytes in loops, store a head, SYNC and free. Memory, heads
and the SYNC register are shared with the hardware, so every bus-visible thing a method does is one
event of a ghost log. Everything a method promises is a relation between two values of the table
(`View`): `Added`, `Deleted`, `Drained`, or no change. `Epoch` lets any number of hardware lookups
run between any two events of a log; a SYNC completes only once every lookup begun before its arm has
ended. Two facts meet in `EhashRuns.EveryRunIsSafe`: `Table.Valid` says the log is disciplined
(blocks are written before they are exposed, and freed only unreachable and after a SYNC armed later
than the head store that unlinked them), and a disciplined log is safe in every interleaving. The table
also keeps a ghost history of itself, one value a call; `EhashRuns.LookupsFollowCalls` ties each lookup's
result to the index of the call that last stored its head.

**The control-punt loader** (`Punt`, `PuntRuns`, `PuntConverge`, `PuntCodes`, `PuntFailures`, `PuntLoader`). `Punt.Set` is one call
against hardware that may never go idle and may store anything; `PuntLoader.Loader` is the same call
step by step on the driver's static state. The properties are over all runs of calls; `PuntCodes` says what
a caller sees without naming the steps.

**The policer** (`TokenBucket`, `Policer`), **the AF_XDP FILL/RX loop** (`FillRing`, `FillRuns`),
**KeyGen scheme selection, IPv6 arming and the disarm scan** (`KeyGen`, `KeyGenPort`, `KeyGenTable`,
`KeyGenDriver`) and **the microcode block map** (`CfgMap`, `CfgBlocks`). `KeyGenDriver.Driver` does arm and
disarm step by step; `KeyGenTable` says on values what the steps come to. `Kernel` and `Options` hold the
error numbers and types that several systems use.

Hardware answers are parameters (`Answers`, `Hw`, `land`, consumer words), so each theorem holds for
every way the hardware can behave. So are allocators: `Pools.Pool` says what each allocation of a call
returns, and contracts say exactly which of its failures make a call fail.

## Findings

Properties the code does not have, each with the exact condition under which it has it.

- Parser words can be lost. If the program's words were stored but FMPR_RPIMAC[PEN] did not read back,
  the load fails with the program resident and `loaded` clear; the next arm saves the program as the
  words to restore, and the last disarm puts it back and returns 0 (`PuntConverge.OriginalsCanBeLost`;
  from a fresh start, `PuntFailures.OriginalsAreLost`).
  A call keeps the originals if and only if it is not such a call and no failed load fails to undo
  itself (`PuntRuns.SetKeepsCode`, `PuntRuns.Spoils`).
- Punt convergence is convergence of the bookkeeping, not of the SSA. It fails both ways. A disarm that
  fails after corrupting the SSA leaves the HXS recorded as attached, so later calls with the same mask
  skip it and return 0 while it does not work (`PuntConverge.FailedDisarmSticks`; from a fresh start,
  `PuntFailures.HxsStaysBroken`). An attach whose store and undo both go astray leaves the HXS recorded as
  detached while its SSA still jumps to the program, which is then unloaded; a later fault-free call for
  another HXS returns 0 with it still active (`PuntFailures.HxsStaysActive`). After a fault-free call
  exactly the mask's HXS are active if and only if each wanted one was detached or active before, and no
  unwanted one comes back active from its saved words or stays active while recorded as detached
  (`PuntConverge.ExactlyTheMaskWorks`). While no failed attach or load spoils an original word, every
  active SSA finds its program (`PuntConverge.ActiveSsasFindTheirCode`).
- Without an FMan, SYNC reports success at once. In every such table with attached ports, each delete
  that takes a flow from a bucket in hardware lets a lookup begun before it read a freed block, whatever
  the bucket count, the key size and the table's past (`EhashNoFMan.DeleteUnsynced`,
  `EhashNoFMan.AddThenDelete`).
- An insert that evicts is not atomic: a failed one leaves the table as it was if and only if no flow
  carried its key. With ENOMEM after an eviction the old flow is gone, and its bucket is dark if the
  delete could not rebuild it (`EhashTable.Table.Insert`).
- The key stride holds the key if and only if the key is at most 56 bytes long
  (`Layout.StrideHoldsKeyUpTo56`).
- The RX loop compares an unwrapped consumer counter with the 32-bit producer word: it takes what is
  available if and only if the producer word has not wrapped past the consumer word or a full batch is
  available (`FillRing.BatchTakesWhatIsThere`; a failing case, `FillRing.BatchOverrunsAtWrap`).
- The readback of the LCV split covers three of sixteen words; those three suffice if and only if no
  other word contributes more than the catch-all bit (`KeyGen.ThreeWordsAreNotEnough`; a split that
  returns 0 and sends a frame without IP headers to the IPv4 scheme, `KeyGenPort.SplitCanLie`).
- The IPv6 arm asks in a comment that the catch-all scheme have the highest id, but takes the first free
  slot for it. After an arm whose setups succeed selection is right for every frame if and only if at most
  one slot below the port's own scheme was free before it (`KeyGenTable.ArmSelectsRight`). Otherwise the
  catch-all takes the IPv4 frames (`KeyGenTable.CatchAllTakesIPv4`).
- An IPv6 arm that finds no slot for the catch-all, or whose catch-all setup fails, still splits the
  parser's words: every frame without an IP header then selects no scheme (`KeyGenTable.NoCatchAllIsDeaf`).
  One whose IPv6 setup fails stops before the split and is harmless (`KeyGenTable.V6FailureIsHarmless`).
- The disarm scan promises the state from before the arm. Whatever failed in the arm, it gives that back
  if and only if the setup of the narrowed IPv4 scheme, whose result the arm ignores, had succeeded
  (`KeyGenTable.DisarmRecovers`; a failed setup is taken to have no effect).
- A policer refill is the RFC's if and only if the clock did not wrap unnoticed or the missing tokens
  do not show (`Policer.RefillIsTicks`; a pause of exactly 2^32 units, `Policer.LongPauseIsLost`).
- `bin/dpaa1-xsk-bind-probe.py` speaks of 256 frames in its comments; the code uses 8192, and so does
  the model. `fman_policer_evaluate` documents color-aware and packet modes but reads neither the mode
  flags nor the input color; the model follows the code.

## Model

| member | source | states |
|---|---|---|
| EhashRuns.EveryRunIsSafe | bin/test-ehash-delete.py:285-297 | Whatever calls a table with an FMan has served, in no interleaving does a lookup read a freed or half-built block, and each ended lookup returned what its bucket mapped its key to when it read the head |
| EhashRuns.LookupsFollowCalls | bin/test-ehash-delete.py:166-222 | Each ended lookup returned what the index held for its key in the table left by the call that made the last store to its head before it read it, nothing if that call left the bucket dark |
| EhashRuns.EveryFreeFollowsSync | bin/test-ehash-delete.py:285-297 | Every block freed while ports are attached was not reachable since it was allocated, or a SYNC armed after the head store that unlinked it has completed |
| Reclaim.FreesFollowSync | bin/test-ehash-delete.py:214-297 | The same of every disciplined log, from the log's own history of arms, completions and heads |
| Epoch.NoLookupFaults | bin/kernel-fixups/F_269.py:54-68 | Reclamation safety of every disciplined log against any number of lookups |
| Epoch.LookupIsLinearizable | bin/test-ehash-delete.py:166-222 | A lookup's result is the snapshot at its head read, whatever the writer does before it ends |
| Epoch.ApplyKeepsWorldOk | bin/test-ehash-delete.py:214-222 | Every legal bus event keeps each head's image intact and the reachability stamps exact |
| Epoch.WriterKeepsLookup | bin/kernel-fixups/F_271.py:20 | No writer event, SYNC completion included, disturbs a lookup in flight |
| EhashNoFMan.FreedEntryFaults | bin/kernel-fixups/F_271.py:20 | In any log where a block some head leads to is gone later with neither a completed SYNC nor a detach in between, some run has a lookup read it after it is gone |
| EhashNoFMan.UnsyncedDeleteFaults | bin/kernel-fixups/F_271.py:20 | The same of two tables related by `Deleted` whose log holds no SYNC |
| EhashNoFMan.DeleteUnsynced | bin/kernel-fixups/F_271.py:20 | Any attached table without an FMan: each delete that succeeds on a bucket in hardware has a run with a faulting lookup |
| EhashNoFMan.AddThenDelete | bin/kernel-fixups/F_271.py:20 | Insert then delete on any such table, at any bucket count and key size, has one too |
| EhashTable.Table.AddKey | bin/kernel-fixups/F_269.py:62-64 | Insert: ENOMEM exactly when some allocation it needs fails, and then heads, nodes, index, memory and owners are as before; otherwise exactly `Added`, old nodes freed exactly when a SYNC saw INV0 clear; one SYNC is counted if old nodes were replaced, none otherwise |
| EhashTable.Table.DelKey | bin/kernel-fixups/F_269.py:68 | Delete: EINVAL and ENOENT exactly when due and without effect; otherwise the first indexed flow with the key leaves, its bucket is darkened exactly when the rebuild lacks memory, and blocks are freed exactly when the SYNC completed, of which there is one, counted once |
| EhashTable.Table.Insert | kernel/common/patches/board/0219-fman-pcd-ehash-dup-key-evict.patch:63-88 | Evict then insert as two relations, `Evicted` and `Added`: keys stay unique, the key now finds the new record, every other key in every bucket finds what it found; a failed insert leaves the table as it was exactly when it had nothing to evict, and otherwise the hardware sees the remaining flows, or nothing if the bucket went dark; the counted SYNCs are the eviction's and then the insert's |
| EhashTable.Table.Drain | bin/kernel-fixups/F_269.py:66 | With the ports detached, drain ends with empty heads, index and node lists and only kept blocks live |
| EhashTable.Table.Publish | bin/kernel-fixups/F_269.py:54 | ENOMEM exactly when an allocation fails, and then nothing changed; otherwise the head exposes exactly the kept flows, in fresh nodes |
| EhashTable.Table.Sync | bin/kernel-fixups/F_271.py:20 | Succeeds exactly when some poll saw INV0 clear; then every head store so far precedes the arm |
| EhashTable.Table.Lookup | bin/test-ehash-delete.py:166-212 | The hardware finds the record del_key would remove, nothing in a dark bucket, in exactly ceil(n/per) node fetches |
| EhashTable.Table.Find | bin/kernel-fixups/F_264.py:44-57 | The bucket search finds the first flow with the key |
| NodeBuild.Build | bin/kernel-fixups/F_269.py:54 | The bytes built for 0, 1 or more flows are the bucket's image; on any allocation failure everything taken is given back |
| NodeBuild.Fill | bin/kernel-fixups/F_269.py:54 | The node-filling loop with its two counters stores every kept flow once, by stores that never touch an exposed block |
| NodeBuild.AllocNodes | bin/kernel-fixups/F_269.py:54 | All nodes zeroed and fresh, or, exactly when the list or some node cannot be had, none and memory as before |
| NodeFill.FillToFills | bin/kernel-fixups/F_269.py:54 | After k entries every node holds exactly its share of them, whatever the layout |
| NodeFill.ChainPublished | bin/kernel-fixups/F_269.py:54 | A filled chain is the published image of the bucket's flows |
| NodeFill.CountersAreSlot | bin/kernel-fixups/F_269.py:54 | The loop counters are the quotient and remainder of the entry number for every bucket size |
| Layout.NodeFits | bin/kernel-fixups/F_269.py:40-54 | For key sizes 1 to 56 at least three entries fit a node and the pointer offset fits a byte |
| Layout.StrideIsLeast | bin/kernel-fixups/F_269.py:54 | The stride is the least one the node format allows that holds the key |
| Layout.PerIsMost | bin/kernel-fixups/F_269.py:54 | A full node could not take one entry more |
| Layout.FieldsAreDisjoint | bin/kernel-fixups/F_269.py:54 | Header, keys, zero byte and pointers of a node never overlap |
| Layout.StrideHoldsKeyUpTo56 | bin/kernel-fixups/F_269.py:54 | The stride is at least the key size exactly up to 56 bytes |
| Layout.NodeReadsBack | bin/test-ehash-delete.py:187-211 | A written node decodes to exactly the keys, pointers and link that were encoded |
| Layout.NodeBytes | bin/kernel-fixups/F_269.py:54 | Every byte of a finished node from its own header: flags, count, stride, pointer offset, link, keys from byte 12 at the stride, a zero byte, big-endian pointers |
| Bytes.BeByte | bin/kernel-fixups/F_269.py:54 | Byte i of an encoded word has weight 256 to the n - 1 - i |
| Bytes.Be64Bytes | bin/kernel-fixups/F_269.py:54 | A stored pointer byte by byte, most significant first |
| Bytes.SwabReverses | bin/kernel-fixups/F_269.py:54 | The head word is the block address with its bytes reversed |
| Bytes.SwabIsInvolutive | bin/kernel-fixups/F_269.py:54 | The walker recovers exactly the address the CPU stored in the head |
| Bucket.SliceBounds | bin/kernel-fixups/F_269.py:54 | All nodes but the last are full and the last ends the bucket |
| Bucket.Walk | bin/test-ehash-delete.py:166-212 | Walking the bytes hits the first flow with the key, misses every other key, and ends after ceil(n/per) nodes |
| Bucket.ContentDependsOnBlocks | bin/test-ehash-delete.py:166-212 | A bucket's image depends on its own blocks only |
| EhashView.HardwareSeesIndex | bin/test-ehash-delete.py:166-212 | Hardware and software lookups agree on every key; a head is zero exactly for an empty index or a dark bucket |
| EhashView.BlocksAreConserved | bin/test-ehash-delete.py:414-462 | Live records are indexed or kept, live nodes are those of published buckets or kept, and there are no other blocks |
| EhashSteps.RebuildKeeps | bin/kernel-fixups/F_269.py:54-68 | Rebuilding one bucket keeps heads, nodes, index, flow list and owners of the whole table coherent |
| EhashAdd.InsertDone | bin/kernel-fixups/F_269.py:62-64 | Insert as a relation between tables: every invariant kept, old nodes unreachable and outlived by the SYNC |
| EhashDel.DeleteDone | bin/kernel-fixups/F_269.py:68 | Delete likewise, for the rebuilt and the darkened bucket |
| EhashDrain.DrainDone | bin/test-ehash-delete.py:414-422 | An emptied table is a valid table holding only kept blocks |
| EhashLookup.AddedSeen | bin/test-ehash-delete.py:426-442 | After an insert its key finds it and every other answer is unchanged |
| EhashLookup.DeletedSeen | bin/test-ehash-delete.py:444-459 | After a delete its record is never found again, with unique keys its key misses, and every other answer is unchanged |
| FpmSync.SyncCounters.Sync | bin/kernel-fixups/F_271.py:20 | Three attempts; success exactly when some poll saw INV0 clear; one outcome recorded |
| FpmSync.CountersBoundEachOther | bin/kernel-fixups/F_271.py:20 | 3 wedged + recovered <= timeouts <= 3 wedged + 2 recovered over every run |
| FpmSync.SyncCounters.RegistersBoundEachOther | bin/kernel-fixups/F_271.py:20 | The same for the 32-bit counters until the timeouts reach 2^32 |
| Punt.SetKeepsInv | bin/kernel-fixups/F_266.py:299-402 | However hardware fails, the program is resident while any port has an HXS attached, users counts those ports, ids are distinct |
| Punt.RefusalsChangeNothing | bin/kernel-fixups/F_266.py:309-341 | EINVAL, EBUSY, ENODEV and ENOSPC leave everything as it was |
| PuntLoader.Loader.CtlPuntSet | bin/kernel-fixups/F_266.py:299-402 | The imperative call does what Punt.Set says, state and return code |
| PuntLoader.Loader.Write | bin/kernel-fixups/F_266.py:194-252 | The write window: timeout, readback, undo and PEN check |
| PuntCodes.ReturnCodes | bin/kernel-fixups/F_266.py:283-341 | Each return code if and only if the state before the call and the parser's idleness say so; EINVAL, EBUSY, ENODEV, ENOSPC and disarming an unarmed port change nothing |
| PuntCodes.ZeroMeansDone | bin/kernel-fixups/F_266.py:283-298 | A valid call returns 0 if and only if the port ends registered with exactly the mask's HXS, or for mask 0 not at all |
| PuntCodes.FailedLoadLeaves | bin/kernel-fixups/F_266.py:194-252 | What a failed load leaves in the parser and in the saved words; nothing else changes |
| PuntCodes.RowOfEachMask | bin/kernel-fixups/F_266.py:160-168 | The SSA row after a fault-free call for each mask: slots 10, 5 and 6, labels 0x20, 0x33 and 0x47, all other slots and bits as before |
| PuntCodes.OverwrittenIsReported | bin/kernel-fixups/F_266.py:357-362 | Overwritten code is reported when an HXS would be added, and nothing changes |
| PuntRuns.SetKeepsCode | bin/kernel-fixups/F_266.py:194-281 | A call keeps the original parser words in place or saved if and only if it does not spoil them |
| PuntRuns.SetKeepsSsa | bin/kernel-fixups/F_266.py:68-99 | The same for every port's SSA words |
| PuntRuns.NothingIsLost | bin/kernel-fixups/F_266.py:176-182 | Over every unspoiled run the saved words are the originals, and once unloaded every parser word and SSA is back |
| PuntConverge.FaultFreeCallConverges | bin/kernel-fixups/F_266.py:283-298 | From any state a fault-free call returns 0, attaches exactly the mask's HXS, and unloads after the last |
| PuntConverge.ReturnCodeIsTruthful | bin/kernel-fixups/F_266.py:343-402 | Whatever the hardware does, a call returns 0 if and only if the load worked and exactly the mask's HXS are recorded as attached |
| PuntConverge.CallsThatReachThePort | bin/kernel-fixups/F_266.py:309-341 | Exactly which calls get past the checks |
| PuntConverge.HxsAfterCall | bin/kernel-fixups/F_266.py:365-385 | Each HXS after a fault-free call, wanted or not: active exactly as its record, saved word and SSA before the call say |
| PuntConverge.ExactlyTheMaskWorks | bin/kernel-fixups/F_266.py:283-298 | Exactly the mask's HXS are active after a fault-free call if and only if every wanted one was detached or active and no unwanted one comes back or stays active |
| PuntConverge.ActiveSsasFindTheirCode | bin/kernel-fixups/F_266.py:266-281 | Over every unspoiled run from originals with no active SSA, each active SSA is one of an FMan that holds the program |
| PuntFailures.HxsStaysActive | bin/kernel-fixups/F_266.py:266-281 | Counterexample run from a fresh driver, for any original words: a failed attach unloads the program with the SSA still jumping to it, and a fault-free call for another HXS returns 0 with it still active |
| PuntConverge.FailedDisarmSticks | bin/kernel-fixups/F_266.py:365-385 | A corrupting failed disarm is never repaired by later fault-free calls |
| PuntConverge.OriginalsCanBeLost | bin/kernel-fixups/F_266.py:236-250 | A PEN mismatch followed by two fault-free calls leaves the program where the originals were |
| PuntFailures.OriginalsAreLost | bin/kernel-fixups/F_266.py:236-250 | Counterexample run from a fresh driver, for any original words: three calls after which the program is where they were |
| PuntFailures.HxsStaysBroken | bin/kernel-fixups/F_266.py:365-385 | Counterexample run from a fresh driver: a fault-free arm returns 0 and the HXS does not work |
| PuntFailures.FaultlessIsFaultFree | bin/kernel-fixups/F_266.py:194-252 | Every call in every state can meet hardware on which nothing fails |
| PuntConverge.OnlyEnableAndLabelChange | bin/kernel-fixups/F_266.py:68-99 | While stores land, an SSA changes only in its enable bit and label |
| Policer.Profile.Evaluate | decomp/out/04-policer-state-machine.c:44-79 | The in-place update and color, with 64-bit sums that never wrap and tokens within their caps |
| Policer.ColorsAreEnvelopes | decomp/out/04-policer-state-machine.c:50-76 | Every packet's color from traffic alone: not red exactly when no window overdraws PBS + PIR * T, green exactly when none overdraws CBS + CIR * T either |
| Policer.CommittedRateIsEnforced | decomp/out/04-policer-state-machine.c:54-56 | Green bytes of any window are at most CBS + CIR * real time, clock wraps included |
| Policer.PeakRateIsEnforced | decomp/out/04-policer-state-machine.c:58-60 | Green and yellow bytes are at most PBS + PIR * real time |
| Policer.ColorsMatchRfc2698 | decomp/out/04-policer-state-machine.c:62-76 | Every run is colored as by the token-at-a-time marker of section 3 of RFC 2698 |
| Policer.RefillIsTicks | decomp/out/04-policer-state-machine.c:50-60 | Exactly when a refill equals the RFC's |
| Policer.LongPauseIsLost | decomp/out/04-policer-state-machine.c:50-60 | Counterexample: after a pause of 2^32 units the refill is 0 and the RFC's fills the bucket |
| TokenBucket.Envelope | decomp/out/04-policer-state-machine.c:54-60 | A bucket holds enough exactly when no window would overdraw it |
| FillRing.Probe.Drain | bin/dpaa1-xsk-bind-probe.py:658-700 | One wakeup: its batch, the recycled chunks, packets, their bytes and skips counted from the descriptors, and the two published words |
| FillRing.BatchCounts | bin/dpaa1-xsk-bind-probe.py:667-693 | Packets, bytes, recycled and skipped of a batch, and that descriptors are skipped exactly where the window was full |
| FillRing.NoUnconsumedSlotIsOverwritten | bin/dpaa1-xsk-bind-probe.py:676-693 | Over the loop's iterations, for any consumer words published meanwhile and across wrap: no iteration stores into a slot the word it read leaves unconsumed |
| FillRing.BatchOverrunsAtWrap | bin/dpaa1-xsk-bind-probe.py:663-675 | Counterexample at the wrap: one descriptor is available and 64 are taken |
| FillRing.BatchTakesWhatIsThere | bin/dpaa1-xsk-bind-probe.py:663-675 | Exactly when a batch is what is available, up to 64 |
| FillRuns.EveryChunkHasOnePlace | bin/dpaa1-xsk-bind-probe.py:570-700 | In every interleaving with the kernel each chunk is in exactly one of FILL, kernel, RX or dropped, once, and no ring overruns |
| FillRuns.StepKeeps | bin/dpaa1-xsk-bind-probe.py:658-700 | Every step of program and kernel moves chunks without copying or losing one |
| FillRuns.DropsOnlyWhenCountersLag | bin/dpaa1-xsk-bind-probe.py:685-687 | A chunk is dropped only while the kernel has not published all it consumed |
| FillRuns.WakeupsTakeWhatTheySee | bin/dpaa1-xsk-bind-probe.py:663-667 | Below 2^32 descriptors each wakeup takes what it saw, up to 64 |
| KeyGen.SelectionIsRight | bin/kernel-fixups/F_212.py:9-26 | Selection is total and right for every frame if and only if the plan passes all three bits and the catch-all comes last |
| KeyGen.ThreeWordsAreNotEnough | bin/kernel-fixups/F_205.py:113-133 | Exactly when the three verified LCV words tell the families apart |
| KeyGen.ClearedSlotZeroIsDeaf | bin/kg-lcv-probe.py:286-290 | With slot 0 cleared every non-IP frame selects no scheme |
| KeyGen.DefaultLcvCannotTell | bin/kernel-fixups/F_212.py:13-17 | With the default LCV words all frames select the same scheme |
| KeyGenTable.ArmSelectsRight | kernel/common/patches/board/0173-fman-pcd-fixup-fold.patch:2314-2405 | After an arm whose setups succeed, with a split LCV, selection is right for every frame if and only if at most one slot below the v4 scheme was free before |
| KeyGenTable.ArmFields | kernel/common/patches/board/0173-fman-pcd-fixup-fold.patch:2337-2405 | Every field of the three slots, their scheme RAM and the bindings after a complete arm; no other slot changes |
| KeyGenTable.ArmStops | kernel/common/patches/board/0173-fman-pcd-fixup-fold.patch:2314-2405 | How far an arm gets, from its setups and the free slots alone |
| KeyGenTable.ArmGoesNowhere | kernel/common/patches/board/0173-fman-pcd-fixup-fold.patch:2314-2336 | Without a scheme of the port or a free slot, and only then, an arm changes nothing |
| KeyGenTable.NoCatchAllIsDeaf | kernel/common/patches/board/0173-fman-pcd-fixup-fold.patch:2365-2405 | Without the catch-all scheme IP frames select right and every other frame selects none |
| KeyGenTable.V6FailureIsHarmless | kernel/common/patches/board/0173-fman-pcd-fixup-fold.patch:2344-2360 | After a failed v6 setup every frame still selects the v4 scheme |
| KeyGenTable.CatchAllTakesIPv4 | kernel/common/patches/board/0173-fman-pcd-fixup-fold.patch:2365-2405 | Counterexample table: the catch-all gets a slot below the v4 scheme and takes every IPv4 frame |
| KeyGenTable.TwoFreeSlotsAreEnough | kernel/common/patches/board/0173-fman-pcd-fixup-fold.patch:2314-2405 | An arm whose setups succeed completes exactly when two slots are free |
| KeyGenTable.DisarmRecovers | bin/kernel-fixups/F_212.py:130-208 | After an arm in which anything failed, the scan gives back use, scheme RAM and bindings if and only if the v4 setup succeeded |
| KeyGenTable.DisarmUndoesArm | bin/kernel-fixups/F_212.py:159-208 | Arm then disarm gives back table, scheme RAM and bindings as they were |
| KeyGenTable.ScanUndoesTheArm | bin/kernel-fixups/F_212.py:159-208 | For any table, setup failures included: nothing of the port is left to undo, a second scan does nothing, other ports are untouched |
| KeyGenDriver.Driver.ArmV6 | kernel/common/patches/board/0173-fman-pcd-fixup-fold.patch:2314-2405 | The arm step by step is `Arm`, with every early exit; the split after it returns 0 exactly when its three words hold, and if all stores land leaves the whole split |
| KeyGenDriver.Driver.DisarmScan | bin/kernel-fixups/F_212.py:159-222 | The scan slot by slot is `DisarmTo`; the LCV is restored exactly when something was undone |
| KeyGenPort.SetLcvSplit | bin/kernel-fixups/F_205.py:96-134 | EINVAL without a usable port and without effect; 0 exactly when the three verified words hold; what each other word then is |
| KeyGenPort.SplitCanLie | bin/kernel-fixups/F_205.py:113-133 | Counterexample: a split returns 0 with slot 3 all ones, and a frame without IP headers goes to the IPv4 scheme |
| KeyGenPort.Plan.PassAll | bin/kernel-fixups/F_214.py:138-193 | The flag is set only by a verified write and then no further command is ever issued |
| CfgMap.PadRuns | decomp/tools/cfg-map.py:66-76 | Exactly the maximal padding runs, except one that touches the end |
| CfgMap.JumpTableRuns | decomp/tools/cfg-map.py:79-98 | Exactly the maximal runs of absolute branches from word 48 on, each with its entries in order |
| CfgMap.OffsetTableRuns | decomp/tools/cfg-map.py:101-118 | Exactly the maximal runs of in-range words that are not branches, each with its entries in order |
| CfgMap.Sext16IsTwosComplement | decomp/tools/cfg-map.py:45-46 | Relative offsets are the two's complement reading of 16 bits |
| CfgMap.PadRunsAre | decomp/tools/cfg-map.py:66-76 | The padding list from the words alone: longest stretches of 0xffffffff that a word follows |
| CfgMap.JumpRunsAre | decomp/tools/cfg-map.py:79-98 | The jump tables from the words alone: longest stretches of 0xb7ff words from word 48 on |
| CfgMap.OffsetRunsAre | decomp/tools/cfg-map.py:101-118 | The offset tables from the words alone: longest stretches of plain words in 1 to n - 1 |
| CfgMap.EntriesAreTargets | decomp/tools/cfg-map.py:79-98 | A jump table's entries are what its words resolve to as branches |
| CfgMap.KindOfPrefix | decomp/tools/cfg-map.py:24-34 | Which prefixes are branches and of which kind |
| CfgMap.RelativeBranchReaches | decomp/tools/cfg-map.py:58-60 | A relative branch with distance d encoded goes to word i + d, for every d of 16 bits, if the image has it |
| CfgMap.RelativeBranchMoves | decomp/tools/cfg-map.py:58-60 | Moving a relative branch word moves its target with it |
| CfgMap.AbsoluteBranchStays | decomp/tools/cfg-map.py:55-63 | An absolute branch has one target wherever it stands, counted from word 48; a park word has none |
| CfgMap.Classify | decomp/tools/cfg-map.py:49-63 | Every branch word with its resolved in-image target, and no other word |
| CfgBlocks.BuildBlocks | decomp/tools/cfg-map.py:132-158 | The block map: starts are exactly dispatch targets, branch targets, fall-throughs and padding bounds; each block carries its terminating branch with kind and target |
| CfgBlocks.OneBranchPerBlock | decomp/tools/cfg-map.py:149-158 | A block holds at most one branch word, its last |
| CfgBlocks.StartsAre | decomp/tools/cfg-map.py:132-148 | The block starts from the words alone: branch targets, words after branches and padding bounds; the dispatch table adds none |
| CfgBlocks.TargetsStartBlocks | decomp/tools/cfg-map.py:137-148 | Every resolved target and every word after a branch starts a block |
| CfgBlocks.EveryWordHasOneBlock | decomp/tools/cfg-map.py:149-158 | Blocks cover every word from the first start on, without overlap |
| CfgBlocks.UncoveredPrefixHasNoBranch | decomp/tools/cfg-map.py:137-148 | Words before the first start hold no branch but possibly the last of them |

## Left out

- Memory ordering: `wmb`, `dma_wmb` and WRITE_ONCE are taken to order bus events as the program orders
  them; the model's bus is sequentially consistent.
- The record emitter: a record is a key plus an opaque body with byte 0 bit 7 clear. Its opcode bytes
  and its own failure paths are not modelled.
- The bucket hash: an uninterpreted function of the key, reduced to the number of buckets.
- Table creation and destruction of the DMA pools and index arrays; the table starts empty.
- Statistics returned by get_stats: only its lookup (`EhashTable.Table.Find`) is modelled.
- FMPR_RPIMAC: only PSTAT idleness and whether PEN read back are modelled, not its other bits.
- The port's stop and start brackets around parser writes, whose bodies are not part of this model.
- Overwriting of the parser program by another driver: the residency check is modelled, but no step of
  a run overwrites the words.
- The bodies of `keygen_scheme_setup`, `keygen_bind_port_to_schemes` and `keygen_write_ar_wait` are not
  part of this model: it takes what their declarations and callers say they do, and their success is a
  parameter.
- The IPv6 arm's port stop and start, its write of the IPv6 node's miss queue and the engaged-port
  counter.
- kzalloc of the flow structure in an insert: its failure is that of the record's allocation, with the
  same return and the same effect.
- EhashTable.Table.Drain: requires detached ports, which the source demands of its callers without
  checking it.
- FillRuns.EveryChunkHasOnePlace: for runs of fewer than 2^32 RX descriptors, because past that the
  program's consumer counter is compared unwrapped.
- Logging, polling delays, sockets, mmap, report rendering and the Python patching of C files.
