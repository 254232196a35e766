# zIPC ownership protocol in Dafny

zIPC moves buffers between components by ownership: a pool of slots in shared
memory goes FREE, CLAIMING, OWNED, CLAIMING, TRANSFER, CLAIMING, OWNED and back
to FREE under compare-and-swap, descriptors of the transfers travel through
single-producer single-consumer rings, and a component that is killed at any
instruction can be replaced online by a new epoch. This project models that
protocol and proves what it keeps.

## Structure

The source updates shared records in place, and so does the model, on three
levels that are tied together by proof.

- **Writes.** `Protocol` gives every operation as the sequence of its writes to
  a slot record: `XPrefix(s, k, ...)` is the record after `k` of them. A killed
  operation leaves a prefix. The repair functions of the recovery code work on
  such records. `CallSpecs` and `RecoverySpecs` add every refusal and the sweeps.
- **Calls.** The classes `SlotPool.Pool`, `Links.Link`, `Restart.RestartScan`,
  `Ring.DescriptorRing` and `Window.Buffer` are the source's records with the
  source's loops. Each method is proved against the functions above, for every
  point at which the caller may be killed (`life` is the number of writes it
  gets to make) and for every outcome of page protection. `Guards` says of every
  call, on the fields of the record alone, when it is let through, what it answers
  otherwise and what record it leaves.
- **Runs.** `RunModel` is the state machine of a whole pool: any number of
  components, calls that follow one another and may each be killed between any
  two writes, and restarts that visit one slot at a time while the other
  components go on. `RunInvariant` is the invariant, `RunFrames`, `RunCalls`,
  `RunTransfers` and `RunRestart` prove that every event keeps it, and
  `RunTheorems`, `RunOutcome`, `RunOnline`, `RunProgress` and
  `RunIdentity` draw the theorems. `Refinement`
  proves that the calls of the classes are the events of the runs.

Three modules interleave single shared accesses of any number of actors:
`Exclusivity` (slot claims, with kills and concurrent restarts), `RingSteps`
(producer and consumer of one ring) and `BufferIds` (the buffer-ID generator).
`Lifecycle` and `Fencing` treat epochs, `VisitedSet` the visited bitmap,
`Geometry` the pool layout.

## Assumptions

- Atomics are sequentially consistent. One thread runs per component and epoch,
  one producer and one consumer per ring, one local view per buffer.
- A copy of a whole record (a saved data window, a visited set) is one write; the
  two stores that move a data window are two. In
  `Exclusivity` the metadata writes inside a claim are folded into its publishing
  store, and a receiver's takeover of a leftover SEND token is one access.
- Time, entropy, notification and page protection are inputs. In runs page
  protection succeeds, no deadline is set, link identifiers are nonzero, and both
  ends of a link agree on it.
- A restarted component reconciles all its links before it scans or makes other
  calls, as docs/API.md:262-282 shows, and is neither killed nor unregistered
  while RECOVERING. The
  quiesced sweeps do not take part in runs; they are proved as calls.
- A ring's depth divides 2^32, or fewer than 2^32 descriptors are pushed; the
  module `Ring` proves that nothing less will do.
- Tests that the source repeats after it has won a claim are made once, because
  calls follow one another on the level of calls.

## Where the code does not meet its promise

Each of these is proved, with the exact condition.

- The data window is moved by two stores, the offset and then the length, without
  a claim. A call killed in between leaves the new offset with the old length,
  which is neither window. It fits if and only if new offset plus old length does
  not pass the capacity (`TornWindowFits`, `TornWindowExample`): for trimming the
  front, if and only if not more is trimmed than the tailroom (`TornOperations`).
  If it does not fit, the restart scan answers REGION_OVERFLOW at that slot every
  time (`OverflowRepeats`) and the component never becomes ACTIVE again
  (`KilledWindowSetting`), short of a quiesced sweep. A killed component can be replaced online if and only
  if the windows of all buffers it owned fit (`RestartFinishesIff`). Nothing else
  tears a window (`TornOnlyByKill`).
- The repair of a receive that died inside its claim writes the restarted
  component as the addressee. It is exact if and only if the slot was addressed
  to that component (`ReceiveUndoneExactly`); otherwise it takes the buffer away
  from the component it was sent to (`MisdirectedRepair`, `MisdirectedExample`).
  An owner sweep and a stale descriptor bring that about (`MisdirectedBySweep`);
  in runs, which have no sweeps, the repair is always exact
  (`KilledReceiveUndone`).
- A send whose ring is full takes its transfer back, unless the page protection
  of the slot fails at that moment: then the slot stays CLAIMING and the view is
  lost (`SendThenRollback`, `SendBuffer`).
- A receive whose page protection fails frees the buffer
  (`RefusedClaimKeepsTransfer`). Killed while it does so, it is undone exactly if
  and only if it had not yet written the window (`GivenUpReceiveUndoneExactly`).
- The allocator's scan looks at every slot if and only if the cursor plus the
  slot count does not pass 2^32; beyond that it answers NO_BUFFER although the
  slot before the cursor is free (`ScanCoversAll`, `WrappedScanMisses`).
- A ring whose depth does not divide 2^32 stores two pending descriptors in one
  cell when its index wraps (`WrapSafeIffDepthDivides`).
- The owner sweep leaves the claim token of a slot it frees in place. The slot can
  be allocated again if and only if it had none (`SweptUsableIff`); a sender
  killed between its TRANSFER store and the clearing of its token leaves one
  (`KilledSendSwept`). So a swept pool answers NO_BUFFER if and only if nothing in
  it could be allocated before and every swept slot had a token (`SweptPoolExhausted`), even when
  every slot is FREE (`FreePoolWithoutBuffers`). The restart scan of exactly
  the runtime that left the token clears it (`LeftTokenCleared`).
- A component may be unregistered while it is RECOVERING; its dead epoch can then
  never be taken into recovery again (`UnregisterWhileRecovering`).
- Committing the consumer's position of an empty ring moves the consumer past the
  producer (`DescriptorRing.Commit`); after a successful peek this cannot happen.

## Model

| member | source | states |
|---|---|---|
| Protocol.SendSavesSource | src/core/zipc.c:1265-1289 | a published send leaves the copy of owner, epoch, hop count, acquire time and visited set that the undo of its receive needs |
| Protocol.ReceiveUndoneExactly | src/core/zipc.c:1403-1408 | a receive killed anywhere inside its claim is repaired to the record send published if and only if the slot was addressed to the restarted component |
| Protocol.RefusedReceiveUndoneExactly | src/core/zipc.c:1363-1401 | the same for a claim that its tests refuse and that is killed before it lets go |
| Protocol.MisdirectedRepair | src/core/zipc.c:1682-1700 | in the other case a receiver with a descriptor of its own is refused, and its repaired slot refuses the descriptor of the component it was sent to |
| Protocol.MisdirectedExample | src/core/zipc.c:1690-1698 | a concrete slot whose addressee the repair changes |
| Protocol.SendUndoneExactly | src/core/zipc.c:1206-1289 | a send killed anywhere inside its claim is undone to exactly the ownership it started from |
| Protocol.RollbackUndoesSend | src/core/zipc.c:2619-2670 | a rollback, complete or killed inside its claim and repaired, gives back the ownership the send started from |
| Protocol.ReleaseUndoneExactly | src/core/zipc.c:1452-1493 | a release killed anywhere inside its claim is undone exactly, data window included |
| Protocol.GivenUpReceiveUndoneExactly | src/core/zipc.c:1410-1415 | a receive killed while it gives up its claim is undone exactly if and only if the kill comes before its window is cleared, or there was none |
| Protocol.TornWindowFits | src/core/zipc.c:1167-1168 | a window whose setting was killed between its two stores fits if and only if new offset and old length do |
| Protocol.TornWindowExample | src/core/zipc.c:2894-2900 | a trim of the front that leaves a window that does not fit |
| Protocol.RepairsAgree | src/core/zipc.c:2138-2165 | reconciliation and the restart scan repair a claim alike |
| Protocol.DeadlineMeaning | src/core/zipc.c:1041-1045 | a buffer expires exactly when more than its relative deadline has passed, and never without one |
| CallSpecs.FirstTakeable | src/core/zipc.c:995-1014 | the allocator's scan takes the first slot from its start on that is FREE without a token |
| CallSpecs.ScanCoversAll | src/core/zipc.c:990-996 | the cyclic scan with its 32-bit index looks at every slot if and only if start plus count does not pass 2^32, and then once at each |
| CallSpecs.NothingVisited | src/core/zipc.c:995-1006 | the scan ends without a slot if and only if none of the slots it looks at can be taken |
| CallSpecs.NoBufferExact | src/core/zipc.c:995-1114 | without wrap-around NO_BUFFER is answered if and only if no slot is FREE with an empty token |
| CallSpecs.WrappedScanMisses | src/core/zipc.c:990-996 | with wrap-around NO_BUFFER is answered although the slot before the cursor can be taken |
| CallSpecs.FailedAllocationGivesBack | src/core/zipc.c:1061-1087 | an allocation without buffer ID or page protection leaves its slot allocatable, one generation on |
| CallSpecs.RefusedCallsKeepOwnership | src/core/zipc.c:1190-1263 | a refused send or release leaves the ownership of its slot as it was |
| CallSpecs.RefusedClaimKeepsTransfer | src/core/zipc.c:1326-1427 | a refused claim at most clears a leftover token; one whose protection fails frees the buffer |
| CallSpecs.SendThenRollback | src/core/zipc.c:2650-2668 | a transfer taken back at once restores the ownership if and only if the slot's protection succeeds; otherwise the slot stays CLAIMING |
| Guards.AllocatedRecord | src/core/zipc.c:1018-1101 | the whole record of a new buffer in terms of the arguments, with nothing left of the last buffer |
| Guards.AllocationAllowedExact | src/core/zipc.c:978-983 | which arguments an allocation is tried with |
| Guards.StampExact | src/core/zipc.c:985-988 | the epoch a claim carries |
| Guards.LimitStopsSend | src/core/zipc.c:1252-1259 | a buffer allocated with hop limit n is refused exactly from its n-th owner on, and never without a limit |
| Guards.DeadlineStopsTransfer | src/core/zipc.c:1244-1251 | a buffer allocated with a relative deadline is refused by send and receive exactly when that time has passed |
| Guards.EditedLimits | src/core/zipc.c:2849-2858 | the limits an owner edits are the ones tested from then on |
| Guards.SendAnswers | src/core/zipc.c:1189-1263 | every answer of a send, with the fields that decide it |
| Guards.SendChangesItsOwn | src/core/zipc.c:1201-1204 | a send, killed anywhere, changes no slot but one of the caller's component, epoch and handle |
| Guards.SentRecord | src/core/zipc.c:1265-1289 | the whole record of a published transfer and its descriptor |
| Guards.RollbackAnswers | src/core/zipc.c:2624-2653 | every answer of a rollback |
| Guards.RollbackGivesBack | src/core/zipc.c:2655-2668 | a rollback gives a buffer back only to its sender and only for the transfer it names |
| Guards.ClaimAnswers | src/core/zipc.c:1326-1424 | every answer of a claim, with the fields that decide it: generation, source, addressee, sequence, deadline, hops, protection and window |
| Guards.ClaimPublishesItsOwn | src/core/zipc.c:1363-1427 | ownership is published exactly for the transfer a descriptor announces, addressed to the claimant |
| Guards.ClaimedOnlyOnce | src/core/zipc.c:1378-1385 | a claimed descriptor is refused when taken up again, also after the buffer was sent on |
| Guards.ReceivedRecord | src/core/zipc.c:1403-1427 | the whole record of a received buffer |
| Guards.ReleaseAnswers | src/core/zipc.c:1442-1480 | every answer of a release, with the fields that decide it |
| Guards.ReleaseChangesItsOwn | src/core/zipc.c:1450-1451 | a release, killed anywhere, changes no slot but one of the caller's component, epoch and handle |
| Guards.ReleasedRecord | src/core/zipc.c:1484-1493 | the whole record of a released slot |
| Guards.AdoptionKeepsRecord | src/core/zipc.c:1763-1772 | adoption changes generation, epoch and time stamp alone |
| Guards.SweepExact | src/core/zipc.c:1842-1874 | which slots the owner sweep frees, in terms of owner, epoch and age, and what it changes in them |
| Guards.YoungBuffersKept | src/core/zipc.c:1855-1860 | a buffer younger than the age asked for is kept |
| Guards.ClaimCountExact | src/core/zipc.c:1940-1946 | the answer of the claim sweep is a number of slots |
| Guards.SweptCountExact | src/core/zipc.c:1874-1874 | the answers of the owner sweep are numbers of slots |
| Guards.RepublishCountExact | src/core/zipc.c:2215-2215 | the answer of reconciliation is a number of slots |
| Guards.DrainExact | src/core/zipc.c:2230-2241 | what the drain drops could not have been claimed |
| Guards.RepublishExact | src/core/zipc.c:2188-2191 | which transfers a producer link publishes again |
| Guards.AnnounceExact | src/core/zipc.c:2769-2775 | a descriptor is taken for the next one exactly if it does not announce its slot |
| Guards.ReconcileAllowedExact | src/core/zipc.c:2090-2106 | reconciliation is let through exactly for a named producer or consumer link of the recovering component and epoch |
| Guards.ReconcileBeginRefines | src/core/zipc.c:2090-2106 | reconciliations begin in runs exactly when the call is let through |
| Guards.StaleExact | src/core/zipc.c:2678-2682 | when a link is stale |
| Guards.SendAllowedExact | src/core/zipc.c:2676-2684 | when a view may be sent |
| Guards.RoomExact | src/core/zipc.c:2581-2590 | every answer to the room asked for |
| SlotPool.Pool.constructor | src/core/zipc.c:811-833 | a formatted pool has only allocatable slots of generation zero and no registered component |
| SlotPool.Pool.RegisterComponent | src/core/zipc.c:1518-1541 | grants the next epoch exactly to an inactive component whose epochs have not run out, and stores it as ACTIVE |
| SlotPool.Pool.UnregisterComponent | src/core/zipc.c:1557-1575 | deactivates exactly the epoch that is ACTIVE or RECOVERING |
| SlotPool.Pool.AllocateBuffer | src/core/zipc.c:972-1115 | wherever it is killed, an allocation leaves a prefix of its writes in the first takeable slot and nothing elsewhere; an exhausted pool is unchanged; cursor and counter move only on success |
| SlotPool.Pool.PrepareTransfer | src/core/zipc.c:1174-1291 | every refusal in its order, every kill point, and a descriptor that names the published slot |
| SlotPool.Pool.RollbackTransfer | src/core/zipc.c:2619-2670 | every refusal and kill point; a failed protection leaves the claim standing |
| SlotPool.Pool.ClaimTransfer | src/core/zipc.c:1303-1429 | every refusal in its order and every kill point; a successful claim returns a view that stands |
| SlotPool.Pool.FreeClaimed | src/core/zipc.c:959-970 | a claim given up returns its slot to the pool, killed or not |
| SlotPool.Pool.ReleaseBuffer | src/core/zipc.c:1431-1497 | every refusal in its order and every kill point; the release counter moves exactly on success |
| SlotPool.Pool.ReleaseView | src/core/zipc.c:2798-2808 | a view that no longer stands releases nothing; a successful release ends the view |
| SlotPool.Pool.RecoverOwner | src/core/zipc.c:1822-1880 | frees exactly the old-enough buffers of the dead epoch, restores all other slots, counts them, and stops at the first failing protection |
| SlotPool.Pool.RecoverClaiming | src/core/zipc.c:1882-1952 | empties exactly the claims before the first failing protection; that claim and all later ones stay CLAIMING |
| RecoverySpecs.OwnerSweepRetried | src/core/zipc.c:1861-1866 | an owner sweep stopped by a failure and run again ends as one uninterrupted sweep |
| RecoverySpecs.ClaimSweepRetried | src/core/zipc.c:1901-1908 | the same for the claim sweep: no claim is left, generations are kept, the slots can be allocated |
| RecoverySpecs.SweptUsableIff | src/core/zipc.c:1867-1874 | a slot the owner sweep frees can be allocated if and only if no claim token was left in it |
| RecoverySpecs.KilledSendSwept | src/core/zipc.c:1286-1289 | a sender killed before it clears its token, and swept, leaves a FREE slot that cannot be allocated |
| RecoverySpecs.SweptPoolExhausted | src/core/zipc.c:1822-1880 | after a complete sweep NO_BUFFER is answered if and only if no slot could be allocated before and every swept slot had a token |
| RecoverySpecs.FreePoolWithoutBuffers | src/core/zipc.c:997-1006 | a pool in which every slot is FREE and no allocation succeeds |
| RecoverySpecs.LeftTokenCleared | src/core/zipc.c:1648-1658 | such a slot is made usable by the restart scan of exactly the runtime that left the token, and not by the claim sweep |
| RecoverySpecs.MisdirectedBySweep | src/core/zipc.c:1363-1370 | a swept transfer, its slot sent anew to another component, and the old descriptor taken up by the old receiver end in a misdirected repair |
| RecoverySpecs.RepairTwice | src/core/zipc.c:1641-1728 | the repair of the restart scan is idempotent, so a scan that failed can be resumed |
| RecoverySpecs.OverflowRepeats | src/core/zipc.c:1773-1781 | a buffer that cannot be adopted because of its window is found the same by every later call of the scan |
| RecoverySpecs.AdoptedOnce | src/core/zipc.c:1729-1790 | a slot the scan has adopted is not adopted or changed again |
| Restart.BeginRestart | src/core/zipc.c:1592-1628 | takes a component into recovery under the next epoch exactly if its epoch is the named one and it does not recover already |
| Restart.RestartScan.RepairSlot | src/core/zipc.c:1641-1741 | the branches of the scan come to the repair function, or put the slot back when protection fails |
| Restart.RestartScan.AdoptSlot | src/core/zipc.c:1742-1795 | a slot is adopted if and only if it is owned by the dead epoch; any other slot is put back |
| Restart.RestartScan.Next | src/core/zipc.c:1630-1797 | every slot passed is repaired and held nothing to adopt, an adopted buffer has a window that fits and its view stands, a failing slot stays at the cursor, no other slot changes |
| Restart.RestartScan.AdoptAll | docs/API.md:275-280 | the documented loop ends and, up to where it ends, has scanned every slot and returned each buffer the dead epoch left owned exactly once, at most one per slot; without failing protections it ends at the end if and only if all their windows fit |
| Restart.RestartScan.Finish | src/core/zipc.c:1799-1820 | the restart becomes ACTIVE only after a complete scan of the current recovery |
| Ring.DescriptorRing.Scan | platform/linux/common/platform-linux-common.c:18-26 | the scan over wrapping indices finds exactly the pending duplicates and ends |
| Ring.DescriptorRing.Push | platform/linux/common/platform-linux-common.c:3-32 | a full ring refuses, a pending duplicate is suppressed, anything else is appended to the queue |
| Ring.DescriptorRing.Peek | platform/linux/common/platform-linux-common.c:34-50 | returns the oldest pending descriptor and leaves it pending |
| Ring.DescriptorRing.Commit | platform/linux/common/platform-linux-common.c:52-65 | removes the oldest descriptor if and only if its position is the one peeked; committed on an empty ring it leaves indices that describe no queue |
| Ring.DescriptorRing.Pop | platform/linux/common/platform-linux-common.c:67-86 | removes and returns the oldest descriptor |
| Ring.WindowAppend | platform/linux/common/platform-linux-common.c:28-30 | storing at the producer's cell appends and overwrites no unread descriptor |
| Ring.WrapSafeIffDepthDivides | platform/linux/common/platform-linux-common.c:19-28 | pending positions use distinct cells across the index wrap if and only if the depth divides 2^32 |
| RingSteps.RefinesBoundedQueue | platform/linux/common/platform-linux-common.c:3-65 | every interleaving of producer and consumer accesses, either killed anywhere and replaced, is a bounded queue without duplicates; what is consumed is its head |
| RingSteps.PushGoesThrough | platform/linux/common/platform-linux-common.c:3-32 | a push not disturbed, of a descriptor not pending, on a ring with room, appends it |
| RingSteps.TakeGoesThrough | platform/linux/common/platform-linux-common.c:34-65 | a receive not disturbed takes the oldest descriptor |
| RingSteps.ScanTerminates | platform/linux/common/platform-linux-common.c:18-26 | the duplicate scan ends while the consumer moves on, and stops early only on a duplicate that was pending |
| Links.OpenLink | src/core/zipc.c:2035-2077 | a link opens only for valid components and a current epoch, with the limits asked for |
| Links.Link.AllocateOnLink | src/core/zipc.c:2576-2603 | a granted buffer has the asked room, lineage, hop limit and one-component history; refusals change nothing; otherwise the table is that of the pool's allocation, killed anywhere |
| Links.Link.SendBuffer | src/core/zipc.c:2672-2719 | publication with its descriptor, refusal, rollback, failed rollback and every kill point, told apart exactly |
| Links.RetriedChangesTokens | src/core/zipc.c:2769-2775 | a descriptor that is dropped for the next one did not announce its slot, and its slot at most lost a leftover token |
| Links.Link.ReceiveTurn | src/core/zipc.c:2737-2776 | the descriptor is committed after its claim is decided, and pending again after any earlier kill |
| Links.Link.ReceiveBuffer | src/core/zipc.c:2728-2778 | the loop ends, drops only descriptors that do not announce their slot, and claims only one that does |
| Links.RepublishedExactly | src/core/zipc.c:2183-2215 | reconciliation loses and repeats no pending descriptor, makes every transfer of the dead runtime pending and adds nothing else |
| Links.Link.ReconcileConsumerVisit | src/core/zipc.c:2114-2166 | undoes exactly the receives of the dead runtime, or puts the slot back when protection fails |
| Links.Link.Drain | src/core/zipc.c:2217-2245 | drops only descriptors whose slot is not in transfer under their generation, and ends at one that is |
| Links.Link.ReconcileProducer | src/core/zipc.c:2111-2216 | all sends undone and all transfers pending, or a full ring at the first transfer that did not fit |
| Links.Link.Reconcile | src/core/zipc.c:2086-2249 | refused, without effect, unless link and restart belong to the same recovering epoch; otherwise the effect on slots and ring and the count for both roles, whether it ends or stops at a failing protection or a full ring |
| Lifecycle.PackedRoundTrip | src/core/zipc.c:425-441 | epoch and state can be read back from the lifecycle word and equal words are equal lifecycles |
| Lifecycle.PackedTokenRoundTrip | src/core/zipc.c:475-497 | claim words tell kind, component and epoch apart and are never the empty word |
| Lifecycle.HandleRoundTrip | include/zipc/zipc.h:1121-1135 | slot and generation can be read back from a handle |
| Lifecycle.AttemptsExact | src/core/zipc.c:1518-1628 | what register, unregister, begin and finish store and when they refuse, on the word itself |
| Lifecycle.RegisteredCanRestart | src/core/zipc.c:1592-1628 | a registered component can be restarted from the epoch it was given, finished and restarted again |
| Lifecycle.UnregisterWhileRecovering | src/core/zipc.c:1557-1575 | unregistering while RECOVERING leaves the dead epoch for good |
| Lifecycle.EpochsNeverReused | src/core/zipc.c:1518-1628 | in every interleaving of lifecycle exchanges no two grants give the same epoch and none gives epoch zero |
| Lifecycle.EpochLeftForever | src/core/zipc.c:443-473 | an epoch that was left is never registered, current or recovering again |
| Fencing.FencedForever | src/core/zipc.c:328-341 | once an epoch is left, every view, link, restart and reconciliation bound to it is refused forever |
| Fencing.OpenWhileCurrent | src/core/zipc.c:2676-2684 | while the record names the view, send is allowed if and only if the epoch is current |
| BufferIds.RandomSession | src/core/zipc.c:80-104 | returns the first usable draw among sixteen, never zero and never the old session |
| BufferIds.ActiveCountsGate | src/core/zipc.c:221-234 | in every interleaving the active word counts exactly the threads inside the gate |
| BufferIds.ClearedOnlyWhenEmpty | src/core/zipc.c:205-217 | the sequence is never reset while a thread has passed the recheck and not left, whether it is about to reserve, has reserved a number or has lost it |
| BufferIds.IdsUnique | src/core/zipc.c:184-281 | every issued ID is valid, and two equal IDs need the same session drawn again in a later, not adjacent, rotation |
| BufferIds.AloneIssues | src/core/zipc.c:236-279 | a thread not disturbed in a session with room issues the next number |
| BufferIds.AloneRotates | src/core/zipc.c:238-262 | a thread not disturbed in an exhausted session installs the one it draws |
| BufferIds.AloneBegins | src/core/zipc.c:196-218 | the first thread installs the session it draws |
| BufferIds.IdRoundTrip | include/zipc/zipc.h:1138-1172 | component, session and sequence can be read back from a buffer ID, which is valid exactly for usable parts |
| BufferIds.ComponentsShareNoId | include/zipc/zipc.h:1138-1145 | different components never issue the same ID |
| Exclusivity.ClaimingIsExclusive | src/core/zipc.c:995-1101 | in every interleaving, kills and restarts included, a slot is CLAIMING if and only if exactly one runtime is between its state exchange and its publishing store, and the token names its kind and runtime |
| Exclusivity.OperationGoesThrough | src/core/zipc.c:995-1101 | an operation not disturbed on a slot it may work on takes token and state, publishes and clears |
| Exclusivity.ErrorIsExclusive | src/core/zipc.c:1668-1795 | a slot is in ERROR if and only if exactly one restart has locked it |
| Exclusivity.TokenIsKept | src/core/zipc.c:1332-1427 | a token stays its runtime's until cleared, but for a completed send's, and a claimed send or release still owns its slot |
| RunTheorems.RunKeepsInv | src/core/zipc.c:972-2249 | the invariant of slots, rings, deliveries and restarts holds in every state of every run |
| RunTheorems.NoBufferStranded | src/core/zipc.c:2672-2778 | every transfer whose sender was not killed, or whose producer link is reconciled, has exactly one pending descriptor, with its current handle and sequence |
| RunTheorems.ReceiveNeverDiscards | src/core/zipc.c:2737-2777 | a live receiver finds only descriptors it can claim |
| RunTheorems.DrainDropsOnlyStale | src/core/zipc.c:2217-2245 | the drain drops only the descriptor of a buffer the killed consumer already owns |
| RunTheorems.SendHasTwoEffects | src/core/zipc.c:2672-2719 | a completed send has published one descriptor if a hop is left and the ring has room, and otherwise left ownership and rings as they were |
| RunTheorems.RecoveryComplete | src/core/zipc.c:1630-1797 | after the scan no claim and no owned buffer of the dead epoch is left |
| RunOnline.RestartOutcome | src/core/zipc.c:1592-1820 | whatever anybody does during a restart, the restarted component included, at the moment the scan passes a slot: a buffer the dead runtime held is owned by the new epoch with its identity, the window shown and its history, a begun allocation was left alone and is freed, a begun receive was left alone until undone, and no step of the restart changed any other record but for leftover tokens |
| RunOnline.OthersStep | src/core/zipc.c:972-2249 | no call, kill or restart of another component changes a slot that a component owns, has claimed or is to receive |
| RunOnline.OwnCall | docs/API.md:275-278 | calls the restarted component makes during its scan leave the slots of the dead epoch unchanged |
| RunOnline.KilledReceiveUndone | src/core/zipc.c:2151-2165 | in every run a receive killed inside its claim is left alone until undone, by the time the links are reconciled, to the ownership its sender had published |
| RunOutcome.QuietRestart | src/core/zipc.c:1592-1820 | the end of a restart during which nobody else makes a call: buffers held are adopted with the window they show, receives are transfers, allocations are FREE, all other records stay but for leftover tokens |
| RunProgress.RestartFinishesIff | docs/API.md:262-282 | a component killed at whatever write can be replaced by the next epoch if and only if the windows of all buffers it owned fit, with rings deeper than the pool is large |
| RunProgress.KilledWindowSetting | src/core/zipc.c:1156-1172 | a window setting killed between its stores leaves new offset and old length; if they pass the capacity the component never becomes ACTIVE again, whatever anybody does |
| RunProgress.StuckForever | src/core/zipc.c:1773-1781 | a restart never passes a slot whose window does not fit, and never ends |
| RunProgress.RestartCanFinish | docs/API.md:262-282 | if all windows fit, any run in which a component lies killed has a continuation by its restart alone that ends with the next epoch ACTIVE |
| RunProgress.RingHasRoom | platform/linux/common/platform-linux-common.c:15-16 | no ring lists a slot twice, so a ring deeper than the pool is never full |
| RunProgress.NextStep | src/core/zipc.c:1592-1820 | while a restart is not through, one of its steps is possible and brings it closer to its end |
| RunTheorems.HistoryExact | src/core/zipc.c:1252-1276 | hop count and visited set are the history of the buffer, and its receives stay below the hop limit last asked for, less one, apart from those made before |
| RunTheorems.LimitAskedFor | src/core/zipc.c:1028-1029 | the limit a buffer lives under is the argument of its allocation |
| RunTheorems.WindowAndAddresseeSafe | src/core/zipc.c:929-954 | the window shown is the one last set, or has its offset from a killed setting; it fits in transfer and for every executing owner, and if not its dead owner's buffer waits to be adopted; an owned slot has no addressee and a transfer has a hop left, so the overflow and hop exits of a claim are unreachable |
| RunTheorems.TornOnlyByKill | src/core/zipc.c:1167-1168 | a window is torn by nothing but a kill between the two stores of its setting |
| RunTheorems.HandleNamesOneBuffer | src/core/zipc.c:1127-1154 | within 2^32 - 2 renewals two moments show the same generation if and only if the slot was not renewed in between, and then the same buffer |
| RunTheorems.RenewalsExact | src/core/zipc.c:1018-1023 | the generation advances at every reuse of a slot and at every adoption, and at nothing else |
| RunTheorems.OldHandleStaysStale | src/core/zipc.c:1763-1770 | after a reuse or an adoption no later state shows the older generation, within 2^32 - 2 renewals |
| RunIdentity.IdentityKept | src/core/zipc.c:1018-1060 | buffer ID and parent ID never change until the slot is FREE again, through relays, rollbacks, kills, undone claims and adoptions |
| RunTheorems.AtMostOnceDelivery | src/core/zipc.c:1303-1429 | two receives that publish ownership never take up the same slot, generation and sequence, within the 32-bit words |
| RunTheorems.PoolConserved | src/core/zipc.c:1099-1109 | in runs without kills and restarts the slots in use are the allocations less the releases |
| Refinement.CallsPossible | src/core/zipc.c:972-2858 | every call the classes let through is possible in runs, and may be killed after any write |
| Refinement.LifecycleRefines | src/core/zipc.c:1518-1820 | the lifecycle events of runs are the exchanges of the words, possible exactly when granted |
| Refinement.SendRefines | src/core/zipc.c:2672-2719 | in every reachable state the send of the class and the send of the runs agree on slots and rings, killed anywhere |
| Refinement.ReceiveRefines | src/core/zipc.c:2728-2778 | the same for receive, which claims the head of its ring at once |
| Refinement.ReleaseRefines | src/core/zipc.c:1431-1497 | the same for release |
| Refinement.AllocateRefines | src/core/zipc.c:972-1115 | the same for allocation, successful or not |
| Refinement.RegionRefines | src/core/zipc.c:1156-1172 | the same for the setting of a window, killed between its stores or not |
| Refinement.LimitsRefines | src/core/zipc.c:2849-2858 | the same for the editing of limits |
| Refinement.ScanRefines | src/core/zipc.c:1630-1797 | the same for one slot of the restart scan: passed, or kept at the cursor because of a window that does not fit |
| Refinement.ReconcileRefines | src/core/zipc.c:2108-2216 | the same for one slot of a reconciliation, ring included |
| VisitedSet.Add | src/core/zipc.c:66-72 | adding a component adds exactly it to the set the words stand for |
| VisitedSet.ClearsOneBit | src/core/zipc.c:56-59 | masking a word with its predecessor clears exactly one bit |
| VisitedSet.Count | src/core/zipc.c:49-64 | the bit-clearing loop counts the identifiers 1 to 254 that test true, for any eight words |
| Window.RoomDecides | src/core/zipc.c:2872-2908 | bytes are added exactly if they fit and taken off exactly if there are as many, with the contents that result |
| Window.TrimUndoes | src/core/zipc.c:2872-2908 | trimming undoes the matching append or prepend, and the reverse |
| Window.EndsCommute | src/core/zipc.c:2872-2892 | work at one end of the window does not disturb the other |
| Window.CapacityKept | src/core/zipc.c:2945-2956 | headroom, size and tailroom always make up the capacity |
| Window.TornOperations | src/core/zipc.c:2872-2908 | what a kill between the two stores leaves of append, prepend and both trims; trimming the front fits if and only if not more is trimmed than the tailroom |
| Window.Buffer.RoomsAddUp | src/core/zipc.c:2920-2956 | the accessors read off the window and add up to the slot's capacity |
| Window.Buffer.SetRegion | src/core/zipc.c:1156-1172 | moves the window of a view that stands if it fits, changes nothing otherwise, and killed leaves the prefix of its two stores |
| Window.Buffer.SetLimits | src/core/zipc.c:2849-2858 | edits hop limit and deadline of a view that stands, killed or not |
| Window.Buffer.AppendBytes | src/core/zipc.c:2872-2881 | appends to the byte sequence in place; of the whole payload only the bytes right behind the window change, of the record only the window |
| Window.Buffer.PrependBytes | src/core/zipc.c:2883-2892 | prepends in place; of the whole payload only the bytes right before the window change, of the record only the window |
| Window.Buffer.TrimFrontBytes | src/core/zipc.c:2894-2900 | drops bytes at the front of the sequence |
| Window.Buffer.TrimBackBytes | src/core/zipc.c:2902-2908 | drops bytes at the back of the sequence |
| Geometry.PowerOfTwoIff | src/core/zipc.c:530-533 | the bit test accepts exactly the powers of two |
| Geometry.AlignUpExact | src/core/zipc.c:535-543 | rounding up gives the least aligned value, without overflow |
| Geometry.ControlSizeExact | src/core/zipc.c:702-716 | a nonzero control size is header and controls, without overflow |
| Geometry.PayloadSizeExact | src/core/zipc.c:739-762 | a nonzero payload size is count times stride, without overflow |
| Geometry.DefaultPayloadSize | src/core/zipc.c:749-761 | without a stride of its own a configuration gets the least aligned one |
| Geometry.NormalizeExact | src/core/zipc.c:589-677 | which configurations normalization accepts, and the stride they come to, said in multiples |
| Geometry.FormatAccepts | src/core/zipc.c:764-834 | every configuration that is well shaped and well placed is accepted, with its stride and controls |
| Geometry.FormatDemands | src/core/zipc.c:764-834 | and whatever is accepted is well shaped and well placed |
| Geometry.OrdinaryPool | src/core/zipc.c:764-834 | an ordinary pool is accepted |
| Geometry.SlotsAreSound | src/core/zipc.c:589-677 | every slot of an accepted configuration is aligned, inside its memory, without address overflow, and ends before the next |
| Geometry.SlotsDisjoint | src/core/zipc.c:764-784 | two slots never share a byte |
| Geometry.SlotApartFromControls | src/core/zipc.c:566-587 | in one memory no slot shares a byte with header or controls |
| Geometry.GuardPagesBetween | src/core/zipc.c:679-700 | each guard page is a whole page between its slot and the next |
| Geometry.ControlsAreSound | src/core/zipc.c:797-812 | header and controls follow one another inside the control memory, each control aligned |
| Geometry.AttachAfterFormat | src/core/zipc.c:836-927 | attach accepts the configuration a pool was formatted with and no other count, capacity, stride or alignment |
| Geometry.ApplyGuardPages | src/core/zipc.c:679-700 | protects exactly one page after each slot, up to the first failure |

## Left out

- Delivery while a restart probes a slot: on the level of single accesses a probe can make a receiver answer INVALID_STATE and commit a current descriptor (src/core/zipc.c:2769-2775); delivery is proved for calls that follow one another.
- Reconciliation of an already published descriptor when the ring is full: the ring refuses before it looks for the duplicate, and the call answers TRANSPORT; RunProgress.RingHasRoom says when this cannot happen.
- A second kill while RECOVERING, several threads in one epoch, epoch-zero links in runs, and use after `fork()`: outside the documented contract.
- Deadlines in runs: the tests for them are part of the calls, but a transfer that expires is not followed through runs.
- C11 memory orders, cache maintenance, memory mapping, and the weak exchanges that may fail without reason: every access is sequentially consistent and a failed exchange is tried again.
- Transports other than the two ring ones, and the eventfd and polling waits: an empty ring answers TIMEOUT.
- Other platforms' rings, which are this ring without suppression of duplicates.
- Trace records, error counters, the count of skipped newer epochs, heartbeats, snapshots, `payload_type`, `flags` and `recovery_count` of a slot.
- `zipc_buffer_from_handle`, `zipc_buffer_resize`, the copy helpers, the timeout wrappers and the compatibility names: compositions of what is modelled.
- Topology registry, INI parser, utilities, benchmarks and examples.
- SlotPool.Pool.RegisterComponent: one exchange; the retry loop is covered by Lifecycle.EpochsNeverReused, where every attempt may have read a word that has changed since.
- SlotPool.Pool.UnregisterComponent: one exchange, as above.
- Window.Buffer.AppendBytes: no kill points; what a kill leaves in the record is stated by Window.TornOperations, and bytes stored before it lie outside the old window.
- Window.Buffer.PrependBytes: no kill points, as above.
- Window.Buffer.TrimFrontBytes: no kill points; Window.Buffer.SetRegion, which it ends in, has them.
- Window.Buffer.TrimBackBytes: no kill points, as above.
