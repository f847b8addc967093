# Marina controller: a verified model

Marina monitors network flows with a programmable switch. Its controller keeps a
database of the monitored flows: which flow holds which id, which register of the
switch counts it, which entry of the switch matches it. The database is spread over
redundant structures that several threads keep in agreement through ring buffers.
This project models those structures in the form the program has (classes over
arrays for the tables, heaps and buffers; loops for the checksums and the table
generator; small-step machines for code shared between threads) and proves what
they promise for all inputs and all runs.

`dafny verify dfyconfig.toml` checks everything.

## How the pieces fit

| file | content |
|---|---|
| `Structs.dfy`, `Arithmetic.dfy` | five-tuples, ids, ports and pipes; remainders, powers of two and masks |
| `Probing.dfy` | theory of linear probing with backward-shift deletion, for any hash function and any table size |
| `FlowTable.dfy`, `SessionTable.dfy`, `DnsTable.dfy` | the three hash tables as classes that refine finite maps, with their reverse indexes |
| `IdHeap.dfy` | the binary heap of free ids as a class that refines a multiset |
| `FlowDbModel.dfy` | the flow database over values: free ids, two maps, the accepted commands; one step per packet-ring command |
| `FlowDbRuns.dfy` | what holds in every reachable state |
| `FlowDbCases.dfy` | concrete runs in which the database falls short of a natural claim |
| `FlowDb.dfy` | the handlers over the real heaps and tables, proved to do the steps of the model |
| `Dataplane.dfy` | the interpreter of switch commands with its handle cache, and end-to-end agreement |
| `Controller.dfy` | the flow database and the data plane thread together, over the classes |
| `RingBuffer.dfy` | the ring buffer under every interleaving of many producers and one consumer |
| `Features.dfy` | 64-bit totals from wrapping 32-bit registers, and ageing |
| `BloomFilter.dfy` | the counting Bloom filter under every interleaving of inserter, decay and data plane |
| `CrcTheory.dfy`, `CrcWords.dfy`, `CrcTables.dfy`, `CrcDivision.dfy`, `Crc.dfy` | the four table-driven checksums as polynomial division |
| `LogTables.dfy` | the generator of the prefix tables for logarithms |

The main results:

- **Tables.** Every operation of the three tables acts on the abstract map as it
  should, for every hash function; probes end exactly when the table has room or the
  key is stored; deletion from a completely full DNS table ends (the measure is total
  displacement, then cyclic distance) and restores the probe invariant.
- **Flow database.** `FlowDb.Process` shows that the handlers, over real heaps and
  tables from the initial state, realise every run of the model that stays within the
  bounds of the heaps and of the egress index (`FlowDbRuns.SafeRun`), which all runs do in
  which five-tuples keep to one pipe. Over all runs of the model no id is lost or issued twice, whatever is
  dropped, and the tables never fill. The heaps of the model are unbounded; they fit the
  program's arrays exactly as long as no removal meets a full heap. Heaps keep to their
  own pipe exactly if removals arrive on the pipe of their adds. The flow ids and session
  ids are in lockstep exactly as long as no add command is dropped.
- **End to end.** However far the switch has got, executing the pending commands gives
  it exactly the entries of the flow table, under the cached handles, for any
  allocator of fresh handles. One step keeps this agreement if and only if no removal
  is dropped and no flow is admitted without a session id. `Controllers.Settle` states
  the agreement of the two thread objects for every pace of the data plane and every run
  that stays within the arrays of both threads (`SafeRun` and, for the totals that clears
  write, `FlowDbRuns.ClearSafeRun`): each session has a register of its own, and exactly
  the totals that some clear named are zero.
- **Threads.** What is consumed from a ring is a prefix of what was put, in order; `get`
  reports an empty ring, and `put` a full one, exactly when it is (while the lock is free),
  and a call that nothing interrupts takes the oldest item or stores the youngest. A Bloom
  counter is its increments less its decrements; a cell with a positive counter has been
  written, or its write is on its way.
- **Arithmetic.** The accumulated totals are exact; a timeout means an idle register, a
  session that falls silent is timed out after thirty seconds, neither sooner nor never, and
  it is sure of them exactly if its slot carries no old stamp; all
  1024 words of the checksum tables are right, so the checksum loops compute the unique
  remainder of polynomial division; the generated prefixes partition the nonzero values
  with a bounded relative error.

## Where the program falls short of a natural claim

These are stated with the exact condition under which the claim does hold.

- Removing a five-tuple that arrives on another pipe than its add moves an id into the
  wrong heap (`FlowDbCases.ForeignRemovalBreaksPipes`; condition: `FlowDbModel.PipesKeptIff`)
  and, if that heap is full, writes past the end of its array
  (`FlowDbCases.ForeignRemovalOverflows`; condition: `FlowDbModel.HeapsFitIff`). Even where
  it fits, the foreign id can later be written behind the end of the egress index
  (`FlowDbCases.ForeignIdLeavesEgressIndex`). Runs without either are `FlowDbRuns.SafeRun`.
- A dropped add leaves the session behind (`FlowDbCases.DroppedAddEndsLockstep`; condition:
  `FlowDbRuns.LockstepIff`). The next flow then takes the id that the orphaned session
  holds, and a timeout of that session removes the wrong flow
  (`FlowDbCases.TimeoutRemovesForeignFlow`; condition: `FlowDbRuns.TimeoutRemovesOwnIff`).
- A flow that finds no session id stays in the table without an entry
  (`Agreement.FlowWithoutEntry`; condition: `Agreement.StepAgreesIff`).
- Two ingress pipes that forward to one egress pipe share egress registers
  (`FlowDbCases.SharedEgressRegister`; condition: `SessionTables.EgressInsertIff`; never, if
  pipes are disjoint: `FlowDbRuns.RegistersDistinct`).
- The clear that follows a removal packet carries the packet's offset, which the packet
  handler never sets. It zeroes the session's own totals exactly if that offset is the
  stored one (`FlowDbCases.ClearMissesOwnTotals`; condition: `FlowDbRuns.ClearsOwnTotalsIff`),
  and it writes outside the totals unless session id plus offset is a slot
  (`FlowDbCases.UnsetOffsetLeavesTotals`; condition: `FlowDbRuns.ClearInBoundsIff`, over runs
  `Controllers.SentInRangeIff`). Offset zero, the stored offset and, without dropped adds,
  timeouts are always within.
- A timeout waits in the packet ring; if its flow is removed and the id issued again
  meanwhile, it removes the new flow (`FlowDbCases.LateTimeoutRemovesNextFlow`; condition:
  `FlowDbRuns.DelayedTimeoutIff`).
- Looking up a missing key in a full table does not end (`Probing.EndlessLookup`; condition:
  `Probing.LookupStopsIff`).
- The DNS table refuses to change an existing key when it is full
  (`DnsTables.FullTableRefusesChange`; condition: `DnsTables.DnsTable.AddOrChange`).
- A clock below the timeout makes every idle slot time out at once (`Ageing.EarlyClockTimesOut`).
- A new session whose register is idle and still carries an old stamp is timed out at its
  first tick (`Ageing.StaleStampTimesOut`; condition: `Ageing.PatientIff`).
- A register that grows by 2^32 or more between reads is miscounted (`Features.ReadExactIff`).
- A dropped Bloom command loses its cells (`BloomFilters.DroppedCommandLosesCell`;
  condition: `BloomFilters.DropKeepsIff`).
- Unset fields of Bloom commands are zero, so cell 0 of a filter is written although nothing
  was inserted there (`BloomFilters.UnraisedCellIsWritten`; condition: `BloomFilters.UnraisedIff`).
- Bloom maintenance that finds a counter at zero under the lock never releases the lock
  (`BloomFilters.LockIsKept`; condition: `BloomFilters.LeaksIff`).

## Model

| member | source | states |
|---|---|---|
| `Probing.MaskedIndex` | controller/datastructures/flow_hashtable.c:10-26 | for a table size 2^k the masked hash is the same index as the signed, then made positive, remainder |
| `Probing.MaskedDistance` | controller/datastructures/flow_hashtable.c:27-29 | masking the 32-bit difference of two indexes gives their cyclic distance, also for negative differences |
| `Probing.LookupStopsIff` | controller/datastructures/flow_hashtable.c:88-105 | a probe ends if and only if the table has a free slot or holds the key |
| `Probing.EndlessLookup` | controller/datastructures/dns_hashtable.c:44-57 | in a full table the probe of a missing key never ends |
| `Probing.MissIsAbsent` | controller/datastructures/flow_hashtable.c:91-94 | a probe that meets a free slot proves the key absent from the whole table |
| `Probing.InsertSound` | controller/datastructures/flow_hashtable.c:61-78 | writing a new key at the first free slot of its probe keeps the probe invariant and adds exactly that pair to the map |
| `Probing.EraseSound` | controller/datastructures/flow_hashtable.c:122-127 | freeing a slot removes exactly its key and breaks the probe invariant at most at the hole |
| `Probing.ShiftSound` | controller/datastructures/flow_hashtable.c:144-155 | a permitted backward shift changes no entry of the map and moves the hole |
| `Probing.ScanEnds` | controller/datastructures/flow_hashtable.c:136-141 | when the scan meets a free slot the full probe invariant holds again |
| `Probing.ShiftDecreases` | controller/datastructures/dns_hashtable.c:112-134 | every shift lowers the total displacement of the entries |
| `FlowTables.FlowTable.FindIndex` | controller/datastructures/flow_hashtable.c:88-105 | finds the key's slot, or the free slot where it belongs; found if and only if the key is in the map |
| `FlowTables.FlowTable.Add` | controller/datastructures/flow_hashtable.c:51-81 | refuses (1) if the table is full or the key is stored, otherwise adds the pair; reverse index stays exact |
| `FlowTables.FlowTable.Get` | controller/datastructures/flow_hashtable.c:111-120 | answers membership and value of the map |
| `FlowTables.FlowTable.RemoveByIndex` | controller/datastructures/flow_hashtable.c:122-158 | removes exactly the key of the slot; probe invariant and reverse index hold afterwards |
| `FlowTables.FlowTable.Remove` | controller/datastructures/flow_hashtable.c:164-181 | removes the key and reports its id, or reports 1 and changes nothing |
| `FlowTables.FlowTable.RemoveByValue` | controller/datastructures/flow_hashtable.c:183-198 | removes the one flow that holds the id and returns its tuple, or reports 1 |
| `FlowTables.FlowTable.Size` | controller/datastructures/flow_hashtable.c:75 | the entry counter is the size of the map |
| `ReverseIndex.RevAnswers` | controller/datastructures/flow_hashtable.c:186-193 | an exact reverse index answers whether an id is live and where |
| `ReverseIndex.RevInjective` | controller/datastructures/flow_hashtable.c:183-198 | distinct keys hold distinct ids |
| `SessionTables.SessionTable.Add` | controller/datastructures/session_hashtable.c:67-102 | as for flows; the egress index stays exact if and only if the register was not taken |
| `SessionTables.SessionTable.Get` | controller/datastructures/session_hashtable.c:132-141 | answers membership and value of the map |
| `SessionTables.SessionTable.RemoveByIndex` | controller/datastructures/session_hashtable.c:143-183 | removes exactly the key of the slot and keeps both reverse indexes exact through all moves |
| `SessionTables.SessionTable.Remove` | controller/datastructures/session_hashtable.c:189-214 | removes the key and reports its id, both reverse indexes stay exact |
| `SessionTables.SessionTable.Export` | controller/export/export_features.c:81-88 | lists every live session with an id of at least 4 exactly once, ascending by id, each with its own tuple |
| `SessionTables.EgressInsertIff` | controller/datastructures/session_hashtable.c:94-95 | the egress index is exact after an insertion if and only if no live session fed that register |
| `SessionTables.EgressErase` | controller/datastructures/session_hashtable.c:148-150 | clearing both indexes of a removed session keeps them exact |
| `SessionTables.EgressShift` | controller/datastructures/session_hashtable.c:169-179 | moving an entry keeps both indexes exact |
| `DnsTables.DnsTable.FindIndex` | controller/datastructures/dns_hashtable.c:40-58 | finds the key's slot or the free slot where it belongs |
| `DnsTables.DnsTable.AddOrChange` | controller/datastructures/dns_hashtable.c:60-80 | a full table refuses even an existing key; otherwise the map is updated |
| `DnsTables.FullTableRefusesChange` | controller/datastructures/dns_hashtable.c:60-63 | a table that one addition has filled refuses to change the key it stores |
| `DnsTables.DnsTable.Get` | controller/datastructures/dns_hashtable.c:82-91 | answers membership and value of the map |
| `DnsTables.DnsTable.Remove` | controller/datastructures/dns_hashtable.c:93-138 | removes exactly the key, also from a completely full table |
| `DnsTables.DnsTable.CloseHole` | controller/datastructures/dns_hashtable.c:112-135 | the scan ends, also when no other slot is free, restores the probe invariant and keeps the map |
| `IdHeaps.RootIsLeast` | controller/datastructures/heap.c:57-59 | in heap order the root is at most every element |
| `IdHeaps.HeapQueue.Heapify` | controller/datastructures/heap.c:15-28 | sifting down extends heap order by one position and keeps the multiset |
| `IdHeaps.HeapQueue.Build` | controller/datastructures/heap.c:30-37 | any array becomes a heap with the same multiset; the loop ends by unsigned wrap-around |
| `IdHeaps.HeapQueue.Decrease` | controller/datastructures/heap.c:39-48 | sifting up restores heap order; a larger key changes nothing |
| `IdHeaps.HeapQueue.Push` | controller/datastructures/heap.c:50-55 | keeps heap order and adds exactly the item |
| `IdHeaps.HeapQueue.Pop` | controller/datastructures/heap.c:62-74 | 0 if empty, otherwise removes exactly the least element |
| `IdBanks.MakeHeap` | controller/flow_db/flow_db.c:154-169 | the heap of a pipe starts with exactly the ids 4(k+1)+pipe |
| `FlowDbs.FlowDb.AddFlow` | controller/flow_db/flow_db.c:32-82 | over real heaps and tables the handler does the model's step, roll-back included |
| `FlowDbs.FlowDb.CleanSession` | controller/flow_db/flow_db.c:84-102 | removes the session, returns its id and asks for a clear, or does nothing |
| `FlowDbs.FlowDb.RemoveByFiveTuple` | controller/flow_db/flow_db.c:108-126 | does the model's removal step |
| `FlowDbs.FlowDb.RemoveByFlowId` | controller/flow_db/flow_db.c:128-146 | does the model's removal step for the holder of the id |
| `FlowDbs.FlowDb.Execute` | controller/flow_db/flow_db.c:188-205 | one command of the packet ring does one step of the model |
| `FlowDbs.FlowDb.Process` | controller/flow_db/flow_db.c:181-207 | any sequence of commands that stays within the arrays realises the model's run; the egress index is exact if five-tuples keep to one pipe and pipes are disjoint |
| `FlowDbs.FlowDb.ExportSessions` | controller/export/export_features.c:81-88 | in every reachable state the export lists exactly the sessions, ascending by id |
| `FlowDbModel.StepStores` | controller/flow_db/flow_db.c:188-203 | a step stores nothing but the tuple that it adds |
| `FlowDbModel.StepConserves` | controller/flow_db/flow_db.c:38-51 | every step keeps each id in exactly one place (heaps unbounded; see `HeapsFitIff`) |
| `FlowDbModel.HeapsFitIff` | controller/datastructures/heap.c:50-55 | a step keeps the heaps within their arrays if and only if it does not remove a stored flow into a full heap |
| `FlowDbModel.TableHasRoom` | controller/datastructures/flow_hashtable.h:10 | a table whose ids come from the heaps is never full |
| `FlowDbModel.PipesKeptIff` | controller/flow_db/flow_db.c:114 | heaps and tables keep to their pipes if and only if removals name the pipe of the stored id |
| `FlowDbModel.PushFits` | controller/flow_db/flow_db.c:99 | returning a live id to its own heap cannot overflow it |
| `FlowDbRuns.IdsConserved` | controller/flow_db/flow_db.c:154-169 | over every run of the model, dropped commands and duplicates included, each id is free once or held once and both tables have room; if no removal overflows a heap, the heaps fit their arrays |
| `FlowDbRuns.AlwaysFitsIff` | controller/flow_db/flow_db.c:99-114 | a run keeps all heaps within their arrays throughout if and only if no removal meets a full heap |
| `FlowDbRuns.RoutedIsSafe` | controller/flow_db/flow_db.c:95-146 | if five-tuples keep to one pipe, no handler writes outside a heap or the egress index (what clears write: `RoutedIsClearSafe`) |
| `FlowDbRuns.SafeReachable` | controller/flow_db/flow_db.c:181-207 | ids are conserved and heaps fit in every state that runs within the arrays reach |
| `FlowDbRuns.PipesConserved` | controller/flow_db/flow_db.c:156-160 | if five-tuples keep to one pipe, each heap and each entry keeps to its own pipe and a push never overflows |
| `FlowDbRuns.PipePartition` | controller/flow_db/flow_db.c:154-169 | in every routed run the free ids of a pipe and the live ids with its remainder partition {4(k+1)+pipe}, each exactly once, for flows and sessions |
| `FlowDbRuns.AddStoresIff` | controller/flow_db/flow_db.c:32-82 | an add of a stored flow changes nothing; a new flow gets a session exactly if its port is mapped, a flow id and a session id are free and it has none, is stored exactly if also the ring takes its command or no session id is left, under the least free id of its pipe and with the distance to its egress pipe; what is sent follows |
| `FlowDbRuns.RemovalTakesOut` | controller/flow_db/flow_db.c:95-126 | a removal takes out exactly the flow and its session, returns both ids to the pipe that the packet names, and sends the removal and the clear that the ring takes; of an unknown flow it changes nothing |
| `FlowDbRuns.TimeoutIsRemoval` | controller/flow_db/flow_db.c:128-146 | a timeout of a held id is the removal of its flow by the stored tuple, whose command is never dropped |
| `FlowDbRuns.IdsAreSlots` | controller/flow_db/flow_db.c:154-169 | in every reachable state the ids, free or held, are exactly the slots of the feature arrays from the first session id on |
| `FlowDbCases.ForeignRemovalBreaksPipes` | controller/flow_db/flow_db.c:108-114 | a removal on another pipe puts an id into a foreign heap |
| `FlowDbCases.ForeignRemovalOverflows` | controller/flow_db/flow_db.c:114 | one add and its removal on another pipe leave that pipe's heap with one id more than its array has room for |
| `FlowDbCases.ForeignIdLeavesEgressIndex` | controller/datastructures/session_hashtable.c:95 | a foreign id that fits its heap can select a register behind the end of the egress index |
| `FlowDbCases.DroppedAddEndsLockstep` | controller/flow_db/flow_db.c:74-78 | one dropped add ends the lockstep |
| `FlowDbCases.SessionIdsRunOut` | controller/flow_db/flow_db.c:53-62 | after a dropped add a flow can be stored without a session and without a command |
| `FlowDbCases.TimeoutRemovesForeignFlow` | controller/dataplane/features.c:230-236 | after a dropped add, timing out the orphaned session removes another flow and keeps the session |
| `FlowDbCases.SharedEgressRegister` | controller/flow_db/flow_db.c:45 | two pipes that forward to one egress pipe give their first sessions the same egress register |
| `FlowDbRuns.LockstepIff` | controller/flow_db/flow_db.c:74-78 | a step keeps flow and session heaps and tables equal if and only if it drops no add |
| `FlowDbRuns.LockstepRuns` | controller/flow_db/flow_db.c:38-63 | without dropped adds every flow's session id is its flow id in every state that runs of the model reach; of the program, for runs within its arrays, `Controllers.Settle` states it |
| `FlowDbRuns.SessionIdsSuffice` | controller/flow_db/flow_db.c:56-61 | in lockstep session ids have not run out while flow ids have not |
| `FlowDbRuns.TimeoutRemovesOwnIff` | controller/dataplane/features.c:230-236 | timing out a session's id removes exactly that session and its flow if and only if the flow holds the same id |
| `FlowDbRuns.TimeoutRemovesOwnFlow` | controller/dataplane/features.c:230-236 | in lockstep, at the moment it is handled, a session id sent as a flow id removes exactly that flow and its session |
| `FlowDbRuns.DelayedTimeoutIff` | controller/flow_db/flow_db.c:128-146 | a timeout that waits while other commands are handled removes the flow it was decided for if and only if that flow still holds the id |
| `FlowDbCases.LateTimeoutRemovesNextFlow` | controller/dataplane/features.c:230-237 | with nothing dropped, a late timeout removes the flow to which the id was issued again |
| `FlowDbRuns.RegistersDistinct` | controller/flow_db/flow_db.c:45 | with disjoint pipes no two sessions share an egress register, and all registers are in range |
| `FlowDbRuns.RoutedPiped` | controller/flow_db/flow_db.c:181-207 | in every state that routed runs reach, ids keep to their pipes and offsets to their ports |
| `FlowDbRuns.ClearsOwnTotalsIff` | controller/flow_db/flow_db.c:84-102 | the clear of a removal addresses the freed session's totals in all features if and only if the removing tuple carries the stored offset |
| `FlowDbCases.ClearMissesOwnTotals` | controller/flow_db/flow_db.c:108-126 | a removal packet with offset zero clears another slot if the flow leaves on another pipe than it came |
| `FlowDbRuns.ClearInBoundsIff` | controller/dataplane/dataplane.c:26-31 | the clear of a removal stays within the totals of every feature if and only if session id plus offset is a slot |
| `FlowDbRuns.ZeroOffsetFits` | controller/dataplane/dataplane.c:26-31 | offset zero keeps the clear within the totals in every reachable state |
| `FlowDbRuns.StoredOffsetFits` | controller/dataplane/dataplane.c:26-31 | so does the offset stored with the session, in every state that safe runs reach |
| `FlowDbRuns.TimeoutClearsFit` | controller/flow_db/flow_db.c:128-146 | without dropped adds no timeout sends a clear that leaves the totals |
| `FlowDbRuns.RoutedIsClearSafe` | controller/flow_db/flow_db.c:84-126 | if five-tuples keep to one pipe and the offsets of removals lead to a pipe, no clear of the run leaves the totals |
| `FlowDbCases.UnsetOffsetLeavesTotals` | controller/dataplane/dataplane.c:30 | a routed, safe run of an add and a removal with a garbage offset has the data plane write before the totals |
| `FlowDbRuns.TimeoutClearsOwnTotals` | controller/flow_db/flow_db.c:128-146 | in lockstep a timeout always clears the totals of the session that it frees |
| `FlowDbRuns.FlowIdReady` | controller/flow_db/flow_db.c:38-43 | an issued id is in range, unused and never 0, so 0 means "none left" |
| `Dataplane.ApplyConcat` | controller/dataplane/dataplane.c:57-59 | executing two batches is executing their concatenation |
| `Dataplane.ZeroedAt` | controller/dataplane/dataplane.c:26-31 | a clear leaves zero at the slot that is the session id, moved by the offset for a feature counted on egress, and every other slot of every feature as it was; other commands leave all |
| `Dataplane.ZeroedAllAt` | controller/dataplane/dataplane.c:77-81 | after any commands a slot is zero if some clear named it and has its starting value otherwise |
| `Dataplane.DataplaneThread.Execute` | controller/dataplane/dataplane.c:59-81 | one command acts on the entries and the handle cache as specified; in every feature the slot that it names as a clear is zero and every other one unchanged |
| `Dataplane.DataplaneThread.Drain` | controller/dataplane/dataplane.c:53-109 | the command loop computes the specified entries and handle cache; in every feature a slot is zero if some clear among the commands names it and has its starting value otherwise |
| `Controllers.SentInRangeIff` | controller/dataplane/dataplane.c:23-80 | all commands of a run write within the handle cache and the totals if and only if no clear of the run leaves the totals |
| `Controllers.Settle` | controller/dataplane/dataplane.c:53-109 | both thread objects together: after any run within their arrays, at any pace of the data plane, the switch holds the drained state, and every total is zero if some clear sent names it and has its starting value otherwise; if the run is faithful the switch agrees with the flow table, and on fixed pipes each entry's register and pipe spell its session's id and no two entries share both; ids are conserved, heaps fit, and without dropped adds flows and sessions are in lockstep |
| `Dataplane.FreshExists` | controller/dataplane/dp_api.c:135-153 | allocators of fresh handles exist |
| `Agreement.StepAgreesIff` | controller/flow_db/flow_db.c:32-146 | a step keeps the drained switch equal to the flow table if and only if it drops no removal and admits no flow without a session id; then every command finds what it needs |
| `Agreement.InsertAgrees` | controller/dataplane/dataplane.c:60-68 | an add of a free id keeps agreement although the id's cached handle is overwritten |
| `Agreement.DropAgreesIff` | controller/flow_db/flow_db.c:108-126 | a removal keeps agreement if and only if its command is accepted |
| `Agreement.RunAgrees` | controller/dataplane/dataplane.c:57-76 | in the model, agreement holds after every faithful run (of the program: `Controllers.Settle`) |
| `Agreement.EndToEnd` | controller/dataplane/dataplane.c:57-76 | in the model, with any prefix of the commands executed, executing the rest gives exactly the flow table's entries, and no command meets a duplicate or unknown entry (of the program: `Controllers.Settle`) |
| `Agreement.AgreedRegister` | controller/datastructures/structs.h:58 | in agreement the register of an entry is the quarter of its session's id, and on the session's own pipe 4 * register + pipe is that id |
| `Agreement.EntriesOwnRegisters` | controller/dataplane/dataplane.c:63-66 | in every drained state of faithful runs on fixed pipes each flow has an entry in the pipe of its port, 4 * register + pipe is the id of the flow's session, and no two entries share pipe and register |
| `Agreement.FlowWithoutEntry` | controller/flow_db/flow_db.c:56-61 | with one id per pipe, an add after a dropped add leaves a stored flow for which the switch never gets an entry |
| `Agreement.NothingDroppedIsFaithful` | controller/flow_db/flow_db.c:74-78 | runs without dropped commands are faithful: session ids cannot run out first |
| `RingBuffers.StepKeeps` | controller/datastructures/mk_ringbuffer.h:53-111 | every step of every thread keeps the ring's invariant |
| `RingBuffers.ConsumedIsPrefix` | controller/datastructures/mk_ringbuffer.h:62-94 | under every interleaving the items taken are a prefix, in order, of the items put, and at most the capacity is between them |
| `RingBuffers.GetFindsItem` | controller/datastructures/mk_ringbuffer.h:62-68 | a get past its unlocked check copies the oldest item not yet taken |
| `RingBuffers.RejectedPutChangesNothing` | controller/datastructures/mk_ringbuffer.h:77-87 | the checks and a rejection leave buffer, flags and histories alone |
| `RingBuffers.RejectedIffFull` | controller/datastructures/mk_ringbuffer.h:82-87 | the locked recheck rejects if and only if the buffer is full |
| `RingBuffers.ReportsEmptyIff` | controller/datastructures/mk_ringbuffer.h:62-65 | get reports an empty ring only if every returned put's item has been taken; while nobody owns the lock, exactly then |
| `RingBuffers.RejectedAtOnceIff` | controller/datastructures/mk_ringbuffer.h:77-81 | the unlocked check of put gives up (that of ensure_put waits) only if the items whose get has not returned fill the ring; while nobody owns the lock, exactly then |
| `RingBuffers.PutReturns` | controller/datastructures/mk_ringbuffer.h:92-110 | ensure_put returns only with its item stored; a put that returns without storing leaves no trace |
| `RingBuffers.UndisturbedGet` | controller/datastructures/mk_ringbuffer.h:62-75 | after any run that leaves an item stored and the lock free, a get that nothing interrupts returns the oldest item and leaves the lock free |
| `RingBuffers.UndisturbedPut` | controller/datastructures/mk_ringbuffer.h:77-94 | after any run that leaves room and the lock free, a put or ensure_put that nothing interrupts stores its item as the youngest |
| `RingBuffers.LengthIsExact` | controller/datastructures/mk_ringbuffer.h:53-60 | length returns the number of items in the buffer |
| `RingBuffers.UndisturbedLength` | controller/datastructures/mk_ringbuffer.h:53-60 | a call of length that nothing interrupts returns that number and leaves the ring as it was |
| `Features.FeatureRegister.ReadFeature` | controller/dataplane/features.c:148-152 | the buffers are swapped, never aliased, and the new one holds the registers read |
| `Features.FeatureRegister.ProcessFeature` | controller/dataplane/features.c:205-210 | every slot from 4 up accumulates the wrapped difference, the others stay |
| `Features.FeatureRegister.Tick` | controller/dataplane/features.c:181-210 | a read followed by accumulation advances every slot by one read |
| `Features.FeatureRegister.Clear` | controller/dataplane/dataplane.c:27-31 | zeroes exactly the total at the session id, moved by the offset if the feature is counted on egress, and no register |
| `Features.ClearRegisters` | controller/dataplane/dataplane.c:26-31 | zeroes that total in every feature, each by its own side, and nothing else |
| `Features.TotalsAreExact` | controller/dataplane/features.c:205-210 | over any run of reads and clears the total is, modulo 2^64, the true growth since the last read before the most recent clear |
| `Features.Replay` | controller/dataplane/features.c:181-210 | over the buffers and totals of a feature, any run of reads and clears leaves every steady slot with exactly that growth |
| `Features.ReadExactIff` | controller/dataplane/features.c:207-208 | one read is exact if and only if the counter grew by less than 2^32 |
| `Ageing.IssuedIff` | controller/dataplane/features.c:218-230 | exactly when a slot asks for a timeout, unsigned wrap-around included |
| `Ageing.DueIff` | controller/dataplane/features.c:225-240 | the stamp and the timeout that `AgeOne` and the pass promise are those of the runs, and no others |
| `Ageing.TickStamps` | controller/dataplane/features.c:225-240 | what every tick of a run leaves: its time after a change and for a live slot without stamp, no stamp after an accepted timeout, the old stamp otherwise |
| `Ageing.ProcessAndAge` | controller/dataplane/features.c:212-242 | the pass accumulates every slot, leaves each with the right stamp (new after a change or the first sight of a live slot, none after an accepted timeout, old otherwise), and times out exactly the slots due, once each and with the session that feeds them |
| `SessionAgeing.AgeSessions` | controller/dataplane/features.c:225-236 | with the exact egress index of the session table, the pass times out exactly the slots due and every timeout names the live session that feeds its slot; stamps as in the pass |
| `Ageing.AgeOne` | controller/dataplane/features.c:225-240 | one slot: timed out exactly if it is live, unchanged, stamped before the wrapped threshold and the put is accepted; the stamp it is left with; the other stamps stay |
| `Ageing.TimeoutOnlyIfIdle` | controller/dataplane/features.c:225-240 | a timeout is asked for only if the register changed at no tick of the last 30 seconds |
| `Ageing.TimeoutsApart` | controller/dataplane/features.c:230-239 | two timeouts of one slot, the first accepted, are more than 30 seconds apart |
| `Ageing.SessionGetsItsTime` | controller/dataplane/features.c:225-240 | a session whose slot carries no old stamp is timed out only when more than 30 seconds have passed since its first tick |
| `Ageing.SilentTimesOut` | controller/dataplane/features.c:225-240 | a slot that is live and unchanged since some tick is timed out at every tick more than 30 seconds later, until a timeout is accepted |
| `Ageing.TimesOutExactly` | controller/dataplane/features.c:225-240 | a session with a fresh start that falls silent is timed out at a tick if and only if that is more than 30 seconds after its first one |
| `Ageing.PatientIff` | controller/dataplane/features.c:225-240 | a beginning session is sure of that, however it goes on, if and only if its start is fresh |
| `Ageing.StaleStampTimesOut` | controller/flow_db/flow_db.c:80 | without an initial stamp, a session on an idle register is timed out at its first tick |
| `Ageing.EarlyClockTimesOut` | controller/dataplane/features.c:218-219 | a clock below the timeout times out an idle slot at once |
| `BloomFilters.StepKeeps` | controller/datastructures/bloom_filter.c:120-151 | every step that drops no command keeps: a positive counter's cell is written or its write is on its way |
| `BloomFilters.RunKeeps` | controller/datastructures/bloom_filter.c:189-235 | the same under every interleaving of inserter, decay and data plane |
| `BloomFilters.NoFalseNegatives` | controller/dataplane/dp_api.c:210-237 | once nothing is under way, the switch holds every cell with a positive counter |
| `BloomFilters.DrainWritesAll` | controller/dataplane/dp_api.c:210-237 | after any run without a dropped command, between insertions, the data plane left alone ends its work with every cell of a positive counter written |
| `BloomFilters.CountersAreExact` | controller/datastructures/bloom_filter.c:137-140 | in every run each counter is its locked increments less its locked decrements, modulo 2^16 |
| `BloomFilters.LowerTakesOne` | controller/datastructures/bloom_filter.c:208-219 | a decrement that finds the counter positive leaves it one less, changes no other counter and keeps no lock |
| `BloomFilters.DecaysByOne` | controller/datastructures/bloom_filter.c:202-219 | maintenance of a free cell takes one from a positive counter and leaves a zero one alone |
| `BloomFilters.Inserts` | controller/datastructures/bloom_filter.c:120-151 | an uninterrupted insertion from any state with free locks raises exactly its targets by one and queues a command exactly if one of them was zero, which names the targets that were |
| `BloomFilters.CheckNotes` | controller/datastructures/bloom_filter.c:142-145 | under every interleaving the check after an increment notes exactly whether it finds one |
| `BloomFilters.SendsIff` | controller/datastructures/bloom_filter.c:148-150 | under every interleaving an insertion queues a command exactly if some check found one, naming exactly those targets and 0 elsewhere |
| `BloomFilters.TouchedIff` | controller/datastructures/bloom_filter.c:137-140 | the history of raised cells holds exactly the cells with a locked increment |
| `BloomFilters.DropKeepsIff` | controller/datastructures/bloom_filter.c:148-150 | dropping a command is harmless if and only if its live cells are written or being written anyway |
| `BloomFilters.DroppedCommandLosesCell` | controller/datastructures/bloom_filter.c:148-150 | a dropped command leaves a positive counter without a write |
| `BloomFilters.RunWritesOnlyAllowed` | controller/datastructures/bloom_filter.c:123-146 | only raised cells and cells with index 0 are ever written |
| `BloomFilters.UnraisedIff` | controller/datastructures/bloom_filter.c:123-150 | a queued command names a cell that was never raised if and only if some check found another count than one and cell 0 of its filter was never raised |
| `BloomFilters.UnraisedCellIsWritten` | controller/datastructures/bloom_filter.c:123-150 | two insertions that share a cell write cell 0 of its filter, never raised |
| `BloomFilters.LeaksIff` | controller/datastructures/bloom_filter.c:202-218 | in every reachable state a step leaves a lock taken if and only if maintenance lowers a counter that the raises since it looked have wrapped around to zero |
| `BloomFilters.LockIsKept` | controller/datastructures/bloom_filter.c:202-218 | a run in which that happens: one raise, a look, and 65535 raises more |
| `ShiftRegisters.FeedAtOnce` | controller/datastructures/hashes/crc.c:84-90 | feeding bits one by one equals mixing them in at once and stepping |
| `ShiftRegisters.SerialIsDivision` | controller/datastructures/hashes/crc.c:324-328 | bit-serial feeding is long division, in any register with linear steps |
| `CrcWords.SplitLowByte` | controller/datastructures/hashes/crc.c:84-90 | eight steps of the reflected register are eight steps of the low byte mixed with the shifted rest |
| `CrcWords.ByteRight` | controller/datastructures/hashes/crc.c:84-90 | the reflected register consumes a byte by one lookup on its low byte |
| `CrcWords.ByteLeft` | controller/datastructures/hashes/crc.c:324-328 | the plain register consumes a byte by one lookup on its top byte |
| `CrcWords.SerialMirror` | controller/datastructures/hashes/crc.c:14-16 | the reflected register is the mirror image of the plain one with the reversed generator |
| `CrcDivision.Divides` | controller/datastructures/hashes/crc.c:324-328 | start * x^n + bits = quotient * generator + remainder over the field of two elements |
| `CrcWords.EntryRight` | controller/datastructures/hashes/crc.c:17-82 | a table with a right first row, first column and linear rows has the right word for every byte |
| `Checksums.TablesAreRight` | controller/datastructures/hashes/crc.c:17-322 | every word of the four tables is its index after eight steps of the register |
| `Checksums.Crc32Normal` | controller/datastructures/hashes/crc.c:16-92 | equals the bit-serial checksum and the remainder by 0x104C11DB7 for all byte strings, lengths and start values |
| `Checksums.Crc32C` | controller/datastructures/hashes/crc.c:96-172 | the same for 0x11EDC6F41 |
| `Checksums.Crc32D` | controller/datastructures/hashes/crc.c:176-252 | the same for 0x1A833982B |
| `Checksums.Crc32Q` | controller/datastructures/hashes/crc.c:256-330 | the same for 0x1814141AB, high bit first and not inverted |
| `Checksums.ReflectedChains` | controller/datastructures/hashes/crc.c:84-92 | checksumming two pieces in turn equals checksumming their concatenation |
| `Checksums.PlainChains` | controller/datastructures/hashes/crc.c:324-328 | the same for the plain checksum |
| `Checksums.ReflectedDivides` | controller/datastructures/hashes/crc.c:14-16 | the reflected checksum, mirrored and inverted, is message * x^32 + start * x^length modulo the generator |
| `Checksums.PlainDivides` | controller/datastructures/hashes/crc.c:254-256 | the plain checksum is that remainder directly |
| `Checksums.DivisionHasQuotient` | controller/datastructures/hashes/crc.c:14-15 | there is a quotient q with message * x^32 + start * x^length = q * generator + remainder |
| `Checksums.DivisionIsRemainder` | controller/datastructures/hashes/crc.c:14-15 | no other polynomial of degree below 32 is such a remainder |
| `LogTables.Iteration` | create_static_tables.py:24-54 | the entries with n leading zeros are the bit strings of consecutive numbers and cover consecutive ranges; a nonpositive accuracy is an error |
| `LogTables.ComputeSquareTable` | create_static_tables.py:56-90 | the table has the closed-form size, partitions the nonzero N-bit values and keeps the error bound, for all N and m |
| `LogTables.MatchesRange` | create_static_tables.py:30-36 | an entry's prefix matches exactly the values it averages over |
| `LogTables.EntryError` | create_static_tables.py:56-60 | (v - lo) * 2^(m-1) < lo for every value v of an entry with least value lo |
| `LogTables.EachValueOnce` | create_static_tables.py:62-67 | each nonzero value matches exactly one entry, zero matches none |
| `LogTables.TableSize` | create_static_tables.py:62-67 | (N-m+2) * 2^(m-1) - 1 entries for m <= N, 2^N - 1 otherwise |

## Modelling decisions

- The hash is an arbitrary function and the table size any positive number; of the
  configuration only that there are fewer ids than slots is used.
- Whether a put into a ring succeeds, which handle the switch allocates, the clock, the
  register contents and the random choices of maintenance are parameters; all values
  are allowed.
- Table access is single-threaded and memory is sequentially consistent; a section
  under a lock is one step where no unlocked access can see inside it.
- Some predicates are folded (`Unfold`, `UnfoldFlows`, ...): they are equivalent to
  their bodies, and proofs open them where needed.
- In the Bloom filter one thread inserts, as in the program, where only the flow
  database thread calls `bloom_filter_set_irrelevant`.

## Left out

- Session mode: with `use_sessions()` true a new session never sets its flow count and removal reads an uninitialised id; the session table is modelled in per-flow mode.
- UUIDs, export formatting, statistics, logging and benchmarks: they touch no modelled state.
- Packet capture, pcap and DNS message parsing: mostly foreign calls.
- The switch SDK and the P4 program: the classification tables are maps with fresh handles whose operations succeed.
- MurmurHash3: the tables are proved for every hash function.
- Lock-free reads of the tables by other threads during a shift, and weak-memory effects of the fences.
- Failed register reads: after one the buffers stay swapped, so the totals are not claimed.
- Failed enqueues of Bloom maintenance: their roll-back uses stale indices; removals are always accepted in the model.
- Bloom hash indices: any indices are allowed, so how the four checksums produce them from a five-tuple is not modelled.
- Floating-point means of the logarithm tables: the entries keep the range that is averaged instead; ranges beyond 64 bits overflow in the program.
- The header-length table: a finite domain that enumeration settles.
- Features.FeatureRegister.Clear: asks for an index within the totals, as `ClearRegisters` does; the concurrent update of a total by the feature thread during a clear is not modelled, because each call runs alone.
- FlowTables.FlowTable.FindIndex: asks for a free slot or a stored key, because otherwise the program's loop never ends (`Probing.LookupStopsIff`); the same holds of the other lookups and removals by key. In the controller a free slot always exists (`FlowDbRuns.IdsConserved`).
- IdHeaps.HeapQueue.Push: asks for room in the array, because `heap_push` has no check and writes past the end otherwise; exactly when that happens is `FlowDbModel.HeapsFitIff`.
- FlowDbs.FlowDb.RemoveByFiveTuple: asks that the push fits its heap, for the same reason; removals on a foreign pipe that fit are covered, and the value model covers all.
- FlowDbs.FlowDb.Execute: asks that the event writes within the arrays (`FlowDbModel.Safe`), because the program's behaviour is undefined otherwise.
- FlowDbs.FlowDb.Process: asks the same of the whole run (`FlowDbRuns.SafeRun`); all routed runs satisfy it (`FlowDbRuns.RoutedIsSafe`).
- FlowDbs.FlowDb.AddFlow: asks that a new session's register lies within the egress index, because the program writes outside it otherwise.
- FlowDbs.FlowDb.CleanSession: asks for room in the heap the session id returns to, as `HeapQueue.Push` does.
- FlowDbs.FlowDb.RemoveByFlowId: asks that the push fits its heap, as `RemoveByFiveTuple` does.
- Features.ClearRegisters: asks for an index within the totals, because the program writes outside them otherwise; exactly when that happens is `FlowDbRuns.ClearInBoundsIff`.
- Device ports: the program takes 16 bits from the packet and indexes its port table with them unchecked; events are modelled for the 512 ports that the table has.
- Dataplane.DataplaneThread.Drain: Bloom commands, which share the ring, are interpreted in `BloomFilter.dfy`; the write of the last-timestamp register on a clear is not modelled.
- LogTables.Iteration: the order of `itertools.product` is written as a recursive function rather than as its library loop.
