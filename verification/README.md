# Dyssect: a verified model

Dyssect spreads the flows of a network function over the cores of a server.  Flows are
hashed into shards; every shard is owned by one working core, which may divert part of
its heavy flows to an offloading core.  A controller measures each epoch, asks an
optimiser for a new assignment of shards to cores and new offloading ratios, rewrites the
indirection table of the NIC, and lets the cores hand shards over while packets keep
coming.  This project models that machinery in Dafny and proves what it is meant to keep.

| file | what it models |
|---|---|
| `Accounting.dfy` | per-flow byte accounting of one shard on values, and the plain trace it refines |
| `ShareBounds.dfy` | when the shares of a list sum to at most 1, exactly, and runs in which they do not |
| `Shards.dfy` | the same accounting as it is done in place, on records shared by the table, two buffers and the ordered list |
| `Epochs.dfy` | all shards together: the loops of the controller's epoch step, `update_ratio`, and runs of the whole system |
| `Offload.dfy` | which packets are diverted, and how a ratio is rounded to the list |
| `Assignment.dfy` | the assignment matrix and the NIC's indirection table |
| `ShortSolver.dfy` | constraints and objective of the optimisation problem, as a predicate and a cost |
| `Device.dfy` | receive queues, bounded rings, bursts, and where every packet is |
| `Handover.dfy` | what each task of the handover protocol does, and one step of the whole system |
| `Tasks.dfy` | what those tasks do, told without the functions that model them: which packets move and in which order, who is told what |
| `Cores.dfy` | the tasks of working and offloading cores, as objects that change rings and shared arrays in place |
| `Rebalance.dfy` | how the controller acts on an answer of the solver: `update_relationship`, `update_shards`, signals |
| `Safety.dfy` | the invariant of the protocol and packet conservation over all runs |
| `Migration.dfy` | the handover of one shard along any run, and what parts an owner from its column of the matrix |
| `StaleOwner.dfy` | a run that ends with an owner other than the one in the matrix |
| `Extraction.dfy` | how often the flow state of a packet is taken |
| `Polling.dfy` | round-robin polling by an offloading core along any run |
| `Scenario.dfy`, `PacketRuns.dfy`, `ServedRuns.dfy` | concrete runs: a packet counted twice, never, or overtaken; a ring polled by two offloading cores or by none |
| `Ids.dfy` | the generated scanner `lex` and the circular logs it feeds |
| `Napt.dfy` | the port allocator |
| `UdpFlows.dfy` | the traffic generator's schedule |
| `Cyclic.dfy`, `Machine.dfy`, `Selection.dfy` | arithmetic of walking round a ring, 32-bit ranges, and choosing from a sequence in order, used by several of these |

Classes carry the fields that the elements update; each method is tied by its `ensures` to
a function or a step relation on values, and the properties over runs are lemmas about
those.  Where a contract is stated by such a function, another clause or lemma says in
figures and places what the function amounts to.  `dafny verify dfyconfig.toml` checks
everything.

Ground rules of the model:

- One `extract_state`, one whole `update_short_epoch` and one run of a core's task are
  atomic steps.  The code does not exclude a packet between `swap_shards` and the epoch
  increment, and the bound on the shares needs that it does not happen.
- Doubles are reals; `EPSILON` is 10^-10 and `SCALE` of the controller is 1.5.  The 32-bit
  counters (bytes and packets of a shard, totals, log counters, burst numbers, the drain
  counter, the poll counter) wrap as in the code.  Contracts that write the comparison of two
  ratios out in figures do so for non-negative ratios, the only ones an answer can hold.
- The hash of a flow is a function of the flow, so packets of one flow meet one shard.  The
  priority mark is read from every packet and may differ between packets of a flow.
- A trace of `Accounting` and `Epochs` is a sequence of calls of `extract_state`.  These are
  not the packets: a packet meets it once for every time it is diverted and once for every
  time a working core emits it (`Extraction.ExtractedExactly`), so it can be counted twice
  or never (`PacketRuns.CountedTwice`, `PacketRuns.NeverCounted`).
- The solver option of a working core is on, which is its default, and a burst is at most 128
  packets, the size of `off_pkts`.
- The optimiser is an oracle: any answer within its constraints may come.  The protocol
  allows any ratios, any changes of offloading cores and any choice of packets to divert;
  `Rebalance.Controller.Apply` shows that what the controller does is among this.  When
  there is no offloading core the constraints force all ratios to 0, so nothing is
  diverted then.
- `update_ratio` rounds to the list of the epoch before the one being closed: in
  `update_short_epoch` it runs before `order_shards`, which replaces that list.
- `owner_new` starts at 0, not at `UINT32_MAX`: the memory is zeroed.  The model keeps this,
  and `StaleOwner.OwnerLeavesColumn` shows what it leads to.

## Model

| member | source | states |
|---|---|---|
| `Accounting.RunRefinesTrace` | extra-elements/dyssect/elements/dyssectworkingcore.cc:92-142 | In every state of every run, with any marks, the double-buffered shard refines the plain trace of its calls of `extract_state`: table = flows seen, buffer in use = flows hit in the running epoch, other buffer empty, byte and packet counters = the trace modulo 2^32, list = the flows hit in the ended epoch, and every record holds the epoch of its last roll-over, the bytes since then (marked packets included) and the share fixed there |
| `ShareBounds.RunSharesBoundedIff` | extra-elements/dyssect/elements/dyssectcontroller.cc:712-727 | In every such state, with any marks and any traffic, listed shares are non-negative, and all stored `cdf` lie in [0, 1] if and only if, by the trace alone, the flows hit in the last ended epoch carried no more bytes into it than the wrapped counter of the epoch before shows, or that counter is 0 |
| `ShareBounds.RunSharesBounded` | extra-elements/dyssect/elements/dyssectcontroller.cc:712-727 | It is enough that in the listed epoch no marked packet of a flow came before its first unmarked one and that the byte counter of the epoch before did not overflow |
| `ShareBounds.BoundedIff` | extra-elements/dyssect/elements/dyssectworkingcore.cc:96-105 | For any list left by an epoch step: every running sum lies in [0, 1] if and only if the carried bytes fit the wrapped byte count, or that is 0 |
| `ShareBounds.BoundedByBytesIff` | extra-elements/dyssect/elements/dyssectworkingcore.cc:96-105 | When marks are a property of the flow: if and only if the bytes that the listed flows sent in the divided epoch fit its count modulo 2^32, or that is 0 |
| `ShareBounds.CarriedInOrder` | extra-elements/dyssect/elements/dyssectworkingcore.cc:92-105 | A flow whose first packet of an epoch was unmarked carries no more into it than it sent in the epoch before |
| `ShareBounds.BytesConserved` | extra-elements/dyssect/elements/dyssectworkingcore.cc:136-142 | Distinct flows never account for more bytes than the packets of the epoch carried |
| `Accounting.InvArrive` | extra-elements/dyssect/elements/dyssectworkingcore.cc:60-149 | One `extract_state`, marked or not, keeps the whole invariant: roll-over, hit recording, new flows and counters all agree with the trace extended by the packet |
| `Accounting.InvTick` | extra-elements/dyssect/elements/dyssectcontroller.cc:751-777 | One epoch step, whatever the marks, keeps the whole invariant: what was hit is now listed with its share and running sum, and a fresh epoch starts |
| `Accounting.AccountsHit` | extra-elements/dyssect/elements/dyssectworkingcore.cc:92-105 | A packet of a known flow: the first unmarked one of an epoch fixes the share (the bytes since the last roll-over divided by the count of the epoch before if that roll-over was in it, else 0) and restarts the byte count; every other one is only counted |
| `Accounting.AccountsNew` | extra-elements/dyssect/elements/dyssectworkingcore.cc:120-134 | The packet that makes a flow known starts its byte count, with share 0 |
| `Accounting.NeverListedTick` | extra-elements/dyssect/elements/dyssectworkingcore.cc:120-134 | A flow that no finished epoch has hit keeps the running sum 0 it was allocated with |
| `Accounting.PacketInFigures` | extra-elements/dyssect/elements/dyssectworkingcore.cc:86-142 | One packet, field by field: which buffer and table change, the counters modulo 2^32, a zeroed record for a new flow, and for a known one with an unmarked first packet of the epoch the share whose product with the old byte count is the bytes counted so far, or 0 |
| `Accounting.SumSince` | extra-elements/dyssect/elements/dyssectworkingcore.cc:151-167 | The running sum that `run` compares is that of the last list the flow was on, however many epochs ago, along any run |
| `ShareBounds.MixedMarksBreakShare` | extra-elements/dyssect/elements/dyssectworkingcore.cc:92-105 | Marks can break the bound: a run of three 100-byte packets of one flow, one of them marked, ends with a listed share of 2 |
| `ShareBounds.WrapBreaksShare` | extra-elements/dyssect/elements/dyssectworkingcore.cc:99-102 | Overflow can break it too: a run from the empty shard with unmarked packets of 65535 bytes, 65538 of them in the first epoch, ends with a listed share above 65000 |
| `Shards.FlowRecord.Roll` | extra-elements/dyssect/elements/dyssectworkingcore.cc:94-105 | The in-place roll-over of a flow record is the roll-over on its value: in a new epoch the bytes restart and the share is bytes over old bytes if the record is one epoch old and there were any, else 0 |
| `Shards.ShardInfo.ExtractState` | extra-elements/dyssect/elements/dyssectworkingcore.cc:60-149 | `extract_state` on table, buffers and counters performs exactly the packet step on the value of the shard, and returns the record the table keeps for the flow |
| `Shards.ShardInfo.Hit` | extra-elements/dyssect/elements/dyssectworkingcore.cc:86-118 | The known-flow branch: an unmarked packet rolls the flow over and enters its record in the buffer in use; a marked one changes nothing |
| `Shards.ShardInfo.Create` | extra-elements/dyssect/elements/dyssectworkingcore.cc:120-134 | The new-flow branch: a zeroed record with the current epoch enters the table and neither buffer |
| `Shards.ShardInfo.CountPacket` | extra-elements/dyssect/elements/dyssectworkingcore.cc:136-142 | The packet length is added to the record and to the 32-bit shard counters |
| `Shards.ShardInfo.Swap` | extra-elements/dyssect/elements/dyssectcontroller.cc:640-662 | Swapping exchanges the buffers and moves the counters to their old fields |
| `Shards.ShardInfo.TakeShares` | extra-elements/dyssect/elements/dyssectcontroller.cc:712-717 | The walk over the buffer fixes `prob2` of exactly the flows in it and collects each of them once, in whatever order the map is walked |
| `Shards.SortByShare` | extra-elements/dyssect/elements/dyssectcontroller.cc:720 | What is used of `std::sort` with `sortByVal`: a permutation in descending order of `prob2` |
| `Shards.StoreSums` | extra-elements/dyssect/elements/dyssectcontroller.cc:722-727 | The stored `cdf` of every listed record is the sum of the shares up to it |
| `Shards.ShardInfo.OrderFlows` | extra-elements/dyssect/elements/dyssectcontroller.cc:689-729 | `order_shards` on one shard performs the order step on its value: exactly the buffered flows, each once, descending, with share and running sum |
| `Shards.ShardInfo.Clear` | extra-elements/dyssect/elements/dyssectcontroller.cc:731-749 | `clear_flows` empties the buffer that is not in use and nothing else |
| `Epochs.Controller.constructor` | extra-elements/dyssect/elements/dyssectcontroller.cc:230-274 | All shards start empty |
| `Epochs.Controller.SwapShards` | extra-elements/dyssect/elements/dyssectcontroller.cc:640-662 | All shards are swapped; `total_packets` and `total_bytes` become the sums of the ended epoch modulo 2^32 |
| `Epochs.Controller.OrderShards` | extra-elements/dyssect/elements/dyssectcontroller.cc:689-729 | Every shard makes its order step; no shard disturbs another although records are updated in place |
| `Epochs.Controller.ClearFlows` | extra-elements/dyssect/elements/dyssectcontroller.cc:731-749 | Every shard loses the buffer that was listed, and nothing else changes |
| `Epochs.Controller.UpdateShortEpoch` | extra-elements/dyssect/elements/dyssectcontroller.cc:751-777 | Swap, epoch increment, order and clear together are one epoch step of the whole system |
| `Epochs.Controller.ProcessPacket` | extra-elements/dyssect/elements/dyssectworkingcore.cc:60-149 | A packet changes the shard of its flow by the packet step, and no other shard |
| `Epochs.ShardsRefineTraces` | extra-elements/dyssect/elements/dyssectworkingcore.cc:80-142 | In every state of every run of the whole system, with any marks, every shard refines the trace of its own packets, and all shards are in the same epoch |
| `Epochs.TotalsOfEpoch` | extra-elements/dyssect/elements/dyssectcontroller.cc:649-661 | After any run the shard counters add up to the calls of `extract_state` of the running epoch and to their bytes; `total_packets` and `total_bytes` are those of the epoch before; all modulo 2^32 |
| `Epochs.Controller.RoundShards` | extra-elements/dyssect/elements/dyssectcontroller.cc:399-422 | Every ratio is replaced by its rounded value, and nothing else changes |
| `Epochs.Controller.NotifyOwners` | extra-elements/dyssect/elements/dyssectcontroller.cc:424-431 | A working core is told exactly if it was or if it owns a shard whose ratio in force and wanted ratio are apart: on non-negative ratios, one of them is below the other times 0.9999999999 |
| `Epochs.Controller.UpdateRatio` | extra-elements/dyssect/elements/dyssectcontroller.cc:399-433 | `update_ratio` as a whole: all ratios rounded, exactly the owners of shards told whose rounded ratio and ratio in force are apart by that figure, and the result says whether there is such a shard |
| `Offload.LessThanIff` | extra-elements/dyssect/elements/dyssectworkingcore.cc:18-21 | On non-negative values `is_less_than(a, b)` is a < b (1 - EPSILON) |
| `Offload.EqualIff` | extra-elements/dyssect/elements/dyssectcontroller.cc:49-52 | On non-negative values `is_equal_than(a, b)` holds if and only if each is at least the other times 0.9999999999 |
| `Offload.EqualZeroIff` | extra-elements/dyssect/elements/dyssectcontroller.cc:49-52 | `is_equal_than(a, 0)` holds for 0 only |
| `Offload.Collector.Run` | extra-elements/dyssect/elements/dyssectworkingcore.cc:151-167 | `run` does the accounting of the packet and, on non-negative figures, diverts it exactly if the record of its flow is unmarked and its running sum is below 0.9999999999 times the ratio in force; a diverted packet is the last one collected |
| `Offload.ReachableListsRise` | extra-elements/dyssect/elements/dyssectcontroller.cc:720-727 | The lists of every reachable state, with any marks, have non-negative descending shares and stored running sums |
| `Offload.ListsUnmarked` | extra-elements/dyssect/elements/dyssectworkingcore.cc:92-118 | When marks are a property of the flow, no listed record carries a priority mark |
| `Offload.DivertedIsPrefix` | extra-elements/dyssect/elements/dyssectworkingcore.cc:151-167 | The listed flows that are diverted are exactly the maximal prefix with cdf < r (1 - EPSILON), less its priority flows; no flow without priority that is kept is heavier than one that is diverted; the diverted share is that of the prefix less its priority flows, and below r |
| `Offload.NewFlowsDivert` | extra-elements/dyssect/elements/dyssectworkingcore.cc:153-163 | A flow that was never listed is diverted if and only if it is unmarked and any offloading is wanted |
| `Offload.Search` | extra-elements/dyssect/elements/dyssectcontroller.cc:407-421 | The loop finds the first flow whose running sum reaches the wanted ratio, and that sum |
| `Offload.RoundedRatio` | extra-elements/dyssect/elements/dyssectcontroller.cc:405-422 | The rounding of one ratio: up to the running sum plus EPSILON if that is below 1.5 times the ratio, else unchanged |
| `Offload.RoundedIs` | extra-elements/dyssect/elements/dyssectcontroller.cc:405-422 | The rounded ratio in figures: with k the first flow of the list at which the sum of shares reaches the ratio, it is that sum plus 10^-10 if the sum is below 1.5 times the ratio, else, or if there is no such flow, the ratio itself |
| `Offload.RoundedBounds` | extra-elements/dyssect/elements/dyssectcontroller.cc:405-422 | The rounded ratio r' satisfies r <= r' < 1.5 r + EPSILON |
| `Offload.ReachesIff` | extra-elements/dyssect/elements/dyssectcontroller.cc:399-422 | On the list in use, whatever list the ratio was rounded to: the diverted share reaches the requested ratio if and only if some flow of the list is below the ratio in force and the flows up to it, less priority flows, have that share |
| `Offload.RoundingReachesIff` | extra-elements/dyssect/elements/dyssectcontroller.cc:413-418 | On the very list that the ratio was rounded up to, at flow k: flow k is diverted if and only if it has no priority and cdf[k] + EPSILON < 1; without priority flows on the list the request is met under the same condition |
| `Offload.RequestMissed` | extra-elements/dyssect/elements/dyssectcontroller.cc:751-777 | The list is replaced in the same step: a run in which a request of 0.4 is rounded to 0.5, which the old list would meet, and the new list diverts nothing |
| `Assignment.SameShardIff` | extra-elements/dyssect/elements/dyssectworkingcore.cc:80 | Indexing the table by hash modulo its size agrees with `hash % total_shards` for every hash if and only if the number of shards divides the size of the table |
| `Assignment.Table.constructor` | extra-elements/dyssect/elements/dyssectcontroller.cc:191-224 | The strided set-up gives every shard s the core s % W, in the matrix and in every table entry of s |
| `Assignment.Table.FillShard` | extra-elements/dyssect/elements/dyssectcontroller.cc:199-202 | The strided loop writes exactly the entries whose index is congruent to the shard |
| `Assignment.Table.Steering` | extra-elements/dyssect/elements/dyssectcontroller.cc:191-204 | When the agreement holds, the queue nic[h % size] of hash h is a working core and the unique core i with A[h % total_shards][i] = 1 |
| `Assignment.Table.UpdateReta` | extra-elements/dyssect/elements/dyssectcontroller.cc:498-532 | For any one-hot answer the table ends up agreeing with the new matrix, also when nothing moved and the NIC is not reloaded; the count it prints is the number of shards whose rows differ |
| `Assignment.Table.UpdateEntries` | extra-elements/dyssect/elements/dyssectcontroller.cc:501-523 | The nested loops point every entry at its new core and count exactly the differing cells |
| `ShortSolver.Objective` | extra-elements/dyssect/solver.cpp:444-470 | The objective is the number of differing cells of A and O |
| `ShortSolver.AssignmentIsOneHot` | extra-elements/dyssect/solver.cpp:529-560 | The constraints on A force exactly one working core per shard |
| `ShortSolver.OffloadingIsOneHot` | extra-elements/dyssect/solver.cpp:472-527 | The constraints on O force exactly one offloading core per working core if there are any, and blank columns elsewhere |
| `ShortSolver.CoresWithShards` | extra-elements/dyssect/solver.cpp:540-573 | The working cores are exactly the cores with shards, and no core has more shards than one before it |
| `ShortSolver.OffloadersServe` | extra-elements/dyssect/solver.cpp:516-526 | Every offloading core serves a working core |
| `ShortSolver.ObjectiveCountsMoves` | extra-elements/dyssect/solver.cpp:444-538 | Between feasible configurations the objective is twice the number of shards whose row of A changes plus working cores whose column of O changes |
| `ShortSolver.CostOfShards` | extra-elements/dyssect/elements/dyssectcontroller.cc:500-529 | The A part is twice the number of moved shards, so halving `transfers` is exact |
| `ShortSolver.CostZero` | extra-elements/dyssect/elements/dyssectcontroller.cc:525-527 | The count is zero if and only if nothing moved |
| `ShortSolver.LoadConserved` | extra-elements/dyssect/solver.cpp:575-587 | Every feasible point spreads exactly the given volume over the cores, for all ratios and sizes, so the volume is at most 1.8 W |
| `ShortSolver.RatioSplitsLoad` | extra-elements/dyssect/solver.cpp:575-587 | If all shards have the ratio c, a core offloads c times the volume of its shards and keeps 1 - c times it |
| `ShortSolver.WholeShards` | extra-elements/dyssect/solver.cpp:575-587 | Shard by shard: a core keeps exactly the volume of its shards of ratio 0 and offloads exactly that of its shards of ratio 1 |
| `ShortSolver.DeadlineCapsLoad` | extra-elements/dyssect/solver.cpp:589-592 | A load meets the waiting-time constraint of a working core, with some value of the auxiliary variable, if and only if it is in [0, 0.9] and load (k + SLO) is at most SLO |
| `Device.Fabric.Drain` | extra-elements/dyssect/elements/dyssectworkingcore.cc:276-282 | Emptying one ring into another burst by burst moves what fits of it, in order, whatever the burst |
| `Device.PutPut` | extra-elements/dyssect/elements/dyssectworkingcore.cc:271 | Entering two bursts one after the other is entering them at once |
| `Device.PutConserves` | extra-elements/dyssect/elements/dyssectworkingcore.cc:422-426 | Entering a burst on a bounded ring neither loses nor doubles a packet: what does not fit is refused |
| `Device.SplitConserves` | extra-elements/dyssect/elements/dyssectworkingcore.cc:416-427 | Classifying a batch sends every packet either out or to the offload ring, once |
| `Device.PickedInOrder` | extra-elements/dyssect/elements/dyssectworkingcore.cc:207-221 | What is picked from a burst stands in it at strictly increasing places, and these are exactly the places of the packets to be picked |
| `Device.DrainedConserves` | extra-elements/dyssect/elements/dyssectworkingcore.cc:310-316 | Draining a ring neither loses nor doubles a packet |
| `Cores.Shared.Settle` | extra-elements/dyssect/elements/dyssectworkingcore.cc:341-355 | The scan over the shards when the private ring has run empty: which shards are released, which are taken, which cores are told |
| `Cores.Shared.ReleaseAll` | extra-elements/dyssect/elements/dyssectworkingcore.cc:287-298 | The scan at the end of `transfer_shard`: which shards are released and which cores are told |
| `Cores.Shared.TakeRatios` | extra-elements/dyssect/elements/dyssectworkingcore.cc:242-248 | Exactly the shards owned by the core get their new ratio |
| `Cores.Shared.FindAwaited` | extra-elements/dyssect/elements/dyssectworkingcore.cc:173-190 | The scan of `process` finds whether a released shard is meant for this core |
| `Cores.WorkingCore.constructor` | extra-elements/dyssect/elements/dyssectworkingcore.cc:43-48 | A working core starts with the rings the shared arrays name for it |
| `Cores.WorkingCore.TransferR` | extra-elements/dyssect/elements/dyssectworkingcore.cc:226-251 | `transfer_r` performs its step on rings, shared arrays and ratios |
| `Cores.WorkingCore.TransferOffloading` | extra-elements/dyssect/elements/dyssectworkingcore.cc:303-327 | `transfer_offloading` performs its step |
| `Cores.WorkingCore.DrainNic` | extra-elements/dyssect/elements/dyssectworkingcore.cc:259-274 | The drain loop with its 32-bit counter terminates and takes the first 256 packets of a longer queue if bursts divide 256, and the whole queue otherwise |
| `Cores.WorkingCore.TransferShard` | extra-elements/dyssect/elements/dyssectworkingcore.cc:253-301 | `transfer_shard` performs its step |
| `Cores.WorkingCore.HandleChanges` | extra-elements/dyssect/elements/dyssectworkingcore.cc:173-193 | The first part of `process` performs its step |
| `Cores.WorkingCore.ProcessBatch` | extra-elements/dyssect/elements/dyssectworkingcore.cc:199-223 | Receiving, classifying and queueing a batch: the packets that leave and those that enter the offload ring stand in the burst at strictly increasing places, exactly those of the packets that are not diverted and that are; the ring takes as many as fit in 4095, the rest is refused |
| `Cores.WorkingCore.RunTask` | extra-elements/dyssect/elements/dyssectworkingcore.cc:329-434 | `run_task` of a working core performs exactly the step of the protocol, branch by branch; what the step does is told by the rows of `Tasks` |
| `Cores.OffloadingCore.Remove` | extra-elements/dyssect/elements/dyssectoffloadingcore.cc:56 | Erase-remove: what is left stands in the list at strictly increasing places, exactly those of the other rings |
| `Cores.OffloadingCore.Choose` | extra-elements/dyssect/elements/dyssectoffloadingcore.cc:13-16 | `choose` picks by the poll counter modulo the number of rings and advances the 32-bit counter |
| `Cores.OffloadingCore.RunTask` | extra-elements/dyssect/elements/dyssectoffloadingcore.cc:51-98 | `run_task` of an offloading core performs exactly the step of the protocol, told by `Tasks.OffloadTask` and `Tasks.Polled` |
| `Cores.ServedCounts` | extra-elements/dyssect/elements/dyssectoffloadingcore.cc:54-57 | After the removals a ring is served as often as before, or not at all if it was to be dropped |
| `Polling.DistinctIff` | extra-elements/dyssect/elements/dyssectoffloadingcore.cc:13-16 | From counter c on, n polls in a row pick different places of a list of n if and only if the 32-bit counter does not wrap between them or n divides 2^32 |
| `Polling.AlwaysDistinctIff` | extra-elements/dyssect/elements/dyssectoffloadingcore.cc:13-16 | So it is for every value of the counter if and only if n divides 2^32 |
| `Polling.PollsDistinctIff` | extra-elements/dyssect/elements/dyssectoffloadingcore.cc:51-98 | In any stretch of any run in which the list of an offloading core stays the same and the core polls as often as the list is long, whatever happens in between: no place is polled twice under exactly that condition |
| `Polling.PollsEachOnce` | extra-elements/dyssect/elements/dyssectoffloadingcore.cc:51-98 | Under it every place is polled once, and a burst of the ring at that place is emitted |
| `Handover.AfterTransferR` | extra-elements/dyssect/elements/dyssectworkingcore.cc:226-251 | The step of `transfer_r` keeps all indices in range, the core its own two rings, and the shared arrays in agreement with it |
| `Handover.AfterTransferOff` | extra-elements/dyssect/elements/dyssectworkingcore.cc:303-327 | The same for `transfer_offloading` |
| `Handover.AfterTransferShard` | extra-elements/dyssect/elements/dyssectworkingcore.cc:253-301 | The same for `transfer_shard` |
| `Handover.AfterWork` | extra-elements/dyssect/elements/dyssectworkingcore.cc:329-434 | The same for a whole run of the task |
| `Handover.AfterOffload` | extra-elements/dyssect/elements/dyssectoffloadingcore.cc:51-98 | The step of an offloading core polls existing rings only and keeps its counter in 32 bits |
| `Tasks.PrivateTask` | extra-elements/dyssect/elements/dyssectworkingcore.cc:361-397 | A task on a private ring that is not empty emits its first packets, as many as a burst or all, in order, and changes nothing else |
| `Tasks.RanEmpty` | extra-elements/dyssect/elements/dyssectworkingcore.cc:335-356 | A task that finds the private ring empty lets its paused shards with a target go, takes every free shard meant for it, tells exactly the targets of those it let go, and clears `myown` |
| `Tasks.QuietTask` | extra-elements/dyssect/elements/dyssectworkingcore.cc:199-223 | A task with nothing to answer takes a burst: in receive order, exactly the packets that are not diverted leave and the diverted ones enter the offload ring as far as there is room for 4095 |
| `Tasks.ChangesHandled` | extra-elements/dyssect/elements/dyssectworkingcore.cc:173-193 | `myown` is cleared if and only if the core was told of changes and some released shard is meant for it, and stays set otherwise; the flag of the core is cleared, nothing else changes |
| `Tasks.ExchangeTells` | extra-elements/dyssect/elements/dyssectworkingcore.cc:226-240 | `transfer_r` with packets in the offload ring: the two rings change places, the offloading core is told to drop the one and add the other, and the private ring is served first |
| `Tasks.NoExchange` | extra-elements/dyssect/elements/dyssectworkingcore.cc:226-251 | `transfer_r` with an empty offload ring changes only the ratios and the flag |
| `Tasks.OffTells` | extra-elements/dyssect/elements/dyssectworkingcore.cc:303-327 | `transfer_offloading`: the old offloading core, if any, is told to drop the offload ring and the new one, if any, to add it, each as far as its list has room; the new one is remembered and its slot emptied |
| `Tasks.OffMoves` | extra-elements/dyssect/elements/dyssectworkingcore.cc:310-316 | It moves the packets of the offload ring, in order, behind those of the private ring as far as there is room for 4095, and sets `myown` if there were any |
| `Tasks.ShardTells` | extra-elements/dyssect/elements/dyssectworkingcore.cc:256-285 | `transfer_shard` lets its own offloading core, if any, drop the offload ring and add it again |
| `Tasks.LetGo` | extra-elements/dyssect/elements/dyssectworkingcore.cc:287-301 | At its end a core with nothing of its own left lets exactly its shards with a target go and tells exactly their targets; any other core leaves all shards and flags alone |
| `Tasks.SignalAnswered` | extra-elements/dyssect/elements/dyssectworkingcore.cc:399-414 | A signalled task clears all four flags of the core, and no flag of another |
| `Tasks.SwitchAfterExchange` | extra-elements/dyssect/elements/dyssectworkingcore.cc:399-414 | With several flags set the ratios come first: the new offloading core is told of the ring that was private till then, and told again if shards are to be let go |
| `Tasks.OffloadTask` | extra-elements/dyssect/elements/dyssectoffloadingcore.cc:51-62 | An offloading core ends up with the rings it was not told to drop, in their order, followed by those it was told to add, and both lists are emptied |
| `Tasks.Polled` | extra-elements/dyssect/elements/dyssectoffloadingcore.cc:64-98 | It then emits, in order, a burst of the ring at its counter modulo the number of rings, and the counter advances modulo 2^32; with no ring it does nothing |
| `Safety.WorkKeeps` | extra-elements/dyssect/elements/dyssectworkingcore.cc:329-434 | One run of a working core loses and doubles no packet and touches no other core's rings or queue |
| `Safety.InvStep` | extra-elements/dyssect/elements/dyssectworkingcore.cc:361-425 | Every step of every kind keeps the invariant of the system |
| `Safety.InvInitial` | extra-elements/dyssect/elements/dyssectcontroller.cc:191-305 | The initial state, with shards dealt s % W in `owner` and in A, all targets 0 and rings dealt round robin, satisfies the invariant |
| `Safety.RunInv` | extra-elements/dyssect/elements/dyssectcontroller.cc:230-305 | Every state of every run satisfies the invariant: `owner` is a working core, targets are working cores or none, all ring lists name existing rings |
| `Safety.PacketsConserved` | extra-elements/dyssect/elements/dyssectworkingcore.cc:226-425 | In every state of every run each packet that entered a receive queue is in exactly one of: receive queue, some `q`, some `myring`, emitted by a working core, emitted by an offloading core, refused |
| `Safety.RingsDistinct` | extra-elements/dyssect/elements/dyssectworkingcore.cc:233-237 | The 2W rings stay pairwise distinct and `queues[w]`/`rings[w]` name the rings core w uses, through every exchange |
| `Extraction.ExtractedExactly` | extra-elements/dyssect/elements/dyssectworkingcore.cc:151-167 | In every state of every run a packet has met `extract_state` exactly as often as a working core has emitted it plus as often as it was diverted, and neither is more often than it entered |
| `Extraction.CountedTwiceIff` | extra-elements/dyssect/elements/dyssectworkingcore.cc:361-400 | A packet that entered once is counted twice if and only if it was diverted and yet emitted by a working core; when it is in no queue any more it was never counted if and only if it was not diverted and left through an offloading core or was refused |
| `PacketRuns.CountedTwice` | extra-elements/dyssect/elements/dyssectworkingcore.cc:276-282 | A run of six steps from the initial state after which a packet that entered once has met `extract_state` twice |
| `PacketRuns.NeverCounted` | extra-elements/dyssect/elements/dyssectworkingcore.cc:171-193 | A run of eleven steps after which a packet has left through the offloading core without ever having met it: the task that drains the packet into its private ring also clears `myown` |
| `PacketRuns.Overtaken` | extra-elements/dyssect/elements/dyssectworkingcore.cc:171-223 | A run in which a packet is emitted while an earlier one of the same receive queue is still in the private ring |
| `ServedRuns.ServedByBoth` | extra-elements/dyssect/elements/dyssectoffloadingcore.cc:54-62 | A run, with the changes that the matrices ask for, after which two offloading cores poll the offload ring of a core, and one of them its private ring too |
| `ServedRuns.ServedByNone` | extra-elements/dyssect/elements/dyssectcontroller.cc:435-478 | A run, with the changes that the matrices ask for, after which the offload ring of a core is polled by none and is about to be added by none |
| `Safety.SolverAnswersOk` | extra-elements/dyssect/solver.cpp:529-560 | Every feasible answer of the solver is one the protocol's steps allow |
| `Migration.RequestStep` | extra-elements/dyssect/elements/dyssectcontroller.cc:480-495 | A request puts the shard into the first phase of the handover and signals its owner |
| `Migration.OwnRequest` | extra-elements/dyssect/elements/dyssectcontroller.cc:480-495 | A shard requested for the core that owns it already keeps its owner, target, pause and ratio |
| `Migration.DecisionTells` | extra-elements/dyssect/elements/dyssectcontroller.cc:535-569 | A decision raises flags for exactly these cores: to hand shards over, the owners of shards that the new matrix newly gives to another core; to take ratios, those it names; to look at all, every core or none |
| `Migration.WorkControls` | extra-elements/dyssect/elements/dyssectworkingcore.cc:276-355 | A task changes the control of a shard only by releasing it when drained, or by taking it; a release tells the new owner |
| `Migration.HandoverStep` | extra-elements/dyssect/elements/dyssectworkingcore.cc:287-355 | With no new request, a step moves a handover on by at most one phase, and only the right core in the right condition does |
| `Migration.HandoverRun` | extra-elements/dyssect/elements/dyssectcontroller.cc:535-569 | From a request on, along any run with no further request for the shard, every state is in one of the three phases and every step proceeds as above |
| `Migration.OwnerChangesOnce` | extra-elements/dyssect/elements/dyssectworkingcore.cc:337-355 | Along such a run the owner stays o until o itself, drained, has released the shard and told w in the same step; after that it changes at most once, in a task of w, only to w, and stays w |
| `Migration.OwnerChangesIff` | extra-elements/dyssect/elements/dyssectworkingcore.cc:350-354 | In any step an owner changes if and only if a core whose private ring has run empty finds a shard of another core unpaused and meant for it, and that core is the new owner |
| `Migration.ColumnLostIff` | extra-elements/dyssect/elements/dyssectworkingcore.cc:350-354 | A step parts the owner of a shard from its column of A if and only if it is such a take-over or a decision that requests the shard |
| `Migration.InColumnIff` | extra-elements/dyssect/elements/dyssectcontroller.cc:191-274 | In any state of any run the owner of a shard is its column of A if and only if every earlier step that parted them (a take-over by a core that is not the column, a decision that moves the column from the owner) is followed by one that joins them |
| `StaleOwner.OwnerLeavesColumn` | extra-elements/dyssect/elements/dyssectcontroller.cc:230-305 | The owner need not be the column of A, even of a shard never requested: a run of five steps from the initial state, with two cores and four shards, after which core 0 owns shard 3, whose column has been core 1 all along |
| `Migration.RatioChangesIff` | extra-elements/dyssect/elements/dyssectworkingcore.cc:242-250 | The ratio of a shard changes exactly in a signalled task of its owner, to the ratio last wanted |
| `Migration.WantedChangesIff` | extra-elements/dyssect/elements/dyssectcontroller.cc:626-629 | After a decision every shard has the ratio of the answer as its wanted ratio; no other step changes it |
| `Migration.RatioInForce` | extra-elements/dyssect/elements/dyssectworkingcore.cc:242-250 | In every state of every run the wanted ratio of a shard is that of the last decision, and the ratio in force is the one that was wanted when its owner last answered the signal |
| `Migration.TransferShardMoves` | extra-elements/dyssect/elements/dyssectworkingcore.cc:253-285 | With ring room the private ring becomes its old contents, the taken prefix of the receive queue, then the offload ring, which is emptied; the prefix is 256 packets if there are more and bursts divide 256, else the whole queue; `myown` is set if and only if it was or anything moved |
| `Rebalance.Controller.MigrationShard` | extra-elements/dyssect/elements/dyssectcontroller.cc:480-495 | The two forms of `migration_shard`: request, and signal to the owner; nothing if the core owns the shard already |
| `Rebalance.Controller.UpdateShards` | extra-elements/dyssect/elements/dyssectcontroller.cc:535-569 | `update_shards`: exactly the moved shards are requested, exactly their owners signalled, and matrix, software table and NIC table agree again |
| `Rebalance.Controller.TakeRatios` | extra-elements/dyssect/elements/dyssectcontroller.cc:424-431 | Every shard gets the wanted ratio of the answer, element by element, and exactly the owners of shards are told whose ratio in force and wanted ratio are apart: on non-negative ratios, one below the other times 0.9999999999 |
| `Rebalance.Controller.UpdateRelationship` | extra-elements/dyssect/elements/dyssectcontroller.cc:435-478 | `update_relationship` makes exactly the changes that follow from the two matrices, in the order of its loops, and all of them are of existing working and offloading cores; it reports a change if and only if the matrices differ |
| `Rebalance.LinksAre` | extra-elements/dyssect/elements/dyssectcontroller.cc:443-470 | A working core is told to switch to an offloading core if and only if the new matrix adds that pair and it started with another one; a ring is to be dropped if and only if the new matrix removes the pair |
| `Rebalance.SwitchInFigures` | extra-elements/dyssect/elements/dyssectcontroller.cc:443-478 | A working core to which the new matrix gives another offloading core than the one it started with is told to go there; a core on which the matrices agree is not concerned |
| `Rebalance.StopTells` | extra-elements/dyssect/elements/dyssectcontroller.cc:443-478 | The list of an offloading core, if it has room, grows by the rings of exactly the working cores it is to stop serving |
| `Rebalance.Controller.Apply` | extra-elements/dyssect/elements/dyssectcontroller.cc:755-772 | Acting on an answer is one controller step of the protocol: the wanted ratios are those of the answer element by element, owners and ratios in force stay, exactly the owners of shards whose two ratios are apart by the figure above are told, the links are those of the matrices, all cores are signalled if and only if a ratio, a link matrix or the assignment changes; matrices, table and shared arrays match again for the next one |
| `Safety.ControlKeeps` | extra-elements/dyssect/elements/dyssectcontroller.cc:435-569 | Acting on an answer keeps all shared indices in range |
| `Ids.Attempt` | extra-elements/dyssect/elements/dyids.cc:12-87 | One pass of the goto machine from `first_group`: rejects only at the NUL, accepts only with a signature, and otherwise restarts one byte later having ruled out a signature at its start |
| `Ids.SeekTail` | extra-elements/dyssect/elements/dyids.cc:64-84 | The loop of yy10 and yy13 with its remembered restart point finds whether the closing byte occurs before the NUL |
| `Ids.Lex` | extra-elements/dyssect/elements/dyids.cc:10-88 | `lex` returns 1 if and only if 0x01 0x03 followed later by 0x0b stands before the first NUL; it terminates, reads nothing beyond the NUL, and makes at most (n+1)(n+2)/2 reads |
| `Ids.SignatureAtFirstPair` | extra-elements/dyssect/elements/dyids.cc:10-88 | Only the first 0x01 0x03 pair matters |
| `Ids.IdsState.Update` | extra-elements/dyssect/elements/dyids.cc:103-120 | If 0x01 0x03 followed later by 0x0b stands before the first NUL of the scanned bytes, the hits grow by the sequence number and the misses stay; otherwise the other way round |
| `Ids.LogsAppend` | extra-elements/dyssect/elements/dyids.cc:114-117 | Writing at the counter's slot keeps a circular log, also when the 32-bit counter wraps |
| `Ids.CounterNamesSlot` | extra-elements/dyssect/elements/dyids.hh:11-18 | The wrapped counter still names the right slot, because 1024 divides 2^32 |
| `Ids.ReadBack` | extra-elements/dyssect/elements/dyids.hh:11-18 | The array read from the counter on holds exactly the 1024 most recent sequence numbers, oldest first |
| `Ids.ReadBackShort` | extra-elements/dyssect/elements/dyids.hh:11-18 | Before it first wraps the array holds the whole log |
| `Ids.LoggedOnce` | extra-elements/dyssect/elements/dyids.cc:112-118 | Every packet ends up in exactly one of the two logs |
| `Ids.LoggedInOrder` | extra-elements/dyssect/elements/dyids.cc:112-118 | What any packets add to one of the logs stands among them at strictly increasing places, exactly those of the packets with, or without, the signature |
| `Ids.DyIds.SimpleAction` | extra-elements/dyssect/elements/dyids.cc:122-141 | The first packet of a flow creates empty logs; every packet is entered in the hits if its scanned bytes hold the signature and in the misses if not, and only there |
| `Ids.DyIds.PushBatch` | extra-elements/dyssect/elements/dyids.cc:143-158 | The hits grow by the sequence numbers of the batch at strictly increasing places, exactly those of the packets that hold the signature, and the misses by those of the others |
| `Napt.FirstFreeIsNearest` | extra-elements/dyssect/elements/dynapt.cc:60-67 | Of the free ports the one found is the fewest steps up from the start, wrapping round after 65534 |
| `Napt.FailsOnlyWhenFull` | extra-elements/dyssect/elements/dynapt.cc:56-70 | A call fails if and only if the address has no free port, whatever the random start, 16-bit wrap included |
| `Napt.GrantsWhatIsFree` | extra-elements/dyssect/elements/dynapt.cc:56-70 | Over any run an address with k free ports grants the first k calls on it and refuses every later one |
| `Napt.NeverTwice` | extra-elements/dyssect/elements/dynapt.cc:56-70 | No (address, port) pair is handed out twice over any run |
| `Napt.GrantsAllPorts` | extra-elements/dyssect/elements/dynapt.hh:25 | From start-up exactly 65535 calls per address succeed |
| `Napt.DyNapt.constructor` | extra-elements/dyssect/elements/dynapt.cc:43-51 | Every port of every address starts free |
| `Napt.DyNapt.GetEndpoint` | extra-elements/dyssect/elements/dynapt.cc:56-70 | On success the port is ((1 + random) mod 65536 + i) mod 65535 for some i below 65535, it was free and no free port is fewer steps up from the start; exactly its bit is cleared. On failure every port was taken and nothing changes |
| `UdpFlows.RoundRobinIff` | extra-elements/generator/fastudpflows.cc:126-131 | The sequential schedule is plain round robin by bursts for all time if and only if the number of flows divides 2^32 |
| `UdpFlows.SentFair` | extra-elements/generator/fastudpflows.cc:126-131 | In any history of the sequential mode, until the burst number wraps or always if the number of flows divides 2^32, no flow has been sent more than one burst ahead of another |
| `UdpFlows.SentFairIff` | extra-elements/generator/fastudpflows.cc:126-131 | All histories are fair in this sense if and only if the number of flows divides 2^32 |
| `UdpFlows.SentIsTotal` | extra-elements/generator/fastudpflows.cc:126-131 | What a history has sent of a flow is what the schedule gives that flow among as many packets |
| `UdpFlows.BalancedIff` | extra-elements/generator/fastudpflows.cc:126-131 | The schedule keeps all flows within one burst of each other for all time if and only if the number of flows divides 2^32 |
| `UdpFlows.GenerationIsQuotient` | extra-elements/generator/fastudpflows.cc:133-137 | Before the m-th packet of a flow there have been (m-1)/F port changes |
| `UdpFlows.FlowSizeLimit` | extra-elements/generator/fastudpflows.cc:133-137 | Every port generation of a flow holds exactly F packets before the next one starts, and never more |
| `UdpFlows.FastUdpFlows.ChooseFlow` | extra-elements/generator/fastudpflows.cc:125-131 | The flow chosen is the one of the current burst, or with random flows the one of the draw at the start of a burst |
| `UdpFlows.FastUdpFlows.Emit` | extra-elements/generator/fastudpflows.cc:133-139 | The packet carries the port generation due to its place in its flow, and the per-flow counters stay right |
| `UdpFlows.FastUdpFlows.GetPacket` | extra-elements/generator/fastudpflows.cc:122-140 | The history grows by one packet and stays on schedule: in the sequential mode its flow is the number of packets before, divided by the burst, modulo 2^32, modulo the number of flows; its port generation is the number of earlier packets of the flow divided by the flow size |
| `UdpFlows.FastUdpFlows.Pull` | extra-elements/generator/fastudpflows.cc:263-295 | A packet comes out exactly when the element is active, the limit is not reached and the rate allows it, of the flow that is due; `first` is stamped when the 32-bit count becomes 1, `last` at the limit, and there the driver is stopped if that is wanted |
| `UdpFlows.FastUdpFlows.PullBatch` | extra-elements/generator/fastudpflows.cc:297-304 | Without a rate an active generator with limit L gives out exactly L packets over all batches and nothing afterwards |
| `UdpFlows.FastUdpFlows.Reset` | extra-elements/generator/fastudpflows.cc:306-312 | Counting starts again from zero |

## Left out

- DPDK itself: device set-up, memory pools, the RSS key, statistics handlers.  A receive burst returns as many packets as it can; reloading the NIC table succeeds.
- Click itself: task scheduling, argument parsing, batches as linked lists, message writes.
- Instruction-level interleaving: `ref_count_1`/`ref_count_2`, and packets that arrive inside an epoch step or inside a task.
- The optimiser and `long_solver`, optimality of answers, the FIFOs to the solver process, `volume_shards` and the processing-time constants.
- Rounding of doubles; `EPSILON` is a single-precision literal in the code, 10^-10 here.
- The epoch counter and the 64-bit byte count of a flow are unbounded, so the roll-over test `epoch == local_epoch - 1` does not wrap.
- The all-zero flow, which the hash table reserves as its empty key; the global state array of a flow; `offloaded`.
- Epochs.Controller.UpdateShortEpoch: does not include the solver's answer, which is handled by `Epochs.Controller.UpdateRatio` and `Rebalance.Controller.Apply` and changes neither buffers nor counters.
- Epochs.Controller.UpdateRatio: rounds all ratios first and sets all flags then; in the code both happen in one loop over independent shards.
- Rebalance.Controller.Apply: takes the ratios as already rounded; the rounding is in `Epochs.Controller.UpdateRatio`, on the records that the protocol does not see.
- A working core with the solver option off, which does no accounting; a burst above 128 packets, for which `off_pkts` has no room.
- Offload.Collector.Run: models the decision for one packet with the accounting of its shard; the protocol in `Handover` takes the decision as arbitrary.
- Handover.AfterOffload: says nothing about which offloading core should serve a ring: it can be two or none (`ServedRuns.ServedByBoth`, `ServedRuns.ServedByNone`), and when exactly is not stated.
- Handover.AfterWork: does not model per-shard `local_queue`, to which nothing enqueues, nor accounting inside the task, which is in `Shards`.
- Migration.OwnerChangesOnce: says nothing about eventual completion, nor about runs that request the shard again before the handover is over.
- Extraction.ExtractedExactly: does not tie the calls in the protocol to the traces of `Accounting`; the flow of a packet is not part of the protocol.
- When exactly the order of packets of one queue is kept; `PacketRuns.Overtaken` is a run in which it is not.
- Shards.SortByShare: stands in for `std::sort`, of which only a sorted permutation is used; the order of equal shares is left open.
- Napt.DyNapt.constructor: takes any list of addresses; the 54 literals of the element are not repeated.  Address rewriting and checksums are commented out in the code.
- UdpFlows.FastUdpFlows.GetPacket: counts port changes and does not model header bytes, checksums, the statistics of the random mode, several threads sharing the flows, or a flow number above the range of int.
- Ids.Lex: needs a NUL after the start of the scanned bytes, as the scanner does; where the payload lies in a packet is a parameter.
- The remaining elements (`DyssectQueueOut`, `SourceCounter`), experiment scripts and plots have no logic worth a model.
