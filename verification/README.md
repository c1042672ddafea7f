# lowbit_comm: a verified model of the data path and of the state that rides on it

The model describes `W` ranks, for an arbitrary `W`, that exchange quantized tensors, and the objects each
rank keeps: residuals, workspaces, works, optimizer shards. `dafny verify dfyconfig.toml` checks all of it.

- **Quantized collectives.** `Codec` is the group-wise codec contract and both payload layouts. `Executors` is one
  rank's code over arrays, `Collectives` all ranks at once, with all-to-all as transposition and all-gather as
  concatenation. `FusedKernels` has the compiled sizes and the kernels' guards, `Programs` the full-tensor,
  reduced-shard and all-gather programs on all ranks from end to end, with how each rank ends: it returns, raises, or
  waits in a collective that another rank never enters. `FullTensorRuns` has any number of full-tensor runs in flight
  on one process group, with the eight workers of the completion pool; `FullTensorOverlap` what goes wrong there.
  `LinearCodec` discharges the error bound with the INT8 linear formula over the reals.
- **Schedules.** `Ring`, `Tree` and `Hierarchy` (on `Topology`) run the compiled schedules as machines: FIFO
  channels and free interleaving for the ring, reports in any order for the tree, stages that ranks enter and
  leave one by one for the hierarchy. `ShardPlan` is the shard layout.
- **Error feedback.** `Feedback` has the two classes of the DDP adapter and a ledger over whole runs; `Hook`
  interleaves hook calls, deferred finishes and rebuilds, and `HookLedger` keeps the ledger there. `Qwd` has the three
  weight-difference operations over arrays, the gap between master and model over whole runs, and the refresh policy.
  `Consumer` is the sharded optimizer against one unsharded optimizer.
- **Completion and ownership.** `Workspace` has the pool, lease and work classes; `Ownership` runs them under many
  threads, one lock region a step. `CompressedWork` is the native work object and its machine of atomic steps.
- **Wire protocol.** `Metadata` is the 24-word packet, `DynamicAllGather` and `P2P` are the exchanges built on it.
- **Compilation.** `Compiler` is verification, strategy selection and the choice of executable.

`Sequences` and `Wrappers` hold shared lemmas and datatypes.

## Where the code and what is said of it differ

The model follows the code. In these places a promise fails for some inputs; the members named give such inputs,
say exactly for which inputs it holds, or both.

- A compiled full-tensor program is meant to give the native all-reduce result. The fused kernels decline more than
  eight ranks, empty tensors and any wire but INT8 linear in groups of 64, and then the executable raises on every
  rank and every run. So evidence of a speedup can turn a working automatic program into one that always raises
  (`Compiler.SelectionPreservesMeaningIff`, `Compiler.SpeedupEvidenceCanBreakProgram`;
  `FusedKernels.FullTensorKernelsAcceptIff` and `FusedKernels.ReduceKernelAcceptsIff` for the guards). The refinement
  of the mean itself is proved for every world size.
- Full-tensor runs that overlap on one group are only right if all ranks issue their collectives in one order. The
  second collective of a run is issued by a pool thread, so two runs in flight (two DDP buckets, say) can exchange each
  other's shards or block, on any number of ranks from two. All results are right exactly if all runs have the same
  result anyway (`FullTensorOverlap.OverlapIsRightIff`, `FullTensorOverlap.OverlapMixesRuns`,
  `FullTensorOverlap.OverlapCanGoWrong`), and ranks can come to wait for each other exactly with two ranks and two runs
  or more (`FullTensorOverlap.CanBlockIff`). One run at a time is always right
  (`FullTensorRuns.SerialRunsAreCorrect`).
- An automatic reduced-shard program passes verification and is then rewritten to a full-tensor algorithm
  (`Compiler.EffectiveVerifiesIff`, `Compiler.AutoReducedShardIsRewritten`).
- A sum program runs the mean executable (`Compiler.OperationIsIgnored`, `Compiler.MeanIsSumIff`,
  `Compiler.SumProgramGetsMean`).
- `ShardPlan.logical_range` does not clamp its start (`Shards.PlanRangeAgrees`, `Shards.PlanRangeCanBeInverted`).
- Overlapping transactions on one key lose residuals (`Feedback.CommitConservesIff`, `Feedback.OverlapLosesResidual`),
  and a raising `on_commit` leaves a stored residual behind a failed future (`Hook.FutureAndStore`).
- Rebuilds that overlap can lower the layout generation: they cannot, in whatever order they are applied, exactly if
  all pending ones ask for the same generation (`Hook.CheckedRebuildsNeverLowerIff`,
  `Hook.OverlappingRebuildsCanLowerGeneration`). Even then one of them can discard a residual that a call has already
  picked up and sends (`HookLedger.StoreConservesIff`, `HookLedger.OverlappingRebuildsBreakConservation`).
- A raising `release` lets the completion callback run again (`Workspace.CallbackRunsAgainIff`).
- The native work publishes and notifies without its mutex, so a waiter can sleep forever. A sleeping thread is
  stranded exactly if it fell asleep after the announcement; only threads that arrive while the first one executes can
  be, and each of them can (`CompressedWorks.StrandedIff`, `CompressedWorks.StrandedSawStateOne`,
  `CompressedWorks.SawStateOneCanBeStranded`, `CompressedWorks.WaiterCanBeStranded`). Its query can answer yes while the
  callback runs (`CompressedWorks.QueryIsRightIff`, `CompressedWorks.QueryCanPrecedeCallback`).
- Two outstanding receives on one tag can swap tensors (`P2P.PayloadTakenIsNextInOrder`, `P2P.CrossedReceivesSwap`).
- A gradient whose tensor is shorter than its layout says passes the checks of the sharded optimizer. SGD then changes
  nothing, but AdamW stops after it has counted the step, decayed the parameters and scaled the first moments
  (`Consumer.ShardedMasterState.Step`, `Consumer.ShortGradientTearsAdamW`).
- A prepared weight difference that is applied after the model moved carries that movement
  (`Qwd.GapIsLastError`, `Qwd.SecondApplyOvershoots`).

Two descriptions differ from the code without a promise being broken. The kernel design
(`docs/superpowers/specs/2026-07-23-cann-kernel-design.md:61-65`) stores the scale divided by 127; the CUDA kernels
store the largest magnitude (at least 1e-6) and divide when they restore, which gives the same values. The codec's
documentation string calls every payload compact; a payload with `compact=False` is planar, all values before all
scales.

## Model

| member | source | states |
|---|---|---|
| `Executors.QuantizeInto` | src/lowbit_comm/backends/cuda/codec.py:48-69 | quantizing writes exactly the payload of the source into the given slice of the caller's buffer and no other byte |
| `Executors.PrepareSend` | src/lowbit_comm/backends/cuda/executors.py:309-326 | after the destination loop every slot holds the payload of that destination's chunk of the padded input, and every byte behind a payload is what the buffer held before |
| `Executors.RequantizeInto` | src/lowbit_comm/backends/cuda/executors.py:413-425 | the reduced shard's payload is written at the front of the slot and the rest is zero |
| `Executors.Writeback` | src/lowbit_comm/backends/cuda/executors.py:433-448 | the in-place writeback of the gathered slots equals restoring each slot's payload and concatenating |
| `Codecs.AlignCovers` | src/lowbit_comm/backends/cuda/executors.py:521-523 | alignment gives the least multiple that is not below the value |
| `Codecs.PayloadHasAnnouncedSize` | src/lowbit_comm/backends/cuda/codec.py:33-45 | the payload of any padded tensor has exactly the number of bytes that `payload_nbytes` announces for the unpadded size |
| `Codecs.AnnouncedBytes` | src/lowbit_comm/backends/cuda/codec.py:33-45 | the announced bytes are those of the least number of groups that holds the values, each with `bit` bits per value and a scale of 4 bytes for FP32 and 2 otherwise |
| `Codecs.PayloadLayout` | src/lowbit_comm/backends/cuda/csrc/quantization/dequant_reduce_kernel.cu:39-70 | where a payload keeps the values and the scale of every group, interleaved and planar |
| `Codecs.DequantizePayload` | src/lowbit_comm/backends/cuda/codec.py:72-97 | reading a payload back at the kernels' offsets restores every group of what was quantized, in the interleaved and in the planar layout |
| `Collectives.AllToAllTransposes` | src/lowbit_comm/backends/cuda/executors.py:328-333 | all-to-all is a transposition: what rank r receives from rank s is what s has sent to r |
| `Collectives.AllGatherConcatenates` | src/lowbit_comm/backends/cuda/executors.py:426-432 | all-gather is a concatenation: slot s of the gathered buffer is the row of rank s |
| `Collectives.ImageOfSlot` | src/lowbit_comm/backends/cuda/executors.py:316-326 | cutting into shards and quantizing commute, because shard boundaries are group boundaries |
| `Collectives.ReducedShardIsSlot` | src/lowbit_comm/backends/cuda/executors.py:188-249 | the tensor rank r returns is chunk r of the mean of all ranks' quantized inputs, whatever the stride tails contain |
| `Collectives.ReducedShardsRefineMean` | src/lowbit_comm/backends/cuda/executors.py:188-249 | with a lossless codec the concatenated, trimmed shards of all ranks are the elementwise mean |
| `Collectives.FullTensorIsImageOfMean` | src/lowbit_comm/backends/cuda/executors.py:394-455 | after both collectives all ranks hold the same tensor: the quantized image of the mean of the quantized inputs, as if nothing had been cut or exchanged |
| `Collectives.FullTensorRefinesMean` | src/lowbit_comm/backends/cuda/executors.py:303-355 | with a lossless codec every rank's result is the elementwise mean that the native all-reduce computes, for every world size, size, group size, padding and stride tail |
| `Collectives.AllGatherIsMeanOfImages` | src/lowbit_comm/backends/cuda/executors.py:81-153 | every rank computes the mean of the quantized images of all inputs |
| `Collectives.AllGatherRefinesMean` | src/lowbit_comm/backends/cuda/executors.py:121-153 | with a lossless codec the compressed all-gather gives the elementwise mean |
| `Executors.MeanTimesWorld` | src/lowbit_comm/backends/cuda/executors.py:471-476 | the mean times the number of ranks is the sum of the ranks' elements |
| `Executors.PadIs` | src/lowbit_comm/backends/cuda/executors.py:307-308 | padding keeps the elements and puts zeros behind them |
| `Collectives.ReconstructLocal` | src/lowbit_comm/backends/cuda/executors.py:357-392 | the method fills its buffers so that the result is the trimmed quantized image of the local tensor |
| `Collectives.ReconstructionIsWhatWasSent` | src/lowbit_comm/backends/cuda/executors.py:357-392 | the local reconstruction, padded only to whole groups, is the trimmed concatenation of what the receivers restore from this rank's slots |
| `Collectives.ReducedIsMeanOfReconstructions` | src/lowbit_comm/backends/cuda/executors.py:394-425 | what the collective averages is exactly what error feedback subtracts on each rank |
| `FusedKernels.CompiledExchange` | src/lowbit_comm/backends/cuda/executors.py:290-301 | sizes derived from the shard plan, the payload size and the 16-byte alignment are consistent for every rank |
| `FusedKernels.FullTensorKernelsAcceptIff` | src/lowbit_comm/backends/cuda/csrc/quantization/dequant_reduce_kernel.cu:459-577 | both guards of the full-tensor kernels hold exactly for non-empty tensors on at most eight ranks, so all ranks go on or none does |
| `FusedKernels.ReduceAcceptsIff` | src/lowbit_comm/backends/cuda/csrc/quantization/dequant_reduce_kernel.cu:345-364 | which sizes the reduce kernel accepts at all, in whole groups |
| `FusedKernels.RequantizeAcceptsIff` | src/lowbit_comm/backends/cuda/csrc/quantization/dequant_reduce_kernel.cu:459-487 | which sizes the requantize kernel accepts |
| `FusedKernels.WritebackAcceptsIff` | src/lowbit_comm/backends/cuda/csrc/quantization/dequant_reduce_kernel.cu:548-577 | which sizes the writeback kernel accepts |
| `FusedKernels.ReduceKernelAcceptsIff` | src/lowbit_comm/backends/cuda/csrc/quantization/dequant_reduce_kernel.cu:345-364 | with the sizes that the reduced-shard and the all-gather executable compile, the guard of the reduce kernel holds exactly for non-empty tensors on at most eight ranks over INT8 linear groups of 64 |
| `FusedKernels.CompiledGather` | src/lowbit_comm/backends/cuda/executors.py:63-79 | the sizes of the all-gather hold the whole padded tensor in one aligned slot per rank |
| `Programs.RunFullTensor` | src/lowbit_comm/backends/cuda/executors.py:303-455 | how every rank ends for all inputs: a rank with another size raises and the others wait for it; otherwise all raise if the kernels decline, and else all return the same image of the mean of images |
| `Programs.RunReducedShard` | src/lowbit_comm/backends/cuda/executors.py:188-249 | the same for the reduced shard: each rank returns its chunk of the mean of images |
| `Programs.RunAllGather` | src/lowbit_comm/backends/cuda/executors.py:81-153 | the same for the compressed all-gather: all ranks return the mean of the images of all inputs |
| `Programs.LosslessValues` | src/lowbit_comm/backends/cuda/executors.py:81-355 | with a lossless codec the values that the three programs return are the mean, for the shards after concatenation and trimming |
| `Programs.FullTensorEnds` | src/lowbit_comm/backends/cuda/executors.py:303-455 | a rank raises exactly for an input of another size, or when all sizes agree but there are more than eight ranks, an empty tensor or a wire other than INT8 linear in groups of 64; it waits exactly if another rank has another size; otherwise it returns, with a lossless codec the mean |
| `Programs.ShardEnds` | src/lowbit_comm/backends/cuda/executors.py:188-249 | the same for the reduced shard, which with a lossless codec holds the mean's elements from the rank times its size on |
| `Programs.GatherEnds` | src/lowbit_comm/backends/cuda/executors.py:81-153 | the same for the compressed all-gather |
| `Programs.FullTensorError` | src/lowbit_comm/backends/cuda/executors.py:449-455 | with the INT8 linear codec every element of what the full-tensor program returns is within the mean scale of its group over 127 of the mean |
| `FullTensorRuns.AlignedRunsAreCorrect` | src/lowbit_comm/backends/cuda/executors.py:303-455 | for any number of runs in flight and any interleaving of callers and pool threads: if all ranks issued their collectives in the same order, every result any rank has is the image of the mean of that run's inputs |
| `FullTensorRuns.SerialRunsAreCorrect` | src/lowbit_comm/backends/cuda/executors.py:303-455 | with one run at a time per rank the order is the same under every interleaving, so every result is right |
| `FullTensorRuns.SerialNeverStuck` | src/lowbit_comm/backends/cuda/executors.py:394-455 | with one run at a time no reachable unfinished state is stuck |
| `FullTensorRuns.GoesOnIff` | src/lowbit_comm/backends/cuda/executors.py:21-24 | a run whose first collective has completed goes on exactly if fewer than eight earlier runs of the rank have yet to deliver |
| `FullTensorRuns.MismatchNeverCompletes` | src/lowbit_comm/backends/cuda/executors.py:426-432 | once two ranks' k-th collectives are of different kinds, that collective never completes in any continuation |
| `FullTensorOverlap.OverlapIsRightIff` | src/lowbit_comm/backends/cuda/executors.py:345-354 | for any runs in flight on two or more ranks and eight pool workers: all results in all reachable states are right exactly if all runs have the same result anyway |
| `FullTensorOverlap.OverlapMixesRuns` | src/lowbit_comm/backends/cuda/executors.py:345-354 | after any number of finished runs, with any number in flight on any number of ranks: if one rank reduces another of the runs that the pool has taken up first than the rest do, the first result of any other rank joins the two runs, and is right exactly if that one shard restores the same |
| `FullTensorOverlap.DifferentMeansGoWrong` | src/lowbit_comm/backends/cuda/executors.py:345-354 | two runs whose means differ go wrong in some interleaving, even with a lossless codec |
| `FullTensorOverlap.OverlapCanGoWrong` | src/lowbit_comm/backends/cuda/executors.py:345-354 | a concrete group of two ranks and two runs for which that happens |
| `FullTensorOverlap.CanBlockIff` | src/lowbit_comm/backends/cuda/executors.py:345-354 | a state in which the k-th collectives of two ranks are of different kinds can be reached exactly with at least two ranks and two runs |
| `LinearCodecs.LinearFits` | src/lowbit_comm/backends/cuda/codec.py:33-45 | the linear codec has the sizes the wire prescribes |
| `LinearCodecs.RoundIff` | src/lowbit_comm/backends/cuda/csrc/quantization/utils.cuh:109-118 | rounding gives the nearest integer, and of two nearest ones the even one |
| `LinearCodecs.GroupCodes` | src/lowbit_comm/backends/cuda/csrc/quantization/quant_pack_kernel.cu:100-120 | the stored scale of a group is its largest magnitude but at least 1e-6; a value gets exactly the code nearest to 127 times it over the scale, ties to even; and that code is restored to itself times the scale over 127 |
| `LinearCodecs.ElementError` | src/lowbit_comm/backends/cuda/csrc/quantization/quant_pack_kernel.cu:105-120 | a value within the scale is restored to within scale/254 and not beyond the scale (round half to even, clamp, scale at least 1e-6) |
| `LinearCodecs.BufferError` | docs/superpowers/specs/2026-07-23-cann-kernel-design.md:61-65 | every element of a quantized buffer is within its group's scale over 254 of the original |
| `LinearCodecs.ReducedScale` | src/lowbit_comm/backends/cuda/csrc/quantization/dequant_reduce_kernel.cu:396-424 | the scale of a requantized group is at most the mean of the ranks' scales of that group |
| `LinearCodecs.TwoStageError` | src/lowbit_comm/backends/cuda/executors.py:409-446 | the two stages add up: first-stage error at most the mean scale/254, second-stage error at most the reduced group's scale/254, in all at most the mean scale/127, for any number of ranks |
| `LinearCodecs.ResultError` | src/lowbit_comm/backends/cuda/executors.py:449-455 | the same bound between the trimmed result and the elementwise mean of the unpadded inputs |
| `Ring.CompileRingSchedule` | src/lowbit_comm/backends/cuda/transports/ring.py:24-57 | a schedule is compiled exactly for ranks inside a positive world size; through both halves the rank first sends its own chunk, then always what it has just received, and expects the chunk below from its predecessor |
| `Ring.SchedulesMatch` | src/lowbit_comm/backends/cuda/transports/ring.py:26-46 | the k-th chunk a rank's predecessor sends is the chunk the rank expects at its step k, and peers name each other |
| `Ring.ReceiveValue` | src/lowbit_comm/backends/cuda/transports/ring.py:28-45 | one receive takes a chunk from its k-th closed-form value to its next |
| `Ring.HeadIsExpected` | src/lowbit_comm/backends/cuda/transports/ring.py:28-45 | in every reachable state of every interleaving the head of a channel is the chunk its receiver expects next |
| `Ring.NeverStuck` | src/lowbit_comm/backends/cuda/transports/ring.py:24-46 | no reachable unfinished state is stuck |
| `Ring.RunLength` | src/lowbit_comm/backends/cuda/transports/ring.py:24-46 | runs are bounded, and exactly the runs of maximal length are finished |
| `Ring.ReduceScatterOwner` | src/lowbit_comm/backends/cuda/transports/ring.py:28-36 | after the reduce-scatter half rank r owns the full sum of chunk (r + 1) mod W |
| `Ring.AllReduceCorrect` | src/lowbit_comm/backends/cuda/transports/ring.py:24-46 | every finished run leaves the sum over all ranks in every chunk of every rank and empty channels |
| `Tree.CompileTreeSchedule` | src/lowbit_comm/backends/cuda/transports/tree.py:17-40 | a schedule is compiled exactly when rank and root are inside a positive world size, and is the place of the rank in a binary heap rotated to the root |
| `Tree.HeapPositions` | src/lowbit_comm/backends/cuda/transports/tree.py:22-29 | counted from the root modulo the world size, the parent of l is (l - 1) / 2 and the children are 2l + 1 and 2l + 2, in this order, as far as they exist |
| `Tree.ParentChildInverse` | src/lowbit_comm/backends/cuda/transports/tree.py:23-28 | a rank is listed as a child, once, exactly by the rank it names as its parent |
| `Tree.OnlyRootIsOrphan` | src/lowbit_comm/backends/cuda/transports/tree.py:23-23 | exactly the root has no parent |
| `Tree.ReachesRoot` | src/lowbit_comm/backends/cuda/transports/tree.py:22-23 | floor(log2 W) parent links lead from any rank to the root |
| `Tree.PreorderFollowsChildren` | src/lowbit_comm/backends/cuda/transports/tree.py:24-28 | the traversal used to count ranks follows the compiled child lists |
| `Tree.OneTree` | src/lowbit_comm/backends/cuda/transports/tree.py:22-29 | following children from the root meets every rank exactly once |
| `Tree.RootFoldsEverything` | src/lowbit_comm/backends/cuda/transports/tree.py:22-29 | folding child values upward gives the root the sum of all ranks |
| `Tree.FinishedRankHoldsSum` | src/lowbit_comm/backends/cuda/transports/tree.py:17-29 | in the asynchronous reduce and broadcast a finished rank holds the sum, whatever the order of reports |
| `Tree.NeverStuck` | src/lowbit_comm/backends/cuda/transports/tree.py:17-29 | a reachable unfinished state always has an enabled action |
| `Tree.RunLength` | src/lowbit_comm/backends/cuda/transports/tree.py:17-29 | a run takes at most one merge and one report per edge and one finish per rank, and exactly the finished runs take that many |
| `Topologies.SignatureRoundTrip` | src/lowbit_comm/compiler/passes/topology.py:29-58 | reading the signature that spells any ids, negative ones included, gives exactly these ids or the refusal of them; it is accepted exactly for one non-negative id per rank |
| `Topologies.SpacesAreStripped` | src/lowbit_comm/compiler/passes/topology.py:38-42 | white space around an id does not matter |
| `Topologies.PlusIsIgnored` | src/lowbit_comm/compiler/passes/topology.py:38-42 | nor does a plus sign before it |
| `Topologies.UnderscoreIsIgnored` | src/lowbit_comm/compiler/passes/topology.py:38-42 | nor does a single underscore between digits |
| `Topologies.GroupsPartition` | src/lowbit_comm/compiler/passes/topology.py:49-54 | each rank is in exactly one group, once; two ranks share a group exactly when they share a node id |
| `Topologies.GroupForRankIsOwn` | src/lowbit_comm/compiler/passes/topology.py:18-26 | every rank finds its own group, whose first rank is its least |
| `Topologies.LeadersAscend` | src/lowbit_comm/compiler/passes/topology.py:49-57 | groups are listed in the order of their first ranks |
| `Hierarchy.LeadersSumToAll` | src/lowbit_comm/backends/cuda/transports/hierarchical.py:43-57 | the sum over leaders of their groups' sums is the sum over all ranks |
| `Hierarchy.CompileHierarchy` | src/lowbit_comm/backends/cuda/transports/hierarchical.py:70-81 | a plan exists exactly for ranks of the topology; its local group is the rank's node, its leader the first rank there, its leader group the first ranks of all nodes, and a rank leads exactly if it is one of them |
| `Hierarchy.ReturnsGlobalMean` | src/lowbit_comm/backends/cuda/transports/hierarchical.py:33-65 | under every interleaving of the stages a rank that has returned holds the global mean, whatever the reduce left in other buffers |
| `Hierarchy.NeverStuck` | src/lowbit_comm/backends/cuda/transports/hierarchical.py:33-65 | no group waits forever, even if every collective is a full barrier |
| `Hierarchy.RunLength` | src/lowbit_comm/backends/cuda/transports/hierarchical.py:33-65 | no run takes more than six steps per rank |
| `Shards.CompileShardPlan` | src/lowbit_comm/backends/cuda/transports/reduce_scatter.py:22-45 | a plan is compiled exactly for a non-negative size and a rank inside the world, and no smaller whole number of groups a shard covers the tensor |
| `Shards.PlanIsLeastCover` | src/lowbit_comm/backends/cuda/transports/reduce_scatter.py:33-45 | the two ceiling divisions give that least cover, and one group fewer per shard does not reach the tensor |
| `Shards.RangesAreConsecutive` | src/lowbit_comm/core/values.py:39-58 | ranges of consecutive ranks join, start at 0, end at the original size; valid and padding sizes make up the shard |
| `Shards.UniqueOwner` | src/lowbit_comm/core/values.py:47-50 | every logical index belongs to exactly one rank |
| `Shards.SizesAddUp` | src/lowbit_comm/core/values.py:52-58 | valid sizes of all ranks add up to the tensor and padding sizes to what was padded |
| `Shards.PlanRangeAgrees` | src/lowbit_comm/backends/cuda/transports/reduce_scatter.py:17-19 | the plan's unclamped range equals the value's range, and is not inverted, exactly when the shard starts at or before the end of the tensor |
| `Shards.PlanRangeCanBeInverted` | src/lowbit_comm/backends/cuda/transports/reduce_scatter.py:17-19 | a plan whose range ends before it starts |
| `Feedback.GradientFeedbackState.Prepare` | src/lowbit_comm/adapters/ddp/state.py:64-79 | a transaction adds the residual of the current layout, shape and dtype, if there is one, and remembers whether the gradient was finite |
| `Feedback.PreparedIs` | src/lowbit_comm/adapters/ddp/state.py:64-79 | the transaction's key in its four parts, its tensor lane by lane, and when it counts as finite |
| `Feedback.GradientFeedbackState.Rebuild` | src/lowbit_comm/adapters/ddp/state.py:91-96 | only a larger generation is accepted; it clears every residual |
| `Feedback.GradientFeedbackState.StoreResidual` | src/lowbit_comm/adapters/ddp/state.py:98-102 | a residual of an obsolete layout is refused and nothing changes |
| `Feedback.GradientFeedbackState.Residual` | src/lowbit_comm/adapters/ddp/state.py:81-89 | an answer is given exactly when one residual of the bucket is current |
| `Feedback.FeedbackTransaction.Commit` | src/lowbit_comm/adapters/ddp/state.py:34-42 | which commits store, which close, and in which order the rejections come, including a raising callback |
| `Feedback.CommitIs` | src/lowbit_comm/adapters/ddp/state.py:34-42 | each outcome by its own condition and the absence of the earlier ones, what is stored lane by lane, and when the transaction closes |
| `Feedback.FeedbackTransaction.Abort` | src/lowbit_comm/adapters/ddp/state.py:44-45 | aborting closes the transaction and touches nothing else |
| `Feedback.StepKeepsInv` | src/lowbit_comm/adapters/ddp/state.py:64-105 | stored residuals stay finite and of the current layout |
| `Feedback.OtherEventsKeepResidual` | src/lowbit_comm/adapters/ddp/state.py:34-45 | rejected or aborted steps, prepares, and commits on other keys leave a residual alone |
| `Feedback.Balance` | src/lowbit_comm/adapters/ddp/state.py:34-105 | ledger of every run, key and lane, with any overlap, failure, abort and rebuild: restored values sum to gradients plus initial minus final residual, minus what rebuilds discarded and minus the staleness of overlapping reads |
| `Feedback.CommitConservesIff` | src/lowbit_comm/adapters/ddp/state.py:40-42 | a stored commit conserves exactly when the residual is still what its prepare read |
| `Feedback.SerialConservation` | src/lowbit_comm/adapters/ddp/state.py:64-105 | with at most one open transaction of the key, whatever happens on other keys, the staleness is zero: conservation holds for every lane up to what rebuilds discard |
| `Feedback.OverlapLosesResidual` | src/lowbit_comm/adapters/ddp/state.py:98-104 | two overlapping transactions on one key that lose a residual |
| `Hook.CallAndFinish` | src/lowbit_comm/adapters/ddp/hook.py:31-53 | one call resolves its future with a result exactly when gradient and reconstruction are finite and of one size and nothing raised, and leaves the store alone unless it got as far as the commit callback |
| `Hook.StoredKeysAreCurrent` | src/lowbit_comm/adapters/ddp/state.py:91-102 | under any interleaving of calls, finishes and rebuilds every stored residual carries the current generation |
| `Hook.FutureAndStore` | src/lowbit_comm/adapters/ddp/hook.py:43-50 | a result means the residual was stored first, once; an exception means nothing was stored, exactly unless the callback raised |
| `Hook.CallGoesOn` | src/lowbit_comm/adapters/ddp/hook.py:31-53 | a call whose future is pending can always go on, whatever other calls and rebuilds do, and resolves the future after at most six actions of its own |
| `Hook.OnlyStoresAndRebuildsWrite` | src/lowbit_comm/adapters/ddp/hook.py:43-50 | nothing else changes the residual map, and a store writes one key |
| `Hook.RebuildsNeverLowerIff` | src/lowbit_comm/adapters/ddp/state.py:91-96 | from any state: no order of applying the pending rebuilds lowers the generation, exactly if all ask for one generation that is not below the current one |
| `Hook.CheckedRebuildsNeverLowerIff` | src/lowbit_comm/adapters/ddp/state.py:91-96 | right after the checks that is the case exactly if all pending rebuilds ask for the same generation |
| `Hook.OverlappingRebuildsCanLowerGeneration` | src/lowbit_comm/adapters/ddp/state.py:91-96 | a run in which two overlapping rebuilds lower the generation |
| `Hook.GenerationsGrow` | src/lowbit_comm/adapters/ddp/state.py:91-96 | without overlapping rebuilds generations never decrease |
| `HookLedger.RunBalance` | src/lowbit_comm/adapters/ddp/hook.py:31-53 | the same ledger for every interleaving of hook calls, deferred finishes and rebuilds, in which a call reads its key before it reads the residual |
| `HookLedger.RunConserves` | src/lowbit_comm/adapters/ddp/state.py:64-104 | if calls of a key come one at a time and rebuilds do not overlap, nothing is stale in any interleaving: restored values sum to gradients minus the final residual, minus what rebuilds discarded |
| `HookLedger.StoreConservesIff` | src/lowbit_comm/adapters/ddp/state.py:98-102 | a store of a run conserves exactly if the stored residual is still what the call had added |
| `HookLedger.OverlappingRebuildsBreakConservation` | src/lowbit_comm/adapters/ddp/state.py:91-96 | a run with calls one at a time and generations that never go down, in which two rebuilds for one generation break conservation |
| `Workspace.WorkspacePool.Acquire` | src/lowbit_comm/runtime/workspace.py:45-49 | the last free buffer of the key is taken, or a new one allocated |
| `Workspace.WorkspaceLease.Release` | src/lowbit_comm/runtime/workspace.py:29-35 | a lease returns its buffer once, however often it is released |
| `Workspace.PushAfterPop` | src/lowbit_comm/runtime/workspace.py:45-57 | taking and returning a buffer leaves the pool as it was |
| `Workspace.FreeIsStack` | src/lowbit_comm/runtime/workspace.py:45-57 | the free buffers of a key are a stack, and other keys keep theirs |
| `Workspace.PushedBack` | src/lowbit_comm/runtime/work.py:57-61 | after a work's releases the free buffers of a key are the earlier ones and behind them its own, in reverse order of the resources |
| `Workspace.CompletionWork.Wait` | src/lowbit_comm/runtime/work.py:46-66 | a wait times out without effect, or finishes once: callback, then every unreleased lease goes back once to its own pool, from last to first, then the stored result or error for every later call; leases may repeat and belong to different pools |
| `Workspace.CallbackRunsAgainIff` | src/lowbit_comm/runtime/work.py:50-62 | the callback runs again exactly when the event fires and every earlier fired wait had a raising release |
| `Workspace.CallbackRunsAtMostOnce` | src/lowbit_comm/runtime/work.py:50-62 | without raising releases the callback runs once in all |
| `Workspace.FirstFiredDecides` | src/lowbit_comm/runtime/work.py:50-66 | the outcome of the callback in the first wait that fires decides every later answer |
| `Ownership.ExclusiveOwnership` | src/lowbit_comm/runtime/workspace.py:29-57 | under every interleaving of acquire, release, event and wait no buffer is in two unreturned leases, both leased and free, or free twice |
| `Ownership.BuffersAreConserved` | src/lowbit_comm/runtime/workspace.py:45-57 | buffers allocated for a key are the free, the leased and the returning ones |
| `Ownership.WorkReleasesAfterCompletion` | src/lowbit_comm/runtime/work.py:46-66 | a lease is released by its work only after the event fired and the callback ended; a finished work holds no active lease, and every buffer that it released itself is back in its pool |
| `Ownership.OnlyEventsFire` | src/lowbit_comm/runtime/work.py:46-48 | a work counts as fired exactly after its event |
| `Ownership.FiredWorkGoesOn` | src/lowbit_comm/runtime/work.py:50-66 | a work whose event fired can always go on, whatever other threads do, and with n leases is finished after at most 2n + 3 steps of its own |
| `CompressedWorks.CompressedWork.Wait` | src/lowbit_comm/backends/cuda/csrc/executor/compressed_work.cpp:113-163 | the first call runs transport wait, callback and completion wait up to the first failure, clears the resources and stores the outcome; later calls only answer |
| `CompressedWorks.ExecutesOnce` | src/lowbit_comm/backends/cuda/csrc/executor/compressed_work.cpp:113-155 | for any number of threads one executes; transport wait and callback run at most once, resources are cleared once and after both |
| `CompressedWorks.AllWaitersAgree` | src/lowbit_comm/backends/cuda/csrc/executor/compressed_work.cpp:156-162 | all waits that return give the same result or the same stored error |
| `CompressedWorks.AnswerIsOutcome` | src/lowbit_comm/backends/cuda/csrc/executor/compressed_work.cpp:120-162 | a wait that returns gives the error of the call that threw, or else the callback's value, or else the given result |
| `CompressedWorks.OnlyFirstSwapExecutes` | src/lowbit_comm/backends/cuda/csrc/executor/compressed_work.cpp:114-120 | the state leaves 0 exactly at the first swap and never goes back |
| `CompressedWorks.AwakeGoesOn` | src/lowbit_comm/backends/cuda/csrc/executor/compressed_work.cpp:113-162 | after publication a thread that is awake returns after at most three steps of its own |
| `CompressedWorks.AwakeStaysAwake` | src/lowbit_comm/backends/cuda/csrc/executor/compressed_work.cpp:113-162 | and no other thread's step changes that |
| `CompressedWorks.StrandedIff` | src/lowbit_comm/backends/cuda/csrc/executor/compressed_work.cpp:121-127 | in any run a thread is stranded exactly if it went to sleep after the only notification and was not woken since |
| `CompressedWorks.StrandedSawStateOne` | src/lowbit_comm/backends/cuda/csrc/executor/compressed_work.cpp:114-127 | only threads whose swap saw state 1 are ever stranded |
| `CompressedWorks.SawStateOneCanBeStranded` | src/lowbit_comm/backends/cuda/csrc/executor/compressed_work.cpp:114-154 | each of these can be: every run that ends with such a swap has a continuation that strands the thread |
| `CompressedWorks.WaiterCanBeStranded` | src/lowbit_comm/backends/cuda/csrc/executor/compressed_work.cpp:153-154 | a two-thread run in which that happens |
| `CompressedWorks.QueryIsRightIff` | src/lowbit_comm/backends/cuda/csrc/executor/compressed_work.cpp:131-133 | a query that answers yes is right about the callback exactly unless the executor is inside the callback |
| `CompressedWorks.QueryAfterWait` | src/lowbit_comm/backends/cuda/csrc/executor/compressed_work.cpp:128-134 | once some wait has returned every query answers yes |
| `CompressedWorks.QueryCanPrecedeCallback` | src/lowbit_comm/backends/cuda/csrc/executor/compressed_work.cpp:131-133 | a run in which a query answers yes before the callback ran |
| `Metadata.ToValues` | src/lowbit_comm/core/metadata.py:52-66 | filling the list slot by slot gives the header, five reserved zeros, the shape and zero padding |
| `Metadata.PacketWords` | src/lowbit_comm/core/metadata.py:13-66 | each of the 24 words, with the protocol's version and codes |
| `Metadata.RefusedWith` | src/lowbit_comm/core/metadata.py:69-115 | each refusal by its own condition on the words and the absence of the earlier ones; a sequence is accepted exactly without any |
| `Metadata.DecodeEncode` | src/lowbit_comm/core/metadata.py:52-115 | decoding the words of a valid packet gives the packet back |
| `Metadata.EncodeDecode` | src/lowbit_comm/core/metadata.py:69-115 | an accepted word sequence is the encoding of the packet it gives, which is valid |
| `Metadata.AcceptedIffEncoding` | src/lowbit_comm/core/metadata.py:52-115 | a sequence decodes to a packet exactly when it is that packet's encoding |
| `DynamicAllGather.PacketIsValidIff` | src/lowbit_comm/backends/cuda/dynamic_all_gather.py:62-68 | a rank can publish its tensor exactly up to eight dimensions |
| `DynamicAllGather.PacketIs` | src/lowbit_comm/backends/cuda/dynamic_all_gather.py:62-68 | the fields of the packet a rank announces |
| `DynamicAllGather.CheckSchemas` | src/lowbit_comm/backends/cuda/dynamic_all_gather.py:84-92 | the gathered packets are accepted exactly when every one decodes and matches the rank's own configuration |
| `DynamicAllGather.AllAcceptOrNone` | src/lowbit_comm/backends/cuda/dynamic_all_gather.py:84-92 | all ranks accept exactly when all configurations are equal; otherwise none does |
| `DynamicAllGather.StrideIsLeastAligned` | src/lowbit_comm/backends/cuda/dynamic_all_gather.py:144-149 | the stride is the least multiple of 16 that holds every payload |
| `DynamicAllGather.OutputsAreImages` | src/lowbit_comm/backends/cuda/dynamic_all_gather.py:105-123 | slots are disjoint and output r everywhere has rank r's shape and the codec image of its values, whatever lies behind the payloads |
| `DynamicAllGather.LosslessGather` | src/lowbit_comm/backends/cuda/dynamic_all_gather.py:105-123 | with a lossless codec every rank ends with every tensor |
| `DynamicAllGather.RunDynamicAllGather` | src/lowbit_comm/backends/cuda/dynamic_all_gather.py:44-128 | a rank with more than eight dimensions raises and the others wait for it; otherwise all raise if any two configurations differ, and else all return one tensor per rank, in rank order, with its shape and the codec's image of its values, which is the tensor itself under a lossless codec |
| `P2P.FromLogical` | src/lowbit_comm/backends/cuda/p2p.py:26-32 | physical tags exist exactly for non-negative logical tags |
| `P2P.TagsNeverCollide` | src/lowbit_comm/backends/cuda/p2p.py:26-32 | the metadata and payload tags of a logical tag are its double and the next; those of all logical tags are different |
| `P2P.PadSource` | src/lowbit_comm/backends/cuda/p2p.py:285-293 | whole groups are sent as they are, anything else in a fresh zero-padded copy |
| `P2P.ItemPacketIs` | src/lowbit_comm/backends/cuda/p2p.py:107-114 | the fields of the packet that `isend` announces |
| `P2P.Isend` | src/lowbit_comm/backends/cuda/p2p.py:81-137 | the posted words and bytes are the packet and payload of the tensor; a tensor that has no valid packet posts nothing |
| `P2P.Finish` | src/lowbit_comm/backends/cuda/p2p.py:215-271 | the receiver rejects with the reason that comes first in the code, otherwise receives a payload of the announced size and restores it |
| `P2P.RejectedWith` | src/lowbit_comm/backends/cuda/p2p.py:219-236 | each rejection by its own condition and the absence of the earlier ones |
| `P2P.TransportMismatchIff` | src/lowbit_comm/backends/cuda/p2p.py:237-265 | a payload fails in transport exactly if its length is not the announced one or not that of the shape's groups |
| `P2P.LosslessItem` | src/lowbit_comm/backends/cuda/p2p.py:249-267 | with a lossless codec a receive delivers the sent tensor itself |
| `P2P.SendAndReceive` | src/lowbit_comm/backends/cuda/p2p.py:81-271 | a tensor sent between equal endpoints arrives with its shape and codec image |
| `P2P.TagsAreIndependent` | src/lowbit_comm/backends/cuda/p2p.py:26-32 | a step on one logical tag leaves the channels and state of every other tag alone |
| `P2P.AdmitIff` | src/lowbit_comm/backends/cuda/p2p.py:219-237 | a receiver admits a sender's packet exactly when element type and wire agree |
| `P2P.RestoreOwnPayload` | src/lowbit_comm/backends/cuda/p2p.py:238-267 | the payload has exactly the announced length and restores to the tensor's image |
| `P2P.KthReceiveDeliversKthSend` | src/lowbit_comm/backends/cuda/p2p.py:193-271 | for any interleaving on any tags, with one outstanding receive per tag, the k-th receive delivers the k-th tensor of its tag |
| `P2P.DisagreeingEndpointsFail` | src/lowbit_comm/backends/cuda/p2p.py:219-228 | if the endpoints disagree every receive fails and no payload is taken |
| `P2P.PayloadTakenIsNextInOrder` | src/lowbit_comm/backends/cuda/p2p.py:243-249 | without that discipline a receive takes the next payload in sending order, whichever receive it is; it delivers its own tensor exactly if both have as many groups and the restored elements agree |
| `P2P.CrossedReceivesSwap` | src/lowbit_comm/backends/cuda/p2p.py:205-210 | on any tag with agreeing endpoints and for any two tensors of one shape, a run of the machine in which the second of two outstanding receives delivers the first tensor |
| `Consumer.ShardedMasterState.constructor` | src/lowbit_comm/adapters/sharded/consumer.py:13-36 | a new state starts at step 0 with zero moments over the given master |
| `Consumer.ShardedMasterState.Step` | src/lowbit_comm/adapters/sharded/consumer.py:38-85 | each rejection by its own condition and the absence of the earlier ones, without any change; a tensor too short for its layout stops SGD without a change and AdamW midway; otherwise exactly the valid prefix and the count advance |
| `Consumer.SgdDescends` | src/lowbit_comm/adapters/sharded/consumer.py:51-56 | after any number of SGD steps each lane is its start less the sum of its gradients times their learning rates; moments stay, the count advances by the steps |
| `Consumer.AdamWDescends` | src/lowbit_comm/adapters/sharded/consumer.py:73-85 | under a constant gradient g, from zero moments, after n AdamW steps the moments are (1 - b1^n) g and (1 - b2^n) g g, and each step takes p to p (1 - lr wd) - lr g / (abs(g) + eps) |
| `Consumer.ShortGradientTearsAdamW` | src/lowbit_comm/adapters/sharded/consumer.py:73-80 | a concrete gradient of two elements for four valid lanes, and the state in which AdamW stops |
| `Consumer.NoDivisionByZero` | src/lowbit_comm/adapters/sharded/consumer.py:80-85 | with admissible hyperparameters no AdamW division is by zero and second moments stay non-negative |
| `Consumer.ShardedRefinesUnsharded` | src/lowbit_comm/adapters/sharded/consumer.py:38-85 | after any sequence of SGD and AdamW steps each rank's valid prefix is its range of one unsharded run, and padding lanes hold their initial values |
| `Consumer.GatheredIsWhole` | src/lowbit_comm/core/values.py:47-54 | the valid prefixes of all ranks, concatenated, are the unsharded state |
| `Qwd.PrepareParameterDelta` | src/lowbit_comm/adapters/sharded/qwd.py:58-70 | the delta is master minus model on the valid prefix and zero behind it; it is refused exactly for unequal sizes, a bad prefix or another dtype |
| `Qwd.ApplyQuantizedWeightDifference` | src/lowbit_comm/adapters/sharded/qwd.py:73-80 | exactly the valid prefix grows by the restored delta, rounded to the model's type; a refused call writes nothing |
| `Qwd.FullPrecisionRefresh` | src/lowbit_comm/adapters/sharded/qwd.py:83-90 | exactly the valid prefix becomes the rounded master; a refused call writes nothing |
| `Qwd.PaddingNeverChanges` | src/lowbit_comm/adapters/sharded/qwd.py:73-90 | in any run the padding lanes of the model keep their values |
| `Qwd.GapIsLastError` | src/lowbit_comm/adapters/sharded/qwd.py:58-80 | at any later time master minus model is the codec error of the last applied delta, less the rounding of that write, plus the master's movement since the delta was prepared, less any movement of the model in between; no earlier error remains |
| `Qwd.RefreshClearsGap` | src/lowbit_comm/adapters/sharded/qwd.py:83-90 | after a refresh only the rounding of that write and later master movement remain |
| `Qwd.SentDeltasTelescope` | src/lowbit_comm/adapters/sharded/qwd.py:73-80 | between refreshes the restored deltas and the roundings of their writes add up to what the model moved |
| `Qwd.SecondApplyOvershoots` | src/lowbit_comm/adapters/sharded/qwd.py:73-80 | one prepared delta applied twice is sent twice |
| `Qwd.GapDoesNotAccumulate` | src/lowbit_comm/adapters/sharded/qwd.py:58-90 | with the INT8 linear codec the gap after every round of a run of any length stays within (max(drift, 1e-6) + 254 u)/253, where drift is one round's master movement and u bounds the rounding of the values that are written |
| `Qwd.RefreshStartsWithin` | src/lowbit_comm/adapters/sharded/qwd.py:83-90 | a refresh establishes that bound from any state |
| `Qwd.FloatCastsAreWithin` | src/lowbit_comm/adapters/sharded/qwd.py:73-90 | a cast with relative rounding, as to FP16 or BF16, meets the assumption of the two members above for masters of bounded size |
| `Qwd.EveryWindowRefreshes` | src/lowbit_comm/adapters/sharded/qwd.py:35-55 | of any `refresh_interval` consecutive steps one is a refresh, whatever the signals |
| `Qwd.WindowIsTight` | src/lowbit_comm/adapters/sharded/qwd.py:35-55 | with clear signals after warm-up the other steps between two multiples are all quantized |
| `Qwd.QuantizedStretchIsShort` | src/lowbit_comm/adapters/sharded/qwd.py:35-55 | in a run driven by the policy fewer than `refresh_interval` rounds separate two refreshes |
| `Qwd.RefreshesIff` | src/lowbit_comm/adapters/sharded/qwd.py:35-55 | a positive step is a refresh exactly during warm-up, for a sensitive tensor, without the capability, above the threshold or at a multiple of the interval; the reason is the first that applies |
| `Qwd.Construct` | src/lowbit_comm/adapters/sharded/qwd.py:18-33 | a policy is constructed exactly for a non-negative warm-up, a positive interval and a positive threshold |
| `Compiler.SelectionIsEvidenceGated` | src/lowbit_comm/compiler/pipeline.py:82-106 | explicit algorithms stay; an automatic one becomes compressed exactly on matching evidence of a speedup and native otherwise; operation, output and feedback never change |
| `Compiler.AutomaticIsCompressedIff` | src/lowbit_comm/compiler/cost_model.py:18-44 | an automatic program is compressed exactly on evidence whose target, topology and world size are the context's and whose speedup is positive; otherwise the fallback reason is the first that applies, and the evidence is named if it matches |
| `Compiler.OtherEvidenceIsNoEvidence` | src/lowbit_comm/compiler/cost_model.py:38-41 | evidence that differs in target, topology or world size compiles every program as no evidence does |
| `Compiler.CompilesIff` | src/lowbit_comm/backends/cuda/backend.py:76-96 | which programs compile, and to which executable, by device type, element type, output, algorithm, wire and extension |
| `Compiler.RejectedWith` | src/lowbit_comm/compiler/verifier.py:17-47 | each rejection by its own condition and the absence of the earlier ones |
| `Compiler.EffectiveVerifiesIff` | src/lowbit_comm/compiler/verifier.py:17-47 | a verified program's selection verifies too, except exactly for automatic reduced-shard programs with speedup evidence |
| `Compiler.AutoReducedShardIsRewritten` | src/lowbit_comm/compiler/pipeline.py:92-97 | a verified program whose selection does not verify |
| `Compiler.ShardIsReturnedIff` | src/lowbit_comm/backends/cuda/backend.py:85-96 | a shard is returned exactly by programs that name the reduce-scatter algorithm |
| `Compiler.ExecutableComputesMeanIff` | src/lowbit_comm/backends/cuda/backend.py:76-96 | an executable that returns a full tensor gives every rank the mean under a lossless codec if its kernels accept, and raises on every rank otherwise |
| `Compiler.SelectionPreservesMeaningIff` | src/lowbit_comm/compiler/pipeline.py:50-106 | a compiled full-tensor program gives every rank the native all-reduce result under a lossless codec exactly if it stays native, or there are at most eight ranks, the tensor is not empty and the wire is INT8 linear in groups of 64; otherwise every run raises on every rank |
| `Compiler.SpeedupEvidenceCanBreakProgram` | src/lowbit_comm/compiler/pipeline.py:92-97 | an automatic program on sixteen ranks that works without evidence and always raises with evidence of a speedup |
| `Compiler.OperationIsIgnored` | src/lowbit_comm/backends/cuda/backend.py:43-96 | the reduce operation does not influence what is compiled |
| `Compiler.MeanIsSumIff` | src/lowbit_comm/backends/cuda/executors.py:471-476 | a sum program gets the sum of an element exactly on one rank or where the sum is zero |
| `Compiler.SumProgramGetsMean` | src/lowbit_comm/backends/cuda/executors.py:471-476 | a concrete sum program whose ranks get 1 where the sum is 2 |

## Left out

- Floating-point rounding: values are reals. Weight differences carry one rounding per model write; the scale is not
  rounded to the element type, and `payload_nbytes` is integer ceiling division instead of a float `ceil`.
- 64-bit overflow of metadata words and of tensor sizes: integers are unbounded.
- CUDA kernels, Torch, NCCL, streams, device events and the GIL: replaced by the codec contract, the kernels' guards,
  transposition, concatenation, sums and one-way completion flags. Bit packing inside a byte is not modelled: a
  payload is a sequence of cells, `valueBytes` of them for the values of a group.
- Codecs other than INT8 linear: they are covered by the abstract codec, without an error bound.
- FullTensorRuns.AlignedRunsAreCorrect: runs of one compiled executable; other traffic on the same group or pool is
  left out.
- Executors.RequantizeInto: the kernel's order of work inside a group is not modelled, only what it writes.
- Hierarchy.ReturnsGlobalMean: `execute_hierarchical_mean` is a step machine over one value per rank, because all
  ranks take part; the tensor is updated in the machine's state rather than in an array.
- Topologies.SignatureRoundTrip: spaces and digits outside ASCII, which Python's `strip` and `int` accept too.
- Topologies.GroupForRankIsOwn: the type checks on `rank` are left out, like every check of a Python type.
- Ring.AllReduceCorrect: one value per chunk; a chunk of many elements behaves elementwise. The schedules have no
  executor in the repository, so steps have the usual meaning: add when reducing, overwrite when gathering.
- Tree.FinishedRankHoldsSum: reduce and broadcast along the compiled tree, as for the ring.
- Feedback.FeedbackTransaction.Commit: torch broadcasting is left out; a restored tensor of another size is an error.
  `prepare` with a stored residual of another size ignores it, which cannot happen for keys that contain the shape.
- Hook.FutureAndStore: setting a result on a future that the caller cancelled is left out, and so is the limit of four
  workers in the hook's completion pool, which only rules interleavings out.
- Workspace.CompletionWork.Wait: a callback that waits on its own work through the re-entrant lock, and resources
  without a `release`. Timeouts are a flag.
- Ownership.WorkReleasesAfterCompletion: an allocator returns a buffer nobody holds.
- CompressedWorks.AllWaitersAgree: says nothing about waits that do not return; timeouts and the split between
  Python and C++ errors are left out.
- Consumer.ShardedMasterState.Step: `state_dict`, `load_state_dict` and `requires_fp_refresh` are left out, and a
  gradient tensor has one dimension.
- Consumer.ShardedRefinesUnsharded: all ranks use the same hyperparameters in a step.
- Qwd.EveryWindowRefreshes: a relative error that is not a number is left out.
- P2P.KthReceiveDeliversKthSend: device placement, peers other than one, and receives that never complete.
- Programs.RunFullTensor: failures inside a collective or a kernel launch, and a group whose ranks compiled different
  sizes.
- Compiler.SelectionPreservesMeaningIff: backend registry, `ExecutionInfo`, the names of lowered stages and the
  reference backend.
- Code generators, build scripts, the extension loader, benchmarks and reports: file input and output only.
