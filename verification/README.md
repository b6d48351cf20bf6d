# The SCQL engine, verified

SCQL runs SQL over columns that are secret-shared between parties or private to one of them. This
project models the parts of its engine whose correctness is not visible from the code: oblivious
algorithms, which do the same arithmetic on every input and must still equal ordinary relational
operators, and the streaming layer, which must give the same answer as the in-memory one. Columns are
sequences of integers; division and percentages are over the reals.

Kernels of the MPC library appear as their mathematical contracts: `SimpleSort` is the stable
lexicographic sort (`Ordering.SortIndices`), `InvPermute` puts `x[i]` at `p[i]`, `Shuffle` is an arbitrary
permutation, and `SoPrf` is an arbitrary function, injective or not.

| modules | what they model |
|---|---|
| `Columns`, `Ordering`, `Outcomes`, `Partitions`, `Batching`, `Agreement` | permutations, sums, stable sorting, row partitions, batches, values gathered from all parties |
| `PrefixScan`, `SegmentedScan` | the Brent-Kung network behind `util::Scan`, the (value, mask) combiners, reverse expansion |
| `KeyGroups`, `JoinSeparation`, `Placement`, `JoinAlignment`, `JoinSpec`, `SecretJoin` | the oblivious equi-join, stage by stage and end to end |
| `GroupAggregates`, `WindowRank`, `PlainRank`, `Percentile` | oblivious group aggregates, rank, percent rank and percentile against their plaintext counterparts |
| `Storage`, `Channel`, `BucketInput`, `BucketSchedule`, `BucketChannels`, `Bucket`, `BucketJoin` | columns on disk, the bounded channel, the bucket operator: its readers, all schedules of its threads, its output |
| `TensorTables`, `Pipeline`, `PipelineJoin` | the pipeline over buckets, and a join streamed through it |
| `Lifetime`, `CaseWhen`, `Transfer`, `Replicate` | tensor reference counts, CASE WHEN, transfers in several messages, the cross product |

Main results:

- SecretJoin is the inner join, for all tables, shuffles and pseudo-random functions, or an error, with the
  exact condition for each (`SecretJoin.Execute`); its rows stand at known slots (`JoinSpec.BlockLayout`).
- Oblivious and plaintext RANK, PERCENT_RANK and PERCENTILE_DISC agree (`PlainRank.RanksAgree`,
  `PlainRank.PercentsAgree`, `Percentile.PercentilesAgree`, `Percentile.ReducePicksPlain`), the last under a
  condition given below, and each is what SQL defines by counting rows (`PlainRank.PlainRankCounts`,
  `PlainRank.PlainPercentCounts`, `WindowRank.SecretPercentCounts`, `Percentile.PlainPercentileMeaning`,
  `Percentile.ObliviousPercentileMeaning`).
- Whatever was written, and however it was split into files, the batches read back are those of the same
  column in memory (`Storage.RoundTrip`).
- The three-stage bucket operator never deadlocks and writes every batch it reads exactly once, under every
  schedule (`BucketSchedule.NoDeadlock`, `BucketSchedule.EveryBatchWritten`). It ends and stores every row
  exactly when a batch has at least 10 rows or there are no rows (`Bucket.BucketIff`); joining bucket by bucket
  is the whole join exactly when a batch has at least 10 rows or no rows match (`BucketJoin.BucketedExecution`).
- A batched pipeline's outputs are the concatenation of the batches' outputs (`Pipeline.RunPipeline`,
  `Pipeline.RunResults`, `Pipeline.BatchedMeaning`). When two parties stream a join, each with its own table,
  Bucket run and pipeline, their outputs line up and are the inner join (`PipelineJoin.StreamJoin`).
- With correct reference counts every node reads what the producers of its inputs computed, unless secret
  tensors are named like each other's symbols, and the tensor table and the counts end empty; the device
  symbols do not (`Lifetime.Session.RunPlan`).

Some properties one would expect hold only under a condition. Each is stated as an if-and-only-if:

- A `Push` that waits for room does not look at `closed_` again, so an empty `Pop` means the end exactly when
  no `Push` is waiting at `Close` (`Channel.SafeCloseIff`). The bucket operator always closes that way, so both
  its queues deliver everything (`BucketChannels.ClosedQueuesDeliver`).
- `Close` tests `closed_` before it takes the lock, so a second `Close` throws exactly when no two of them
  overlap (`Channel.CloseOnceIff`, `Channel.ClosedTwice`).
- The readers of `Bucket` get the batch size `batch_row_num / 10`, which is 0 below 10 rows. Then the disk
  reader reports the end at once and the memory reader hands out empty batches (`Storage.FirstBatches`): with a
  column on disk every row is lost, with all columns in memory the operator never ends (`Bucket.BucketIff`,
  `Bucket.FiveRowsOnDisk`, `Bucket.FiveRowsInMemory`).
- Secret tensors are stored as the device symbol `name.value` and deleted as `name`
  (engine/util/spu_io.cc:144-146, engine/framework/session.cc:359-370), so the symbols end empty exactly when no
  node has a secret output (`Lifetime.Session.RunPlan`). The only symbol a release can remove is that of `x`
  when a secret tensor is called `x.value`: if no two secret tensors are named like that, all symbols stay and
  all inputs are found (`Lifetime.AllKept`); otherwise a node may miss its input (`Lifetime.ClashDrops`).
- The fast paths of the oblivious percentile name the plaintext element exactly when they are not taken too
  early, which covers all groups of up to 10^9 rows (`Percentile.IndicesAgree`); on groups without repeated
  values the results agree exactly then (`Percentile.PercentilesAgreeIff`).
- A pipeline output is the concatenation of its batches when no input has its name; otherwise it is that input,
  because `Finish` puts the inputs back last (`Pipeline.FinalOutput`, `Pipeline.OutputLost`).
- `PipelineExecutor` keeps no reader for inputs in one slice but reads one for every input, so
  `UpdateTensorTable` leaves the vector exactly when local inputs have one slice and another party has more
  (`Pipeline.RunPipeline`, `Pipeline.OnePieceFails`).
- The Copy receiver takes an empty data batch for the end (`Transfer.CopyIsExact`, `Transfer.EmptyBatchEnds`).
- `RevertGroupMaskTransfer` inverts `TransferGroupMask` exactly on masks that end in 1
  (`GroupAggregates.RevertTransfer`).

Where comments and code differ the model follows the code: `TensorSlice::Next` is documented to return null
after the last slice (engine/core/tensor_slice.h:31) and returns empty tensors.

`dafny verify dfyconfig.toml` checks the whole project.

## Model

| member | source | states |
|---|---|---|
| `PrefixScan.FoldSplit` | engine/util/prefix_sum.cc:31-60 | for an associative operator a fold may be cut anywhere: the fact every bracketing of the network rests on |
| `PrefixScan.UpLevel` | engine/util/prefix_sum.cc:38-47 | one up-sweep level: cells that end a block of 2^i hold the fold of the whole block, all others keep their span |
| `PrefixScan.DownLevel` | engine/util/prefix_sum.cc:49-59 | one down-sweep level: the multiples of 2^(i-1) become finished prefixes |
| `PrefixScan.Scan` | engine/util/prefix_sum.cc:31-94 | for every length and every associative operator the two sweeps give the sequential inclusive scan |
| `SegmentedScan.GuardedAssociative` | engine/operator/oblivious_group_agg.cc:100-112 | an operator that is applied inside a group and restarted at a group start stays associative |
| `SegmentedScan.CombinersAssociative` | engine/operator/oblivious_group_agg.cc:100-215 | the (value, mask) combiners of sum, count, max, min and of the reverse copy are associative, so every bracketing agrees |
| `SegmentedScan.ParallelScan` | engine/util/prefix_sum.cc:69-94 | the parallel scan of a (value, mask) column is the sequential segmented scan |
| `SegmentedScan.ScanIsGroupFold` | engine/operator/oblivious_group_agg.cc:85-215 | row t of a segmented scan is the fold of the rows of its own group up to t, and of no others |
| `SegmentedScan.ExpandStep` | engine/util/spu_io.cc:102-125 | reverse expansion: a row with mark 1 takes the next row's value, every other row keeps its own |
| `KeyGroups.RunningMatch` | engine/operator/secret_join.cc:502-511 | on grouped rows the segmented sum is the weight of the earlier rows with the same key |
| `KeyGroups.ExpandedMatch` | engine/operator/secret_join.cc:525-531 | scan and reverse propagation give every row the weight of all rows with its key |
| `SecretJoin.CountKeyGroup` | engine/operator/secret_join.cc:481-532 | every row of the sorted merged table gets the exact number of left and of right rows with its key, and the running right count |
| `JoinSeparation.MergedGrouped` | engine/operator/secret_join.cc:198-205 | sorting by (keys, origin) leaves equal keys next to each other |
| `JoinSeparation.MergedRowCounts` | engine/operator/secret_join.cc:206-211 | the group weights of the sorted merged table are the two tables' own counts of the key |
| `JoinSeparation.SeparationPerm` | engine/operator/secret_join.cc:226-228 | the stable sort on the origin mark is: rows with 0 in order, then rows with 1 in order |
| `JoinSeparation.SeparatedRows` | engine/operator/secret_join.cc:198-228 | both sorts together leave each table stably sorted by its own keys |
| `JoinSeparation.RunningRightIndex` | engine/operator/secret_join.cc:249-252 | the running right count, read at the right rows, numbers the rows of each key 1..aR |
| `SecretJoin.MergeAndCount` | engine/operator/secret_join.cc:188-211 | stage 1: merged origin, payloads and counts are those of the sorted merged table |
| `SecretJoin.SplitByOrigin` | engine/operator/secret_join.cc:212-267 | stage 2: the columns of both tables after the second sort and the slices |
| `SecretJoin.Separate` | engine/operator/secret_join.cc:188-267 | stages 1 and 2 together: sorted payloads, partner counts, result marks that are 1 exactly on rows with a partner |
| `Placement.CountPosition` | engine/operator/secret_join.cc:62-89 | the two accumulation loops give every row its slot and the number of slots in use |
| `Placement.SlotInRange` | engine/operator/secret_join.cc:62-89 | marked rows take the last slot of consecutive blocks of count slots, unmarked rows lie behind all blocks |
| `Placement.SlotsDistinct` | engine/operator/secret_join.cc:62-89 | no two rows share a slot |
| `Placement.RowsFit` | engine/operator/secret_join.cc:302-322 | there are at least as many slots as rows and as blocks, so no dummy size is negative |
| `Placement.BuildPerm` | engine/operator/secret_join.cc:97-122 | for any function in place of the PRF: success exactly when its images separate, and then the result is a permutation whose prefix is p; otherwise an error |
| `Placement.InjectiveSeparates` | engine/operator/secret_join.cc:97-122 | an injective PRF always separates |
| `SecretJoin.PlaceTable` | engine/operator/secret_join.cc:283-299 | stages 3 and 4 for one table: the rows sit on their slots, or an error, exactly when the PRF images of the slots collide |
| `Placement.ExpandedBlock` | engine/operator/secret_join.cc:324-339 | after inverse permutation and reverse expansion every slot of a block holds the row that owns the block |
| `Placement.ExpandedTail` | engine/operator/secret_join.cc:324-339 | behind the blocks everything stays zero |
| `Placement.CopyCounts` | engine/operator/secret_join.cc:348-357 | the backward loop computes the suffix sums |
| `Placement.CopyNumber` | engine/operator/secret_join.cc:343-357 | the backward sum of placed count minus expanded mark is the copy number inside each block and 0 elsewhere |
| `JoinAlignment.GroupRange` | engine/operator/secret_join.cc:343-380 | in a sorted table the rows of a key are First .. First + Count |
| `JoinAlignment.BaseSymmetric` | engine/operator/secret_join.cc:343-380 | left and right blocks of a key start at the same slot |
| `JoinAlignment.EqualTotals` | engine/operator/secret_join.cc:273-280 | left and right fill equally many slots |
| `JoinAlignment.AlignedSlotTransposes` | engine/operator/secret_join.cc:359-370 | inside a block the formula sends offset s*aL + k to k*aR + s |
| `JoinAlignment.Transpose` | engine/operator/secret_join.cc:359-380 | for every slot of the joined table: its left row, its right row, and the slot of the expanded right table the formula moves there |
| `SecretJoin.AlignFormula` | engine/operator/secret_join.cc:341-374 | stage 6 computes exactly the block transposition, and fixes every slot behind the blocks |
| `SecretJoin.TargetIsPerm` | engine/operator/secret_join.cc:372-380 | the alignment is a permutation of all m slots |
| `SecretJoin.Align` | engine/operator/secret_join.cc:341-380 | stage 6 as a whole: a permutation and the result mark |
| `SecretJoin.JoinSize` | engine/operator/secret_join.cc:382-389 | the revealed size is the sum of the expanded marks |
| `SecretJoin.Emit` | engine/operator/secret_join.cc:324-404 | stages 5 and 6: every output column carries the payload of the paired rows, cut to the join size |
| `SecretJoin.JoinSeparated` | engine/operator/secret_join.cc:269-404 | stages 3 to 6 on separated tables are the inner join, or an error exactly on a collision |
| `JoinSpec.InnerJoinDistinct` | engine/operator/secret_join.cc:171-405 | in an inner join listed in order every matching pair occurs exactly once |
| `JoinSpec.LayoutIsInnerJoin` | engine/operator/secret_join.cc:324-404 | the slot-by-slot layout is the inner join in order of key, left row, right row |
| `JoinSpec.SameJoin` | engine/operator/secret_join.cc:324-404 | two tables have only one inner join in that order, so the output is determined |
| `JoinSpec.BlockLayout` | engine/operator/secret_join.cc:359-380 | in the inner join, and so in the output, slot Base + c*aR + s holds the c-th left row and the s-th right row of the key |
| `SecretJoin.JoinSizeByKey` | engine/operator/secret_join.cc:382-404 | the size of the join is the sum over the keys of left rows times right rows |
| `SecretJoin.Execute` | engine/operator/secret_join.cc:171-405 | end to end, for all tables (empty ones too), any number of key columns, any shuffle and any PRF: the output is the inner join, or an error, reported if and only if both tables have rows and a PRF collides on the slots |
| `SecretJoin.InjectiveCollisionFree` | engine/operator/secret_join.cc:97-122 | injective PRFs never collide, on any tables |
| `GroupAggregates.GroupMark` | engine/operator/oblivious_group_mark.cc:44-109 | 1 exactly on the last row of every run of equal key rows, for any number of rows and key columns |
| `GroupAggregates.RevertTransfer` | engine/operator/oblivious_group_agg.h:33-66 | reverting the shift restores a mask if and only if it ends in 1 |
| `GroupAggregates.TransferRevert` | engine/operator/oblivious_group_agg.h:33-66 | shifting the reverted mask restores it if and only if it starts with 0 |
| `GroupAggregates.TransferIsStartMask` | engine/operator/oblivious_group_agg.h:37-50 | the shifted group mark is the start mask of the same groups, and back |
| `GroupAggregates.CountFromStart` | engine/operator/oblivious_group_agg.cc:120-140 | the running count is the distance from the start of the group |
| `GroupAggregates.GroupEndSums` | engine/operator/oblivious_group_agg.cc:85-163 | on the last row of a group: sum, number and mean over all rows with that key |
| `GroupAggregates.GroupEndExtremes` | engine/operator/oblivious_group_agg.cc:173-215 | on the last row of a group: the largest and the smallest value among all rows with that key |
| `WindowRank.ObliviousRankIsRank` | engine/operator/oblivious_group_agg.cc:323-341 | on rows sorted by partition and order key, running count minus tie count plus 1 is the SQL rank |
| `WindowRank.ObliviousPercentRankIsPercentRank` | engine/operator/oblivious_group_agg.cc:224-255 | the same for the percent rank, partitions of one row included |
| `WindowRank.SecretRank` | engine/operator/oblivious_group_agg.cc:224-341 | for any table: after the sort, slot t holds rank and percent rank of the original row the sort put there |
| `WindowRank.SecretRankCounts` | engine/operator/oblivious_group_agg.cc:323-341 | for any table the oblivious rank is one plus the number of rows of the partition with a smaller order key |
| `WindowRank.SecretPercentCounts` | engine/operator/oblivious_group_agg.cc:224-255 | for any table the oblivious percent rank is that number over the number of other rows of the partition, and 0 for a row alone |
| `PlainRank.NumberTies` | engine/operator/window.cc:283-309 | the ranking loop gives every row one plus the start of its tie group |
| `PlainRank.RankRows` | engine/operator/window.cc:283-309 | for any sort that breaks ties freely, every row of a partition gets its SQL rank |
| `PlainRank.PercentRankRows` | engine/operator/window.cc:249-278 | every row of a partition gets its SQL percent rank |
| `PlainRank.ProcessResults` | engine/operator/window.h:76-91 | fails exactly on a length mismatch or a position out of range; otherwise the i-th result goes to the i-th position and all other positions keep their value |
| `PlainRank.CollectPositions` | engine/operator/window.cc:133-140 | the position lists are exactly the rows of each partition, in ascending order |
| `PlainRank.PartitionRank` | engine/operator/window.cc:158-174 | a rank computed inside the rows of a partition is the rank in the whole table |
| `PlainRank.PartitionPercent` | engine/operator/window.cc:249-278 | the same for the percent rank |
| `PlainRank.Scatter` | engine/operator/window.h:76-91 | a partition's results go to its own rows and leave all others alone |
| `PlainRank.ExecuteInPlain` | engine/operator/window.cc:127-180 | an error if and only if some partition is empty or the directions do not fit the sort columns; otherwise every row holds its SQL rank |
| `PlainRank.ExecutePercentInPlain` | engine/operator/window.cc:127-180 | the same run with PERCENT_RANK: every row holds its SQL percent rank |
| `PlainRank.PlainRankCounts` | engine/operator/window.cc:283-309 | the rank in every row of the output is one plus the number of rows of its partition that come first under the sort options |
| `PlainRank.PlainPercentCounts` | engine/operator/window.cc:249-278 | the percent rank in every row is that number over the number of other rows of its partition, and 0 for a row alone |
| `PlainRank.RanksAgree` | engine/operator/window.cc:127-180 | the column the plaintext operator returns is the oblivious one, row for row |
| `PlainRank.PercentsAgree` | engine/operator/window.cc:127-180 | the same for the percent ranks of a whole table |
| `PlainRank.DirectedOrder` | engine/operator/window.cc:194-208 | keys with descending columns negated order rows as the sort options do, and keep ties |
| `PlainRank.SortedByDirected` | engine/operator/window.cc:194-221 | an index is sorted under the options if and only if it sorts the directed keys in ascending order |
| `PlainRank.GetSortedIndices` | engine/operator/window.cc:194-221 | fails exactly when the directions do not fit the columns; otherwise sorts the directed keys |
| `PlainRank.DirectedRank` | engine/operator/window.cc:194-309 | the rank under the directed keys is one plus the number of rows of the partition that come first under the options |
| `Percentile.GeneralPath` | engine/operator/oblivious_group_agg.cc:284-314 | exactly one row of a group has the propagated target count, so the group-end sum is that row's value |
| `Percentile.ObliviousPercentile` | engine/operator/oblivious_group_agg.cc:270-315 | on the last row of an ascending group stands the element the index rule names, fast paths included |
| `Percentile.IndicesAgree` | engine/operator/oblivious_group_agg.cc:273-283 | plaintext and oblivious index agree if and only if a fast path is not taken too early |
| `Percentile.IndicesAgreeBelowBillion` | engine/operator/oblivious_group_agg.cc:273-283 | they agree for every group of up to 10^9 rows and every percent |
| `Percentile.IndicesDiffer` | engine/operator/oblivious_group_agg.cc:273-283 | beyond that they can differ: 2*10^9 rows at 9*10^-10 give index 0 against 1 |
| `Percentile.PercentilesAgree` | engine/operator/group_agg.cc:236-263 | plaintext and oblivious PERCENTILE_DISC return the same value whenever no fast path is taken too early |
| `Percentile.PercentilesAgreeIff` | engine/operator/group_agg.cc:236-263 | on a group without repeated values they return the same value if and only if no fast path is taken too early |
| `Percentile.ReducePicksPlain` | engine/operator/reduce.cc:294-332 | the one-hot reduction selects the same element as the plaintext operator, and returns empty input unchanged |
| `Percentile.PlainPercentileMeaning` | engine/operator/group_agg.cc:236-263 | the result is a value of the group: the values up to it are at least the percentage of all, the values below it are less; the least value for percent 0 |
| `Percentile.PlainPercentileFails` | engine/operator/group_agg.cc:236-244 | an error exactly on an empty group or a percent outside [0, 1] |
| `Percentile.ReducePercentileMeaning` | engine/operator/reduce.cc:294-332 | the same element, over counts, for the one-hot reduction |
| `Percentile.ObliviousPercentileMeaning` | engine/operator/oblivious_group_agg.cc:270-315 | the same element, over counts of the rows with the key, on the last row of an ascending group, for up to 10^9 rows or whenever no fast path is taken too early |
| `Storage.TensorWriter.WriteBatch` | engine/core/tensor_constructor.cc:71-97 | any batch is appended to the rows written so far; closed files stay exactly full |
| `Storage.TensorWriter.WriteChunks` | engine/core/tensor_constructor.cc:99-107 | the same for a column in chunks |
| `Storage.TensorWriter.Finish` | engine/core/tensor_constructor.cc:109-122 | all rows in order; every file but the last exactly full, the last not empty |
| `Storage.FileBatchReader.ReadNext` | engine/util/disk/arrow_reader.cc:51-75 | up to the asked number of rows of one file, across its record batches |
| `Storage.MemBatchReader.Next` | engine/core/tensor_batch_reader.cc:19-26 | the next batch of a column in memory |
| `Storage.DiskBatchReader.FreshReader` | engine/core/tensor_batch_reader.h:67-80 | skips files without rows; fails only when no rows are left |
| `Storage.DiskBatchReader.Next` | engine/core/tensor_batch_reader.cc:28-56 | the next batch whatever the file split: full, or all rows left; nothing for batch size 0 |
| `Storage.ReadDisk` | engine/core/tensor_batch_reader.cc:28-56 | reading a disk column to the end gives its batches |
| `Storage.ReadMem` | engine/core/tensor_batch_reader.cc:19-26 | reading a column in memory to the end gives the same batches |
| `Storage.RoundTrip` | engine/core/tensor_constructor.cc:71-122 | for all chunks written, file limits and batch sizes: reading back yields the written rows, in the memory reader's batches |
| `Storage.FirstBatches` | engine/core/tensor_batch_reader.cc:19-56 | the two readers agree on the first batch if and only if the batch size is positive or there are no rows |
| `Batching.BatchesInStep` | engine/core/tensor_batch_reader.cc:19-56 | columns of equal length batch in step |
| `Channel.RunKeepsFifo` | engine/util/concurrent_queue.h:33-90 | over every interleaving: popped items followed by queued items are the pushed items in order, within capacity |
| `Channel.NoEndBeforeClose` | engine/util/concurrent_queue.h:64-80 | over every run without a Close no Pop reports the end, however empty the queue is |
| `Channel.SafeCloseIff` | engine/util/concurrent_queue.h:64-90 | an empty Pop means everything is delivered, in every continuation, if and only if no Push is waiting at Close |
| `Channel.UnsafeCloseReachable` | engine/util/concurrent_queue.h:33-90 | at every capacity a run from the new channel closes it over a waiting Push, and a Pop can then report the end too early |
| `Channel.CloseOnceIff` | engine/util/concurrent_queue.h:83-90 | over every interleaving more than one Close gets past its test if and only if two of them overlap |
| `Channel.ClosedTwice` | engine/util/concurrent_queue.h:83-90 | two overlapping Close calls both succeed |
| `Channel.SimpleChannel.PushEnter` | engine/util/concurrent_queue.h:33-46 | the locked section of Push up to its first wait is one step of the protocol |
| `Channel.SimpleChannel.PushWake` | engine/util/concurrent_queue.h:40-43 | the rest of a waiting Push: no second look at closed |
| `Channel.SimpleChannel.TryPop` | engine/util/concurrent_queue.h:64-80 | Pop: an item, the end exactly on a closed empty channel, or still waiting exactly on an open empty one |
| `Channel.SimpleChannel.CloseChannel` | engine/util/concurrent_queue.h:87-90 | the locked part of Close: closes without testing again |
| `Channel.SimpleChannel.CloseTest` | engine/util/concurrent_queue.h:83-86 | the test of Close, outside the lock: fails exactly on a closed channel |
| `BucketSchedule.StepConserves` | engine/operator/bucket.cc:206-294 | no step of reader, tasks, filter or writer loses or duplicates a batch |
| `BucketSchedule.ClosesSafely` | engine/operator/bucket.cc:206-287 | no push to a closed channel, and no push waiting when a channel is closed |
| `BucketSchedule.RunKeepsInvariant` | engine/operator/bucket.cc:206-294 | the invariant holds in every reachable state |
| `BucketSchedule.EveryBatchWritten` | engine/operator/bucket.cc:206-294 | under every schedule a finished run has written every batch of its readers exactly once, and the readers have ended |
| `BucketSchedule.NoDeadlock` | engine/operator/bucket.cc:206-294 | before the end some thread can always move |
| `BucketSchedule.RunsAreBounded` | engine/operator/bucket.cc:206-294 | when the readers end, every schedule ends |
| `BucketSchedule.Completes` | engine/operator/bucket.cc:206-294 | when the readers end, every reachable state can be carried on to the end |
| `BucketSchedule.GoesOn` | engine/operator/bucket.cc:206-294 | when they do not, runs of any length exist, still reading |
| `BucketSchedule.EndsIff` | engine/operator/bucket.cc:206-294 | some bound holds for all schedules if and only if the readers end |
| `BucketChannels.ReadStep` | engine/operator/bucket.cc:206-291 | every step of the operator is a run of channel steps on the read queue, whichever unfinished tasks wait in Push |
| `BucketChannels.WriteStep` | engine/operator/bucket.cc:206-234 | the same on the write queue, with the filter perhaps waiting |
| `BucketChannels.StartsToWait` | engine/util/concurrent_queue.h:33-46 | a task or the filter that finds its queue full waits: a step of the channel alone |
| `BucketChannels.RunsOnNewChannels` | engine/operator/bucket.cc:206-294 | every run of the operator from its start is a run of both channels from new ones |
| `BucketChannels.ClosedQueuesDeliver` | engine/operator/bucket.cc:206-294 | in every reachable state a closed queue has no waiting Push, and from then on an empty Pop means that all batches were delivered |
| `Bucket.BucketIndices` | engine/operator/bucket.cc:246-270 | the index list of bucket j holds exactly the rows with hash modulo the number of buckets equal to j, in ascending order |
| `Bucket.FilterByIndex` | engine/operator/bucket.cc:121-145 | every column split by bucket |
| `Bucket.WriteArrays` | engine/operator/bucket.cc:109-119 | every piece appended to the store of its column and bucket |
| `Bucket.ProcessBatch` | engine/operator/bucket.cc:206-272 | one batch through all stages keeps every column of a bucket on the same rows in the same order |
| `BucketInput.ReadArrays` | engine/operator/bucket.cc:93-107 | one call on every reader: a batch exactly when rows are left and the size is positive or no column is on disk; it is the same rows of every column |
| `BucketInput.ReadSizeIsTenth` | engine/operator/bucket.cc:173-177 | the readers are asked for a tenth of the batch, rounded down |
| `BucketInput.SuppliedExactly` | engine/operator/bucket.cc:93-107 | the i-th call succeeds exactly when the number of batches says so: rows over size rounded up, none, or without end |
| `BucketInput.ReadBatches` | engine/operator/bucket.cc:232-237 | the reading loop, when it ends, has read all rows between the cuts for a positive size, every column in the batches a reader of its own would give, and none for size 0 |
| `Bucket.BucketCorrect` | engine/operator/bucket.cc:206-299 | under every schedule the store of column c and bucket j ends with the rows whose key hash modulo the number of buckets is j, each exactly once and no others, in one order for all columns |
| `Bucket.WriteBatches` | engine/operator/bucket.cc:206-299 | from empty stores, the batches in the order they reach the writer |
| `Bucket.StoreRun` | engine/operator/bucket.cc:147-299 | the output of any ended run on any inputs: all columns of a bucket at the same rows, and for a positive size row r exactly once in the bucket of its hash and in no other |
| `Bucket.BucketIff` | engine/operator/bucket.cc:172-299 | for all inputs: all schedules end and every row is stored if and only if batch_row_num is at least 10 or there are no rows |
| `Bucket.FiveRowsOnDisk` | engine/operator/bucket.cc:172-177 | with 5 rows per batch and a column on disk every run ends with empty buckets |
| `Bucket.FiveRowsInMemory` | engine/operator/bucket.cc:172-177 | with 5 rows per batch and a column in memory the operator does not end |
| `Agreement.SmallestOption` | engine/framework/session.cc:205-218 | the fold gives every party the smallest value, whatever its own |
| `Agreement.LargestGathered` | engine/operator/bucket.cc:76-90 | the fold gives every party the largest value |
| `BucketJoin.ChoosePlan` | engine/operator/bucket.cc:161-182 | the tables stay whole exactly when every length is within every threshold; otherwise the number of buckets is the least that covers every length with every batch size |
| `BucketJoin.SamePlan` | engine/operator/bucket.cc:161-182 | all parties take the same branch with the same number of buckets |
| `BucketJoin.BucketwiseJoin` | engine/operator/bucket.cc:246-270 | the joins of the buckets together are the join of the whole tables, as a multiset |
| `BucketJoin.BucketedExecution` | engine/operator/bucket.cc:147-299 | for what both parties really store (any schedules, any media, each with its own plan): bucket by bucket is the whole join if and only if the agreed batch_row_num is at least 10 or no rows match |
| `TensorTables.TensorTable.AddTensor` | engine/framework/tensor_table.cc:21-30 | fails exactly on a name that exists |
| `TensorTables.TensorTable.AddOrUpdateTensor` | engine/framework/tensor_table.cc:32-36 | sets one name |
| `TensorTables.TensorTable.RemoveTensor` | engine/framework/tensor_table.cc:48-51 | removes one name |
| `Pipeline.PipelineExecutor.Open` | engine/services/pipeline.cc:30-77 | the constructor: fails exactly when an input is missing or slice numbers differ; the batch number is the largest of all parties |
| `Pipeline.PipelineExecutor.UpdateTensorTable` | engine/services/pipeline.cc:79-90 | replaces every input by its next slice; runs out of range exactly when inputs exist here in one piece and elsewhere in several |
| `Pipeline.PipelineExecutor.FetchOutputTensors` | engine/services/pipeline.cc:92-115 | moves every output to its writer; fails exactly when one is missing or listed twice |
| `Pipeline.PipelineExecutor.Finish` | engine/services/pipeline.cc:117-135 | adds the outputs in one piece and puts back the inputs still present; fails exactly when an output name is taken or listed twice, after adding those before it |
| `Pipeline.RunPipeline` | engine/services/engine_service_impl.cc:469-545 | the whole run of a pipeline, with the exact conditions for each way it ends |
| `Pipeline.FinalOutput` | engine/services/pipeline.cc:92-125 | the final output is the concatenation of the outputs of the batches, or the input of that name if there is one |
| `Pipeline.FinalInput` | engine/services/pipeline.cc:126-134 | an input is whole again if and only if the nodes did not remove it or an output has its name |
| `Pipeline.RunResults` | engine/services/pipeline.cc:79-135 | a batched run that succeeds: every output is its batches in order, or the input of that name; every input still there is what it was before |
| `Pipeline.OnePieceFails` | engine/services/pipeline.cc:79-90 | one input in one piece here and two slices at another party: the run fails |
| `Pipeline.OutputLost` | engine/services/pipeline.cc:117-135 | an output named like an input: its two batches are gone and the input remains |
| `Pipeline.BatchedMeaning` | engine/services/pipeline.cc:79-115 | for nodes that compute f of the inputs, batched execution is f on every bucket, concatenated |
| `Pipeline.ChunksAre` | engine/services/pipeline.cc:79-115 | whatever the nodes of batch k leave for slice k of the inputs is written as batch k, also when it depends on k |
| `Pipeline.AllFilesRead` | engine/core/tensor_slice.cc:19-33 | n slices are the first n buckets and then nothing: every bucket is read, also when another party has more |
| `PipelineJoin.Publish` | engine/operator/bucket.cc:295-300 | the buckets of every column are added to the table; fails exactly when a name is taken or listed twice |
| `PipelineJoin.RunSide` | engine/services/engine_service_impl.cc:469-545 | Bucket and pipeline at one party, any schedule: when it fails, and that its outputs hold the rows its buckets give, bucket after bucket, one bucket included |
| `PipelineJoin.StreamedPairs` | engine/operator/bucket.cc:246-270 | what the two parties take are the two sides of one list of pairs, which joins the whole tables if and only if rows are read or none match |
| `PipelineJoin.StreamJoin` | engine/services/engine_service_impl.cc:469-545 | two parties, each with its own table, schedule and steps, and any join of every bucket: their outputs are their columns at the two sides of one list of pairs, and for a positive batch size that list is the inner join of the whole tables in some order |
| `Lifetime.ConsumeCounts` | engine/framework/session.cc:378-387 | a name is erased and listed exactly when the positions that list it are as many as its count; otherwise they are subtracted from it |
| `Lifetime.DeclareAt` | engine/framework/session.cc:388-402 | a new name is listed exactly when its count is 0 and counted otherwise |
| `Lifetime.Session.DelTensors` | engine/framework/session.cc:359-370 | each listed name leaves the tensor table, or else the symbol of exactly that name is deleted |
| `Lifetime.Session.ReadInputs` | engine/util/spu_io.cc:144-146 | the i-th value read is the tensor of the i-th name, by its name in the table or else by its value name among the symbols |
| `Lifetime.Session.AddOutputs` | engine/util/spu_io.cc:144-146 | plain outputs are stored under their name, secret ones under their value name |
| `Lifetime.Session.UpdateRefName` | engine/framework/session.cc:373-405 | the new counts and both stores; fails exactly when a counted name is declared again |
| `Lifetime.RefsStep` | engine/framework/session.cc:373-405 | one node of a planned run: the counts are the uses left, and exactly the names without uses left are removed |
| `Lifetime.UsesCount` | engine/framework/session.cc:378-387 | the uses left of a name are the pairs of node and position that still list it |
| `Lifetime.PlannedByPlaces` | engine/framework/session.cc:373-405 | the plan condition spelled out: inputs come from earlier nodes, names are new, and ref_num is the number of pairs of node and position that list the output |
| `Lifetime.Session.RunNode` | engine/framework/operator.h:30-34 | execute then release: the node finds all inputs with their true values, unless a secret one has lost its symbol |
| `Lifetime.Session.RunNodes` | engine/framework/operator.cc:24-39 | every prefix of a planned run gets through exactly when no secret input has lost its symbol; a plain tensor is there exactly while it has uses left, a secret one as long as its symbol is not dropped |
| `Lifetime.Session.RunPlan` | engine/framework/session.cc:359-405 | in a whole planned run the i-th value a node reads is what the node that produces its i-th input computed from its own values; table and counts end empty; the symbols left are those of the secret outputs not dropped, and none if and only if there was no secret output |
| `Lifetime.KeptIff` | engine/framework/session.cc:359-405 | some symbol stays whenever there was a secret output: at least the one with the longest name |
| `Lifetime.AllKept` | engine/framework/session.cc:359-405 | if no secret tensor is named like the symbol of another, all nodes read their inputs and the symbols of all secret outputs stay |
| `Lifetime.OneSecretStays` | engine/framework/session.cc:359-405 | one node with one unused secret output x: released at once, and x.value stays |
| `Lifetime.ClashDrops` | engine/framework/session.cc:359-405 | releasing a secret tensor called y.value takes the symbol of y, and a later node does not find it |
| `CaseWhen.TransformConditionData` | engine/operator/case_when.cc:163-191 | exactly one 1 per row: at the first boolean condition that is 1 or integer condition that is not 0, or else at the end |
| `CaseWhen.CaseWhenShare` | engine/operator/case_when.cc:193-215 | every row holds the value of the first boolean condition that is 1 or integer condition that is not 0, or the else value; the multiply-add fold is the nested if/else chain |
| `Transfer.Link.SendMassive` | engine/util/communicate_helper.h:31-56 | the messages of a transfer: one count and every batch |
| `Transfer.FullBatches` | engine/util/communicate_helper.h:31-56 | every message but the last has 1000000 items, the last is not empty, and no data gives no batch |
| `Transfer.Link.RecvMassive` | engine/util/communicate_helper.h:58-83 | rebuilds the data of the oldest transfer and takes exactly its messages |
| `Transfer.RoundTrip` | engine/util/communicate_helper.h:31-83 | for every length: the data arrives and nothing is left over |
| `Transfer.CopyStream.SendTable` | engine/operator/copy.cc:90-126 | the sent batches, then an empty one |
| `Transfer.CopyStream.ReceiveTable` | engine/operator/copy.cc:130-157 | everything up to the first empty batch |
| `Transfer.CopyIsExact` | engine/operator/copy.cc:90-157 | all rows arrive and nothing is left over if and only if no data batch is empty |
| `Transfer.EmptyBatchEnds` | engine/operator/copy.cc:130-157 | batches [] and [1]: nothing arrives and the second batch stays behind |
| `Replicate.ExtendArray` | engine/operator/replicate.cc:68-110 | for any chunking: all rows repeated, or every row repeated |
| `Replicate.CrossIndex` | engine/operator/replicate.cc:141-199 | output row i pairs left row i mod nl with right row i div nl |
| `Replicate.CrossOnce` | engine/operator/replicate.cc:141-199 | every (left, right) pair occurs exactly once |
| `Replicate.Execute` | engine/operator/replicate.cc:141-199 | both outputs line up as the cross product |

## Left out

- Secrecy, and the inside of MPC, PSI and HE kernels: only their input-output contracts are used.
- NULL validity columns, string columns, and fixed-point rounding: values are exact integers and reals.
- Integer widths: no overflow of 64-bit sums; in `ScanParallel` the 32-bit shift `1 << i` and in the percentile
  operators the casts of positions to `int` are taken as exact.
- `batch_row_num` of 0, which the bucket operator divides by, and percents outside [0, 1], which
  `ObliviousPercentileDisc` rejects when it reads its attribute.
- Record batches without rows inside a file: `ArrowWriter::WriteBatch` never writes one
  (engine/util/disk/arrow_writer.cc:35-44).
- Calls with empty columns to `TransferGroupMask` and `RevertGroupMaskTransfer`: their slice ends at -1.
- The plaintext and PSI-based Join and In operators: the bucket-wise theorem takes any correct join per bucket.
- RowNumber, Sort, and the remaining aggregates: easier variants of what is here.
- Exceptions inside the threads of `Bucket`: runs are without exceptions, as step relations over complete batches.
- Condition variables of `SimpleChannel`: lock sections, and the test of `Close` before its lock, are atomic steps;
  wake-ups and fairness are not modelled.
- The file per bucket of `DiskBucketTensorConstructor`: a bucket is the sequence of rows appended to it.
- The writers inside `PipelineExecutor`: a list of batches, with the behaviour proved of `Storage.TensorWriter`; output
  types and directories are not modelled, and reading past `tensor_readers_` is an error value.
- Reference counts in batched runs: they depend on how the planner assigns them across batches.
- Parallel execution of nodes, session states and timeouts.
- The batch reader of Arrow tables in Copy: any sequence of batches, empty ones included.
- Serialization of messages: a message is its contents, and `Recv` is called when a message is there.
- Column types in Replicate and CaseWhen, the private CASE WHEN (a call to Arrow), and `Validate` methods.
