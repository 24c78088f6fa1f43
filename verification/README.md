# Verified models of an RL post-training code base

This project models, in Dafny, the parts of the repository whose correctness
rests on index arithmetic, in-place updates or interleavings, and proves what
those parts are for:

- **GVPO scheduling and loss.** Two rounds of Karmarkar-Karp partitioning place
  the rows of a batch into a (rank, micro-batch, slot) layout; each rank then
  cuts its chunk into mini- and micro-batches and computes a loss against group
  means gathered from all ranks. The summed loss is shown to be the
  single-machine loss of the batch in its original order.
- **Advantages and loss aggregation.** The reversed, masked GAE loop, the
  in-place and the vectorised leave-one-out estimators, and the accumulation of
  micro-batch losses, each against a plain mathematical definition.
- **The batch container.** Padding, chunking, splitting, concatenation,
  repetition, unfolding, folding, selection and reordering, written once for the
  tensor side and once for the array side as the code does, and shown to follow
  one common index map; distributed row-wise execution equals local execution.
- **Fault recovery.** A transition system of trainer, autosave thread, crashes
  and restarts over an abstract file store, with the actor's methods proved to
  take its steps.
- **The JSON reader and the message filter.** The recursive-descent parser
  against a grammar given as functions; what may be written as an object, with
  every choice of quotes, escapes, blanks, commas and letter case, and that the
  reader accepts exactly that; the round trip. The `<think>` filter and the
  removal of the block.
- **Checkpoint layouts.** Grouped QKV rows, tensor-parallel shards and their
  merge, pipeline stages and their renumbering, expert ownership and the
  parameter count check.
- **Dynamic sampling** and **deep comparison** of object graphs.

Tensors and arrays are sequences of rows, token-level vectors are sequences of
reals, and real arithmetic is exact. Files, crashes and interleavings are
explicit; everything else outside the process is a parameter.

## How it is organised

| files | subject |
|---|---|
| `Options`, `Results`, `Sequences`, `RowMaps` | shared vocabulary: sums, permutations, flattening, the libraries' ways of cutting a dimension |
| `BalancedPartition`, `GvpoSchedule`, `GvpoLoss`, `GvpoStep` | partitioner, batch balancing, loss, one step end to end |
| `MaskedGae`, `LeaveOneOut`, `LossAggregation` | advantage and loss algebra |
| `DataProto`, `DataChunks`, `DataRepeat`, `DataReshape`, `Dispatch`, `BatchObject` | the batch container and its dispatch to workers |
| `DeepEqual`, `DeepEqualExact` | comparison of object graphs |
| `TokenLog`, `RecoveryProtocol`, `TokensDict` | the fault-recovery log, protocol and actor |
| `PyStrings`, `JsonSpec`, `JsonParser`, `JsonText`, `JsonReads`, `JsonAccepts`, `JsonRoundTrip`, `ThinkBlock` | text handling |
| `QkvLayout`, `PipelineShards`, `LayerLayout`, `StageConversion`, `ExpertCopy` | checkpoint conversion and merging |
| `DynamicSampling` | filtering and accumulation of prompt groups |

`dafny verify dfyconfig.toml` checks the whole project.

## What does not hold as promised

The model keeps the code as it is. Where the code, a test or a comment promises
more, a lemma or a contract gives the exact condition:

- The ragged case of the batch balancer never succeeds with a full first phase
  (a float is used as a slice bound). A batch shorter than one slot is reordered
  exactly when it has whole groups, more than one, and those behind the first
  split over the ranks; the first group is then lost, and the last row taken in
  its place (`GvpoSchedule.BalanceBatch`, `GvpoSchedule.LostGroupRepeatsLast`).
- The two leave-one-out forms disagree exactly on lone rows with a non-zero
  score (`LeaveOneOut.FormsAgreeIff`).
- The scaled losses of micro-batches with given masks add up to the mini-batch
  loss, whatever the losses are, exactly when every micro-batch with a token is
  scaled by its share of the mode's divisor (`LossAggregation.AccumulatesIff`).
  For `token-mean` that is a condition on the token counts
  (`LossAggregation.TokenMeanAccumulates`), which a row of padding breaks
  (`LossAggregation.TokenMeanDoesNotAccumulate`); for `seq-mean-token-sum-norm`
  it says that no such micro-batch is scaled (`LossAggregation.SumNormAccumulates`).
  For given losses and equal micro-batches, the latter mode is exact only with a
  single micro-batch or a zero loss (`LossAggregation.SumNormAccumulation`).
- Leaving an iteration is safe for the tokens of later ones exactly when one of
  its requests was recorded or it was checkpointed: otherwise a crash in the next
  iteration can lose recorded tokens (`RecoveryProtocol.LeavingIsSafeIff`,
  `RecoveryProtocol.EmptyRolloutLosesTokens`). A message that comes after its log
  was cleared is safe unless it completes the cleared log of an iteration that is
  not checkpointed, with other ids (`RecoveryProtocol.LateUpdateIsSafeIff`).
- Loading keeps the entries of late messages when there is no file to load, so
  the next iteration inherits them (`RecoveryProtocol.ReloadBringsBack`,
  `RecoveryProtocol.StaleEntriesAreInherited`), and what a restart brings back is
  a prefix of what was recorded exactly when there is a file
  (`RecoveryProtocol.ReloadIsPrefixIff`).
- The deep comparison decides structural equality exactly for first arguments
  without a cycle (`DeepEqualExact.DecidesIffAcyclic`).
- Removing `<think>` blocks is idempotent exactly when no cut joins an opening tag
  that a closing tag follows (`ThinkBlock.RemovalIsIdempotentIff`), which the
  filter ensures and a rejected message can break (`ThinkBlock.RemovalOfRejected`).
- Unfolding columns without a key list fails as soon as there is an array column
  (`DataReshape.UnfoldMovesRowsAlike`).
- No pipeline shards exist for some layer counts, for example five layers on
  four ranks (`PipelineShards.GetDynamicPipelineShards`).
- Renumbering goes wrong exactly behind an empty stage (`LayerLayout.MergeRestoresIff`),
  and the parameter count check passes exactly when the expert-parallel ranks
  divide the experts, and cannot be evaluated on a rank without a local expert
  (`ExpertCopy.ConvertLayer`).
- Reordering a batch without tensor columns fails (`BatchObject.Batch.Reorder`).
- Automatic padding leaves the caller's batch padded (`BatchObject.DispatchAutoPadded`).

## Model

| member | source | states |
|---|---|---|
| BalancedPartition.IndicesAscend | verl/verl/utils/seqlen_balancing.py:144-144 | the order in which items are dealt out is ascending by weight |
| BalancedPartition.MergeOppositeWithin | verl/verl/utils/seqlen_balancing.py:113-116 | merging the largest bins of one state with the smallest of another does not add their spreads up: a common bound stays a bound |
| BalancedPartition.KarmarkarKarp | verl/verl/utils/seqlen_balancing.py:137-164 | whatever states the heap returns first, the last state has `k` bins of one size that together hold each index exactly once, and its totals differ by no more than the weights of items dealt out together |
| BalancedPartition.GetSeqlenBalancedPartitions | verl/verl/utils/seqlen_balancing.py:213-254 | an equal-size partition of the index set exactly when there are items, `k` is positive and divides their number, with totals within the largest gap in a row of `k` items of the sorted list; otherwise an assertion or, for `k` = 0, the modulus fails |
| BalancedPartition.RangeBoundsRows | verl/verl/utils/seqlen_balancing.py:144-152 | the range of all weights bounds that gap |
| RowMaps.SplitTwice | verl/recipe/gvpo/gvpo_dp_actor.py:402-416 | cutting into mini-batches and those into micro-batches is cutting into micro-batches |
| GvpoSchedule.SpliceRanksElsewhere | verl/recipe/gvpo/gvpo_ray_trainer.py:47-49 | filling one micro-batch slot on all ranks leaves every other slot of every rank alone |
| GvpoSchedule.PlaceSlots | verl/recipe/gvpo/gvpo_ray_trainer.py:40-49 | after the triple loop each slot holds, rank by rank, blocks whose rows are those of the slot's prompt groups |
| GvpoSchedule.GroupRowsMembers | verl/recipe/gvpo/gvpo_ray_trainer.py:42-43 | a row is among the rows of listed groups exactly when its prompt is listed, and as often |
| GvpoSchedule.GroupRowsPermutation | verl/recipe/gvpo/gvpo_ray_trainer.py:41-43 | the rows of a permutation of all groups are a permutation of the batch |
| GvpoSchedule.EvenScheduled | verl/recipe/gvpo/gvpo_ray_trainer.py:39-57 | a fully filled table makes the order a permutation of the batch in which every slot is a union of whole prompt groups |
| GvpoSchedule.ScheduleEven | verl/recipe/gvpo/gvpo_ray_trainer.py:22-54 | the divisible branch returns such a schedule for any sequence lengths |
| GvpoSchedule.BalanceBatch | verl/recipe/gvpo/gvpo_ray_trainer.py:9-61 | which branch ends how: the group assertion, the float slice bound, a failed partition, a short ragged batch that is reordered exactly when it fits and then without its first group, or a schedule with `global_idx` a permutation of the batch |
| GvpoSchedule.LostGroupRepeatsLast | verl/recipe/gvpo/gvpo_ray_trainer.py:39-60 | the places left at -1 take the last row as often as the lost group has rows |
| GvpoLoss.PenaltiesAreLoss | verl/recipe/gvpo/gvpo_core_algos.py:55-59 | the sum of the rows' penalties over `n - 1` is the loss that the expanded square defines, non-negative, and 0 exactly when every centred log-ratio is its reward |
| GvpoLoss.ComputePolicyLossGvpo | verl/recipe/gvpo/gvpo_core_algos.py:39-59 | the loss exactly when every gathered group has `n` members; `2(n-1)` times it is the sum of squared centred log-ratios minus twice their products with the rewards plus the squared rewards, and it is 0 exactly when they agree; otherwise the assertion fails for an incomplete group |
| GvpoLoss.Plan.WholeGroups | verl/recipe/gvpo/gvpo_ray_trainer.py:39-57 | at each slot the rows of all ranks are whole groups of `n` |
| GvpoLoss.Plan.SlotComplete | verl/recipe/gvpo/gvpo_core_algos.py:48-53 | the loss's group-size assertion holds for every slot of a schedule |
| GvpoLoss.Plan.SlotMean | verl/recipe/gvpo/gvpo_core_algos.py:49-54 | the mean computed from the gathered rows of a slot is the group's mean in the original batch |
| GvpoLoss.Plan.RankMicroBatches | verl/recipe/gvpo/gvpo_dp_actor.py:402-416 | chunk, mini-batch and micro-batch cuts give each rank at step `k` its part of slot `k` |
| GvpoLoss.Plan.DistributedLossIsReference | verl/recipe/gvpo/gvpo_core_algos.py:39-59 | the losses of all ranks and slots add up to the single-machine loss of the unpermuted batch |
| GvpoLoss.ShiftedMean | verl/recipe/gvpo/gvpo_core_algos.py:49-54 | shifting a group's log-ratios by an amount shifts its mean by it |
| GvpoLoss.LossIgnoresGroupShift | verl/recipe/gvpo/gvpo_core_algos.py:39-59 | adding any per-group amount to the log-ratios leaves the loss unchanged |
| GvpoStep.CutBatch | verl/recipe/gvpo/gvpo_dp_actor.py:402-416 | every rank's `k`-th micro-batch is its part of slot `k` |
| GvpoStep.RankStep | verl/recipe/gvpo/gvpo_core_algos.py:39-59 | a rank's loss at a slot is computed without an assertion failing |
| GvpoStep.ReferenceIsLoss | verl/recipe/gvpo/gvpo_core_algos.py:39-59 | the reference loss of a batch is that loss with each row centred by the mean of its own group of `n` |
| GvpoStep.PolicyGradientStep | verl/recipe/gvpo/gvpo_dp_actor.py:402-495 | balance, cut, gather and accumulate: the losses add up to that loss of the batch in its original order, and the backward passes, times the number of micro-batches per mini-batch, to the same |
| MaskedGae.ComputeGaeAdvantageReturn | verl/recipe/gvpo/gvpo_core_algos.py:266-283 | the reversed loop gives every position the plain GAE advantage, on the sequence with masked tokens deleted, of the next unmasked token, and as return the advantage plus the value |
| MaskedGae.SkipMasked | verl/recipe/gvpo/gvpo_core_algos.py:273-278 | a masked position leaves both carried values alone; an unmasked one carries its value and its error plus the discounted advantage |
| MaskedGae.BackwardIsKept | verl/recipe/gvpo/gvpo_core_algos.py:272-280 | the carry is the first value and the discounted sum of errors of the unmasked rest |
| MaskedGae.MaskedGaeIsPlainGae | verl/recipe/gvpo/gvpo_core_algos.py:266-283 | every position's advantage is plain GAE on the sequence with masked tokens deleted, at the next unmasked token |
| MaskedGae.Telescope | verl/recipe/gvpo/gvpo_core_algos.py:273-283 | with lambda 1 the errors telescope to discounted rewards minus the value |
| MaskedGae.ReturnsTelescope | verl/recipe/gvpo/gvpo_core_algos.py:282-282 | with lambda 1 the return at an unmasked position is the discounted reward sum over the unmasked rest |
| LeaveOneOut.GroupRowsByPrompt | verl/recipe/gvpo/gvpo_core_algos.py:527-533 | the dictionary maps each prompt to its rows in order |
| LeaveOneOut.ComputeRlooOutcomeAdvantage | verl/recipe/gvpo/gvpo_core_algos.py:524-547 | despite overwriting scores while iterating, each row ends at its score minus the mean of the other members, a lone row at its score |
| LeaveOneOut.LoopStep | verl/recipe/gvpo/gvpo_core_algos.py:541-546 | the rescaled expression of the loop is the score minus the mean of the others |
| LeaveOneOut.GroupSumsToZero | verl/recipe/gvpo/gvpo_core_algos.py:541-546 | the estimates of a group with several members sum to zero |
| LeaveOneOut.ShiftedScores | verl/recipe/gvpo/gvpo_core_algos.py:541-546 | adding a per-group constant to the scores changes no estimate of a group with several members |
| LeaveOneOut.VectorisedIs | verl/recipe/gvpo/gvpo_core_algos.py:768-776 | the bin-count form is leave-one-out, with 0 for lone rows |
| LeaveOneOut.FormsAgreeIff | verl/recipe/gvpo/gvpo_core_algos.py:524-547 | loop and bin-count form agree on a row exactly when its group has a second member or its score is 0 |
| LossAggregation.AccumulateLoss | verl/recipe/gvpo/gvpo_dp_actor.py:420-491 | the accumulated loss is the sum of the scaled micro-batch losses |
| LossAggregation.RowLossIs | verl/recipe/gvpo/gvpo_core_algos.py:814-819 | a row's loss is the sum, or the mean, of its unmasked entries |
| LossAggregation.UniformLoss | verl/recipe/gvpo/gvpo_core_algos.py:811-827 | the loss of a batch whose unmasked entries all equal one value, for each mode |
| LossAggregation.MaskedEntriesDoNotMatter | verl/recipe/gvpo/gvpo_core_algos.py:811-827 | entries under a mask of 0 change no mode's loss |
| LossAggregation.MaskedColumn | verl/recipe/gvpo/gvpo_core_algos.py:811-827 | a masked column behind every row changes no mode but the fixed-width one, which it divides by a larger width |
| LossAggregation.DynamicAccumulation | verl/recipe/gvpo/gvpo_dp_actor.py:432-433 | for the two row-mean modes and micro-batches of any sizes the sum is the mini-batch's loss times its share of the configured size, hence the loss exactly for a full mini-batch or a zero loss |
| LossAggregation.EqualAccumulation | verl/recipe/gvpo/gvpo_dp_actor.py:413-435 | for equal splits of a full mini-batch the scaled losses sum to the loss of the whole |
| LossAggregation.AccumulatesIff | verl/recipe/gvpo/gvpo_dp_actor.py:413-491 | for every mode and both ways of cutting, the scaled losses add up for all losses exactly when every micro-batch with a token is scaled by its share of the divisor |
| LossAggregation.EqualMicroBatches | verl/recipe/gvpo/gvpo_dp_actor.py:413-416 | for equal splits, adding up for all losses of the pieces is adding up for all losses of the rows that are cut |
| LossAggregation.AggregatedPermuted | verl/recipe/gvpo/gvpo_core_algos.py:811-827 | the order of the rows does not matter to the loss |
| LossAggregation.SumNormAccumulates | verl/recipe/gvpo/gvpo_core_algos.py:820-826 | the fixed-width mode adds up for all losses exactly when every micro-batch with a token has the configured size, or there is one equal micro-batch |
| LossAggregation.SumNormAccumulation | verl/recipe/gvpo/gvpo_core_algos.py:820-826 | for given losses and equal micro-batches it adds up exactly with one micro-batch or a zero loss |
| LossAggregation.TokenMeanAccumulates | verl/recipe/gvpo/gvpo_core_algos.py:812-813 | the token mean adds up for all losses exactly when every micro-batch with a token has its share of the token count as its scale |
| LossAggregation.TokenMeanDoesNotAccumulate | verl/recipe/gvpo/gvpo_core_algos.py:812-813 | equal micro-batches with different token counts miss that condition, and halve the loss |
| TokenLog.RecordAllExtends | verl/recipe/fault_recover/fault_manager.py:56-69 | a batch of updates only appends to each request's ids |
| TokenLog.RecordedIds | verl/recipe/fault_recover/fault_manager.py:56-69 | a request's ids after updates are its old ones followed by what arrived for it, in order |
| TokenLog.RecordedFlag | verl/recipe/fault_recover/fault_manager.py:56-69 | a request's finished flag is the one sent last, or its old one when none was sent |
| TokenLog.RecordedExtra | verl/recipe/fault_recover/fault_manager.py:56-69 | every other field of a request is the value sent last, or the old one |
| TokenLog.RecordedKeys | verl/recipe/fault_recover/fault_manager.py:56-69 | the log has entries for exactly the requests it had and those addressed |
| TokenLog.CompleteIff | verl/recipe/fault_recover/fault_manager.py:141-148 | updates to an empty log make it complete exactly when they address as many requests as the batch has and the last flag sent for each is finished |
| RecoveryProtocol.StepKeepsInv | verl/recipe/fault_recover/fault_manager.py:89-152 | every action of trainer, consumer, autosave thread, crash and restart that respects the guard keeps the protocol's invariant, whenever updates arrive |
| RecoveryProtocol.StepKeepsRecoverable | verl/recipe/fault_recover/fault_manager.py:89-152 | no action shrinks what an iteration after the checkpoint would recover |
| RecoveryProtocol.StepRemovesExpired | verl/recipe/fault_recover/fault_manager.py:103-108 | files disappear only at or below the checkpointed step, which never moves back |
| RecoveryProtocol.RunInv | verl/recipe/fault_recover/fault_manager.py:452-461 | the invariant holds at every moment of every run |
| RecoveryProtocol.RecoverableNeverShrinks | verl/recipe/fault_recover/fault_manager.py:89-152 | in every interleaving of updates at any moment, autosaves, advances, crashes and restarts that respects the guard, what could be recovered earlier for an iteration after the current checkpoint can still be recovered |
| RecoveryProtocol.RecoveredIsPrefix | verl/recipe/fault_recover/fault_manager.py:110-125 | once an iteration is loaded, each request's recoverable ids are a prefix of those in memory |
| RecoveryProtocol.ReloadIsPrefix | verl/recipe/fault_recover/fault_manager.py:110-125 | after a crash, whatever happens until the iteration is loaded again, what can be recovered for it stays as the crash left it, a prefix of the log at the crash; the load brings back that, or keeps late entries when there is no file |
| RecoveryProtocol.ReloadIsPrefixIff | verl/recipe/fault_recover/fault_manager.py:110-125 | every reload is a prefix of what had been recorded exactly when the crash left a file to load, or the iteration is checkpointed and not loaded again |
| RecoveryProtocol.LateIdsComeBack | verl/recipe/fault_recover/fault_manager.py:331-346 | without a file, ids of a late message come back instead |
| RecoveryProtocol.QuietReloadIsPrefix | verl/recipe/fault_recover/fault_manager.py:110-125 | as long as late messages carry no ids, every reload is a prefix of what had been recorded before the crash |
| RecoveryProtocol.StepFilesComplete | verl/recipe/fault_recover/fault_manager.py:145-151 | a step file holds its own iteration with exactly the batch's requests, all finished, and no earlier step file after the checkpoint is missing |
| RecoveryProtocol.LeftIterationsAreFiled | verl/recipe/fault_recover/fault_manager.py:89-101 | an iteration after the checkpoint that has been left has its file |
| RecoveryProtocol.ReloadBringsBack | verl/recipe/fault_recover/fault_manager.py:110-125 | loading restores the recoverable log exactly when there is a file to load or the log was empty; otherwise the entries of late messages stay |
| RecoveryProtocol.StaleEntriesAreInherited | verl/recipe/fault_recover/fault_manager.py:110-125 | a run in which an iteration starts with such an entry |
| RecoveryProtocol.EmptyRolloutLosesTokens | verl/recipe/fault_recover/fault_manager.py:95-96 | from every state in which an iteration can be left that is neither recorded nor checkpointed, some continuation loses ids of the next one |
| RecoveryProtocol.StepIsSafeIff | verl/recipe/fault_recover/fault_manager.py:89-152 | in every run, any step loses nothing in any continuation exactly when it respects the guard |
| RecoveryProtocol.LeavingIsSafeIff | verl/recipe/fault_recover/fault_manager.py:89-101 | for leaving an iteration: exactly when it was recorded or checkpointed |
| RecoveryProtocol.LateUpdateIsSafeIff | verl/recipe/fault_recover/fault_manager.py:136-151 | for an update: exactly unless it completes, with other ids, the cleared log of an iteration whose file is still needed, while the autosave may write |
| RecoveryProtocol.LateCompletionIsReachable | verl/recipe/fault_recover/fault_manager.py:136-151 | a run comes to an update that is not safe |
| RecoveryProtocol.EmptyRolloutIsReachable | verl/recipe/fault_recover/fault_manager.py:452-461 | a run comes to such a state |
| TokensDict.Log.constructor | verl/recipe/fault_recover/fault_manager.py:27-36 | a fresh log: empty, iteration 0, no files written, no autosave; the protocol's restart |
| TokensDict.Log.StartSave | verl/recipe/fault_recover/fault_manager.py:38-42 | the autosave runs, started at most once; the protocol's step |
| TokensDict.Log.UpdateData | verl/recipe/fault_recover/fault_manager.py:44-54 | one request's ids are extended and its other fields replaced |
| TokensDict.Log.UpdateDatas | verl/recipe/fault_recover/fault_manager.py:56-69 | registered requests are updated in order, unregistered ones skipped; the protocol's update |
| TokensDict.Log.UpdateIter | verl/recipe/fault_recover/fault_manager.py:127-128 | the iteration number is replaced; the protocol's step when it is the next one |
| TokensDict.Log.CountFinished | verl/recipe/fault_recover/fault_manager.py:141-148 | how many requests are finished, and whether all are |
| TokensDict.Log.AutoSave | verl/recipe/fault_recover/fault_manager.py:136-152 | one pass does nothing when the iteration was loaded finished, and otherwise writes the autosave file, and the step file exactly when the iteration is complete; the protocol's look at the flag and save |
| TokensDict.Log.SaveTokens | verl/recipe/fault_recover/fault_manager.py:138-151 | the part under the lock is the protocol's save |
| TokensDict.Log.Clear | verl/recipe/fault_recover/fault_manager.py:89-108 | one pass of the wait either changes nothing or empties the log and removes this process's expired step files, as the protocol does when it may |
| TokensDict.Log.TryLoad | verl/recipe/fault_recover/fault_manager.py:110-125 | the log becomes what is recoverable for the iteration, if anything is, and the finished flag says whether it came from a step file; the protocol's load |
| TokensDict.ConsumeQueue | verl/recipe/fault_recover/fault_manager.py:331-346 | the consumer applies registrations and updates in queue order |
| TokensDict.RegisteredIs | verl/recipe/fault_recover/fault_manager.py:331-346 | a request's global id is the one it was last registered under |
| TokensDict.ConsumedIds | verl/recipe/fault_recover/fault_manager.py:331-346 | consuming messages appends to each request the ids they carry, in order, under the registrations before them |
| TokensDict.ConsumedExtends | verl/recipe/fault_recover/fault_manager.py:331-346 | consuming messages only appends to a request's ids |
| JsonSpec.Value | verl/recipe/collabllm/utils.py:187-208 | a successful value ends strictly behind its start and within the text |
| JsonSpec.Members | verl/recipe/collabllm/utils.py:118-144 | so does the rest of an object |
| JsonSpec.Elements | verl/recipe/collabllm/utils.py:146-165 | so does the rest of an array |
| JsonSpec.StringRest | verl/recipe/collabllm/utils.py:86-108 | so does a quoted string |
| JsonSpec.TripleRest | verl/recipe/collabllm/utils.py:167-185 | so does a triple-quoted string |
| JsonSpec.Number | verl/recipe/collabllm/utils.py:67-79 | so does a number |
| JsonParser.ParseNumber | verl/recipe/collabllm/utils.py:67-79 | the loop over numeric characters computes the grammar's answer |
| JsonParser.ParseString | verl/recipe/collabllm/utils.py:86-108 | the loop with escapes computes the grammar's answer |
| JsonParser.ParseTripleQuotedString | verl/recipe/collabllm/utils.py:167-185 | the search for the closing quotes computes the grammar's answer |
| JsonParser.ParseKey | verl/recipe/collabllm/utils.py:110-116 | a key is a quoted string; running off the text is an index error |
| JsonParser.ParseObject | verl/recipe/collabllm/utils.py:118-144 | the loop over members, with trailing commas and repeated keys, ends and computes the grammar's answer |
| JsonParser.ParseArray | verl/recipe/collabllm/utils.py:146-165 | the loop over elements ends and computes the grammar's answer |
| JsonParser.ParseValue | verl/recipe/collabllm/utils.py:187-208 | the mutual recursion ends on every input and computes the grammar's answer |
| JsonParser.ExtractJson | verl/recipe/collabllm/utils.py:53-219 | the text between the first opening and the last closing brace is read as one value |
| JsonReads.PiecesAreRead | verl/recipe/collabllm/utils.py:86-108 | a string of plain and escaped characters is read piece by piece, then converted |
| JsonReads.TripleRestIs | verl/recipe/collabllm/utils.py:174-184 | triple quotes give the text up to where they first stand again |
| JsonReads.UnclosedTriple | verl/recipe/collabllm/utils.py:175-185 | triple quotes that are not closed fail |
| JsonReads.TripleIsRead | verl/recipe/collabllm/utils.py:167-185 | a text between triple quotes that does not contain them is read as it stands, then converted |
| JsonReads.TreeIsRead | verl/recipe/collabllm/utils.py:187-208 | every well-formed value is read as its document, with strings converted and equal keys collapsed |
| JsonReads.ItemsAreRead | verl/recipe/collabllm/utils.py:146-165 | items with any blanks and an optional trailing comma are read one by one |
| JsonReads.FieldsAreRead | verl/recipe/collabllm/utils.py:118-144 | so are fields |
| JsonAccepts.TreeOf | verl/recipe/collabllm/utils.py:187-208 | conversely, whatever is read as a value is a well-formed one, read as its document |
| JsonAccepts.ItemsOf | verl/recipe/collabllm/utils.py:146-165 | whatever is read as the rest of an array is items, separated and closed |
| JsonAccepts.FieldsOf | verl/recipe/collabllm/utils.py:118-144 | whatever is read as the rest of an object is fields, separated and closed |
| JsonAccepts.ObjectIsExtracted | verl/recipe/collabllm/utils.py:210-219 | text before without an opening brace and text behind without a closing one do not change the result |
| JsonAccepts.ExtractIff | verl/recipe/collabllm/utils.py:53-219 | a value is extracted from a text exactly when the text is a well-formed object of that value between such texts |
| JsonAccepts.ExtractFails | verl/recipe/collabllm/utils.py:110-219 | every failure is a value error |
| JsonRoundTrip.ConvertedIff | verl/recipe/collabllm/utils.py:54-65 | a string becomes a constant if it spells one in any letter case, else a float if it has a point or an exponent and is one, else an integer if it is one, and else stays itself |
| JsonRoundTrip.KeyFormIff | verl/recipe/collabllm/utils.py:132-132 | keys are one key exactly when they are equal to the host language, numbers by value |
| JsonRoundTrip.PutValue | verl/recipe/collabllm/utils.py:132-132 | an assignment sets the value under its key and no other |
| JsonRoundTrip.PutKeys | verl/recipe/collabllm/utils.py:132-132 | it keeps the keys, their spelling and order, and a new key comes last |
| JsonRoundTrip.LastFieldWins | verl/recipe/collabllm/utils.py:126-142 | of the fields with one key the last gives the value |
| JsonRoundTrip.RereadIsSameIff | verl/recipe/collabllm/utils.py:54-65 | reading changes nothing exactly when no string or key spells a constant or number and no object repeats a key |
| JsonRoundTrip.RoundTrip | verl/recipe/collabllm/utils.py:53-219 | an object, however it is written, is read back as that object exactly under that condition |
| ThinkBlock.Search | verl/recipe/collabllm/utils.py:227-227 | the leftmost block, as short as possible, or none when no opening tag has a closing tag behind it |
| ThinkBlock.ShownWithMark | verl/recipe/collabllm/utils.py:271-277 | what is left to show when the text ends in the end mark: what is before it, stripped |
| ThinkBlock.ShownWithoutMark | verl/recipe/collabllm/utils.py:271-277 | text without an end mark at its end shows itself, stripped |
| ThinkBlock.Message.RemoveThinkBlock | verl/recipe/collabllm/utils.py:222-228 | what the filter accepts ends non-empty and unchanged by a second call; any text ends so unless a cut spells a new block; other content stays |
| ThinkBlock.AcceptedIffWellFormed | verl/recipe/collabllm/utils.py:231-280 | the filter accepts exactly messages without tags, or with one block that has something inside, with something left to show |
| ThinkBlock.SeamHasNoBlock | verl/recipe/collabllm/utils.py:227-227 | joining the texts around a block never spells a whole block |
| ThinkBlock.RemovalOfAccepted | verl/recipe/collabllm/utils.py:222-280 | an accepted message keeps non-empty content, and removing again changes nothing |
| ThinkBlock.RemovalIsIdempotentIff | verl/recipe/collabllm/utils.py:227-227 | for every text, removing twice is removing once exactly when no opening tag is spelled across a cut with a closing tag behind it |
| ThinkBlock.SingleRemovalIsIdempotentIff | verl/recipe/collabllm/utils.py:227-227 | the same for one match, as a condition on the texts before and behind it |
| ThinkBlock.GapsAre | verl/recipe/collabllm/utils.py:227-227 | what is kept is the gaps between matches, none of which before a match holds an opening tag, and the last no block |
| ThinkBlock.RemovalOfRejected | verl/recipe/collabllm/utils.py:222-228 | a rejected message whose removal leaves a new block and is not idempotent |
| DataProto.Length | verl/verl/protocol.py:333-340 | the number of rows of any aligned batch with columns, else 0 |
| DataProto.OneIndexMap | verl/verl/protocol.py:634-672 | two libraries that move rows alike act by one index map on all columns |
| DataProto.SliceIsRows | verl/verl/protocol.py:674-718 | slicing, with negative and clamped bounds, moves tensor and array columns by one index map |
| DataProto.SlicedRows | verl/verl/protocol.py:674-718 | a slice is the run of rows from one bound up to the other, negative bounds counted from the end |
| DataProto.SelectSigned | verl/verl/protocol.py:634-672 | selecting works exactly when all indices are within the rows, and moves all columns by one index map, negative indices counted from the end |
| DataProto.SelectIsRows | verl/verl/protocol.py:634-672 | for non-negative indices that map is the indices themselves |
| DataProto.ConcatRows | verl/verl/protocol.py:915-960 | concatenating pieces of a batch succeeds and gives the rows of all pieces in order |
| DataChunks.ChunksCover | verl/verl/protocol.py:877-902 | the chunks hold all rows in order, with or without tensors |
| DataChunks.AllChunksExist | verl/verl/protocol.py:880-885 | the tensor library makes all `k` chunks exactly when `k - 1` full ones leave a row over |
| DataChunks.CutLikeTorch | verl/verl/protocol.py:881-892 | array columns cut at the running totals of the tensor chunks hold the same rows |
| DataChunks.PieceIsRows | verl/verl/protocol.py:879-902 | chunk `i` moves all columns by one index map, ragged chunks included |
| DataChunks.Chunk | verl/verl/protocol.py:863-902 | the exact condition under which chunking succeeds, and that the chunks are consecutive pieces of the batch |
| DataChunks.SplitData | verl/verl/protocol.py:904-913 | the slices are the consecutive pieces of the given size, the last one possibly shorter |
| Dispatch.PadDataprotoToDivisor | verl/verl/protocol.py:73-98 | the least padding that makes the length divisible; padded row `j` is row `j` modulo the old length; an empty batch is unchanged and divisor 0 fails |
| Dispatch.UnpadIsPrefix | verl/verl/protocol.py:101-105 | unpadding leaves the first rows |
| Dispatch.UnpadUndoesPad | verl/verl/protocol.py:73-105 | unpadding undoes padding |
| Dispatch.ApplyRows | verl/verl/single_controller/base/decorator.py:166-198 | row-wise work commutes with moving rows |
| Dispatch.RunWorkers | verl/verl/single_controller/base/decorator.py:166-198 | the workers' answers are the pieces of the answer for the whole batch |
| Dispatch.DispatchChunks | verl/verl/single_controller/base/decorator.py:70-87 | chunk, work and concatenate equals local work whenever the chunks can be made |
| Dispatch.DispatchPadded | verl/verl/trainer/ppo/ray_trainer.py:560-580 | pad, dispatch to any number of workers and unpad equals row-wise work on the original non-empty batch |
| BatchObject.Batch.Reorder | verl/verl/protocol.py:962-968 | rows in the order of the indices in every column; without tensors an error and no change |
| BatchObject.ReorderKeepsRows | verl/verl/protocol.py:962-968 | reordering by a permutation keeps every column's rows |
| BatchObject.Batch.Padding | verl/verl/protocol.py:848-861 | copies of the first or the last row are appended in every column |
| BatchObject.DispatchAutoPadded | verl/verl/single_controller/base/decorator.py:90-116 | automatic padding, dispatch and dropping the padding rows equals work on the original batch, and the caller's batch stays padded |
| BatchObject.ComputeLogProb | verl/recipe/gvpo/gvpo_dp_actor.py:344-362 | micro-batched forward passes give the whole batch's results in order, and fail for no rows |
| DataRepeat.InterleaveAgrees | verl/verl/protocol.py:981-1005 | both libraries' interleaved repetition takes row `j` from row `j / t` |
| DataRepeat.TileAgrees | verl/verl/protocol.py:986-1007 | expand-and-reshape and tile both take row `j` from row `j` modulo the length |
| DataRepeat.RepeatIsRows | verl/verl/protocol.py:970-1012 | both repeat modes move all columns by one index map |
| DataRepeat.RepeatTwice | verl/verl/protocol.py:970-1012 | repeating twice is repeating once by the product |
| DataRepeat.SampleLevelIsRows | verl/verl/protocol.py:1053-1099 | per-sample repetition moves all columns by one index map |
| DataRepeat.SampleIndices | verl/verl/protocol.py:1053-1099 | in that map each row stands as often as its count says |
| DataRepeat.SampleIndicesAscend | verl/verl/protocol.py:1053-1099 | and rows keep their order |
| DataReshape.UnfoldMovesRowsAlike | verl/verl/protocol.py:1014-1051 | unfolding works exactly when the listed columns divide and a key list is there for array columns; then row `j` of every column comes from row `j / s`, listed columns giving their part `j` modulo `s` |
| DataReshape.UnfoldUndoesFold | verl/verl/protocol.py:201-237 | folding works exactly when the new size divides the rows, and unfolding takes it back |
| DataReshape.FoldUndoesUnfold | verl/verl/protocol.py:201-237 | and the other way round |
| DeepEqual.DeepEqual | verl/verl/protocol.py:151-184 | the comparison ends on every finite graph, computes its specification and leaves the path set as it was |
| DeepEqual.ArrayEqual | verl/verl/protocol.py:124-148 | arrays agree in type, shape and entries, object entries compared in order up to the first difference |
| DeepEqualExact.NeverRejects | verl/verl/protocol.py:151-184 | objects without a finite difference are accepted, cyclic or not |
| DeepEqualExact.MatchesIffSameSurface | verl/verl/protocol.py:138-184 | values that are not compared further agree exactly when they have one type and, for floats and arrays, one shape and at each place the same number or both NaN |
| DeepEqualExact.FloatsCompare | verl/verl/protocol.py:173-175 | two floats compare equal exactly when they are one number or both NaN |
| DeepEqualExact.ExactWithoutCycle | verl/verl/protocol.py:151-184 | for a first argument without a cycle the comparison is NaN-aware structural equality |
| DeepEqualExact.CycleAcceptsDifferent | verl/verl/protocol.py:161-166 | every object with a cycle has a different object that is accepted |
| DeepEqualExact.DecidesIffAcyclic | verl/verl/protocol.py:151-184 | the comparison decides structural equality exactly for objects without a cycle |
| QkvLayout.VisionIsGrouped | verl/scripts/converter_hf_to_mcore.py:250-265 | view, transpose and flatten of the vision weights is the grouped layout of the three thirds |
| QkvLayout.MergeQkvAcrossTp | verl/scripts/legacy_model_merger.py:532-562 | the nested chunk-and-split loops, with every error, compute the merge's specification |
| QkvLayout.ShardsHoldBlocks | verl/scripts/legacy_model_merger.py:545-555 | an even cut into shards that keeps groups whole falls apart into the same groups |
| QkvLayout.QkvRoundTrip | verl/scripts/converter_hf_to_mcore.py:155-161 | grouping, cutting into any number of shards dividing the key-value heads, and merging returns queries, keys and values row for row |
| QkvLayout.MergeGateUp | verl/scripts/legacy_model_merger.py:521-531 | halving every shard and concatenating gives the gate rows and the up rows |
| PipelineShards.StrategyExistsIff | verl/verl/model_merger/megatron_model_merger.py:82-97 | some middle size works exactly when the least one that can hold all layers does |
| PipelineShards.GetDynamicPipelineShards | verl/verl/model_merger/megatron_model_merger.py:57-106 | every rank gets at least one layer and all layers are given out; middle ranks have equally many and no rank more, an odd layer goes to the last rank, and among all such shards the first rank is as close to the middle ones as it can be; exactly when there are none, and which error is raised |
| LayerLayout.MergeStateDicts | verl/scripts/legacy_model_merger.py:611-659 | the loops over virtual stages, ranks and keys compute the merged dictionary in layer order |
| LayerLayout.CumIsOffset | verl/scripts/legacy_model_merger.py:619-657 | the running count is a stage's true first layer exactly when all earlier stages have layers |
| LayerLayout.MergeRestoresIff | verl/scripts/legacy_model_merger.py:611-659 | merging the stages of a model gives the model back exactly when no empty stage comes before one with layers |
| StageConversion.BoundsAreOffsets | verl/scripts/converter_hf_to_mcore.py:547-549 | each stage starts where the one before it ends and has its shard's size |
| StageConversion.ConvertedStageIsCut | verl/scripts/converter_hf_to_mcore.py:138-149 | the converted stages hold the model's layers under local numbers |
| StageConversion.ConvertThenMerge | verl/scripts/converter_hf_to_mcore.py:546-558 | converting by any shards and merging gives the model back under the same condition |
| StageConversion.ConvertAndMerge | verl/scripts/converter_hf_to_mcore.py:490-558 | with the shards the repository computes the round trip always holds |
| ExpertCopy.OwnerIsUnique | verl/scripts/converter_hf_to_mcore.py:393-397 | no expert has two owners |
| ExpertCopy.AllOwnedIff | verl/scripts/converter_hf_to_mcore.py:393-397 | every expert has an owner exactly when the ranks divide the experts |
| ExpertCopy.CopyLocalExperts | verl/scripts/converter_hf_to_mcore.py:391-406 | a rank's experts are written to its local weights in order, the gate's rows above the up projection's, and the counts are theirs |
| ExpertCopy.MergeCopied | verl/scripts/converter_hf_to_mcore.py:400-400 | merging a copied weight gives its gate and up projection back |
| ExpertCopy.CheckIff | verl/scripts/converter_hf_to_mcore.py:419-423 | the parameter count check passes exactly when the ranks divide the experts |
| ExpertCopy.ConvertLayer | verl/scripts/converter_hf_to_mcore.py:391-423 | copying and checking together: undefined without a local expert, otherwise passing exactly under that condition |
| DynamicSampling.VarianceIff | verl/recipe/dapo/dapo_ray_trainer.py:265-267 | scores deviate exactly when they are not all equal |
| DynamicSampling.CollectScores | verl/recipe/dapo/dapo_ray_trainer.py:257-263 | the dictionary lists each prompt's scores, prompts in order of appearance |
| DynamicSampling.KeptConcat | verl/recipe/dapo/dapo_ray_trainer.py:265-271 | groups are kept one by one, whatever is around them |
| DynamicSampling.FilterGroups | verl/recipe/dapo/dapo_ray_trainer.py:256-281 | exactly the groups with deviating scores or a single answer are kept, whole and in order, and counted |
| DynamicSampling.Trainer.constructor | verl/recipe/dapo/dapo_ray_trainer.py:124-143 | nothing pending before the first generation |
| DynamicSampling.Trainer.Accumulate | verl/recipe/dapo/dapo_ray_trainer.py:273-282 | the pending rows stay whole useful groups, as many as are counted |
| DynamicSampling.Trainer.Iterate | verl/recipe/dapo/dapo_ray_trainer.py:238-299 | whether generation goes on, stops with an error or a batch of exactly the configured number of whole groups is trained on |
| DynamicSampling.Trainer.Fit | verl/recipe/dapo/dapo_ray_trainer.py:146-422 | which batches are trained on: without filtering every generation, and with it the useful groups of consecutive generations, cut to the configured number as soon as there are so many; too few in as many generations as a positive cap allows are an error, and what is left at the end is pending |

## Left out

- GvpoStep.PolicyGradientStep: entropy and KL terms, optimizer steps between mini-batches and repeated epochs are not in the total, because they do not touch the gathered means; sequence parallelism is 1.
- BalancedPartition.KarmarkarKarp: the heap may return any state first, so bounds that rest on its order are not claimed; weights are natural numbers.
- GvpoLoss.ComputePolicyLossGvpo: log-ratios and rewards per row are inputs; the sums over tokens that produce them, detaching and gradients are not modelled.
- MaskedGae.ComputeGaeAdvantageReturn: stops before whitening and works on one row, because every operation acts on each row alone.
- LossAggregation.AccumulateLoss: an unknown aggregation mode, which the code rejects, is not a value of the model's mode type.
- LeaveOneOut.ComputeRlooOutcomeAdvantage: row scores only, without spreading them over the response mask.
- RecoveryProtocol.RecoverableNeverShrinks: assumes that the body under the autosave's lock is one step against the unlocked parts of `clear` and `update_iter`, and that actions respect the guard (necessary, by `RecoveryProtocol.StepIsSafeIff`). Of the crashes inside that body only the one between the replaced autosave file and the copy is modelled: a crash during the copy leaves a partial step file that loading would open.
- TokensDict.Log.Clear: one pass of the waiting loop; that the wait ends is not claimed.
- TokensDict.ConsumeQueue: the messages that have arrived, not the blocking wait for more.
- JsonSpec.Number: what the host language's `int` and `float` accept is a parameter, and every float is a real number; infinities are not modelled.
- JsonRoundTrip.RoundTrip: letter case is folded for ASCII letters only.
- DataProto.ConcatRows: `meta_info` and its metrics are not modelled; a table of tensors is taken to have at least one column where its length matters.
- DataProto.SliceIsRows: slices with a step are not modelled.
- DataChunks.Chunk: chunking an empty table follows the tensor library's function, not the table wrapper around it.
- DataReshape.UnfoldUndoesFold: folding also replaces the array columns of its argument, which the value model does not show.
- Dispatch.DispatchPadded: one batch argument, and workers that act row by row.
- DeepEqual.DeepEqual: values that are not arrays or floats are compared by an abstract equality of their type; arrays of types for which NaN is undefined are not distinguished.
- DynamicSampling.VarianceIff: the square root is not modelled, and neither is rounding, under which equal scores can show a tiny deviation.
- QkvLayout.QkvRoundTrip: shapes other than the row dimension, data types and biases apart from rows.
- ExpertCopy.CheckIff: experts of one size, as in the models converted.
- StageConversion.ConvertAndMerge: parameter names are kept; renaming between the two formats and tied embeddings are not modelled.
- Boolean masks as selectors, `union`, `pop`, `rename`, iterators, futures and serialisation of the batch container.
- Retry wrappers, worker rebuilding, chip monitoring, timeouts and the wiring of the fault manager.
- The other advantage estimators (GRPO, REINFORCE++, ReMax, OPO, GPG, pass@k) and KL controllers, which are single expressions or repeat the leave-one-out pattern.
- The second copy of the parser and of the sampling loop in other recipes.
- Ray actors, devices, logging, dataset preparation, reward services, model forward passes.
