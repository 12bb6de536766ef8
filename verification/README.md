# Synister pipelines: location selection, sharding and batching for inference, and class selection for brain-region training

This project is a Dafny model of two driver functions of the synister
synapse-classification code base.

- `test` in `synister/predict_pipeline.py` is one inference block worker.
  - It checks its arguments (`split_part` must be "validation" or "test", and the network must be "VGG").
  - It builds the list of synapse locations that carry the requested split role and have no stored prediction yet.
  - It takes its own shard of that list: `locations[int(w/n*len) : int((w+1)/n*len)]`.
  - It walks the shard in mini-batches of `batch_size` and puts one prediction record per location on the writer queue.
- `train_until` in `synister/brain_region_network/train_pipeline.py` is the brain-region classifier's training driver.
  - It groups the split's single-region training synapses by region and keeps the regions with a long enough list as classes.
  - It defaults `output_classes` to the number of classes and builds one sampling branch per class.
  - It computes the physical request size `input_shape * voxel_size` and stops once the pipeline reports an iteration number of at least `max_iteration`.

The modules follow that structure:

| module | file | contents |
|---|---|---|
| `Wrappers` | `wrappers.dfy` | `Option`, `Result` |
| `Seqs` | `seqs.dfy` | `Flatten`, `Distinct`, and the facts about them |
| `Arith` | `arith.dfy` | division and multiplication facts the proofs use |
| `PyOps` | `pyops.dfy` | Python's `int()` truncation and `s[lo:hi]` slicing, negative and out-of-range bounds included |
| `Synapses` | `synapses.dfy` | the synapse record and the synapse table in dict iteration order |
| `Sharding` | `sharding.dfy` | the worker shard, both over an abstract boundary function and over the formula the source computes |
| `Batching` | `batching.dfy` | `range(0, len, size)` and the batch slices |
| `PredictPipeline` | `predict_pipeline.dfy` | the inference worker |
| `TrainPipeline` | `train_pipeline.dfy` | the training driver's pure logic |

The model represents the source's data as follows:

- A Python dict that the code iterates is a sequence of `(key, value)` pairs in iteration order.
- A failing dictionary lookup (`KeyError`) is an `Err` result. It is raised by the first record, in iteration order, that triggers it. The model respects the short-circuit of `and`.
- The network (`get_raw` followed by `predict`) is a parameter: a function from a batch of locations to score rows, one per location.
- The writer queue is the worker's output: the sequence of records it enqueued, plus the exception that ended it, if any.

Two behaviours of the code are easy to misread:

- **Region threshold.** Line 44 of the training driver tests `len(synapse_list) >= 10`, but the grouping loop never stores a region's first synapse: line 40 creates the empty list and only line 42 appends. So a region needs at least 11 eligible synapses to become a class. `TrainPipeline.BrainRegionIdsSpec` states this, and `TrainPipeline.TenEligibleAreNotEnough` shows that a region with exactly 10 eligible synapses is left out.
- **Short final batch.** Line 109 of the prediction driver yields a short last batch whenever `batch_size` does not divide the shard length, yet line 117 reshapes every batch to `batch_size` rows, so such a batch fails (see Findings).

## Model

| member | source | states |
|---|---|---|
| PyOps.TruncReal | synister/predict_pipeline.py:96-98 | `int()` of a coordinate rounds toward zero: the result is within 1 of the input, and never exceeds it in absolute value |
| PyOps.TruncDiv | synister/predict_pipeline.py:103-104 | The truncated quotient: equal to `a div b` for non-negative `a` and positive `b`. It is non-negative when the signs agree and non-positive when they differ (`int(-5/2)` is -2). It is bracketed by `|r|*|b| <= |a| < (|r|+1)*|b|`. |
| PyOps.NegativeOperandsExample | synister/predict_pipeline.py:103-105 | Concrete cases: `int(-5/2)` is -2, `[1,2,3][-1:3]` is `[3]`, `[1,2,3][-7:2]` is `[1,2]`, `[1,2,3][-2:-1]` is `[2]`, `[1,2,3][0:-1]` is `[1,2]`, and `[1,2,3][5:9]` and `[1,2,3][-2:0]` are empty |
| PyOps.PySlice | synister/predict_pipeline.py:105 | Each bound is first normalised: a negative bound counts from the end, and the result is clamped into `[0, len]` (`SliceIndex`, specified for every case). The slice then holds exactly the items from the normalised start up to the normalised end, and is empty when they cross. Named cases spelled out: in-range bounds give the plain subsequence, and an end past the list is clamped. Two negative bounds count both from the end (`[1,2,3][-2:-1]` is `[2]`), and a start at or past the end gives the empty list. |
| PredictPipeline.CheckRequest | synister/predict_pipeline.py:47-58 | The request passes exactly when `split_part` is "validation" or "test" and the network is "VGG". A bad split part is reported first (ValueError), then a non-VGG network (NotImplementedError). |
| PredictPipeline.RunWorker | synister/predict_pipeline.py:47-58 | A worker with a bad split part or network fails with that error before enqueueing anything |
| PredictPipeline.RunWorkerAsWritten | synister/predict_pipeline.py:47-58 | The as-written worker fails the same argument checks in the same order, before enqueueing anything |
| PredictPipeline.FilterLocationsSpec | synister/predict_pipeline.py:96-101 | The location comprehension succeeds exactly when no record raises a KeyError. It then yields the locations of the matching, unpredicted synapses in iteration order. Otherwise it reports the KeyError of the first offending record: a missing split tag, or a missing prediction entry, which is looked up only after the tag matched. |
| PredictPipeline.SelectedLocationsMembership | synister/predict_pipeline.py:96-101 | A location is in the list exactly when some synapse with the requested role and an unset prediction sits there |
| PredictPipeline.FilterIgnoresUnmatchedPredictions | synister/predict_pipeline.py:100-101 | Prediction entries of synapses whose role does not match are never consulted: tables that agree on the matching synapses give the same result, error or not |
| Sharding.PartitionCovers | synister/predict_pipeline.py:103-105 | For any boundary function from 0 to len that never decreases, the worker slices concatenated in worker order are the whole list. This covers the float formula too, whose bounds never decrease and whose end points are exact. |
| Sharding.SlicesDisjoint | synister/predict_pipeline.py:103-105 | A later worker's range starts no earlier than an earlier worker's range ends |
| Sharding.UniqueOwner | synister/predict_pipeline.py:103-105 | Every index of the list lies in the range of some worker, and of no other |
| Sharding.IntegerBoundary | synister/predict_pipeline.py:103-104 | The formula `int(w*len/n)` starts at 0 for worker 0, ends at `len` for worker `n`, and never decreases |
| Sharding.ShardBoundsInRange | synister/predict_pipeline.py:103-104 | For `0 <= w < n`: `0 <= loc_start <= loc_end <= len` |
| Sharding.ShardIsSlice | synister/predict_pipeline.py:105 | A worker's shard is the plain subsequence between its two bounds (no negative or clamped indices arise) |
| Sharding.ShardsPartition | synister/predict_pipeline.py:103-105 | Under the integer reading of the bound formula, the shards of workers `0..n-1` concatenated in worker order are exactly the location list: nothing processed twice, nothing skipped |
| Sharding.ShardSizeBalanced | synister/predict_pipeline.py:103-104 | Under the integer reading of the bound formula: every shard holds `len div n` or `len div n + 1` locations, exactly `len div n` when `n` divides `len` |
| Sharding.ShardExample | synister/predict_pipeline.py:103-105 | Worker 1 of 4 over 10 locations takes indices `[2, 5)` |
| Sharding.NegativeWorkerExample | synister/predict_pipeline.py:103-105 | A negative worker id is not rejected: worker -2 of 4 over 10 locations takes `locations[-5:-2]`, the items at indices 5 to 7, and worker -1 takes `locations[-2:0]`, which is empty |
| Sharding.ShardDeterministic | synister/predict_pipeline.py:103-105 | The cut points depend only on worker id, worker count and list length: two lists of equal length are cut at the same indices |
| Batching.NumBatches | synister/predict_pipeline.py:107 | `range(0, len, size)` yields nothing exactly for an empty shard, and otherwise the least count whose batches reach `len` |
| Batching.BatchOffsets | synister/predict_pipeline.py:107 | Every batch start is inside the shard. Every batch but the last ends inside it, and the last one ends at or past its end. |
| Batching.BatchShape | synister/predict_pipeline.py:107-109 | Batch `k` is the slice starting at `k*size`. It holds 1 to `size` locations, and only the last batch may hold fewer than `size`. |
| Batching.BatchesPrefix | synister/predict_pipeline.py:107-109 | The first `m` batches concatenated are the shard's prefix of length `min(m*size, len)` |
| Batching.BatchesConcat | synister/predict_pipeline.py:107-109 | All batches concatenated in walk order give back the shard |
| Batching.AllBatchesFullIff | synister/predict_pipeline.py:107-109 | Every batch holds exactly `batch_size` locations if and only if `batch_size` divides the shard length |
| Batching.LastBatchSize | synister/predict_pipeline.py:107-109 | The last batch holds what is left after the full ones: `size` when `size` divides `len`, else `len mod size` |
| Batching.ShortShardShape | synister/predict_pipeline.py:107-109 | When `batch_size` does not divide the shard length, the last batch starts at `len - len mod size` and is short, and every batch before it is full |
| Batching.LastRemainder | synister/predict_pipeline.py:107-109 | Over offsets: what remains after the last batch start is between 1 and `size`, and equals `len mod size` unless that is 0 |
| PredictPipeline.BatchRecords | synister/predict_pipeline.py:120-130 | Row `k` of the output becomes the record of location `k`. Each batch contributes one record per location, and the records carry exactly the batch's locations and rows. |
| PredictPipeline.EnqueueAllSpec | synister/predict_pipeline.py:107-130 | Corrected worker (`RunWorker`): over a walk, the records name the batches' locations in order and carry the network's rows for each batch, in order |
| PredictPipeline.EnqueueAsWrittenSpec | synister/predict_pipeline.py:116-121 | As written, the walk enqueues everything while batches are full. At the first short batch it stops with a reshape error at that batch's start offset, and keeps only the earlier batches' records. |
| PredictPipeline.PlanOfRunnable | synister/predict_pipeline.py:96-109 | With valid arguments, no KeyError, `n != 0` and a positive batch size, the worker walks the batches of its shard of the selected locations |
| PredictPipeline.WorkerEnqueuesItsShard | synister/predict_pipeline.py:103-130 | Corrected worker (`RunWorker`): a runnable worker ends without error and enqueues one record per shard location, in shard order, each with the network's row for it |
| PredictPipeline.WorkersCoverAllLocations | synister/predict_pipeline.py:96-130 | Corrected worker (`RunWorker`): if workers `0..n-1` all read the same synapse and prediction tables, their enqueued locations concatenated in worker order are exactly the selected locations. Each unpredicted location of the role then gets exactly one record. |
| PredictPipeline.AsWrittenOnShard | synister/predict_pipeline.py:107-121 | Over one shard, the as-written walk fails if and only if the batch size does not divide the shard length. Then it fails at offset `len - len mod size`, having enqueued exactly the locations of the full batches. |
| PredictPipeline.AsWrittenOnShortShard | synister/predict_pipeline.py:107-121 | When the batch size does not divide the shard length, the as-written walk fails at the start of the last, short batch, having enqueued exactly the locations of the full batches |
| PredictPipeline.AsWrittenFailsOnShortBatch | synister/predict_pipeline.py:107-121 | The as-written worker fails if and only if `batch_size` does not divide its shard length. Otherwise it behaves exactly as the corrected worker. When it fails, only the locations of the full batches are enqueued. |
| PredictPipeline.ShortBatchExample | synister/predict_pipeline.py:107-121 | Three unpredicted test synapses, one worker, batch size 2. As written, the worker fails at offset 2 after enqueueing 2 records. Corrected, it enqueues 3. |
| TrainPipeline.GroupSpec | synister/brain_region_network/train_pipeline.py:34-42 | Grouping fails exactly when a single-region record lacks the split tag, and reports the first such record. Otherwise the keys are exactly the regions with an eligible synapse, distinct and in first-sight order. Each region stores its eligible synapses in order except the first. |
| TrainPipeline.SelectClasses | synister/brain_region_network/train_pipeline.py:44 | A region is in the class list exactly when it is a key whose stored list has at least 10 entries; distinct keys give distinct classes |
| TrainPipeline.SelectKeepsOrder | synister/brain_region_network/train_pipeline.py:44 | Class selection keeps the keys' first-sight order |
| TrainPipeline.BrainRegionIdsSpec | synister/brain_region_network/train_pipeline.py:34-44 | `brain_region_ids` holds exactly the regions with at least 11 eligible training synapses, each once, in first-sight order. It fails exactly when a KeyError occurs. |
| TrainPipeline.TenEligibleAreNotEnough | synister/brain_region_network/train_pipeline.py:37-44 | A region with exactly 10 eligible training synapses is not a class |
| TrainPipeline.EligibleIdsWitness | synister/brain_region_network/train_pipeline.py:35-38 | A region has an eligible synapse exactly when some record is a single-region training synapse of that region |
| TrainPipeline.DefaultOutputClasses | synister/brain_region_network/train_pipeline.py:46-47 | Without an explicit value, the output class count is the number of distinct regions with at least 11 eligible synapses. An explicit value is kept. |
| TrainPipeline.OneSourcePerClass | synister/brain_region_network/train_pipeline.py:86-101 | There is exactly one sampling branch per qualifying region and none for other regions. Branch `i` is for class `i`, following the order of `brain_region_ids`. Every branch's label source gets the full class list. |
| TrainPipeline.InputSizeVolume | synister/brain_region_network/train_pipeline.py:68-69 | The request's physical volume is the voxel count of `input_shape` times one voxel's volume |
| TrainPipeline.TrainLoop | synister/brain_region_network/train_pipeline.py:150-154 | The loop stops at the first batch whose iteration is at least `max_iteration`, and every earlier batch was below it. If none is, it runs through the whole trace. With a counter that counts up from `c <= max_iteration`, exactly `max_iteration - c + 1` batches are requested. |

## Left out

- Model loading, `torch`, the checkpoint and the device are left out. `get_raw` and `predict` become the `Predictor` parameter, assumed to return one row per location.
- `SynisterDb`, the config readers and the Zarr raw container are left out. The synapse table and the prediction table are inputs.
- The `multiprocessing` writer processes, the queue and `prediction_writer` are left out. The sequence of enqueued records is the worker's output, and `prediction_queue.join()` is not modelled.
- The gunpowder pipeline is not modelled: the Zarr source, normalisation, padding, augmentations, pre-cache, stacking, the `Train` node, snapshots and profiling. Only the per-class branch structure of `sample_sources` is.
- `SynapseBrainRegionSourceMongo` and `BrainRegionIdSource` are not part of this model. What labels they emit is not visible, so a branch records only its region and the class list.
- The `input_size/8` synapse request is left out: it is integer division on a gunpowder `Coordinate`, whose semantics are not visible here.
- Logging, `print` and the `__main__` blocks are left out.
- The idempotence promised across reruns rests on the prediction store being keyed by coordinates. That store is external and not modelled. Selection does exclude already-predicted synapses (`FilterLocationsSpec`).
- Sharding.ShardSizeBalanced: the balance bound holds only under the integer reading. The program computes `float(w)/n*len` in IEEE doubles. With `n = 100` and `len = 100`, `float(28)/100*100` is 28.000000000000004 and `float(29)/100*100` is 28.999999999999996, which both truncate to 28. So worker 28 gets the empty slice `[28:28]` and worker 29 gets `[28:30]`. Coverage and disjointness still hold (`Sharding.PartitionCovers`).
- PredictPipeline.WorkersCoverAllLocations: assumes every block worker reads the same snapshot of the synapse and prediction tables. In the program each block worker is a separate process started from `__main__` (lines 162-171). Each one reads the stored predictions at line 91, while other workers' writers (lines 136-159) may already be storing predictions under the same split, experiment and run numbers. A worker that reads later sees a shorter location list and different cut points, so locations can be skipped or predicted twice. Interleaving between processes is not modelled.
- Sharding.ShardBound: reads `int(float(w)/n*len)` over exact rationals. IEEE rounding of the float product is not modelled. `Sharding.PartitionCovers` holds for any bound that never decreases and has exact end points, which covers the float formula's coverage and disjointness.
- PyOps.TruncReal: is defined on reals only. `int()` of NaN, infinities or non-numeric coordinates is not modelled.
- A missing `"splits"`, `"z"`, `"y"`, `"x"`, `"prediction"` or `"brain_region"` field is not modelled. The record type always has them, so the KeyErrors they would raise are absent.
- TrainPipeline.InputSize: requires both coordinates to have the same number of dimensions. Gunpowder's `Coordinate` multiplication is not visible, so mismatched dimensions are left out.
- TrainPipeline.TrainLoop: runs over a finite trace of reported iteration numbers, not an unbounded pipeline. A run that never stops is represented by a trace in which no iteration reaches `max_iteration`.
- The `Vgg3D` constructor arguments other than `output_classes` are left out.

## Findings

| source | as written | input that shows it | evidently intended | confidence | as-written member | corrected member |
|---|---|---|---|---|---|---|
| synister/predict_pipeline.py:117 | Every batch is reshaped to `batch_size` rows, and a final batch that is shorter cannot be reshaped. The worker then stops, and the locations of its last batch are never predicted. If `get_raw` pads to `batch_size` instead, the failure moves to `locs[k]` at line 121, after the short batch's records were enqueued, and the worker still ends with an exception. | Three unpredicted "test" synapses, one worker, `batch_size = 2`: the second batch holds one location | Reshape each batch to its own length (`len(locs)` rows). The walk at lines 107-109 deliberately slices a short last batch, and the writer queue expects one record per location, so every location of the shard is predicted. | not executed; medium (which line fails depends on `get_raw`, whose source is not part of this model) | PredictPipeline.RunWorkerAsWritten | PredictPipeline.RunWorker |
