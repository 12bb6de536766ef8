/**
 * One inference block worker (`test` in the prediction driver): request
 * checks, selection of the not-yet-predicted locations of the requested
 * split role, this worker's shard, the walk in mini-batches, and the
 * prediction tasks put on the writer queue.
 *
 * The network itself (`get_raw` followed by `predict`) is a parameter: a
 * function from a batch of locations to one score row per location.
 */
module PredictPipeline {
  import opened Wrappers
  import opened Seqs
  import opened PyOps
  import opened Synapses
  import opened Sharding
  import opened Batching

  /** The exceptions that end a worker. */
  datatype PredictError =
    | InvalidSplitPart                    // ValueError: split_part not "validation"/"test"
    | NetworkNotImplemented               // NotImplementedError: network other than "VGG"
    | MissingSplitTag(id: SynapseId)      // KeyError: the record has no tag for split_name
    | MissingPrediction(id: SynapseId)    // KeyError: no prediction entry for the synapse
    | ZeroWorkers                         // ZeroDivisionError: num_block_workers == 0
    | ZeroBatchSize                       // ValueError: range() step of zero
    | ReshapeMismatch(batchStart: int)    // reshape of a batch shorter than batch_size

  /** The arguments of `test` that the modelled logic reads. */
  datatype InferenceRequest = InferenceRequest(
    workerId: int,
    numBlockWorkers: int,
    splitName: string,
    splitPart: string,
    network: string,
    batchSize: int)

  /** Stored predictions for a split/experiment/run: `None` means not predicted yet. */
  type PredictionTable = map<SynapseId, Option<Scores>>

  /** One `data_synapse` dict put on the writer queue. */
  datatype PredictionTask = PredictionTask(prediction: Scores, z: int, y: int, x: int)

  /** What a worker leaves behind: the prediction records it enqueued and the exception that ended it, if any. */
  datatype Run = Run(enqueued: seq<PredictionTask>, failure: Option<PredictError>)

  /** Raw-volume fetch and network forward pass, composed: one score row per location. */
  type Predictor = seq<Loc> -> seq<Scores>

  ghost predicate RowPerLocation(predict: Predictor)
  {
    forall b :: |predict(b)| == |b|
  }

  predicate ValidSplitPart(splitPart: string)
  {
    splitPart == "validation" || splitPart == "test"
  }

  /** The argument checks at the top of `test`, in source order. */
  function CheckRequest(splitPart: string, network: string): (r: Option<PredictError>)
    ensures r.None? <==> ValidSplitPart(splitPart) && network == "VGG"
    ensures !ValidSplitPart(splitPart) ==> r == Some(InvalidSplitPart)
    ensures ValidSplitPart(splitPart) && network != "VGG" ==> r == Some(NetworkNotImplemented)
  {
    if !ValidSplitPart(splitPart) then Some(InvalidSplitPart)
    else if network != "VGG" then Some(NetworkNotImplemented)
    else None
  }

  /** `(int(z), int(y), int(x))` of a synapse record. */
  function LocationOf(s: Synapse): (r: Loc)
  {
    Loc(TruncReal(s.z), TruncReal(s.y), TruncReal(s.x))
  }

  // ----- location selection -----

  /** The synapse carries the requested split role and has no stored prediction. */
  predicate Selected(e: (SynapseId, Synapse), splitName: string, splitPart: string, preds: PredictionTable)
  {
    && splitName in e.1.splits
    && e.1.splits[splitName] == splitPart
    && e.0 in preds
    && preds[e.0].None?
  }

  /** Evaluating the selection condition on this record raises no KeyError. */
  predicate Lookable(e: (SynapseId, Synapse), splitName: string, splitPart: string, preds: PredictionTable)
  {
    && splitName in e.1.splits
    && (e.1.splits[splitName] == splitPart ==> e.0 in preds)
  }

  /** Record `i` is the first one whose selection condition raises a KeyError. */
  predicate FirstUnlookable(syns: SynapseTable, splitName: string, splitPart: string, preds: PredictionTable, i: int)
  {
    && 0 <= i < |syns|
    && !Lookable(syns[i], splitName, splitPart, preds)
    && forall j :: 0 <= j < i ==> Lookable(syns[j], splitName, splitPart, preds)
  }

  /** The KeyError a non-lookable record raises. */
  function LookupError(e: (SynapseId, Synapse), splitName: string): (r: PredictError)
  {
    if splitName !in e.1.splits then MissingSplitTag(e.0) else MissingPrediction(e.0)
  }

  /** Reference: the locations of the selected synapses, in iteration order, ignoring KeyErrors. */
  function SelectedLocations(syns: SynapseTable, splitName: string, splitPart: string, preds: PredictionTable): (r: seq<Loc>)
    decreases |syns|
  {
    if |syns| == 0 then []
    else
      var rest := SelectedLocations(syns[..|syns| - 1], splitName, splitPart, preds);
      if Selected(syns[|syns| - 1], splitName, splitPart, preds) then rest + [LocationOf(syns[|syns| - 1].1)]
      else rest
  }

  /**
   * The `locations` list comprehension. The prediction entry is looked up
   * only once the split tag has matched (`and` short-circuits), and the first
   * KeyError in iteration order ends the comprehension.
   */
  function FilterLocations(syns: SynapseTable, splitName: string, splitPart: string, preds: PredictionTable)
    : (r: Result<seq<Loc>, PredictError>)
    decreases |syns|
  {
    if |syns| == 0 then Ok([])
    else
      match FilterLocations(syns[..|syns| - 1], splitName, splitPart, preds)
      case Err(e) => Err(e)
      case Ok(locs) =>
        var (id, syn) := syns[|syns| - 1];
        if splitName !in syn.splits then Err(MissingSplitTag(id))
        else if syn.splits[splitName] != splitPart then Ok(locs)
        else if id !in preds then Err(MissingPrediction(id))
        else if preds[id].Some? then Ok(locs)
        else Ok(locs + [LocationOf(syn)])
  }

  /**
   * The comprehension succeeds exactly when no record raises a KeyError, and
   * then yields the selected locations in order; otherwise it reports the
   * KeyError of the FIRST offending record.
   */
  lemma {:induction false} FilterLocationsSpec(syns: SynapseTable, splitName: string, splitPart: string, preds: PredictionTable)
    ensures var r := FilterLocations(syns, splitName, splitPart, preds);
      && (r.Ok? <==> forall i :: 0 <= i < |syns| ==> Lookable(syns[i], splitName, splitPart, preds))
      && (r.Ok? ==> r.value == SelectedLocations(syns, splitName, splitPart, preds))
      && (r.Err? ==> exists i :: FirstUnlookable(syns, splitName, splitPart, preds, i)
                                 && r.error == LookupError(syns[i], splitName))
    decreases |syns|
  {
    if |syns| > 0 {
      var pre := syns[..|syns| - 1];
      FilterLocationsSpec(pre, splitName, splitPart, preds);
      var r := FilterLocations(syns, splitName, splitPart, preds);
      var rp := FilterLocations(pre, splitName, splitPart, preds);
      if rp.Err? {
        var i :| FirstUnlookable(pre, splitName, splitPart, preds, i) && rp.error == LookupError(pre[i], splitName);
        assert syns[i] == pre[i];
        assert forall j :: 0 <= j < i ==> syns[j] == pre[j];
      } else {
        assert forall j :: 0 <= j < |pre| ==> syns[j] == pre[j];
        if !Lookable(syns[|syns| - 1], splitName, splitPart, preds) {
          assert r.Err?;
        }
      }
    }
  }

  /** A location is selected exactly when some selected synapse sits there. */
  lemma {:induction false} SelectedLocationsMembership(syns: SynapseTable, splitName: string, splitPart: string, preds: PredictionTable, l: Loc)
    ensures l in SelectedLocations(syns, splitName, splitPart, preds)
        <==> exists i :: 0 <= i < |syns| && Selected(syns[i], splitName, splitPart, preds) && LocationOf(syns[i].1) == l
    decreases |syns|
  {
    if |syns| > 0 {
      var pre := syns[..|syns| - 1];
      SelectedLocationsMembership(pre, splitName, splitPart, preds, l);
      assert forall j :: 0 <= j < |pre| ==> syns[j] == pre[j];
      if exists i :: 0 <= i < |syns| && Selected(syns[i], splitName, splitPart, preds) && LocationOf(syns[i].1) == l {
        var i :| 0 <= i < |syns| && Selected(syns[i], splitName, splitPart, preds) && LocationOf(syns[i].1) == l;
        if i < |pre| {
          assert pre[i] == syns[i];
        }
      }
    }
  }

  /**
   * Prediction entries of synapses whose split tag does not match are never
   * consulted: two prediction tables that agree on the matching synapses
   * give the same outcome, error or not.
   */
  lemma {:induction false} FilterIgnoresUnmatchedPredictions(
    syns: SynapseTable, splitName: string, splitPart: string, p1: PredictionTable, p2: PredictionTable)
    requires forall i :: 0 <= i < |syns| ==> AgreeIfMatched(syns[i], splitName, splitPart, p1, p2)
    ensures FilterLocations(syns, splitName, splitPart, p1) == FilterLocations(syns, splitName, splitPart, p2)
    decreases |syns|
  {
    if |syns| > 0 {
      var pre := syns[..|syns| - 1];
      assert forall j :: 0 <= j < |pre| ==> syns[j] == pre[j];
      FilterIgnoresUnmatchedPredictions(pre, splitName, splitPart, p1, p2);
    }
  }

  /** The two tables hold the same entry for this synapse, if its split tag matches. */
  predicate AgreeIfMatched(e: (SynapseId, Synapse), splitName: string, splitPart: string, p1: PredictionTable, p2: PredictionTable)
  {
    (splitName in e.1.splits && e.1.splits[splitName] == splitPart) ==>
      (e.0 in p1 <==> e.0 in p2) && (e.0 in p1 ==> p1[e.0] == p2[e.0])
  }

  // ----- prediction records -----

  function TaskLocations(ts: seq<PredictionTask>): (r: seq<Loc>)
  {
    seq(|ts|, i requires 0 <= i < |ts| => Loc(ts[i].z, ts[i].y, ts[i].x))
  }

  function TaskScores(ts: seq<PredictionTask>): (r: seq<Scores>)
  {
    seq(|ts|, i requires 0 <= i < |ts| => ts[i].prediction)
  }

  /**
   * The records of one batch: row `k` of the network output becomes the
   * task for location `k`. The batch must be full in the sense that the
   * output has exactly one row per location.
   */
  function BatchRecords(locs: seq<Loc>, output: seq<Scores>): (r: seq<PredictionTask>)
    requires |output| == |locs|
    ensures |r| == |locs|
    ensures TaskLocations(r) == locs
    ensures TaskScores(r) == output
  {
    seq(|output|, k requires 0 <= k < |output| => PredictionTask(output[k], locs[k].z, locs[k].y, locs[k].x))
  }

  lemma TaskProjectionsAppend(a: seq<PredictionTask>, b: seq<PredictionTask>)
    ensures TaskLocations(a + b) == TaskLocations(a) + TaskLocations(b)
    ensures TaskScores(a + b) == TaskScores(a) + TaskScores(b)
  {
  }

  /** The prediction records of every batch, in walk order, with every batch predicted as it is. */
  function EnqueueAll(batches: seq<seq<Loc>>, predict: Predictor): (r: seq<PredictionTask>)
    requires RowPerLocation(predict)
    decreases |batches|
  {
    if |batches| == 0 then []
    else
      var last := batches[|batches| - 1];
      EnqueueAll(batches[..|batches| - 1], predict) + BatchRecords(last, predict(last))
  }

  /** The enqueued tasks name the batches' locations in order and carry the network's rows. */
  lemma {:induction false} EnqueueAllSpec(batches: seq<seq<Loc>>, predict: Predictor)
    requires RowPerLocation(predict)
    ensures TaskLocations(EnqueueAll(batches, predict)) == Flatten(batches)
    ensures TaskScores(EnqueueAll(batches, predict))
         == Flatten(seq(|batches|, k requires 0 <= k < |batches| => predict(batches[k])))
    decreases |batches|
  {
    if |batches| > 0 {
      var pre := batches[..|batches| - 1];
      var last := batches[|batches| - 1];
      EnqueueAllSpec(pre, predict);
      TaskProjectionsAppend(EnqueueAll(pre, predict), BatchRecords(last, predict(last)));
      var rows := seq(|batches|, k requires 0 <= k < |batches| => predict(batches[k]));
      assert rows[..|batches| - 1] == seq(|pre|, k requires 0 <= k < |pre| => predict(pre[k]));
    }
  }

  /**
   * The walk as written: each batch is reshaped to `batch_size` rows, which
   * fails for a batch holding fewer locations. Tasks of earlier batches stay
   * enqueued.
   */
  function EnqueueAsWritten(batches: seq<seq<Loc>>, batchSize: int, predict: Predictor): (r: Run)
    requires RowPerLocation(predict)
    decreases |batches|
  {
    if |batches| == 0 then Run([], None)
    else
      var prev := EnqueueAsWritten(batches[..|batches| - 1], batchSize, predict);
      var last := batches[|batches| - 1];
      if prev.failure.Some? then prev
      else if |last| != batchSize then Run(prev.enqueued, Some(ReshapeMismatch((|batches| - 1) * batchSize)))
      else Run(prev.enqueued + BatchRecords(last, predict(last)), None)
  }

  /**
   * As written, the walk agrees with `EnqueueAll` while batches are full and
   * stops with a reshape error at the first short batch, keeping only the
   * tasks of the batches before it.
   */
  lemma {:induction false} EnqueueAsWrittenSpec(batches: seq<seq<Loc>>, batchSize: int, predict: Predictor, j: nat)
    requires RowPerLocation(predict)
    requires j <= |batches|
    requires forall k :: 0 <= k < j ==> |batches[k]| == batchSize
    requires j < |batches| ==> |batches[j]| != batchSize
    ensures j == |batches| ==> EnqueueAsWritten(batches, batchSize, predict) == Run(EnqueueAll(batches, predict), None)
    ensures j < |batches| ==>
      EnqueueAsWritten(batches, batchSize, predict) == Run(EnqueueAll(batches[..j], predict), Some(ReshapeMismatch(j * batchSize)))
    decreases |batches|
  {
    if |batches| > 0 {
      var pre := batches[..|batches| - 1];
      if j == |batches| {
        EnqueueAsWrittenSpec(pre, batchSize, predict, j - 1);
      } else if j == |batches| - 1 {
        EnqueueAsWrittenSpec(pre, batchSize, predict, j);
        assert pre[..j] == pre;
      } else {
        EnqueueAsWrittenSpec(pre, batchSize, predict, j);
        assert pre[..j] == batches[..j];
      }
    }
  }

  // ----- the worker -----

  /**
   * Everything before the first network call: argument checks, the location
   * list, this worker's shard and its batches (none for a negative batch
   * size, as `range` then yields nothing).
   */
  function PlanBatches(req: InferenceRequest, syns: SynapseTable, preds: PredictionTable): (r: Result<seq<seq<Loc>>, PredictError>)
  {
    match CheckRequest(req.splitPart, req.network)
    case Some(e) => Err(e)
    case None =>
      match FilterLocations(syns, req.splitName, req.splitPart, preds)
      case Err(e) => Err(e)
      case Ok(locations) =>
        if req.numBlockWorkers == 0 then Err(ZeroWorkers)
        else
          var mine := Shard(locations, req.workerId, req.numBlockWorkers);
          if req.batchSize == 0 then Err(ZeroBatchSize)
          else if req.batchSize < 0 then Ok([])
          else Ok(Batches(mine, req.batchSize))
  }

  /**
   * One worker, corrected: each batch is reshaped to its own length rather
   * than to `batch_size`, so a short last batch is predicted like the others.
   */
  function RunWorker(req: InferenceRequest, syns: SynapseTable, preds: PredictionTable, predict: Predictor): (r: Run)
    requires RowPerLocation(predict)
    ensures !ValidSplitPart(req.splitPart) ==> r == Run([], Some(InvalidSplitPart))
    ensures ValidSplitPart(req.splitPart) && req.network != "VGG" ==> r == Run([], Some(NetworkNotImplemented))
  {
    match PlanBatches(req, syns, preds)
    case Err(e) => Run([], Some(e))
    case Ok(batches) => Run(EnqueueAll(batches, predict), None)
  }

  /** One worker as written: a short final batch fails at the reshape. */
  function RunWorkerAsWritten(req: InferenceRequest, syns: SynapseTable, preds: PredictionTable, predict: Predictor): (r: Run)
    requires RowPerLocation(predict)
    ensures !ValidSplitPart(req.splitPart) ==> r == Run([], Some(InvalidSplitPart))
    ensures ValidSplitPart(req.splitPart) && req.network != "VGG" ==> r == Run([], Some(NetworkNotImplemented))
  {
    match PlanBatches(req, syns, preds)
    case Err(e) => Run([], Some(e))
    case Ok(batches) => EnqueueAsWritten(batches, req.batchSize, predict)
  }

  /** The preconditions under which a worker reaches its batch loop. */
  predicate Runnable(req: InferenceRequest, syns: SynapseTable, preds: PredictionTable)
  {
    && ValidSplitPart(req.splitPart)
    && req.network == "VGG"
    && (forall i :: 0 <= i < |syns| ==> Lookable(syns[i], req.splitName, req.splitPart, preds))
    && req.numBlockWorkers != 0
    && 0 < req.batchSize
  }

  lemma PlanOfRunnable(req: InferenceRequest, syns: SynapseTable, preds: PredictionTable)
    requires Runnable(req, syns, preds)
    ensures var locations := SelectedLocations(syns, req.splitName, req.splitPart, preds);
      PlanBatches(req, syns, preds) == Ok(Batches(Shard(locations, req.workerId, req.numBlockWorkers), req.batchSize))
  {
    FilterLocationsSpec(syns, req.splitName, req.splitPart, preds);
  }

  /**
   * A worker enqueues exactly one task per location of its shard, in shard
   * order, each carrying the network's row for that location.
   */
  lemma WorkerEnqueuesItsShard(req: InferenceRequest, syns: SynapseTable, preds: PredictionTable, predict: Predictor)
    requires RowPerLocation(predict)
    requires Runnable(req, syns, preds)
    ensures var locations := SelectedLocations(syns, req.splitName, req.splitPart, preds);
      var batches := Batches(Shard(locations, req.workerId, req.numBlockWorkers), req.batchSize);
      var r := RunWorker(req, syns, preds, predict);
      && r.failure == None
      && TaskLocations(r.enqueued) == Shard(locations, req.workerId, req.numBlockWorkers)
      && TaskScores(r.enqueued) == Flatten(seq(|batches|, k requires 0 <= k < |batches| => predict(batches[k])))
  {
    PlanOfRunnable(req, syns, preds);
    var locations := SelectedLocations(syns, req.splitName, req.splitPart, preds);
    var mine := Shard(locations, req.workerId, req.numBlockWorkers);
    EnqueueAllSpec(Batches(mine, req.batchSize), predict);
    BatchesConcat(mine, req.batchSize);
  }

  /**
   * Across the pool of workers `0 .. n - 1`, every not-yet-predicted location
   * of the requested role gets exactly one prediction task, and in list order.
   */
  lemma WorkersCoverAllLocations(req: InferenceRequest, syns: SynapseTable, preds: PredictionTable, predict: Predictor)
    requires RowPerLocation(predict)
    requires Runnable(req, syns, preds)
    requires 0 < req.numBlockWorkers
    ensures var n := req.numBlockWorkers;
      Flatten(seq(n, w requires 0 <= w < n => TaskLocations(RunWorker(req.(workerId := w), syns, preds, predict).enqueued)))
      == SelectedLocations(syns, req.splitName, req.splitPart, preds)
  {
    var n := req.numBlockWorkers;
    var locations := SelectedLocations(syns, req.splitName, req.splitPart, preds);
    var perWorker := seq(n, w requires 0 <= w < n => TaskLocations(RunWorker(req.(workerId := w), syns, preds, predict).enqueued));
    var shards := seq(n, w requires 0 <= w < n => Shard(locations, w, n));
    forall w | 0 <= w < n
      ensures perWorker[w] == shards[w]
    {
      WorkerEnqueuesItsShard(req.(workerId := w), syns, preds, predict);
    }
    assert perWorker == shards;
    ShardsPartition(locations, n);
  }

  /** The locations covered by the full batches of a shard: all but the last `len % size`. */
  function FullBatchPart(mine: seq<Loc>, size: nat): (r: seq<Loc>)
    requires 0 < size
    ensures |r| == |mine| - |mine| % size
  {
    mine[..|mine| - |mine| % size]
  }

  /**
   * The batch walk as written over a shard: it fails exactly when the batch
   * size does not divide the shard length, and then only the locations of the
   * full batches were enqueued.
   */
  lemma AsWrittenOnShard(mine: seq<Loc>, size: nat, predict: Predictor)
    requires RowPerLocation(predict)
    requires 0 < size
    ensures var r := EnqueueAsWritten(Batches(mine, size), size, predict);
      && (r.failure.Some? <==> |mine| % size != 0)
      && (r.failure.None? ==> r.enqueued == EnqueueAll(Batches(mine, size), predict))
      && (r.failure.Some? ==>
            r.failure == Some(ReshapeMismatch(|mine| - |mine| % size))
            && TaskLocations(r.enqueued) == FullBatchPart(mine, size))
  {
    var batches := Batches(mine, size);
    AllBatchesFullIff(mine, size);
    if |mine| % size == 0 {
      EnqueueAsWrittenSpec(batches, size, predict, |batches|);
    } else {
      AsWrittenOnShortShard(mine, size, predict);
    }
  }

  /** A shard whose length is not a multiple of the batch size: the walk stops at its last, short batch. */
  lemma AsWrittenOnShortShard(mine: seq<Loc>, size: nat, predict: Predictor)
    requires RowPerLocation(predict)
    requires 0 < size
    requires |mine| % size != 0
    ensures var r := EnqueueAsWritten(Batches(mine, size), size, predict);
      && r.failure == Some(ReshapeMismatch(|mine| - |mine| % size))
      && TaskLocations(r.enqueued) == FullBatchPart(mine, size)
  {
    var batches := Batches(mine, size);
    var m := |batches|;
    var r := EnqueueAsWritten(batches, size, predict);
    ShortShardShape(mine, size);
    EnqueueAsWrittenSpec(batches, size, predict, m - 1);
    assert r.failure == Some(ReshapeMismatch(|mine| - |mine| % size));
    assert r.enqueued == EnqueueAll(batches[..m - 1], predict);
    FullBatchesLocations(mine, size, predict);
  }

  /** The records of every batch but the last carry exactly the locations of the full batches. */
  lemma FullBatchesLocations(mine: seq<Loc>, size: nat, predict: Predictor)
    requires RowPerLocation(predict)
    requires 0 < size
    requires |mine| % size != 0
    ensures var batches := Batches(mine, size);
      && 0 < |batches|
      && TaskLocations(EnqueueAll(batches[..|batches| - 1], predict)) == FullBatchPart(mine, size)
  {
    var batches := Batches(mine, size);
    var m := |batches|;
    ShortShardShape(mine, size);
    assert (m - 1) * size == |mine| - |mine| % size;
    EnqueueAllSpec(batches[..m - 1], predict);
    BatchesPrefix(mine, size, m - 1);
  }

  /**
   * The source as written: a worker whose shard length is not a multiple of
   * the batch size fails at the reshape of its last batch, after enqueueing
   * only the locations of its full batches; otherwise it behaves as
   * `RunWorker`.
   */
  lemma AsWrittenFailsOnShortBatch(req: InferenceRequest, syns: SynapseTable, preds: PredictionTable, predict: Predictor)
    requires RowPerLocation(predict)
    requires Runnable(req, syns, preds)
    ensures var locations := SelectedLocations(syns, req.splitName, req.splitPart, preds);
      var mine := Shard(locations, req.workerId, req.numBlockWorkers);
      var r := RunWorkerAsWritten(req, syns, preds, predict);
      && (r.failure.Some? <==> |mine| % req.batchSize != 0)
      && (r.failure.None? ==> r == RunWorker(req, syns, preds, predict))
      && (r.failure.Some? ==>
            r.failure == Some(ReshapeMismatch(|mine| - |mine| % req.batchSize))
            && TaskLocations(r.enqueued) == FullBatchPart(mine, req.batchSize))
  {
    PlanOfRunnable(req, syns, preds);
    var locations := SelectedLocations(syns, req.splitName, req.splitPart, preds);
    var mine := Shard(locations, req.workerId, req.numBlockWorkers);
    var size: nat := req.batchSize;
    var batches := Batches(mine, size);
    var r := RunWorkerAsWritten(req, syns, preds, predict);
    assert r == EnqueueAsWritten(batches, size, predict);
    assert RunWorker(req, syns, preds, predict) == Run(EnqueueAll(batches, predict), None);
    AsWrittenOnShard(mine, size, predict);
    if r.failure.None? {
      assert r.enqueued == EnqueueAll(batches, predict);
      assert r == Run(EnqueueAll(batches, predict), None);
    }
  }

  // Fixture: three unpredicted test synapses, one worker, batch size 2.

  function ExampleTable(): (r: SynapseTable)
  {
    var syn := Synapse(0.0, 0.0, 0.0, map["s" := "test"], ["r"]);
    [(1, syn), (2, syn), (3, syn)]
  }

  function ExamplePredictions(): (r: PredictionTable)
  {
    map[1 := None, 2 := None, 3 := None]
  }

  function ExampleRequest(): (r: InferenceRequest)
  {
    InferenceRequest(0, 1, "s", "test", "VGG", 2)
  }

  lemma ExampleSelection()
    ensures Runnable(ExampleRequest(), ExampleTable(), ExamplePredictions())
    ensures SelectedLocations(ExampleTable(), "s", "test", ExamplePredictions()) == [Loc(0, 0, 0), Loc(0, 0, 0), Loc(0, 0, 0)]
  {
    var syns, preds := ExampleTable(), ExamplePredictions();
    var syn := syns[0].1;
    assert forall i :: 0 <= i < |syns| ==> syns[i].1 == syn && syns[i].0 in preds;
    var l := Loc(0, 0, 0);
    assert LocationOf(syn) == l;
    assert SelectedLocations(syns[..1], "s", "test", preds) == [l] by {
      assert |syns[..1][..0]| == 0;
    }
    assert SelectedLocations(syns[..2], "s", "test", preds) == [l, l] by {
      assert syns[..2][..1] == syns[..1];
    }
    assert syns[..2] == syns[..|syns| - 1];
  }

  /**
   * A concrete instance: as written, the second batch (one location) fails
   * the reshape and the third location is never predicted; reshaping to the
   * batch's own length enqueues all three.
   */
  lemma ShortBatchExample(predict: Predictor)
    requires RowPerLocation(predict)
    ensures var r := RunWorkerAsWritten(ExampleRequest(), ExampleTable(), ExamplePredictions(), predict);
      r.failure == Some(ReshapeMismatch(2)) && |r.enqueued| == 2
    ensures var r := RunWorker(ExampleRequest(), ExampleTable(), ExamplePredictions(), predict);
      r.failure == None && |r.enqueued| == 3
  {
    ExampleSelection();
    var l := Loc(0, 0, 0);
    var locations := [l, l, l];
    assert Shard(locations, 0, 1) == locations by {
      ShardIsSlice(locations, 0, 1);
    }
    AsWrittenFailsOnShortBatch(ExampleRequest(), ExampleTable(), ExamplePredictions(), predict);
    WorkerEnqueuesItsShard(ExampleRequest(), ExampleTable(), ExamplePredictions(), predict);
  }
}
