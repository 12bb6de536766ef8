/**
 * The walk over a worker's shard in mini-batches: batch starts run from 0 in
 * steps of the batch size while they are inside the shard, and each batch is
 * the slice of at most `batch_size` locations from its start.
 */
module Batching {
  import opened Arith
  import opened PyOps
  import opened Seqs

  /** How many values `range(0, len, size)` yields. */
  function NumBatches(len: nat, size: nat): (r: nat)
    requires 0 < size
    ensures len == 0 <==> r == 0
    ensures 0 < len ==> (r - 1) * size < len <= r * size
  {
    var q := (len + size - 1) / size;
    DivBounds(len + size - 1, size);
    Distribute(q, -1, size);
    q
  }

  /** The batches in walk order; batch `k` starts at offset `k * size`. */
  function Batches<T>(s: seq<T>, size: nat): (r: seq<seq<T>>)
    requires 0 < size
    ensures |r| == NumBatches(|s|, size)
  {
    seq(NumBatches(|s|, size), k requires 0 <= k < NumBatches(|s|, size) => PySlice(s, k * size, k * size + size))
  }

  /** Where batch `k` of a walk over `len` items starts and ends, as offsets. */
  lemma BatchOffsets(len: nat, size: nat, k: nat)
    requires 0 < size
    requires k < NumBatches(len, size)
    ensures 0 <= k * size < len
    ensures k < NumBatches(len, size) - 1 ==> k * size + size <= len
    ensures k == NumBatches(len, size) - 1 ==> len <= k * size + size
  {
    var m := NumBatches(len, size);
    MulMonotone(0, k, size);
    MulMonotone(k, m - 1, size);
    Distribute(k, 1, size);
    if k < m - 1 {
      MulMonotone(k + 1, m - 1, size);
    } else {
      Distribute(m - 1, 1, size);
    }
  }

  /**
   * Batch `k` is the slice of the shard starting at `k * size`; it is never
   * empty, holds at most `size` items, and only the last one may be short.
   */
  lemma BatchShape<T>(s: seq<T>, size: nat, k: nat)
    requires 0 < size
    requires k < |Batches(s, size)|
    ensures k * size < |s|
    ensures k * size + size <= |s| ==> Batches(s, size)[k] == s[k * size..k * size + size]
    ensures |s| < k * size + size ==> Batches(s, size)[k] == s[k * size..]
    ensures 1 <= |Batches(s, size)[k]| <= size
    ensures k < |Batches(s, size)| - 1 ==> |Batches(s, size)[k]| == size
  {
    BatchOffsets(|s|, size, k);
    var lo := k * size;
    assert Batches(s, size)[k] == PySlice(s, lo, lo + size);
  }

  /**
   * If `ps[k]` is the chunk of at most `size` items starting at `lo` and the
   * pieces before it spell out `s[..lo]`, the first `k + 1` pieces extend that
   * prefix by the chunk.
   */
  lemma ChunkStep<T>(s: seq<T>, ps: seq<seq<T>>, k: nat, lo: int, size: nat)
    requires k < |ps|
    requires 0 <= lo < |s|
    requires ps[k] == PySlice(s, lo, lo + size)
    requires Flatten(ps[..k]) == s[..lo]
    ensures lo + size <= |s| ==> Flatten(ps[..k + 1]) == s[..lo + size]
    ensures |s| < lo + size ==> Flatten(ps[..k + 1]) == s
  {
    TakeSnoc(ps, k);
    if lo + size <= |s| {
      FlattenExtend(s, ps[..k], lo, lo + size);
    } else {
      FlattenExtend(s, ps[..k], lo, |s|);
      assert s[..|s|] == s;
    }
  }

  /** Appending batch `k` to the batches before it extends the covered prefix by that batch. */
  lemma BatchesStep<T>(s: seq<T>, size: nat, k: nat)
    requires 0 < size
    requires k < |Batches(s, size)|
    requires Flatten(Batches(s, size)[..k]) == s[..k * size]
    ensures (k + 1) * size <= |s| ==> Flatten(Batches(s, size)[..k + 1]) == s[..(k + 1) * size]
    ensures |s| < (k + 1) * size ==> Flatten(Batches(s, size)[..k + 1]) == s
  {
    var bs := Batches(s, size);
    var lo := k * size;
    BatchOffsets(|s|, size, k);
    assert bs[k] == PySlice(s, lo, lo + size);
    assert (k + 1) * size == lo + size by {
      Distribute(k, 1, size);
    }
    ChunkStep(s, bs, k, lo, size);
  }

  /** The first `m` batches, concatenated, are the prefix of the shard of length `min(m * size, len)`. */
  lemma {:induction false} BatchesPrefix<T>(s: seq<T>, size: nat, m: nat)
    requires 0 < size
    requires m <= |Batches(s, size)|
    ensures m * size <= |s| ==> Flatten(Batches(s, size)[..m]) == s[..m * size]
    ensures |s| < m * size ==> Flatten(Batches(s, size)[..m]) == s
    decreases m
  {
    if m > 0 {
      BatchesPrefix(s, size, m - 1);
      BatchOffsets(|s|, size, m - 1);
      BatchesStep(s, size, m - 1);
    }
  }

  /** Concatenating the batches in walk order gives back the whole shard. */
  lemma BatchesConcat<T>(s: seq<T>, size: nat)
    requires 0 < size
    ensures Flatten(Batches(s, size)) == s
  {
    var m := |Batches(s, size)|;
    BatchesPrefix(s, size, m);
    assert Batches(s, size)[..m] == Batches(s, size);
    if 0 < |s| && m * size <= |s| {
      assert s[..m * size] == s;
    }
  }

  /** Every batch is full exactly when the batch size divides the shard length. */
  lemma AllBatchesFullIff<T>(s: seq<T>, size: nat)
    requires 0 < size
    ensures (forall k :: 0 <= k < |Batches(s, size)| ==> |Batches(s, size)[k]| == size)
        <==> |s| % size == 0
  {
    if |s| % size == 0 {
      AllBatchesFull(s, size);
    } else {
      ShortShardShape(s, size);
    }
  }

  /** When the batch size divides the shard length, every batch is full. */
  lemma AllBatchesFull<T>(s: seq<T>, size: nat)
    requires 0 < size
    requires |s| % size == 0
    ensures forall k :: 0 <= k < |Batches(s, size)| ==> |Batches(s, size)[k]| == size
  {
    var bs := Batches(s, size);
    forall k | 0 <= k < |bs|
      ensures |bs[k]| == size
    {
      BatchShape(s, size, k);
      LastBatchSize(s, size);
    }
  }

  /**
   * A shard whose length is not a multiple of the batch size: its last batch
   * starts at `len - len % size` and is short, and every earlier batch is full.
   */
  lemma ShortShardShape<T>(s: seq<T>, size: nat)
    requires 0 < size
    requires |s| % size != 0
    ensures var m := |Batches(s, size)|;
      && 0 < m
      && (m - 1) * size == |s| - |s| % size
      && |Batches(s, size)[m - 1]| != size
      && forall k :: 0 <= k < m - 1 ==> |Batches(s, size)[k]| == size
  {
    var bs := Batches(s, size);
    var m := |bs|;
    assert 0 < |s|;
    LastBatchSize(s, size);
    forall k | 0 <= k < m - 1
      ensures |bs[k]| == size
    {
      BatchShape(s, size, k);
    }
  }

  /** What the last start offset leaves over: between 1 and `size` items, `size` exactly when `size` divides `len`. */
  lemma LastRemainder(len: nat, size: nat)
    requires 0 < size
    requires 0 < len
    ensures var last := len - (NumBatches(len, size) - 1) * size;
      && 1 <= last <= size
      && (len % size == 0 ==> last == size)
      && (len % size != 0 ==> last == len % size)
  {
    var m := NumBatches(len, size);
    var last := len - (m - 1) * size;
    Distribute(m - 1, 1, size);
    if last == size {
      assert len == m * size;
      MulDivCancel(m, size);
    } else {
      DivUnique(len, size, m - 1);
    }
  }

  /** The last batch holds the `len - (m - 1) * size` items that remain after the full ones. */
  lemma LastBatchSize<T>(s: seq<T>, size: nat)
    requires 0 < size
    requires 0 < |s|
    ensures var m := |Batches(s, size)|;
      && |Batches(s, size)[m - 1]| == |s| - (m - 1) * size
      && (|s| % size == 0 ==> |Batches(s, size)[m - 1]| == size)
      && (|s| % size != 0 ==> |Batches(s, size)[m - 1]| == |s| % size)
  {
    var m := |Batches(s, size)|;
    BatchShape(s, size, m - 1);
    BatchOffsets(|s|, size, m - 1);
    LastRemainder(|s|, size);
  }
}
