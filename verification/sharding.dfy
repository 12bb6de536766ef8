/**
 * Partition of the inference work list across block workers. Worker `w` of
 * `n` takes the half-open index range `[b(w), b(w + 1))` of a list of
 * length `N`. The source computes `b(w)` as `int(float(w) / n * N)`; this
 * module proves the partition laws for ANY boundary function with
 * `b(0) == 0`, `b(n) == N` and `b` monotone, and separately shows that the
 * integer reading `(w * N) div n` is such a function.
 */
module Sharding {
  import opened PyOps
  import opened Arith
  import opened Seqs

  /** A boundary function for `n` workers over `len` items. */
  ghost predicate IsBoundary(b: int -> int, n: nat, len: nat)
  {
    && b(0) == 0
    && b(n) == len
    && forall w :: 0 <= w < n ==> Step(b, w)
  }

  /** Worker `w`'s range does not run backwards. */
  ghost predicate Step(b: int -> int, w: int)
  {
    b(w) <= b(w + 1)
  }

  /** The slices `s[b(w):b(w + 1)]` of the first `k` workers, in worker order. */
  function Slices<T>(s: seq<T>, b: int -> int, k: nat): (r: seq<seq<T>>)
    ensures |r| == k
    ensures forall w :: 0 <= w < k ==> r[w] == PySlice(s, b(w), b(w + 1))
  {
    if k == 0 then [] else Slices(s, b, k - 1) + [PySlice(s, b(k - 1), b(k))]
  }

  /** Every boundary of a monotone boundary function lies in `[0, len]` and they are ordered. */
  lemma {:induction false} BoundaryInRange(b: int -> int, n: nat, len: nat, i: int, j: int)
    requires IsBoundary(b, n, len)
    requires 0 <= i <= j <= n
    ensures 0 <= b(i) <= b(j) <= len
    decreases n - i
  {
    BoundaryMonotone(b, n, len, i, j);
    BoundaryMonotone(b, n, len, 0, i);
    BoundaryMonotone(b, n, len, j, n);
  }

  lemma {:induction false} BoundaryMonotone(b: int -> int, n: nat, len: nat, i: int, j: int)
    requires IsBoundary(b, n, len)
    requires 0 <= i <= j <= n
    ensures b(i) <= b(j)
    decreases j - i
  {
    if i < j {
      BoundaryMonotone(b, n, len, i, j - 1);
      assert Step(b, j - 1);
    }
  }

  lemma SlicesStep<T>(s: seq<T>, b: int -> int, k: nat)
    requires 0 < k
    requires 0 <= b(k - 1) <= b(k) <= |s|
    requires Flatten(Slices(s, b, k - 1)) == s[..b(k - 1)]
    ensures Flatten(Slices(s, b, k)) == s[..b(k)]
  {
    FlattenExtend(s, Slices(s, b, k - 1), b(k - 1), b(k));
  }

  /** The first `k` workers' slices together form the prefix `s[..b(k)]`. */
  lemma {:induction false} SlicesPrefix<T>(s: seq<T>, b: int -> int, n: nat, k: nat)
    requires IsBoundary(b, n, |s|)
    requires k <= n
    ensures 0 <= b(k) <= |s|
    ensures Flatten(Slices(s, b, k)) == s[..b(k)]
    decreases k
  {
    BoundaryInRange(b, n, |s|, k, k);
    if k > 0 {
      SlicesPrefix(s, b, n, k - 1);
      BoundaryInRange(b, n, |s|, k - 1, k);
      SlicesStep(s, b, k);
    }
  }

  /** Coverage: the workers' slices, concatenated in worker order, are exactly the whole list. */
  lemma PartitionCovers<T>(s: seq<T>, b: int -> int, n: nat)
    requires IsBoundary(b, n, |s|)
    ensures Flatten(Slices(s, b, n)) == s
  {
    SlicesPrefix(s, b, n, n);
    assert s[..b(n)] == s;
  }

  /** Disjointness: a later worker's range starts no earlier than an earlier worker's range ends. */
  lemma SlicesDisjoint(b: int -> int, n: nat, len: nat, w1: int, w2: int)
    requires IsBoundary(b, n, len)
    requires 0 <= w1 < w2 < n
    ensures b(w1 + 1) <= b(w2)
  {
    BoundaryMonotone(b, n, len, w1 + 1, w2);
  }

  /**
   * Every index of the list lies in the range of exactly one worker; no
   * index is shared and none is skipped.
   */
  lemma UniqueOwner(b: int -> int, n: nat, len: nat, i: int)
    requires IsBoundary(b, n, len)
    requires 0 <= i < len
    ensures exists w :: 0 <= w < n && b(w) <= i < b(w + 1)
    ensures forall w1, w2 ::
      0 <= w1 < w2 < n && b(w1) <= i < b(w1 + 1) ==> !(b(w2) <= i)
  {
    OwnerExists(b, n, len, i, n);
    forall w1, w2 | 0 <= w1 < w2 < n && b(w1) <= i < b(w1 + 1)
      ensures !(b(w2) <= i)
    {
      SlicesDisjoint(b, n, len, w1, w2);
    }
  }

  lemma {:induction false} OwnerExists(b: int -> int, n: nat, len: nat, i: int, k: nat)
    requires IsBoundary(b, n, len)
    requires k <= n
    requires 0 <= i < b(k)
    ensures exists w :: 0 <= w < k && b(w) <= i < b(w + 1)
    decreases k
  {
    if k > 0 {
      if b(k - 1) <= i {
        assert b(k - 1) <= i < b(k);
      } else {
        OwnerExists(b, n, len, i, k - 1);
      }
    }
  }

  // ----- the boundary the source computes, read over the integers -----

  /** Start index of worker `w` of `n` over `len` items: `int(w / n * len)`. */
  function ShardBound(w: int, n: int, len: nat): (r: int)
    requires n != 0
  {
    TruncDiv(w * len, n)
  }

  /** The items worker `w` of `n` processes: `locations[loc_start:loc_end]`. */
  function Shard<T>(s: seq<T>, w: int, n: int): (r: seq<T>)
    requires n != 0
  {
    PySlice(s, ShardBound(w, n, |s|), ShardBound(w + 1, n, |s|))
  }

  /** `ShardBound` for a fixed worker count and list length, as a function of the worker id. */
  function BoundaryOf(n: int, len: nat): (b: int -> int)
    requires n != 0
    ensures forall w :: b(w) == ShardBound(w, n, len)
  {
    w => ShardBound(w, n, len)
  }

  /** The integer reading of the source's formula is a boundary function. */
  lemma IntegerBoundary(n: nat, len: nat)
    requires 0 < n
    ensures IsBoundary(BoundaryOf(n, len), n, len)
  {
    var b := BoundaryOf(n, len);
    assert b(0) == 0;
    assert b(n) == len by {
      MulDivCancel(len, n);
      assert n * len == len * n;
    }
    forall w | 0 <= w < n
      ensures Step(b, w)
    {
      MulMonotone(w, w + 1, len);
      DivMonotone(w * len, (w + 1) * len, n);
    }
  }

  /** For `0 <= w < n`, the shard bounds lie inside the list and are ordered. */
  lemma ShardBoundsInRange(w: int, n: int, len: nat)
    requires 0 <= w < n
    ensures 0 <= ShardBound(w, n, len) <= ShardBound(w + 1, n, len) <= len
    ensures ShardBound(0, n, len) == 0 && ShardBound(n, n, len) == len
  {
    IntegerBoundary(n, len);
    BoundaryInRange(BoundaryOf(n, len), n, len, w, w + 1);
  }

  /** Worker `w`'s shard is the plain slice between its two bounds. */
  lemma ShardIsSlice<T>(s: seq<T>, w: int, n: int)
    requires 0 <= w < n
    ensures 0 <= ShardBound(w, n, |s|) <= ShardBound(w + 1, n, |s|) <= |s|
    ensures Shard(s, w, n) == s[ShardBound(w, n, |s|)..ShardBound(w + 1, n, |s|)]
  {
    ShardBoundsInRange(w, n, |s|);
  }

  /**
   * The shards of workers `0 .. n - 1`, concatenated in worker order, are the
   * whole location list: nothing is processed twice and nothing is skipped.
   */
  lemma ShardsPartition<T>(s: seq<T>, n: int)
    requires 0 < n
    ensures Flatten(seq(n, w requires 0 <= w < n => Shard(s, w, n))) == s
  {
    var b := BoundaryOf(n, |s|);
    IntegerBoundary(n, |s|);
    PartitionCovers(s, b, n);
    var shards := seq(n, w requires 0 <= w < n => Shard(s, w, n));
    forall w | 0 <= w < n
      ensures shards[w] == Slices(s, b, n)[w]
    {
    }
    assert shards == Slices(s, b, n);
  }

  /**
   * Balance: every shard holds either `len div n` or `len div n + 1` items,
   * and exactly `len div n` when `n` divides `len`.
   */
  lemma ShardSizeBalanced(w: int, n: int, len: nat)
    requires 0 <= w < n
    ensures var size := ShardBound(w + 1, n, len) - ShardBound(w, n, len);
      && len / n <= size <= len / n + 1
      && (len % n == 0 ==> size == len / n)
  {
    Distribute(w, 1, len);
    DivOfSum(w * len, len, n);
  }

  /** The example of a 10-item list split over 4 workers: worker 1 takes `[2, 5)`. */
  lemma ShardExample()
    ensures ShardBound(1, 4, 10) == 2 && ShardBound(2, 4, 10) == 5
    ensures Shard([0, 1, 2, 3, 4, 5, 6, 7, 8, 9], 1, 4) == [2, 3, 4]
  {
  }

  /**
   * A negative worker id is not rejected: its bounds are negative slice
   * indices counted from the end. Worker -2 of 4 over 10 items takes `[5, 8)`
   * and worker -1 takes nothing.
   */
  lemma NegativeWorkerExample()
    ensures ShardBound(-2, 4, 10) == -5 && ShardBound(-1, 4, 10) == -2
    ensures Shard([0, 1, 2, 3, 4, 5, 6, 7, 8, 9], -2, 4) == [5, 6, 7]
    ensures Shard([0, 1, 2, 3, 4, 5, 6, 7, 8, 9], -1, 4) == []
  {
  }

  /**
   * Determinism: the shard boundaries depend only on the worker id, the
   * worker count and the list LENGTH, so two lists of equal length are cut at
   * the same indices.
   */
  lemma ShardDeterministic<T>(s1: seq<T>, s2: seq<T>, w: int, n: int)
    requires 0 <= w < n
    requires |s1| == |s2|
    ensures exists lo, hi ::
      (0 <= lo <= hi <= |s1| && Shard(s1, w, n) == s1[lo..hi] && Shard(s2, w, n) == s2[lo..hi])
  {
    ShardIsSlice(s1, w, n);
    ShardIsSlice(s2, w, n);
    var lo, hi := ShardBound(w, n, |s1|), ShardBound(w + 1, n, |s1|);
    assert Shard(s1, w, n) == s1[lo..hi] && Shard(s2, w, n) == s2[lo..hi];
  }
}
