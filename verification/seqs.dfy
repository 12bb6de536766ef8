/** Generic facts about sequences used by the partition and grouping proofs. */
module Seqs {

  /** Concatenation of a sequence of sequences, in order. */
  function Flatten<T>(ss: seq<seq<T>>): (r: seq<T>)
    decreases |ss|
  {
    if |ss| == 0 then [] else Flatten(ss[..|ss| - 1]) + ss[|ss| - 1]
  }

  lemma FlattenSnoc<T>(ss: seq<seq<T>>, s: seq<T>)
    ensures Flatten(ss + [s]) == Flatten(ss) + s
  {
    assert (ss + [s])[..|ss|] == ss;
  }

  /** The prefix of length `k + 1` is the prefix of length `k` followed by element `k`. */
  lemma TakeSnoc<T>(xs: seq<T>, k: nat)
    requires k < |xs|
    ensures xs[..k + 1] == xs[..k] + [xs[k]]
  {
  }

  /** Appending the next slice `s[lo..hi]` to pieces that spell out `s[..lo]` spells out `s[..hi]`. */
  lemma FlattenExtend<T>(s: seq<T>, pieces: seq<seq<T>>, lo: int, hi: int)
    requires 0 <= lo <= hi <= |s|
    requires Flatten(pieces) == s[..lo]
    ensures Flatten(pieces + [s[lo..hi]]) == s[..hi]
  {
    FlattenSnoc(pieces, s[lo..hi]);
    assert s[..lo] + s[lo..hi] == s[..hi];
  }

  /** No element occurs twice. */
  predicate Distinct<T(==)>(s: seq<T>)
  {
    forall i, j :: 0 <= i < j < |s| ==> s[i] != s[j]
  }

  /** The elements of a sequence, as a set. */
  function Elements<T>(s: seq<T>): (r: set<T>)
  {
    set x | x in s
  }

  /** A sequence without repetitions has as many distinct elements as it has entries. */
  lemma {:induction false} DistinctCardinality<T>(s: seq<T>)
    requires Distinct(s)
    ensures |Elements(s)| == |s|
    decreases |s|
  {
    if |s| > 0 {
      var p := s[..|s| - 1];
      var x := s[|s| - 1];
      assert Distinct(p);
      DistinctCardinality(p);
      assert x !in Elements(p);
      assert s == p + [x];
      assert Elements(s) == Elements(p) + {x};
    }
  }
}
