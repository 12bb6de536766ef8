/** Python built-ins whose integer semantics the pipelines rely on. */
module PyOps {
  import opened Arith

  /** Python's `int(x)` on a number: truncation toward zero. */
  function TruncReal(x: real): (r: int)
    ensures 0.0 <= x ==> r as real <= x < r as real + 1.0
    ensures x < 0.0 ==> r as real - 1.0 < x <= r as real
  {
    if x >= 0.0 then x.Floor else -((-x).Floor)
  }

  /** `int(a / b)` read over the integers: the quotient truncated toward zero. */
  function TruncDiv(a: int, b: int): (r: int)
    requires b != 0
    ensures 0 <= a && 0 < b ==> r == a / b
    ensures (a < 0) == (b < 0) ==> 0 <= r
    ensures (a < 0) != (b < 0) ==> r <= 0
    ensures Abs(r) * Abs(b) <= Abs(a) < (Abs(r) + 1) * Abs(b)
  {
    var q := Abs(a) / Abs(b);
    DivBounds(Abs(a), Abs(b));
    var r: int := if (a < 0) == (b < 0) then q else -q;
    assert Abs(r) == q;
    r
  }

  function Abs(x: int): (r: nat)
  {
    if x < 0 then -x else x
  }

  /**
   * Where a slice bound `i` lands in a sequence of length `len`: a negative
   * bound counts from the end, and the result is clamped into `[0, len]`.
   */
  function SliceIndex(i: int, len: nat): (r: nat)
    ensures r <= len
    ensures 0 <= i <= len ==> r == i
    ensures len < i ==> r == len
    ensures -(len as int) <= i < 0 ==> r == i + len
    ensures i < -(len as int) ==> r == 0
  {
    if i < 0 then (if i + len < 0 then 0 else i + len)
    else if i > len then len
    else i
  }

  /** Python's `s[lo:hi]` (step 1): never fails, empty when the bounds cross. */
  function PySlice<T>(s: seq<T>, lo: int, hi: int): (r: seq<T>)
    ensures |r| <= |s|
    ensures 0 <= lo <= hi <= |s| ==> r == s[lo..hi]
    ensures 0 <= lo <= |s| <= hi ==> r == s[lo..]
    ensures -(|s| as int) <= lo < 0 && lo + |s| <= hi <= |s| ==> r == s[lo + |s|..hi]
    ensures -(|s| as int) <= hi < 0 && 0 <= lo <= hi + |s| ==> r == s[lo..hi + |s|]
    ensures lo < -(|s| as int) && 0 <= hi <= |s| ==> r == s[..hi]
    ensures |s| <= lo ==> r == []
    ensures 0 <= hi <= lo ==> r == []
    ensures -(|s| as int) <= lo < 0 && hi < 0 ==> r == (if lo < hi then s[lo + |s|..hi + |s|] else [])
    ensures -(|s| as int) <= lo < 0 && 0 <= hi <= lo + |s| ==> r == []
    ensures |r| == (if SliceIndex(lo, |s|) < SliceIndex(hi, |s|) then SliceIndex(hi, |s|) - SliceIndex(lo, |s|) else 0)
    ensures forall k :: 0 <= k < |r| ==> r[k] == s[SliceIndex(lo, |s|) + k]
  {
    var a := SliceIndex(lo, |s|);
    var b := SliceIndex(hi, |s|);
    if a < b then s[a..b] else []
  }

  /** Negative operands: `int(-5 / 2)` is -2, `[1, 2, 3][-1:3]` is `[3]`, `[1, 2, 3][-2:-1]` is `[2]`, `[1, 2, 3][0:-1]` is `[1, 2]`, and `[1, 2, 3][5:9]` and `[1, 2, 3][-2:0]` are empty. */
  lemma NegativeOperandsExample()
    ensures TruncDiv(-5, 2) == -2
    ensures PySlice([1, 2, 3], -1, 3) == [3]
    ensures PySlice([1, 2, 3], -7, 2) == [1, 2]
    ensures PySlice([1, 2, 3], 5, 9) == []
    ensures PySlice([1, 2, 3], -2, -1) == [2]
    ensures PySlice([1, 2, 3], -2, 0) == []
    ensures PySlice([1, 2, 3], 0, -1) == [1, 2]
  {
  }
}
