/** Facts about integer multiplication and Euclidean division on naturals. */
module Arith {

  lemma DivBounds(a: nat, b: nat)
    requires 0 < b
    ensures (a / b) * b <= a < (a / b + 1) * b
  {
    assert a == (a / b) * b + a % b;
    assert (a / b + 1) * b == (a / b) * b + b;
  }

  lemma MulMonotone(a: int, b: int, c: nat)
    requires a <= b
    ensures a * c <= b * c
  {
    assert b * c - a * c == (b - a) * c;
  }

  lemma DivMonotone(a: nat, b: nat, d: nat)
    requires a <= b && 0 < d
    ensures a / d <= b / d
  {
    DivBounds(a, d);
    DivBounds(b, d);
    if b / d < a / d {
      MulMonotone(b / d + 1, a / d, d);
    }
  }

  lemma MulDivCancel(a: nat, d: nat)
    requires 0 < d
    ensures a * d / d == a
  {
    var q := a * d / d;
    DivBounds(a * d, d);
    if q < a {
      MulMonotone(q + 1, a, d);
    } else if a < q {
      MulMonotone(a + 1, q, d);
    }
  }

  lemma DivUnique(x: nat, d: nat, a: nat)
    requires 0 < d
    requires a * d <= x < (a + 1) * d
    ensures x / d == a
  {
    var q := x / d;
    DivBounds(x, d);
    if q < a {
      MulMonotone(q + 1, a, d);
    } else if a < q {
      MulMonotone(a + 1, q, d);
    }
  }

  lemma Distribute(a: int, b: int, d: int)
    ensures (a + b) * d == a * d + b * d
  {
  }

  lemma DivAddMultiple(m: nat, t: nat, d: nat)
    requires 0 < d
    ensures (m * d + t) / d == m + t / d
  {
    var k := t / d;
    DivBounds(t, d);
    Distribute(m, k, d);
    Distribute(m, k + 1, d);
    DivUnique(m * d + t, d, m + k);
  }

  /** Adding `len` to `x` advances `x div d` by `len div d` or by one more. */
  lemma DivOfSum(x: nat, len: nat, d: nat)
    requires 0 < d
    ensures len / d <= (x + len) / d - x / d <= len / d + 1
    ensures len % d == 0 ==> (x + len) / d - x / d == len / d
  {
    var a, c := x / d, x % d;
    var q, r := len / d, len % d;
    assert x == a * d + c;
    assert len == q * d + r;
    Distribute(a, q, d);
    assert x + len == (a + q) * d + (c + r);
    DivAddMultiple(a + q, c + r, d);
    if c + r < d {
      DivUnique(c + r, d, 0);
    } else {
      DivUnique(c + r, d, 1);
    }
  }
}
