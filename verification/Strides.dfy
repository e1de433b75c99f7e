/** Arithmetic of offsets that wrap at a stride. */
module Strides {
  /** Offsets are 32-bit. */
  const WORD := 0x1_0000_0000

  lemma ModOfMod(k: nat, d: nat, big: nat, small: nat)
    requires big > 0 && small > 0 && big % small == 0
    ensures (k % big + d) % small == (k + d) % small
  {
    var q, p := k / big, big / small;
    assert k == q * big + k % big;
    assert big == p * small;
    calc {
      k + d;
      q * (p * small) + (k % big + d);
      (q * p) * small + (k % big + d);
    }
    ModShift(q * p, k % big + d, small);
  }

  lemma ModShift(q: int, x: int, m: nat)
    requires m > 0
    ensures (q * m + x) % m == x % m
  {
    var y := q * m + x;
    var c := x / m;
    assert x == c * m + x % m;
    assert y == (q + c) * m + x % m;
    DivModUnique(y, m, q + c, x % m);
  }

  lemma DivModUnique(y: int, m: nat, q: int, r: int)
    requires m > 0 && y == q * m + r && 0 <= r < m
    ensures y % m == r
  {
    var d := y / m - q;
    assert y == (y / m) * m + y % m;
    assert d * m == r - y % m;
    NoSmallMultiple(d, m);
  }

  lemma NoSmallMultiple(d: int, m: int)
    requires m > 0 && -m < d * m < m
    ensures d == 0
  {
    MulGrows(d, m);
  }

  lemma MulGrows(d: int, m: int)
    requires m > 0
    ensures d >= 1 ==> d * m >= m
    ensures d <= -1 ==> d * m <= -m
  {
  }

  /** Two offsets wrap to the same place exactly when the stride divides their distance. */
  lemma ModDistance(a: nat, b: nat, m: nat)
    requires m > 0
    ensures a % m == b % m <==> (a - b) % m == 0
  {
    var d, e := a / m - b / m, a % m - b % m;
    assert a - b == d * m + e by {
      assert a == (a / m) * m + a % m && b == (b / m) * m + b % m;
    }
    ModShift(d, e, m);
    if e >= 0 {
      DivModUnique(e, m, 0, e);
    } else {
      DivModUnique(e, m, -1, e + m);
    }
  }

  lemma DividesTrans(x: nat, y: nat, z: nat)
    requires y > 0 && z > 0 && x % y == 0 && y % z == 0
    ensures x % z == 0
  {
    ModOfMod(x, 0, y, z);
  }

  /** Moving on from an offset without passing the end of the stride. */
  lemma Wrap(o: nat, d: nat, m: nat)
    requires m > 0 && o % m + d <= m
    ensures (o + d) % m == if o % m + d < m then o % m + d else 0
  {
    var q := o / m;
    assert o == q * m + o % m;
    if o % m + d < m {
      DivModUnique(o + d, m, q, o % m + d);
    } else {
      assert o + d == (q + 1) * m + 0;
      DivModUnique(o + d, m, q + 1, 0);
    }
  }
}
