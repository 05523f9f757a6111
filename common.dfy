/** Definitions shared by several components. */
module Common {

  predicate NoDuplicates<T(==)>(s: seq<T>) {
    forall i, j :: 0 <= i < j < |s| ==> s[i] != s[j]
  }

  lemma MulLeftMonotone(a: int, b: int, c: int)
    requires a > 0 && b <= c
    ensures a * b <= a * c
  {
    assert a * c - a * b == a * (c - b);
  }

  /** `Math.round(part / whole * 100)` for `0 <= part <= whole`, `whole > 0`,
      computed exactly: half-way values round up, as `Math.round` does for
      non-negative numbers. */
  function RoundedPercent(part: nat, whole: nat): (p: nat)
    requires 0 < whole && part <= whole
    ensures p <= 100
    ensures part == 0 ==> p == 0
    ensures part == whole ==> p == 100
    ensures 2 * whole * p <= 200 * part + whole < 2 * whole * (p + 1)
  {
    var d := 2 * whole;
    var n := 200 * part + whole;
    var q := n / d;
    assert d * q <= n < d * (q + 1) by {
      assert n == d * q + n % d;
      assert d * (q + 1) == d * q + d;
    }
    assert q <= 100 by {
      assert d * 101 == 202 * whole;
      if q >= 101 {
        MulLeftMonotone(d, 101, q);
      }
    }
    assert part == 0 ==> q == 0 by {
      if part == 0 && q >= 1 {
        MulLeftMonotone(d, 1, q);
      }
    }
    assert part == whole ==> q == 100 by {
      if part == whole {
        assert n == 201 * whole;
        assert d * 100 == 200 * whole;
        if q <= 99 {
          MulLeftMonotone(d, q + 1, 100);
        }
      }
    }
    q
  }
}
