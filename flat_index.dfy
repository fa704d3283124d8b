/** Row-major flattening of a pair of indices: `view`/`reshape` of two axes
    of extents (n, m) into one axis of extent n*m sends (a, b) to a*m + b. */
module FlatIndex {

  /** Position (a, b) of an n x m block lies inside the flattened axis. */
  lemma FlatBound(a: nat, b: nat, n: nat, m: nat)
    requires a < n && b < m
    ensures a * m + b < n * m
  {
    assert a * m + b < a * m + m == (a + 1) * m;
    assert (a + 1) * m <= n * m by {
      assert a + 1 <= n;
    }
  }

  /** Flattening is undone by division and remainder. */
  lemma FlatDivMod(a: int, b: nat, m: nat)
    requires b < m
    ensures (a * m + b) / m == a && (a * m + b) % m == b
  {
    var q := (a * m + b) / m;
    var r := (a * m + b) % m;
    assert q * m + r == a * m + b;
    assert (q - a) * m == b - r;
    MulBelowOne(q - a, m);
    MulAboveMinusOne(q - a, m);
  }

  lemma MulBelowOne(x: int, m: nat)
    requires m > 0 && x * m < m
    ensures x <= 0
  {
  }

  lemma MulAboveMinusOne(x: int, m: nat)
    requires m > 0 && x * m + m > 0
    ensures x >= 0
  {
  }

  /** Every index of a flattened n x m axis comes from one pair. */
  lemma FlatSplit(r: nat, n: nat, m: nat)
    requires r < n * m
    ensures m > 0 && r / m < n && r % m < m && r == (r / m) * m + r % m
  {
  }
}
