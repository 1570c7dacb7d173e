/** Facts about integer division and the sizes of finite sets, used by the table proofs. */
module Counting {

  /** Multiplying by a positive factor does not shrink a natural number. */
  lemma {:induction false} MulAtLeast(k: int, t: int)
    requires k >= 1 && t >= 0
    ensures k * t >= t
    decreases k
  {
    if k > 1 {
      MulAtLeast(k - 1, t);
      assert k * t == (k - 1) * t + t;
    }
  }

  /** Euclidean division of `d * t + j` by `t` recovers `d` and `j`. */
  lemma DivMod(d: int, t: int, j: int)
    requires 0 <= d && 0 <= j < t
    ensures (d * t + j) / t == d && (d * t + j) % t == j
  {
    var i := d * t + j;
    var q, r := i / t, i % t;
    assert i == q * t + r && 0 <= r < t;
    if q > d {
      MulAtLeast(q - d, t);
      assert false;
    } else if q < d {
      MulAtLeast(d - q, t);
      assert false;
    }
  }

  /** The index `d * t + j` lies inside a table of `n * t` rows when `d < n` and `j < t`. */
  lemma BlockIndex(d: nat, t: nat, j: nat, n: nat)
    requires d < n && j < t
    ensures d * t + j < n * t
  {
    MulAtLeast(n - d, t);
    assert (n - d) * t == n * t - d * t;
  }

  /** Position `i` of the block `k` of width `n` belongs to block `k`. */
  lemma BlockOwner(k: nat, n: nat, i: int)
    requires k * n <= i < k * n + n
    ensures n > 0 && i / n == k && (k + 1) * n == k * n + n
  {
    DivMod(k, n, i - k * n);
  }

  /** The integers `lo..hi - 1`, as a set. */
  function Interval(lo: int, hi: int): (s: set<int>)
    ensures forall k :: k in s <==> lo <= k < hi
    ensures lo <= hi ==> |s| == hi - lo
    decreases hi - lo
  {
    if lo < hi then Interval(lo, hi - 1) + {hi - 1} else {}
  }

  /** A subset as large as its superset is the superset. */
  lemma SubsetSameSize<A>(a: set<A>, b: set<A>)
    requires a <= b && |a| == |b|
    ensures a == b
  {
    assert b == a + (b - a);
    assert |b - a| == 0;
  }

  /** A subset is no larger than its superset. */
  lemma SubsetSize<A>(a: set<A>, b: set<A>)
    requires a <= b
    ensures |a| <= |b|
  {
    assert b == a + (b - a);
  }
}
