/** `itertools.combinations(range(n), 2)`: every index pair `(i, j)` with
    `i < j < n`, in lexicographic order. Both the correlator's baseline list
    and the antenna array's pair enumeration are this sequence. */
module Pairs {

  type Pair = (nat, nat)

  predicate LexLess(p: Pair, q: Pair)
  {
    p.0 < q.0 || (p.0 == q.0 && p.1 < q.1)
  }

  /** Strictly increasing in lexicographic order, hence free of repeats. */
  ghost predicate StrictlyIncreasing(s: seq<Pair>)
  {
    forall a, b :: 0 <= a < b < |s| ==> LexLess(s[a], s[b])
  }

  /** The number of pairs drawn from `m` items, `m*(m-1)/2`. */
  function Choose2(m: nat): nat
  {
    m * (m - 1) / 2
  }

  /** The pairs whose first index is `i`: `(i, i+1), ..., (i, n-1)`. */
  function Row(i: nat, n: nat): seq<Pair>
  {
    seq(if i < n then n - i - 1 else 0, k requires k >= 0 => (i, i + 1 + k))
  }

  /** The pairs whose first index is at least `i`. */
  function CombinationsFrom(i: nat, n: nat): (r: seq<Pair>)
    ensures |r| == if i < n then Choose2(n - i) else 0
    ensures forall k :: 0 <= k < |r| ==> i <= r[k].0 < r[k].1 < n
    ensures forall a: nat, b: nat :: i <= a < b < n ==> (a, b) in r
    ensures StrictlyIncreasing(r)
    decreases n - i
  {
    if i >= n then []
    else
      var row := Row(i, n);
      var rest := CombinationsFrom(i + 1, n);
      var m := n - i;
      assert m * (m - 1) == (m - 1) * (m - 2) + 2 * (m - 1);
      assert |row + rest| == Choose2(m);
      forall a: nat, b: nat | i <= a < b < n
        ensures (a, b) in row + rest
      {
        if a == i {
          assert row[b - i - 1] == (a, b);
        } else {
          assert (a, b) in rest;
        }
      }
      row + rest
  }

  function Combinations(n: nat): (r: seq<Pair>)
    ensures |r| == Choose2(n)
    ensures forall k :: 0 <= k < |r| ==> r[k].0 < r[k].1 < n
    ensures forall a: nat, b: nat :: a < b < n ==> (a, b) in r
    ensures StrictlyIncreasing(r)
  {
    CombinationsFrom(0, n)
  }

  /** The set of pairs is exactly `{(i, j) | i < j < n}`. */
  lemma CombinationsAsSet(n: nat)
    ensures (set k | 0 <= k < |Combinations(n)| :: Combinations(n)[k])
            == (set a: nat, b: nat | a < b < n :: (a, b))
  {
    var r := Combinations(n);
    var lhs := set k | 0 <= k < |r| :: r[k];
    var rhs := set a: nat, b: nat | a < b < n :: (a, b);
    forall p | p in rhs
      ensures p in lhs
    {
      var k :| 0 <= k < |r| && r[k] == p;
    }
  }
}
