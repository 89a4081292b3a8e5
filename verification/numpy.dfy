/** The numpy and Python 2 built-in semantics the backend relies on, over
    exact reals: `np.linspace`, `round`, `int`, Python sequence indexing
    (negative indices count from the end), `np.searchsorted` and the
    first-occurrence `np.argmin` / `np.argmax`. */
module NumPy {
  import opened Wrappers

  /** `np.pi`, the float64 value written out. */
  const Pi: real := 3.141592653589793

  function Abs(x: real): real
  {
    if x < 0.0 then -x else x
  }

  /** `np.linspace(start, stop, num, endpoint)`: `num` evenly spaced points;
      the spacing divides `stop - start` by `num - 1` when the endpoint is
      included and by `num` otherwise. */
  function Linspace(start: real, stop: real, num: nat, endpoint: bool): (r: seq<real>)
    ensures |r| == num
    ensures num > 0 ==> r[0] == start
  {
    if num == 0 then []
    else if endpoint && num == 1 then [start]
    else
      var step := (stop - start) / (if endpoint then num - 1 else num) as real;
      seq(num, k => start + (k as real) * step)
  }

  /** The `k`-th point of a linspace of more than one point. */
  lemma LinspaceAt(start: real, stop: real, num: nat, endpoint: bool, k: nat)
    requires k < num && !(endpoint && num == 1)
    ensures Linspace(start, stop, num, endpoint)[k]
            == start + (k as real) * ((stop - start) / ((if endpoint then num - 1 else num) as real))
  {
  }

  /** The `k`-th point of a linspace whose spacing is known to be `step`. */
  lemma LinspaceAtStep(start: real, stop: real, num: nat, endpoint: bool, k: nat, step: real)
    requires k < num && !(endpoint && num == 1)
    requires (stop - start) / ((if endpoint then num - 1 else num) as real) == step
    ensures Linspace(start, stop, num, endpoint)[k] == start + (k as real) * step
  {
    LinspaceAt(start, stop, num, endpoint, k);
  }

  /** Python 2 `round`: the nearest integer, halves rounded away from zero. */
  function Round(x: real): (n: int)
    ensures Abs(n as real - x) <= 0.5
    ensures Abs(n as real - x) == 0.5 ==> Abs(n as real) > Abs(x)
  {
    if x >= 0.0 then (x + 0.5).Floor else -((-x + 0.5).Floor)
  }

  /** Python `int()` of a float: truncation toward zero. */
  function Trunc(x: real): (n: int)
    ensures Abs(n as real) <= Abs(x) < Abs(n as real) + 1.0
    ensures x >= 0.0 ==> n >= 0
    ensures x <= 0.0 ==> n <= 0
  {
    if x >= 0.0 then x.Floor else -((-x).Floor)
  }

  /** Python `s[i]`: a negative index counts from the end; anything outside
      `[-len(s), len(s))` raises IndexError. */
  function PyIndex<T>(s: seq<T>, i: int): (r: Result<T>)
    ensures r.Success? <==> -|s| <= i < |s|
    ensures 0 <= i < |s| ==> r == Success(s[i])
    ensures -|s| <= i < 0 ==> r == Success(s[|s| + i])
    ensures r.Failure? ==> r.error == IndexError
  {
    if 0 <= i < |s| then Success(s[i])
    else if -|s| <= i < 0 then Success(s[|s| + i])
    else Failure(IndexError)
  }

  /** `np.searchsorted(a, x)` (side 'left'): the first index whose entry is
      at least `x`, or `len(a)` when there is none. */
  function SearchSorted(a: seq<real>, x: real): (r: nat)
    ensures r <= |a|
    ensures forall i :: 0 <= i < r ==> a[i] < x
    ensures r < |a| ==> a[r] >= x
  {
    if |a| == 0 || a[0] >= x then 0
    else 1 + SearchSorted(a[1..], x)
  }

  /** The index of the first minimum of `xs[i..]` given that `best` is the
      first minimum of `xs[..i]`. */
  function ArgMinFrom(xs: seq<real>, i: nat, best: nat): (r: nat)
    requires best < i <= |xs|
    requires forall j :: 0 <= j < i ==> xs[best] <= xs[j]
    requires forall j :: 0 <= j < best ==> xs[best] < xs[j]
    ensures r < |xs|
    ensures forall j :: 0 <= j < |xs| ==> xs[r] <= xs[j]
    ensures forall j :: 0 <= j < r ==> xs[r] < xs[j]
    decreases |xs| - i
  {
    if i == |xs| then best
    else if xs[i] < xs[best] then ArgMinFrom(xs, i + 1, i)
    else ArgMinFrom(xs, i + 1, best)
  }

  /** `np.argmin`: the first index holding the least value. */
  function ArgMin(xs: seq<real>): (r: nat)
    requires |xs| > 0
    ensures r < |xs|
    ensures forall j :: 0 <= j < |xs| ==> xs[r] <= xs[j]
    ensures forall j :: 0 <= j < r ==> xs[r] < xs[j]
  {
    ArgMinFrom(xs, 1, 0)
  }

  /** The index of the first maximum of `xs[i..]` given that `best` is the
      first maximum of `xs[..i]`. */
  function ArgMaxFrom(xs: seq<real>, i: nat, best: nat): (r: nat)
    requires best < i <= |xs|
    requires forall j :: 0 <= j < i ==> xs[j] <= xs[best]
    requires forall j :: 0 <= j < best ==> xs[j] < xs[best]
    ensures r < |xs|
    ensures forall j :: 0 <= j < |xs| ==> xs[j] <= xs[r]
    ensures forall j :: 0 <= j < r ==> xs[j] < xs[r]
    decreases |xs| - i
  {
    if i == |xs| then best
    else if xs[i] > xs[best] then ArgMaxFrom(xs, i + 1, i)
    else ArgMaxFrom(xs, i + 1, best)
  }

  /** `np.argmax`: the first index holding the greatest value. */
  function ArgMax(xs: seq<real>): (r: nat)
    requires |xs| > 0
    ensures r < |xs|
    ensures forall j :: 0 <= j < |xs| ==> xs[j] <= xs[r]
    ensures forall j :: 0 <= j < r ==> xs[j] < xs[r]
  {
    ArgMaxFrom(xs, 1, 0)
  }

  /** A value within less than half a step of `k` steps rounds to `k` once
      divided by the step: how a frequency finds its nearest bin. */
  lemma RoundToNearestStep(x: real, w: real, k: int)
    requires w > 0.0 && 2.0 * Abs(x - (k as real) * w) < w
    ensures Round(x / w) == k
  {
    QuotientNearK(x, w, k as real);
    RoundNear(x / w, k);
  }

  lemma QuotientNearK(x: real, w: real, k: real)
    requires w > 0.0 && 2.0 * Abs(x - k * w) < w
    ensures Abs(x / w - k) < 0.5
  {
    var e := x - k * w;
    assert x / w - k == e / w;
    assert (e / w) * w == e;
    if e >= 0.0 {
      assert 2.0 * e < w;
      DivBelowHalf(e, w);
    } else {
      assert 2.0 * -e < w;
      DivBelowHalf(-e, w);
      assert (-e) / w == -(e / w);
    }
  }

  lemma DivBelowHalf(e: real, w: real)
    requires w > 0.0 && 0.0 <= e && 2.0 * e < w
    ensures 0.0 <= e / w < 0.5
  {
    assert e / w * w == e;
    CancelPositive(e / w, 0.5, w);
  }

  lemma CancelPositive(q: real, c: real, w: real)
    requires w > 0.0 && q * w < c * w
    ensures q < c
  {
  }

  /** A real within less than half of an integer rounds to it. */
  lemma RoundNear(q: real, k: int)
    requires Abs(q - k as real) < 0.5
    ensures Round(q) == k
  {
    var n := Round(q);
    assert -1.0 < n as real - k as real < 1.0;
  }
}
