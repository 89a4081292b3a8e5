/** The direction finder: a grid of 1000 candidate angles over `[-pi, pi]`,
    a per-frequency cache of array manifolds (the expected phase-difference
    vector at every grid angle), and the search that finds the grid angle
    whose manifold vector lies closest to a measured one. It starts a
    little before the previous answer and wraps once around the grid.

    The manifold vector and the distance between vectors are trigonometry
    and are passed in as functions. */
module DirectionFinder {
  import opened Wrappers
  import opened NumPy

  /** The number of sampled angles. */
  const GridSize: nat := 1000

  /** The distance between neighbouring grid angles, `2 pi / 999`. */
  const GridStep: real := (2.0 * Pi) / 999.0

  /** `pi / 6`: how far before the previous answer the scan starts. */
  const StepBack: real := Pi / 6.0

  /** `np.linspace(-pi, pi, 1000)`: both ends included. */
  function SampledAngles(): (a: seq<real>)
    ensures |a| == GridSize
  {
    Linspace(-Pi, Pi, GridSize, true)
  }

  lemma SampledAngleAt(j: nat)
    requires j < GridSize
    ensures SampledAngles()[j] == -Pi + (j as real) * GridStep
  {
    LinspaceAtStep(-Pi, Pi, GridSize, true, j, GridStep);
  }

  /** The grid runs from `-pi` to `pi` in strictly increasing steps. */
  lemma SampledAnglesGrid()
    ensures SampledAngles()[0] == -Pi && SampledAngles()[GridSize - 1] == Pi
    ensures forall i, j :: 0 <= i < j < GridSize ==> SampledAngles()[i] < SampledAngles()[j]
  {
    SampledAngleAt(0);
    SampledAngleAt(GridSize - 1);
    forall i, j | 0 <= i < j < GridSize
      ensures SampledAngles()[i] < SampledAngles()[j]
    {
      SampledAngleAt(i);
      SampledAngleAt(j);
    }
  }

  /** Angle of arrival to expected phase-difference vector. */
  type Manifold = map<real, seq<real>>

  /** The manifold of the array at frequency `f` over the given angles. */
  function BuildManifold(angles: seq<real>, f: real, vector: (real, real) -> seq<real>): (m: Manifold)
    ensures forall x :: x in m <==> x in angles
    ensures forall x :: x in m ==> m[x] == vector(x, f)
  {
    map x | x in angles :: vector(x, f)
  }

  /** A strictly increasing sequence has as many distinct values as entries. */
  lemma {:induction false} DistinctValues(s: seq<real>)
    requires forall i, j :: 0 <= i < j < |s| ==> s[i] < s[j]
    ensures |set x | x in s| == |s|
  {
    if |s| > 0 {
      var rest := s[1..];
      DistinctValues(rest);
      assert (set x | x in s) == {s[0]} + (set x | x in rest);
      assert s[0] !in (set x | x in rest);
    }
  }

  /** A manifold built over the grid has one entry per sampled angle:
      1000 of them. */
  lemma GridManifoldSize(f: real, vector: (real, real) -> seq<real>)
    ensures |BuildManifold(SampledAngles(), f, vector).Keys| == GridSize
  {
    var m := BuildManifold(SampledAngles(), f, vector);
    SampledAnglesGrid();
    DistinctValues(SampledAngles());
    assert m.Keys == set x | x in SampledAngles();
  }

  /** The finder's state: the grid, the previous answer, the manifold cache
      and the current frequency with its manifold. */
  datatype Finder = Finder(
    angles: seq<real>,
    lastAngle: real,
    manifolds: map<real, Manifold>,
    frequency: real,
    manifold: Manifold)

  /** What every finder satisfies between calls: the grid is the sampled
      angles, the previous answer is one of them, and every cached manifold
      (the current one included) has an entry for each. */
  predicate Valid(df: Finder)
  {
    && df.angles == SampledAngles()
    && df.lastAngle in df.angles
    && (forall x :: x in df.angles ==> x in df.manifold)
    && (forall g :: g in df.manifolds ==> forall x :: x in df.angles ==> x in df.manifolds[g])
  }

  /** `set_frequency(f)`: make `f` current, building its manifold only when
      it is not cached yet. */
  function SetFrequency(df: Finder, f: real, vector: (real, real) -> seq<real>): (r: Finder)
    ensures r.frequency == f && f in r.manifolds && r.manifold == r.manifolds[f]
    ensures f in df.manifolds ==> r.manifolds == df.manifolds
    ensures f !in df.manifolds ==> r.manifolds == df.manifolds[f := BuildManifold(df.angles, f, vector)]
    ensures r.angles == df.angles && r.lastAngle == df.lastAngle
  {
    var manifolds := if f in df.manifolds then df.manifolds
                     else df.manifolds[f := BuildManifold(df.angles, f, vector)];
    df.(frequency := f, manifolds := manifolds, manifold := manifolds[f])
  }

  /** Setting the same frequency again changes nothing, and returning to a
      cached frequency brings back the very manifold built the first time. */
  lemma SetFrequencyCaches(df: Finder, f: real, g: real, vector: (real, real) -> seq<real>)
    ensures SetFrequency(SetFrequency(df, f, vector), f, vector) == SetFrequency(df, f, vector)
    ensures SetFrequency(SetFrequency(SetFrequency(df, f, vector), g, vector), f, vector).manifold
            == SetFrequency(df, f, vector).manifold
  {
  }

  lemma SetFrequencyKeepsValid(df: Finder, f: real, vector: (real, real) -> seq<real>)
    requires Valid(df)
    ensures Valid(SetFrequency(df, f, vector))
  {
  }

  /** The constructor: the grid, the first grid angle as the previous
      answer, an empty cache, then `set_frequency`. */
  function NewFinder(f: real, vector: (real, real) -> seq<real>): (r: Finder)
    ensures Valid(r)
    ensures r.lastAngle == -Pi && r.frequency == f && r.manifolds.Keys == {f}
  {
    SampledAnglesGrid();
    var empty := Finder(SampledAngles(), SampledAngles()[0], map[], f, map[]);
    SetFrequency(empty, f, vector)
  }

  /** `np.searchsorted` lands on `m` when everything before `m` is smaller
      and `a[m]` is not. */
  lemma SearchSortedAt(a: seq<real>, x: real, m: nat)
    requires m < |a| && a[m] >= x
    requires forall i :: 0 <= i < m ==> a[i] < x
    ensures SearchSorted(a, x) == m
  {
  }

  /** The wrap-around branch: an angle below the grid maps to
      `angles[-int((angles[0] - closest) / width)]`, counting back from the
      top end. One point makes `angles[1]` raise IndexError; a zero width
      makes the quotient infinite and `int` raise OverflowError. */
  function WrapBelowGrid(a: seq<real>, closest: real): (r: Result<real>)
    requires |a| > 0 && closest < a[0]
    ensures |a| < 2 ==> r == Failure(IndexError)
    ensures |a| >= 2 && a[1] == a[0] ==> r == Failure(OverflowError)
    ensures |a| >= 2 && a[1] != a[0] ==> r == PyIndex(a, -Trunc((a[0] - closest) / (a[1] - a[0])))
  {
    if |a| < 2 then Failure(IndexError)
    else if a[1] == a[0] then Failure(OverflowError)
    else PyIndex(a, -Trunc((a[0] - closest) / (a[1] - a[0])))
  }

  /** The grid index the scan starts from: step back from the previous
      answer, wrap round when that falls below the grid, then take the first
      grid angle not below it. A start past the top of the grid raises
      IndexError; so does an empty grid, and a grid whose first two angles
      coincide makes the wrap divide by zero (OverflowError). */
  function ScanStart(a: seq<real>, last: real): (r: Result<nat>)
    ensures r.Success? ==> r.value < |a|
    ensures |a| == 0 ==> r == Failure(IndexError)
    ensures |a| >= 2 && a[1] == a[0] && last - StepBack < a[0] ==> r == Failure(OverflowError)
    ensures r.Failure? ==> r.error == IndexError || r.error == OverflowError
  {
    if |a| == 0 then Failure(IndexError)
    else
      var closest := last - StepBack;
      var wrapped :- if closest < a[0] then WrapBelowGrid(a, closest) else Success(closest);
      var idx := SearchSorted(a, wrapped);
      if idx < |a| then Success(idx) else Failure(IndexError)
  }

  /** From grid angle `j` the scan starts 83 grid steps earlier, wrapping
      round the top end: `pi / 6` is 83.25 steps. So the start is always a
      grid index, in the wrap-around branch too. */
  lemma ScanStartOnGrid(j: nat)
    requires j < GridSize
    ensures ScanStart(SampledAngles(), SampledAngles()[j]) == Success((j - 83) % GridSize)
  {
    SampledAngleAt(j);
    var closest := SampledAngles()[j] - StepBack;
    assert StepBack == 83.25 * GridStep;
    assert closest == -Pi + ((j as real) - 83.25) * GridStep;
    if j >= 84 {
      ScanStartInside(j, closest);
    } else {
      ScanStartWrapped(j, closest);
    }
  }

  /** Stepping back stays inside the grid: the first grid angle not below
      the target is 83 steps down. */
  lemma ScanStartInside(j: nat, closest: real)
    requires 84 <= j < GridSize
    requires closest == -Pi + ((j as real) - 83.25) * GridStep
    ensures SearchSorted(SampledAngles(), closest) == j - 83
    ensures !(closest < SampledAngles()[0])
  {
    var a := SampledAngles();
    SampledAngleAt(0);
    forall i | 0 <= i < j - 83
      ensures a[i] < closest
    {
      SampledAngleAt(i);
    }
    SampledAngleAt(j - 83);
    SearchSortedAt(a, closest, j - 83);
  }

  /** Stepping back falls below the grid: the target wraps round to the
      grid angle 83 steps down modulo the grid size. */
  lemma ScanStartWrapped(j: nat, closest: real)
    requires j < 84
    requires closest == -Pi + ((j as real) - 83.25) * GridStep
    ensures closest < SampledAngles()[0]
    ensures WrapBelowGrid(SampledAngles(), closest) == Success(SampledAngles()[(j - 83) % GridSize])
    ensures SearchSorted(SampledAngles(), SampledAngles()[(j - 83) % GridSize]) == (j - 83) % GridSize
  {
    var a := SampledAngles();
    SampledAngleAt(0);
    SampledAngleAt(1);
    assert a[1] - a[0] == GridStep;
    assert a[0] - closest == (83.25 - j as real) * GridStep;
    assert (a[0] - closest) / GridStep == 83.25 - j as real;
    var t := Trunc(83.25 - j as real);
    assert t == 83 - j;
    var m := (j - 83) % GridSize;
    SampledAnglesGrid();
    SearchSortedAt(a, a[m], m);
  }

  /** Every grid angle has a manifold entry, so no lookup raises KeyError. */
  predicate AllKeyed(angles: seq<real>, manifold: Manifold)
  {
    forall i :: 0 <= i < |angles| ==> angles[i] in manifold
  }

  /** The distance from the measured vector to the manifold vector of each
      grid angle. */
  function Distances(angles: seq<real>, manifold: Manifold, input: seq<real>,
                     distance: (seq<real>, seq<real>) -> real): (d: seq<real>)
    requires AllKeyed(angles, manifold)
    ensures |d| == |angles|
    ensures forall i :: 0 <= i < |d| ==> d[i] == distance(input, manifold[angles[i]])
  {
    seq(|angles|, i requires 0 <= i < |angles| => distance(input, manifold[angles[i]]))
  }

  /** The distances in scan order: position `u` is grid index
      `(start + u) mod n`. */
  function Rotate(d: seq<real>, start: nat): (r: seq<real>)
    requires start < |d|
    ensures |r| == |d|
  {
    seq(|d|, u requires 0 <= u < |d| => d[(start + u) % |d|])
  }

  /** The reference answer: the first minimum met when reading the grid
      circularly from `start`. */
  function FirstMinFrom(d: seq<real>, start: nat): (b: nat)
    requires start < |d|
    ensures b < |d|
  {
    (start + ArgMin(Rotate(d, start))) % |d|
  }

  /** The reference answer is a global minimum over the whole grid, and
      every grid index read before it in circular order is strictly
      farther. */
  lemma FirstMinFromIsMinimal(d: seq<real>, start: nat)
    requires start < |d|
    ensures forall i :: 0 <= i < |d| ==> d[FirstMinFrom(d, start)] <= d[i]
    ensures forall u :: 0 <= u < ArgMin(Rotate(d, start)) ==> Rotate(d, start)[u] > d[FirstMinFrom(d, start)]
  {
    var n := |d|;
    var rot := Rotate(d, start);
    var b := FirstMinFrom(d, start);
    assert d[b] == rot[ArgMin(rot)];
    forall i | 0 <= i < n
      ensures d[b] <= d[i]
    {
      var u := if i >= start then i - start else i - start + n;
      ScanPositionOf(start, i, n);
      assert rot[u] == d[i];
    }
  }

  /** Grid index `i` is read at scan position `(i - start) mod n`. */
  lemma ScanPositionOf(start: nat, i: nat, n: nat)
    requires start < n && i < n
    ensures var u := if i >= start then i - start else i - start + n;
            0 <= u < n && (start + u) % n == i
  {
    if i < start {
      assert start + (i - start + n) == i + n;
      assert (i + n) % n == i;
    }
  }

  /** `find_closest_point(input)`: scan the whole grid once in circular
      order from the start index, keep the first strictly closer angle, and
      remember the answer for next time. It answers exactly the reference
      first minimum. */
  method FindClosestPoint(df: Finder, input: seq<real>, distance: (seq<real>, seq<real>) -> real)
    returns (r: Result<(real, Finder)>)
    ensures r.Success? <==> ScanStart(df.angles, df.lastAngle).Success? && AllKeyed(df.angles, df.manifold)
    ensures r.Failure? && ScanStart(df.angles, df.lastAngle).Success? ==> r.error == KeyError
    ensures ScanStart(df.angles, df.lastAngle).Failure? ==> r == Failure(ScanStart(df.angles, df.lastAngle).error)
    ensures r.Success? ==>
              var start := ScanStart(df.angles, df.lastAngle).value;
              var d := Distances(df.angles, df.manifold, input, distance);
              r.value.0 == df.angles[FirstMinFrom(d, start)]
    ensures r.Success? ==> r.value.1 == df.(lastAngle := r.value.0)
    ensures r.Success? ==> r.value.0 in df.angles
    ensures Valid(df) ==> r.Success?
  {
    if Valid(df) {
      var j :| 0 <= j < |df.angles| && df.angles[j] == df.lastAngle;
      ValidFinderSearches(df, j);
    }
    var start :- ScanStart(df.angles, df.lastAngle);
    if !AllKeyed(df.angles, df.manifold) {
      return Failure(KeyError);
    }
    var d := Distances(df.angles, df.manifold, input, distance);
    var best := ScanCircular(d, start);
    var angle := df.angles[best];
    return Success((angle, df.(lastAngle := angle)));
  }

  /** Re-seeding a valid finder with one of its grid angles, as
      `find_closest_point` does with its answer, keeps it valid. */
  lemma ReseedKeepsValid(df: Finder, a: real)
    requires Valid(df) && a in df.angles
    ensures Valid(df.(lastAngle := a))
  {
  }

  /** The loop of `find_closest_point`: starting with the start index as
      the best so far, read every index once in circular order and replace
      the best only on a strictly smaller distance. */
  method ScanCircular(d: seq<real>, start: nat) returns (best: nat)
    requires start < |d|
    ensures best == FirstMinFrom(d, start)
  {
    var n := |d|;
    ghost var rot := Rotate(d, start);
    var bestPos := 0;
    var bestDist := d[start];
    assert rot[0] == d[start] by {
      assert (start + 0) % n == start;
    }
    var t := 0;
    while t < n
      invariant 0 <= t <= n && bestPos < n && bestPos <= t
      invariant bestDist == rot[bestPos]
      invariant forall u :: 0 <= u < t ==> bestDist <= rot[u]
      invariant forall u :: 0 <= u < bestPos ==> rot[u] > bestDist
    {
      var nd := d[(start + t) % n];
      assert nd == rot[t];
      if nd < bestDist {
        bestPos := t;
        bestDist := nd;
      }
      t := t + 1;
    }
    FirstMinUnique(rot, bestPos);
    best := (start + bestPos) % n;
  }

  /** A position no later value undercuts and no earlier value matches is
      the first minimum. */
  lemma FirstMinUnique(xs: seq<real>, p: nat)
    requires p < |xs|
    requires forall u :: 0 <= u < |xs| ==> xs[p] <= xs[u]
    requires forall u :: 0 <= u < p ==> xs[u] > xs[p]
    ensures ArgMin(xs) == p
  {
  }

  /** On a valid finder the search cannot fail: the scan starts 83 grid
      steps before the previous answer and every lookup hits. */
  lemma ValidFinderSearches(df: Finder, j: nat)
    requires Valid(df) && j < GridSize && df.angles[j] == df.lastAngle
    ensures ScanStart(df.angles, df.lastAngle) == Success((j - 83) % GridSize)
    ensures AllKeyed(df.angles, df.manifold)
  {
    ScanStartOnGrid(j);
  }
}
