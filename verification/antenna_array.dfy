/** The antenna array: a list of antenna positions, its iterator protocol,
    its pair enumeration and the vector of expected pairwise phase
    differences at an angle of arrival, plus the two circular layouts.

    The geometry itself (rotating a position, the phase an antenna sees,
    wrapping a phase into `[-pi, pi]`) is trigonometry and is passed in as
    functions. */
module AntennaArray {
  import opened Wrappers
  import opened Pairs
  import opened NumPy

  datatype Antenna = Antenna(x: real, y: real)

  /** The antennas and the iterator cursor the object carries. */
  datatype Array = Array(antennas: seq<Antenna>, current: nat)

  /** The array as the constructor leaves it; the cursor only exists once
      `__iter__` has run, and starts at zero. */
  function NewArray(antennas: seq<Antenna>): (a: Array)
    ensures a.antennas == antennas && a.current == 0
  {
    Array(antennas, 0)
  }

  /** `__len__`. */
  function Len(a: Array): (n: nat)
    ensures n == |a.antennas|
  {
    |a.antennas|
  }

  /** `__iter__`: rewind the cursor and hand back the same object. */
  function Iter(a: Array): (r: Array)
    ensures r.antennas == a.antennas && r.current == 0
  {
    a.(current := 0)
  }

  /** `next`: the antenna under the cursor, advancing it; `None` stands for
      StopIteration once the cursor has reached the end, which leaves the
      array as it was. */
  function Next(a: Array): (r: (Array, Option<Antenna>))
    ensures r.1.None? <==> a.current >= |a.antennas|
    ensures r.1.None? ==> r.0 == a
    ensures r.1.Some? ==> r.1.value == a.antennas[a.current] && r.0 == a.(current := a.current + 1)
  {
    if a.current >= |a.antennas| then (a, None)
    else (a.(current := a.current + 1), Some(a.antennas[a.current]))
  }

  /** Everything a `for` loop sees: `next` until StopIteration. */
  function Drain(a: Array): (r: seq<Antenna>)
    decreases |a.antennas| - a.current
  {
    var (a', x) := Next(a);
    if x.None? then [] else [x.value] + Drain(a')
  }

  /** Draining from cursor `c` yields the antennas from `c` on, in order. */
  lemma {:induction false} DrainFrom(a: Array)
    requires a.current <= |a.antennas|
    ensures Drain(a) == a.antennas[a.current..]
    decreases |a.antennas| - a.current
  {
    if a.current < |a.antennas| {
      DrainFrom(a.(current := a.current + 1));
    }
  }

  /** Iterating an array yields every antenna once, in index order, however
      far an earlier iteration got. */
  lemma IterYieldsAll(a: Array)
    ensures Drain(Iter(a)) == a.antennas
  {
    DrainFrom(Iter(a));
  }

  /** `each_pair`: `itertools.combinations(antennas, 2)`. */
  function EachPair(ants: seq<Antenna>): (r: seq<(Antenna, Antenna)>)
    ensures |r| == Choose2(|ants|)
    ensures forall k :: 0 <= k < |r| ==>
              var c := Combinations(|ants|)[k];
              c.0 < c.1 < |ants| && r[k] == (ants[c.0], ants[c.1])
  {
    var combs := Combinations(|ants|);
    seq(|combs|, k requires 0 <= k < |combs| => (ants[combs[k].0], ants[combs[k].1]))
  }

  /** Every pair of positions `i < j` is enumerated, and the enumeration is
      in lexicographic order of positions, so none comes twice. */
  lemma EachPairCoversAll(ants: seq<Antenna>, i: nat, j: nat)
    requires i < j < |ants|
    ensures exists k :: 0 <= k < |EachPair(ants)| && Combinations(|ants|)[k] == (i, j) &&
              EachPair(ants)[k] == (ants[i], ants[j])
    ensures forall k, l :: 0 <= k < l < |EachPair(ants)| ==>
              LexLess(Combinations(|ants|)[k], Combinations(|ants|)[l])
  {
    var combs := Combinations(|ants|);
    assert (i, j) in combs;
    var k :| 0 <= k < |combs| && combs[k] == (i, j);
    assert EachPair(ants)[k] == (ants[i], ants[j]);
  }

  /** `phase_difference_between_two_antennas_at_angle`: the code subtracts
      B's phase from A's (the documentation says the opposite) and wraps the
      result. */
  function PhaseDifference(antA: Antenna, antB: Antenna, phi: real, f: real,
                           phase: (Antenna, real, real) -> real, wrap: real -> real): real
  {
    wrap(phase(antA, phi, f) - phase(antB, phi, f))
  }

  /** `each_pair_phase_difference_at_angle`: one phase difference per pair,
      in the order of `each_pair`. */
  function EachPairPhaseDifference(ants: seq<Antenna>, phi: real, f: real,
                                   phase: (Antenna, real, real) -> real, wrap: real -> real): (r: seq<real>)
    ensures |r| == Choose2(|ants|)
    ensures forall k :: 0 <= k < |r| ==>
              r[k] == PhaseDifference(EachPair(ants)[k].0, EachPair(ants)[k].1, phi, f, phase, wrap)
  {
    var pairs := EachPair(ants);
    seq(|pairs|, k requires 0 <= k < |pairs| => PhaseDifference(pairs[k].0, pairs[k].1, phi, f, phase, wrap))
  }

  /** The sign convention: entry `k` is A's phase minus B's, so with an odd
      wrapping function it is the negation of B-minus-A, the quantity the
      documentation names. */
  lemma PhaseDifferenceSign(ants: seq<Antenna>, phi: real, f: real,
                            phase: (Antenna, real, real) -> real, wrap: real -> real, k: nat)
    requires forall x :: wrap(-x) == -wrap(x)
    requires k < Choose2(|ants|)
    ensures var c := Combinations(|ants|)[k];
            EachPairPhaseDifference(ants, phi, f, phase, wrap)[k]
            == -wrap(phase(ants[c.1], phi, f) - phase(ants[c.0], phi, f))
  {
    var c := Combinations(|ants|)[k];
    var d := phase(ants[c.0], phi, f) - phase(ants[c.1], phi, f);
    assert phase(ants[c.1], phi, f) - phase(ants[c.0], phi, f) == -d;
  }

  /** `2 pi / n`, the arc between neighbouring elements; the division
      raises ZeroDivisionError for `n == 0`. */
  function Arc(n: int): real
    requires n != 0
  {
    (2.0 * Pi) / (n as real)
  }

  /** Element `el` of a ring: `(d, 0)` rotated by `el` arcs. */
  function RingElement(d: real, el: nat, arc: real, rotated: (Antenna, real) -> Antenna): Antenna
  {
    rotated(Antenna(d, 0.0), (el as real) * arc)
  }

  /** `mk_circular(d, n)`: `n` antennas on a circle of radius `d`, element
      `el` being `(d, 0)` rotated by `el` arcs of `2 pi / n`. A negative `n`
      gives an empty array. */
  function MkCircular(d: real, n: int, rotated: (Antenna, real) -> Antenna): (r: Result<Array>)
    ensures r.Failure? <==> n == 0
    ensures r.Failure? ==> r.error == ZeroDivisionError
    ensures r.Success? ==> |r.value.antennas| == (if n < 0 then 0 else n) && r.value.current == 0
    ensures r.Success? ==> forall el :: 0 <= el < |r.value.antennas| ==>
              r.value.antennas[el] == RingElement(d, el, Arc(n), rotated)
  {
    if n == 0 then Failure(ZeroDivisionError)
    else
      var m := if n < 0 then 0 else n;
      Success(NewArray(seq(m, el requires 0 <= el < m => RingElement(d, el, Arc(n), rotated))))
  }

  /** `mk_circular_with_ref(d, n)`: a reference antenna at the origin, then
      `n - 1` antennas on the circle. `n == 1` divides by zero; for `n <= 0`
      only the reference antenna is made. */
  function MkCircularWithRef(d: real, n: int, rotated: (Antenna, real) -> Antenna): (r: Result<Array>)
    ensures r.Failure? <==> n == 1
    ensures r.Failure? ==> r.error == ZeroDivisionError
    ensures r.Success? ==> |r.value.antennas| == (if n < 1 then 1 else n) && r.value.current == 0
    ensures r.Success? ==> r.value.antennas[0] == Antenna(0.0, 0.0)
    ensures r.Success? ==> forall el :: 1 <= el < |r.value.antennas| ==>
              r.value.antennas[el] == RingElement(d, el - 1, Arc(n - 1), rotated)
  {
    if n == 1 then Failure(ZeroDivisionError)
    else
      var m := if n < 1 then 0 else n - 1;
      var ring := seq(m, el requires 0 <= el < m => RingElement(d, el, Arc(n - 1), rotated));
      Success(NewArray([Antenna(0.0, 0.0)] + ring))
  }

  /** The rotation angles of a circular layout of `n > 0` elements start at
      zero, rise by equal steps and stay below a full turn, so no two
      elements share a place on the circle. */
  lemma CircularAnglesWithinTurn(n: nat, el: nat)
    requires 0 < n && el < n
    ensures 0.0 <= (el as real) * Arc(n) < 2.0 * Pi
  {
    var arc := Arc(n);
    assert arc > 0.0;
    assert arc * (n as real) == 2.0 * Pi;
    assert (el as real) * arc < (n as real) * arc;
  }
}
