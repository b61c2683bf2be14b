/**
 * The arc-length lookup table of a cubic curve and its inversion.
 *
 * The curve is sampled at t = i/n for i = 0..n; each sample records t and the
 * distance accumulated along the polyline through the samples, starting from
 * the curve's start point. `ApproximateT` inverts the table by a linear scan
 * and linear interpolation between the two bracketing samples.
 */
module Sampling {
  import opened Geometry

  /** `LookupTable`: sampled curve parameters and the cumulative distances reached at them. */
  datatype LookupTable = LookupTable(distValues: seq<real>, tValues: seq<real>)

  /**
   * The shape every table built by `GenerateLookupTable` has: as many t
   * values as distances, t rising strictly from 0 and never above 1, and
   * distances non-decreasing from a non-negative first entry.
   */
  ghost predicate Valid(table: LookupTable)
  {
    var ds, ts := table.distValues, table.tValues;
    |ts| == |ds| > 0 &&
    ts[0] == 0.0 && ds[0] >= 0.0 &&
    (forall i :: 0 <= i < |ts| ==> 0.0 <= ts[i] <= 1.0) &&
    (forall i, j :: 0 <= i < j < |ts| ==> ts[i] < ts[j]) &&
    (forall i, j :: 0 <= i <= j < |ds| ==> ds[i] <= ds[j])
  }

  /** The sample parameters t = 0, 1/n, 2/n, ... for the first k samples. */
  function SampleTs(n: nat, k: nat): (ts: seq<real>)
    requires n > 0
  {
    seq(k, i => i as real / n as real)
  }

  /** The point the sampling loop holds as `previousPoint` after k samples. */
  function Previous(start: Position, curve: real -> Position, n: nat, k: nat): Position
    requires n > 0
  {
    if k == 0 then start else curve((k - 1) as real / n as real)
  }

  /**
   * The cumulative distances after k samples: sample i adds the distance
   * from the previous point (the start point for i = 0) to curve(i/n).
   */
  function CumulativeDists(sqrt: real -> real, start: Position, curve: real -> Position, n: nat, k: nat): (ds: seq<real>)
    requires n > 0
    ensures |ds| == k
    decreases k
  {
    if k == 0 then []
    else
      var prev := CumulativeDists(sqrt, start, curve, n, k - 1);
      var acc := if k == 1 then 0.0 else prev[k - 2];
      prev + [acc + Distance(sqrt, Previous(start, curve, n, k - 1), curve((k - 1) as real / n as real))]
  }

  /** The table sampled at t = 0, 1/n, ..., 1: n + 1 samples. */
  function SampledTable(sqrt: real -> real, start: Position, curve: real -> Position, n: nat): LookupTable
    requires n > 0
  {
    LookupTable(CumulativeDists(sqrt, start, curve, n, n + 1), SampleTs(n, n + 1))
  }

  /**
   * `generateLookupTable`: the sampling loop. The source steps a float t by
   * 1/n while t <= 1; here sample i is taken at exactly t = i/n.
   */
  method GenerateLookupTable(sqrt: real -> real, start: Position, curve: real -> Position, n: nat)
    returns (table: LookupTable)
    requires n > 0
    ensures table == SampledTable(sqrt, start, curve, n)
  {
    var tValues: seq<real> := [];
    var distValues: seq<real> := [];
    var distAcc := 0.0;
    var previousPoint := start;
    var i := 0;
    while i <= n
      invariant 0 <= i <= n + 1
      invariant tValues == SampleTs(n, i)
      invariant distValues == CumulativeDists(sqrt, start, curve, n, i)
      invariant previousPoint == Previous(start, curve, n, i)
      invariant distAcc == if i == 0 then 0.0 else distValues[i - 1]
    {
      var t := i as real / n as real;
      tValues := tValues + [t];
      var pos := curve(t);
      var p2pDist := Distance(sqrt, previousPoint, pos);
      distAcc := distAcc + p2pDist;
      previousPoint := pos;
      distValues := distValues + [distAcc];
      i := i + 1;
    }
    table := LookupTable(distValues, tValues);
  }

  /** Each cumulative distance is the previous one plus a distance, so the sequence never decreases. */
  lemma {:induction false} CumulativeDistsMonotone(sqrt: real -> real, start: Position, curve: real -> Position, n: nat, k: nat)
    requires n > 0 && IsSqrt(sqrt)
    ensures |CumulativeDists(sqrt, start, curve, n, k)| == k
    ensures k > 0 ==> CumulativeDists(sqrt, start, curve, n, k)[0] >= 0.0
    ensures forall i, j :: 0 <= i <= j < k ==>
      CumulativeDists(sqrt, start, curve, n, k)[i] <= CumulativeDists(sqrt, start, curve, n, k)[j]
  {
    if k > 0 {
      CumulativeDistsMonotone(sqrt, start, curve, n, k - 1);
      var prev := CumulativeDists(sqrt, start, curve, n, k - 1);
      var ds := CumulativeDists(sqrt, start, curve, n, k);
      DistanceProperties(sqrt, Previous(start, curve, n, k - 1), curve((k - 1) as real / n as real));
      assert ds[..k - 1] == prev;
      assert k > 1 ==> ds[k - 1] >= ds[k - 2];
    }
  }

  /**
   * A table built by `GenerateLookupTable` is `Valid`, has n + 1 samples,
   * ends at t = 1, and starts at distance 0 when the curve starts at its
   * start point.
   */
  lemma SampledTableValid(sqrt: real -> real, start: Position, curve: real -> Position, n: nat)
    requires n > 0 && IsSqrt(sqrt)
    ensures Valid(SampledTable(sqrt, start, curve, n))
    ensures |SampledTable(sqrt, start, curve, n).tValues| == n + 1
    ensures SampledTable(sqrt, start, curve, n).tValues[n] == 1.0
    ensures curve(0.0) == start ==> SampledTable(sqrt, start, curve, n).distValues[0] == 0.0
  {
    CumulativeDistsMonotone(sqrt, start, curve, n, n + 1);
    SampleTsRise(n, n + 1);
    CumulativeDistsPrefix(sqrt, start, curve, n, 1, n + 1);
    DistanceProperties(sqrt, start, start);
  }

  /** The sample parameters rise strictly from 0 to 1. */
  lemma SampleTsRise(n: nat, k: nat)
    requires 0 < n && 0 < k <= n + 1
    ensures SampleTs(n, k)[0] == 0.0
    ensures k == n + 1 ==> SampleTs(n, k)[n] == 1.0
    ensures forall i :: 0 <= i < k ==> 0.0 <= SampleTs(n, k)[i] <= 1.0
    ensures forall i, j :: 0 <= i < j < k ==> SampleTs(n, k)[i] < SampleTs(n, k)[j]
  {
    var ts := SampleTs(n, k);
    DivSelf(n as real);
    forall i, j | 0 <= i < j < k ensures ts[i] < ts[j] {
      DivLess(i as real, j as real, n as real);
    }
    forall i | 0 <= i < k ensures 0.0 <= ts[i] <= 1.0 {
      if i < n {
        DivLess(i as real, n as real, n as real);
      }
    }
  }

  lemma DivSelf(c: real)
    requires c > 0.0
    ensures c / c == 1.0
  {
  }

  /** Building further only appends: the first k entries do not change. */
  lemma {:induction false} CumulativeDistsPrefix(sqrt: real -> real, start: Position, curve: real -> Position, n: nat, k: nat, m: nat)
    requires n > 0 && k <= m
    ensures |CumulativeDists(sqrt, start, curve, n, m)| == m
    ensures CumulativeDists(sqrt, start, curve, n, m)[..k] == CumulativeDists(sqrt, start, curve, n, k)
    decreases m
  {
    if k < m {
      CumulativeDistsPrefix(sqrt, start, curve, n, k, m - 1);
      var prev := CumulativeDists(sqrt, start, curve, n, m - 1);
      assert CumulativeDists(sqrt, start, curve, n, m)[..k] == prev[..k];
    }
  }

  /** The index of the first entry that exceeds `dist`, or `|ds|` when there is none. */
  function FirstAbove(ds: seq<real>, dist: real): (idx: nat)
    ensures idx <= |ds|
    ensures forall j :: 0 <= j < idx ==> ds[j] <= dist
    ensures idx < |ds| ==> dist < ds[idx]
  {
    if ds == [] then 0
    else if dist < ds[0] then 0
    else 1 + FirstAbove(ds[1..], dist)
  }

  /** Any index before which no entry exceeds `dist`, and at which one does (or the end), is `FirstAbove`. */
  lemma {:induction false} FirstAboveIsFirst(ds: seq<real>, dist: real, idx: nat)
    requires idx <= |ds|
    requires forall j :: 0 <= j < idx ==> ds[j] <= dist
    requires idx < |ds| ==> dist < ds[idx]
    ensures FirstAbove(ds, dist) == idx
  {
    if idx > 0 {
      FirstAboveIsFirst(ds[1..], dist, idx - 1);
    }
  }

  /**
   * What `ApproximateT` returns: 0 before the first entry, 1 when no entry
   * exceeds `dist`, and otherwise the interpolation between the bracketing
   * samples. The divisor is positive because `ds[idx - 1] <= dist < ds[idx]`.
   */
  function ApproxT(table: LookupTable, dist: real): real
    requires |table.tValues| == |table.distValues|
  {
    var ds, ts := table.distValues, table.tValues;
    var idx := FirstAbove(ds, dist);
    if idx == |ds| then 1.0
    else if idx == 0 then 0.0
    else Interpolate(ts[idx - 1], ts[idx], ds[idx - 1], ds[idx], dist)
  }

  /** `ApproximateT`: the scan over the table with an early return. */
  method ApproximateT(table: LookupTable, dist: real) returns (t: real)
    requires |table.tValues| == |table.distValues|
    ensures t == ApproxT(table, dist)
  {
    var ds, ts := table.distValues, table.tValues;
    var idx := 0;
    while idx < |ds|
      invariant 0 <= idx <= |ds|
      invariant forall j :: 0 <= j < idx ==> ds[j] <= dist
    {
      var lookupDist := ds[idx];
      if dist < lookupDist {
        FirstAboveIsFirst(ds, dist, idx);
        if idx == 0 {
          return 0.0;
        } else {
          return Interpolate(ts[idx - 1], ts[idx], ds[idx - 1], lookupDist, dist);
        }
      }
      idx := idx + 1;
    }
    FirstAboveIsFirst(ds, dist, idx);
    return 1.0;
  }

  /** Below the first entry the result is 0; at or past the last entry of a valid table it is 1. */
  lemma ApproxTEnds(table: LookupTable, dist: real)
    requires Valid(table)
    ensures dist < table.distValues[0] ==> ApproxT(table, dist) == 0.0
    ensures dist >= table.distValues[|table.distValues| - 1] ==> ApproxT(table, dist) == 1.0
  {
  }

  /**
   * In the interpolation case the result lies in [ts[idx - 1], ts[idx]),
   * where idx is the first entry exceeding `dist`, and the divisor
   * ds[idx] - ds[idx - 1] is positive.
   */
  lemma ApproxTBracket(table: LookupTable, dist: real, idx: nat)
    requires Valid(table)
    requires idx == FirstAbove(table.distValues, dist) && 0 < idx < |table.distValues|
    ensures table.distValues[idx - 1] <= dist < table.distValues[idx]
    ensures table.tValues[idx - 1] <= ApproxT(table, dist) < table.tValues[idx]
  {
    var ds, ts := table.distValues, table.tValues;
    assert ts[idx - 1] < ts[idx];
    InterpolationBounds(ts[idx - 1], ts[idx], ds[idx - 1], ds[idx], dist);
  }

  /** A longer distance never maps to an earlier curve parameter. */
  lemma ApproxTMonotone(table: LookupTable, d1: real, d2: real)
    requires Valid(table) && d1 <= d2
    ensures ApproxT(table, d1) <= ApproxT(table, d2)
  {
    var ds, ts := table.distValues, table.tValues;
    var i1, i2 := FirstAbove(ds, d1), FirstAbove(ds, d2);
    assert i1 <= i2;
    ApproxTInUnitInterval(table, d1);
    ApproxTInUnitInterval(table, d2);
    if 0 < i1 && i2 < |ds| {
      ApproxTBracket(table, d1, i1);
      ApproxTBracket(table, d2, i2);
      if i1 == i2 {
        InterpolateMonotone(ts[i1 - 1], ts[i1], ds[i1 - 1], ds[i1], d1, d2);
      } else {
        assert ts[i1] <= ts[i2 - 1];
      }
    }
  }

  /**
   * Distance 0 maps back to the start point: the first entry exceeding 0
   * follows a run of zero entries, each sample in that run lies on the start
   * point, and the interpolation at distance 0 lands on the run's last sample
   * (or on t = 1 when the whole curve has length 0).
   */
  lemma ApproxTAtZero(sqrt: real -> real, start: Position, curve: real -> Position, n: nat)
    requires n > 0 && IsSqrt(sqrt) && curve(0.0) == start
    ensures curve(ApproxT(SampledTable(sqrt, start, curve, n), 0.0)) == start
  {
    var table := SampledTable(sqrt, start, curve, n);
    var ds, ts := table.distValues, table.tValues;
    SampledTableValid(sqrt, start, curve, n);
    var idx := FirstAbove(ds, 0.0);
    assert 0 < idx;
    assert ds[idx - 1] == 0.0 by {
      assert ds[0] <= ds[idx - 1];
    }
    CumulativeDistsPrefix(sqrt, start, curve, n, idx, n + 1);
    assert CumulativeDists(sqrt, start, curve, n, idx)[idx - 1] == ds[idx - 1];
    ZeroDistanceStaysAtStart(sqrt, start, curve, n, idx);
    if idx == n + 1 {
      DivSelf(n as real);
    } else {
      assert ApproxT(table, 0.0) == ts[idx - 1];
    }
  }

  /** When the cumulative distance after k samples is 0, sample k - 1 lies on the start point. */
  lemma {:induction false} ZeroDistanceStaysAtStart(sqrt: real -> real, start: Position, curve: real -> Position, n: nat, k: nat)
    requires n > 0 && 0 < k && IsSqrt(sqrt)
    requires CumulativeDists(sqrt, start, curve, n, k)[k - 1] == 0.0
    ensures curve((k - 1) as real / n as real) == start
  {
    var prev := CumulativeDists(sqrt, start, curve, n, k - 1);
    var acc := if k == 1 then 0.0 else prev[k - 2];
    var p := Previous(start, curve, n, k - 1);
    CumulativeDistsMonotone(sqrt, start, curve, n, k - 1);
    assert acc >= 0.0 by {
      if k > 1 {
        assert prev[0] <= prev[k - 2];
      }
    }
    DistanceProperties(sqrt, p, curve((k - 1) as real / n as real));
    DistanceZero(sqrt, p, curve((k - 1) as real / n as real));
    if k > 1 {
      assert CumulativeDists(sqrt, start, curve, n, k - 1)[k - 2] == 0.0;
      ZeroDistanceStaysAtStart(sqrt, start, curve, n, k - 1);
    }
  }

  lemma InterpolateMonotone(t0: real, t1: real, d0: real, d1: real, x: real, y: real)
    requires t0 < t1 && d0 < d1 && x <= y
    ensures Interpolate(t0, t1, d0, d1, x) <= Interpolate(t0, t1, d0, d1, y)
  {
    var T, D := t1 - t0, d1 - d0;
    assert T * (x - d0) <= T * (y - d0) by {
      MulLeftLe(x - d0, y - d0, T);
      assert (x - d0) * T == T * (x - d0) && (y - d0) * T == T * (y - d0);
    }
    DivLe(T * (x - d0), T * (y - d0), D);
  }

  lemma DivLe(a: real, b: real, c: real)
    requires c > 0.0 && a <= b
    ensures a / c <= b / c
  {
    if a < b {
      DivLess(a, b, c);
    }
  }

  /** The t on the straight line through (d0, t0) and (d1, t1) at distance d. */
  function Interpolate(t0: real, t1: real, d0: real, d1: real, d: real): real
    requires d0 < d1
  {
    t0 + ((t1 - t0) * (d - d0)) / (d1 - d0)
  }

  /** On a valid table the result is a curve parameter: it lies in [0, 1]. */
  lemma ApproxTInUnitInterval(table: LookupTable, dist: real)
    requires Valid(table)
    ensures 0.0 <= ApproxT(table, dist) <= 1.0
  {
    var idx := FirstAbove(table.distValues, dist);
    if 0 < idx < |table.distValues| {
      ApproxTBracket(table, dist, idx);
      assert 0.0 <= table.tValues[idx - 1] && table.tValues[idx] <= 1.0;
    }
  }

  /** Linear interpolation between (d0, t0) and (d1, t1) stays in [t0, t1) for d0 <= d < d1. */
  lemma InterpolationBounds(t0: real, t1: real, d0: real, d1: real, d: real)
    requires t0 < t1 && d0 <= d < d1
    ensures t0 <= Interpolate(t0, t1, d0, d1, d) < t1
  {
    var D, N, T := d1 - d0, d - d0, t1 - t0;
    var f := (T * N) / D;
    assert f * D == T * N;
    MulLeftLe(0.0, N, T);
    assert T * N < T * D by {
      MulLeft(N, D, T);
      assert N * T == T * N && D * T == T * D;
    }
    if f < 0.0 {
      MulLeft(f, 0.0, D);
      assert false;
    }
    if f >= T {
      MulLeftLe(T, f, D);
      assert false;
    }
  }

  lemma MulLeft(a: real, b: real, c: real)
    requires c > 0.0 && a < b
    ensures a * c < b * c
  {
  }

  lemma MulLeftLe(a: real, b: real, c: real)
    requires c > 0.0 && a <= b
    ensures a * c <= b * c
  {
  }

  lemma DivLess(a: real, b: real, c: real)
    requires c > 0.0 && a < b
    ensures a / c < b / c
  {
    var x, y := a / c, b / c;
    assert x * c == a && y * c == b;
    if x >= y {
      MulLeftLe(y, x, c);
      assert false;
    }
  }
}
