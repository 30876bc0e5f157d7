/**
 * The grid side of the scan engine: sampling a landscape function on a regular grid
 * over an affine subspace (landscape_scan_linear), one 1-D scan per direction
 * (collective_scan_linear), and scans along Hessian eigen-directions (hessian_scan).
 */
module Scans {
  import opened Results
  import opened Linear
  import opened Indexing

  /** A center point and D direction vectors in the ambient domain. */
  datatype AffineSubspace = AffineSubspace(directions: seq<Vec>, center: Vec)

  /** Every direction lives in the same domain as the center: directions has shape (D, N). */
  predicate WellFormed(s: AffineSubspace)
  {
    IsMatrix(s.directions, |s.center|)
  }

  /** A scalar scope s (meaning (-s, s) on every direction) or explicit (low, high) rows. */
  datatype Scope = Symmetric(extent: real) | Bounds(rows: seq<(real, real)>)

  /** A scalar resolution (the same count on every direction) or one count per direction. */
  datatype Resolution = Uniform(count: nat) | PerDirection(counts: seq<nat>)

  /** A numpy array: its shape and its entries in row-major order. */
  datatype NdArray = NdArray(shape: seq<nat>, data: seq<real>)

  datatype LinearScan = LinearScan(result: NdArray, subspace: AffineSubspace, scope: seq<(real, real)>)

  datatype ScanCollection = ScanCollection(scanlist: seq<LinearScan>)

  datatype ScanError = InvalidScope

  /** The (D, 2) scope array after a scalar has been expanded. */
  function ScopeRows(scope: Scope, dNum: nat): seq<(real, real)>
  {
    match scope
    case Symmetric(s) => seq(dNum, _ => (-s, s))
    case Bounds(rows) => rows
  }

  /** low < high on every row: the only condition the scanners check. */
  predicate Increasing(rows: seq<(real, real)>)
  {
    forall d :: 0 <= d < |rows| ==> rows[d].0 < rows[d].1
  }

  /** The resolution vector after a scalar has been broadcast. */
  function Counts(resolution: Resolution, dNum: nat): seq<nat>
  {
    match resolution
    case Uniform(c) => seq(dNum, _ => c)
    case PerDirection(cs) => cs
  }

  /** Explicit scope and resolution have one row per direction, as the callers must supply. */
  predicate Conforms(scope: Scope, resolution: Resolution, dNum: nat)
  {
    && (scope.Bounds? ==> |scope.rows| == dNum)
    && (resolution.PerDirection? ==> |resolution.counts| == dNum)
  }

  /** Entry i of numpy's linspace(0, width, n): n evenly spaced offsets from 0 to width. */
  function Ramp(width: real, n: nat, i: nat): real
  {
    if n > 1 then (i as real) * (width / ((n - 1) as real)) else 0.0
  }

  lemma RampEnds(width: real, n: nat)
    ensures Ramp(width, n, 0) == 0.0
    ensures n > 1 ==> Ramp(width, n, n - 1) == width
  {
  }

  function Lows(rows: seq<(real, real)>): (c: seq<real>)
    ensures |c| == |rows|
  {
    seq(|rows|, d requires 0 <= d < |rows| => rows[d].0)
  }

  /** The per-direction offsets from the bottom corner of grid point idx. */
  function Offsets(rows: seq<(real, real)>, counts: seq<nat>, idx: seq<nat>): (c: seq<real>)
    requires |rows| == |counts| == |idx|
    ensures |c| == |idx|
  {
    seq(|idx|, d requires 0 <= d < |idx| => Ramp(rows[d].1 - rows[d].0, counts[d], idx[d]))
  }

  /** The subspace coordinates of grid point idx: scope[d].0 plus its ramp offset. */
  function Coordinates(rows: seq<(real, real)>, counts: seq<nat>, idx: seq<nat>): (c: seq<real>)
    requires |rows| == |counts| == |idx|
    ensures |c| == |idx|
  {
    seq(|idx|, d requires 0 <= d < |idx| => rows[d].0 + Ramp(rows[d].1 - rows[d].0, counts[d], idx[d]))
  }

  /** center + Σ_d Coordinates[d] · directions[d]: the grid point at multi-index idx. */
  function GridPoint(s: AffineSubspace, rows: seq<(real, real)>, counts: seq<nat>, idx: seq<nat>): (p: Vec)
    requires WellFormed(s) && |rows| == |counts| == |idx| == |s.directions|
    ensures |p| == |s.center|
  {
    Add(s.center, Combine(Coordinates(rows, counts, idx), s.directions, |s.center|))
  }

  /** The grid points in row-major order, one per flat position. */
  function GridPoints(s: AffineSubspace, rows: seq<(real, real)>, counts: seq<nat>): (pts: seq<Vec>)
    requires WellFormed(s) && |rows| == |counts| == |s.directions|
    ensures |pts| == Product(counts)
  {
    seq(Product(counts), k requires 0 <= k < Product(counts) => GridPoint(s, rows, counts, Unflatten(k, counts)))
  }

  /** The entry of a numpy array at a multi-index. */
  function Entry(a: NdArray, idx: seq<nat>): real
    requires |a.data| == Product(a.shape) && InShape(idx, a.shape)
  {
    a.data[Flatten(idx, a.shape)]
  }

  /** The scan landscape_scan_linear builds: the function sampled at every grid point, reshaped. */
  function ScanOf(f: Vec -> real, s: AffineSubspace, rows: seq<(real, real)>, counts: seq<nat>): (scan: LinearScan)
    requires WellFormed(s) && |rows| == |counts| == |s.directions|
    ensures scan.result.shape == counts && |scan.result.data| == Product(counts)
    ensures scan.subspace == s && scan.scope == rows
    ensures forall idx :: InShape(idx, counts) ==> Entry(scan.result, idx) == f(GridPoint(s, rows, counts, idx))
  {
    UnflattenFlattenAll(counts);
    var pts := GridPoints(s, rows, counts);
    LinearScan(NdArray(counts, seq(|pts|, k requires 0 <= k < |pts| => f(pts[k]))), s, rows)
  }

  /** The bottom corner plus the offsets is the grid point. */
  lemma BottomCorner(s: AffineSubspace, rows: seq<(real, real)>, counts: seq<nat>, idx: seq<nat>)
    requires WellFormed(s) && |rows| == |counts| == |idx| == |s.directions|
    ensures Add(Add(s.center, Combine(Lows(rows), s.directions, |s.center|)),
                Combine(Offsets(rows, counts, idx), s.directions, |s.center|))
            == GridPoint(s, rows, counts, idx)
  {
    var n := |s.center|;
    var lows, offs := Lows(rows), Offsets(rows, counts, idx);
    assert Coordinates(rows, counts, idx) == Add(lows, offs);
    CombineAdd(lows, offs, s.directions, n);
    AddAssoc(s.center, Combine(lows, s.directions, n), Combine(offs, s.directions, n));
  }

  /** Adding direction d's ramp extends the partial sum by one direction. */
  lemma GridStep(bottom: Vec, offs: seq<real>, m: seq<Vec>, n: nat, d: nat)
    requires d < |offs| <= |m| && IsMatrix(m, n) && |bottom| == n
    ensures Add(Add(bottom, Combine(offs[..d], m, n)), Scale(offs[d], m[d]))
            == Add(bottom, Combine(offs[..d + 1], m, n))
  {
    assert offs[..d + 1][..d] == offs[..d];
    AddAssoc(bottom, Combine(offs[..d], m, n), Scale(offs[d], m[d]));
  }

  /** The bottom corner of the grid: center + Σ_d scope[d].0 · directions[d]. */
  function BottomCornerOf(s: AffineSubspace, rows: seq<(real, real)>): (b: Vec)
    requires WellFormed(s) && |rows| == |s.directions|
    ensures |b| == |s.center|
  {
    Add(s.center, Combine(Lows(rows), s.directions, |s.center|))
  }

  /** Grid point k once the ramps of the first d directions have been added to the bottom corner. */
  ghost function Partial(s: AffineSubspace, rows: seq<(real, real)>, counts: seq<nat>, k: nat, d: nat): Vec
    requires WellFormed(s) && |rows| == |counts| == |s.directions|
    requires k < Product(counts) && d <= |s.directions|
  {
    Add(BottomCornerOf(s, rows), Combine(Offsets(rows, counts, Unflatten(k, counts))[..d], s.directions, |s.center|))
  }

  /** One pass of the direction loop: `grid = grid + grid_d` for direction d. */
  method AddDirection(grid: array<Vec>, s: AffineSubspace, rows: seq<(real, real)>, counts: seq<nat>, d: nat)
    requires WellFormed(s) && |rows| == |counts| == |s.directions| && d < |s.directions|
    requires grid.Length == Product(counts)
    requires forall k :: 0 <= k < grid.Length ==> grid[k] == Partial(s, rows, counts, k, d)
    modifies grid
    ensures forall k :: 0 <= k < grid.Length ==> grid[k] == Partial(s, rows, counts, k, d + 1)
  {
    var n := |s.center|;
    ghost var before := grid[..];
    ghost var after := seq(grid.Length, j requires 0 <= j < grid.Length => Partial(s, rows, counts, j, d + 1));
    var k := 0;
    while k < grid.Length
      invariant 0 <= k <= grid.Length
      invariant grid[..k] == after[..k] && grid[k..] == before[k..]
    {
      var idx := Unflatten(k, counts);
      var step := Ramp(rows[d].1 - rows[d].0, counts[d], idx[d]);
      GridStep(BottomCornerOf(s, rows), Offsets(rows, counts, idx), s.directions, n, d);
      assert grid[k] == before[k] == Partial(s, rows, counts, k, d);
      grid[k] := Add(grid[k], Scale(step, s.directions[d]));
      assert grid[..k + 1] == after[..k + 1];
      k := k + 1;
    }
    assert grid[..] == grid[..k];
  }

  /**
   * The grid of landscape_scan_linear, flattened in row-major order: every point starts
   * at the bottom corner, then direction by direction its linspace offset along that
   * direction is added.
   */
  method BuildGrid(s: AffineSubspace, rows: seq<(real, real)>, counts: seq<nat>) returns (grid: array<Vec>)
    requires WellFormed(s) && |rows| == |counts| == |s.directions|
    ensures fresh(grid) && grid[..] == GridPoints(s, rows, counts)
  {
    var dNum := |s.directions|;
    var bottom := BottomCornerOf(s, rows);
    grid := new Vec[Product(counts)](_ => bottom);
    forall k | 0 <= k < grid.Length
      ensures grid[k] == Partial(s, rows, counts, k, 0)
    {
      AddZero(bottom);
    }
    var d := 0;
    while d < dNum
      invariant 0 <= d <= dNum && grid.Length == Product(counts) && fresh(grid)
      invariant forall k :: 0 <= k < grid.Length ==> grid[k] == Partial(s, rows, counts, k, d)
    {
      AddDirection(grid, s, rows, counts, d);
      d := d + 1;
    }
    forall j | 0 <= j < grid.Length
      ensures grid[j] == GridPoints(s, rows, counts)[j]
    {
      var idx := Unflatten(j, counts);
      assert Offsets(rows, counts, idx)[..dNum] == Offsets(rows, counts, idx);
      BottomCorner(s, rows, counts, idx);
    }
  }

  /**
   * landscape_scan_linear: expand the scope, reject a row with low >= high before any
   * evaluation, broadcast the resolution, build the grid from the bottom corner one
   * direction at a time, evaluate func once per grid point in row-major order and
   * reshape. calls lists the points handed to func, in call order.
   */
  method ScanLinear(f: Vec -> real, s: AffineSubspace, scope: Scope, resolution: Resolution)
    returns (r: Result<LinearScan, ScanError>, calls: seq<Vec>)
    requires WellFormed(s) && Conforms(scope, resolution, |s.directions|)
    ensures r.Ok? <==> Increasing(ScopeRows(scope, |s.directions|))
    ensures scope.Symmetric? && |s.directions| > 0 ==> (r.Ok? <==> scope.extent > 0.0)
    ensures r.Err? ==> r.error == InvalidScope && calls == []
    ensures r.Ok? ==>
      var rows, counts := ScopeRows(scope, |s.directions|), Counts(resolution, |s.directions|);
      && r.value == ScanOf(f, s, rows, counts)
      && calls == GridPoints(s, rows, counts)
      && |calls| == Product(counts)
      && (forall k :: 0 <= k < |calls| ==> r.value.result.data[k] == f(calls[k]))
  {
    var dNum, n := |s.directions|, |s.center|;
    var rows := ScopeRows(scope, dNum);
    if scope.Symmetric? && dNum > 0 {
      assert rows[0] == (-scope.extent, scope.extent);
    }
    if !Increasing(rows) {
      return Err(InvalidScope), [];
    }
    var counts := Counts(resolution, dNum);

    var total := Product(counts);
    var grid := BuildGrid(s, rows, counts);
    ghost var pts := GridPoints(s, rows, counts);
    var result := new real[total];
    calls := [];
    var k := 0;
    while k < total
      modifies result
      invariant 0 <= k <= total && |calls| == k
      invariant forall j :: 0 <= j < k ==> calls[j] == pts[j] && result[j] == f(pts[j])
    {
      assert grid[k] == grid[..][k];
      result[k] := f(grid[k]);
      calls := calls + [grid[k]];
      k := k + 1;
    }
    ghost var scan := ScanOf(f, s, rows, counts);
    assert result[..] == scan.result.data;
    r := Ok(LinearScan(NdArray(counts, result[..]), s, rows));
  }

  /** The grid point at multi-index all-zeros is center + Σ scope[d].0 · directions[d]. */
  lemma GridLowCorner(s: AffineSubspace, rows: seq<(real, real)>, counts: seq<nat>, idx: seq<nat>)
    requires WellFormed(s) && |rows| == |counts| == |idx| == |s.directions|
    requires forall d :: 0 <= d < |idx| ==> idx[d] == 0
    ensures GridPoint(s, rows, counts, idx) == Add(s.center, Combine(Lows(rows), s.directions, |s.center|))
  {
    assert Coordinates(rows, counts, idx) == Lows(rows);
  }

  /** The high end actually reached on each axis: scope[d].1, or scope[d].0 when one sample is taken. */
  function Tops(rows: seq<(real, real)>, counts: seq<nat>): (c: seq<real>)
    requires |rows| == |counts|
    ensures |c| == |rows|
  {
    seq(|rows|, d requires 0 <= d < |rows| => if counts[d] > 1 then rows[d].1 else rows[d].0)
  }

  /**
   * The grid point at the last index of every axis is center + Σ scope[d].1 · directions[d],
   * except that an axis with a single sample contributes its low end.
   */
  lemma GridHighCorner(s: AffineSubspace, rows: seq<(real, real)>, counts: seq<nat>, idx: seq<nat>)
    requires WellFormed(s) && |rows| == |counts| == |idx| == |s.directions|
    requires forall d :: 0 <= d < |idx| ==> idx[d] + 1 == counts[d]
    ensures GridPoint(s, rows, counts, idx) == Add(s.center, Combine(Tops(rows, counts), s.directions, |s.center|))
  {
    forall d | 0 <= d < |idx|
      ensures Coordinates(rows, counts, idx)[d] == Tops(rows, counts)[d]
    {
      RampEnds(rows[d].1 - rows[d].0, counts[d]);
    }
    assert Coordinates(rows, counts, idx) == Tops(rows, counts);
  }

  /** With a symmetric scope and an odd resolution of at least 3, the middle sample sits at 0. */
  lemma MiddleSample(h: real, c: nat)
    requires c >= 3 && c % 2 == 1
    ensures -h + Ramp(h - -h, c, (c - 1) / 2) == 0.0
  {
    var m := (c - 1) / 2;
    assert c - 1 == 2 * m;
    assert ((c - 1) as real) == 2.0 * (m as real);
    assert (m as real) * ((h - -h) / (2.0 * (m as real))) == h;
  }

  /** With an even resolution, no sample of a symmetric axis sits at 0. */
  lemma EvenAxisMissesCenter(h: real, c: nat, i: nat)
    requires h > 0.0 && c % 2 == 0 && i < c
    ensures -h + Ramp(h - -h, c, i) != 0.0
  {
    if c > 1 {
      var w := (h - -h) / ((c - 1) as real);
      var x := (i as real) * w;
      assert x * ((c - 1) as real) == 2.0 * h * (i as real);
      assert x == h ==> h * ((c - 1) as real) == h * (2.0 * (i as real));
      assert x == h ==> ((c - 1) as real) == 2.0 * (i as real);
      assert x == h ==> c - 1 == 2 * i;
    }
  }

  /**
   * When every scope row is (-s, s) and every resolution is odd and at least 3, the grid
   * samples the center exactly, at the middle index of every axis.
   */
  lemma GridSamplesCenter(s: AffineSubspace, rows: seq<(real, real)>, counts: seq<nat>, idx: seq<nat>)
    requires WellFormed(s) && |rows| == |counts| == |idx| == |s.directions|
    requires forall d :: 0 <= d < |rows| ==> rows[d].0 == -rows[d].1
    requires forall d :: 0 <= d < |counts| ==> counts[d] >= 3 && counts[d] % 2 == 1 && idx[d] == (counts[d] - 1) / 2
    ensures InShape(idx, counts)
    ensures GridPoint(s, rows, counts, idx) == s.center
  {
    var n := |s.center|;
    var coords := Coordinates(rows, counts, idx);
    forall d | 0 <= d < |idx|
      ensures coords[d] == 0.0
    {
      MiddleSample(rows[d].1, counts[d]);
    }
    CombineZero(coords, s.directions, n);
    AddZero(s.center);
  }

  /** The one-direction subspace through the same center along direction i. */
  function Line(s: AffineSubspace, i: nat): (t: AffineSubspace)
    requires WellFormed(s) && i < |s.directions|
    ensures WellFormed(t)
  {
    AffineSubspace([s.directions[i]], s.center)
  }

  /** The points the first i one-direction scans hand to func, in order. */
  function CollectiveCalls(s: AffineSubspace, rows: seq<(real, real)>, counts: seq<nat>, i: nat): seq<Vec>
    requires WellFormed(s) && |rows| == |counts| == |s.directions| && i <= |rows|
  {
    if i == 0 then []
    else CollectiveCalls(s, rows, counts, i - 1) + GridPoints(Line(s, i - 1), [rows[i - 1]], [counts[i - 1]])
  }

  /** The scans of the first i one-direction scans, in order. */
  ghost function LineScans(f: Vec -> real, s: AffineSubspace, rows: seq<(real, real)>, counts: seq<nat>, i: nat): seq<LinearScan>
    requires WellFormed(s) && |rows| == |counts| == |s.directions| && i <= |rows|
  {
    if i == 0 then []
    else LineScans(f, s, rows, counts, i - 1) + [ScanOf(f, Line(s, i - 1), [rows[i - 1]], [counts[i - 1]])]
  }

  lemma {:induction false} LineScansAt(f: Vec -> real, s: AffineSubspace, rows: seq<(real, real)>, counts: seq<nat>, i: nat)
    requires WellFormed(s) && |rows| == |counts| == |s.directions| && i <= |rows|
    ensures |LineScans(f, s, rows, counts, i)| == i
    ensures forall j :: 0 <= j < i ==> LineScans(f, s, rows, counts, i)[j] == ScanOf(f, Line(s, j), [rows[j]], [counts[j]])
  {
    if i > 0 {
      LineScansAt(f, s, rows, counts, i - 1);
    }
  }

  function Sum(c: seq<nat>): nat
  {
    if |c| == 0 then 0 else Sum(c[..|c| - 1]) + c[|c| - 1]
  }

  /** What collective_scan_linear promises for one subspace, scope and resolution. */
  ghost predicate CollectiveOutcome(f: Vec -> real, s: AffineSubspace, scope: Scope, resolution: Resolution,
                                    r: Result<ScanCollection, ScanError>, calls: seq<Vec>)
    requires WellFormed(s) && Conforms(scope, resolution, |s.directions|)
  {
    var dNum := |s.directions|;
    var rows, counts := ScopeRows(scope, dNum), Counts(resolution, dNum);
    && (r.Ok? <==> Increasing(rows))
    && (r.Err? ==> r.error == InvalidScope && calls == [])
    && (r.Ok? ==>
          && |r.value.scanlist| == dNum
          && (forall i :: 0 <= i < dNum ==> r.value.scanlist[i] == ScanOf(f, Line(s, i), [rows[i]], [counts[i]]))
          && calls == CollectiveCalls(s, rows, counts, dNum)
          && |calls| == Sum(counts))
  }

  /** One pass of the collective loop: the 1-D scan along direction i with scope row i and resolution[i]. */
  method ScanLine(f: Vec -> real, s: AffineSubspace, rows: seq<(real, real)>, counts: seq<nat>, i: nat)
    returns (scan: LinearScan, calls: seq<Vec>)
    requires WellFormed(s) && |rows| == |counts| == |s.directions| && i < |rows| && Increasing(rows)
    ensures scan == ScanOf(f, Line(s, i), [rows[i]], [counts[i]])
    ensures calls == GridPoints(Line(s, i), [rows[i]], [counts[i]]) && |calls| == counts[i]
  {
    assert ScopeRows(Bounds([rows[i]]), 1) == [rows[i]];
    assert Counts(Uniform(counts[i]), 1) == [counts[i]];
    var r;
    r, calls := ScanLinear(f, Line(s, i), Bounds([rows[i]]), Uniform(counts[i]));
    assert Product([counts[i]]) == counts[i];
    scan := r.value;
  }

  /** The loop of collective_scan_linear: one 1-D scan per direction, in direction order. */
  method ScanLines(f: Vec -> real, s: AffineSubspace, rows: seq<(real, real)>, counts: seq<nat>)
    returns (scanlist: seq<LinearScan>, calls: seq<Vec>)
    requires WellFormed(s) && |rows| == |counts| == |s.directions| && Increasing(rows)
    ensures scanlist == LineScans(f, s, rows, counts, |rows|)
    ensures calls == CollectiveCalls(s, rows, counts, |rows|) && |calls| == Sum(counts)
  {
    scanlist, calls := [], [];
    var i := 0;
    while i < |rows|
      invariant 0 <= i <= |rows|
      invariant scanlist == LineScans(f, s, rows, counts, i)
      invariant calls == CollectiveCalls(s, rows, counts, i)
      invariant |calls| == Sum(counts[..i])
    {
      var scan, scanCalls := ScanLine(f, s, rows, counts, i);
      assert counts[..i + 1][..i] == counts[..i];
      scanlist := scanlist + [scan];
      calls := calls + scanCalls;
      i := i + 1;
    }
    assert counts[..i] == counts;
  }

  /**
   * collective_scan_linear: expand and check the scope, broadcast the resolution, then
   * run one 1-D scan per direction, in direction order.
   */
  method CollectiveScan(f: Vec -> real, s: AffineSubspace, scope: Scope, resolution: Resolution)
    returns (r: Result<ScanCollection, ScanError>, calls: seq<Vec>)
    requires WellFormed(s) && Conforms(scope, resolution, |s.directions|)
    ensures CollectiveOutcome(f, s, scope, resolution, r, calls)
  {
    var dNum := |s.directions|;
    var rows := ScopeRows(scope, dNum);
    if !Increasing(rows) {
      return Err(InvalidScope), [];
    }
    var counts := Counts(resolution, dNum);
    var scanlist;
    scanlist, calls := ScanLines(f, s, rows, counts);
    LineScansAt(f, s, rows, counts, dNum);
    r := Ok(ScanCollection(scanlist));
  }

  /**
   * The collective scanner makes Σ resolution calls, not the prod(resolution) its
   * documentation gives: two directions with 3 samples each take 6 calls, where the full
   * 3 × 3 grid would take 9.
   */
  lemma CollectiveCallsAreSum(f: Vec -> real, s: AffineSubspace, r: Result<ScanCollection, ScanError>, calls: seq<Vec>)
    requires WellFormed(s) && |s.directions| == 2
    requires CollectiveOutcome(f, s, Symmetric(1.0), Uniform(3), r, calls)
    ensures r.Ok? && |calls| == 6 && Product([3, 3]) == 9
  {
    var counts := Counts(Uniform(3), 2);
    assert counts == [3, 3];
    assert Sum(counts) == 6 by {
      assert counts[..1] == [3] && [3][..0] == [];
    }
    assert Increasing(ScopeRows(Symmetric(1.0), 2));
    assert [3, 3][..1] == [3] && [3][..0] == [];
  }

  /** On a one-direction line, the grid point at k is center + (low + offset k) · direction. */
  lemma LinePoint(s: AffineSubspace, i: nat, row: (real, real), c: nat, k: nat)
    requires WellFormed(s) && i < |s.directions|
    ensures GridPoint(Line(s, i), [row], [c], [k])
            == Add(s.center, Scale(row.0 + Ramp(row.1 - row.0, c, k), s.directions[i]))
  {
    var n, d := |s.center|, s.directions[i];
    var a := row.0 + Ramp(row.1 - row.0, c, k);
    assert Coordinates([row], [c], [k]) == [a];
    assert Combine([a], [d], n) == Add(Zero(n), Scale(a, d));
    assert Add(Zero(n), Scale(a, d)) == Scale(a, d);
  }

  /**
   * Scan i of a collective scan runs along direction i alone, through the original
   * center, over scope row i, with resolution[i] samples.
   */
  lemma LineScanShape(f: Vec -> real, s: AffineSubspace, i: nat, row: (real, real), c: nat)
    requires WellFormed(s) && i < |s.directions|
    ensures var scan := ScanOf(f, Line(s, i), [row], [c]);
      && scan.subspace.center == s.center && scan.subspace.directions == [s.directions[i]]
      && scan.scope == [row] && scan.result.shape == [c] && |scan.result.data| == c
  {
    assert Product([c]) == c;
  }

  /**
   * Sample k of scan i of a collective scan is func at
   * center + (scope[i].0 + linspace offset k) · directions[i].
   */
  lemma LineScanSamples(f: Vec -> real, s: AffineSubspace, i: nat, row: (real, real), c: nat, k: nat)
    requires WellFormed(s) && i < |s.directions| && k < c
    ensures var data := ScanOf(f, Line(s, i), [row], [c]).result.data;
      k < |data| && data[k] == f(Add(s.center, Scale(row.0 + Ramp(row.1 - row.0, c, k), s.directions[i])))
  {
    assert Product([c]) == c;
    assert InShape([k], [c]) && Flatten([k], [c]) == k;
    LinePoint(s, i, row, c, k);
  }

  /** numpy's transpose of a (|m|, cols) matrix. */
  function Transpose(m: seq<Vec>, cols: nat): (t: seq<Vec>)
    requires IsMatrix(m, cols)
    ensures |t| == cols && IsMatrix(t, |m|)
  {
    seq(cols, j requires 0 <= j < cols => Column(m, j))
  }

  /** numpy's dot of an (|a|, |b|) and a (|b|, n) matrix. */
  function MatMul(a: seq<Vec>, b: seq<Vec>, n: nat): (c: seq<Vec>)
    requires IsMatrix(a, |b|) && IsMatrix(b, n)
    ensures |c| == |a| && IsMatrix(c, n)
  {
    seq(|a|, j requires 0 <= j < |a| => seq(n, x requires 0 <= x < n => Dot(a[j], Column(b, x))))
  }

  /**
   * The subspace hessian_scan scans: same center, directions eigenvectors^T · directions.
   * Row j is the combination of the original directions weighted by eigenvector j
   * (column j of the eigenvector matrix), i.e. eigenvector j carried into the ambient domain.
   */
  function Reorient(s: AffineSubspace, eig: seq<Vec>): (t: AffineSubspace)
    requires WellFormed(s) && |eig| == |s.directions| && IsMatrix(eig, |s.directions|)
    ensures WellFormed(t) && t.center == s.center && |t.directions| == |s.directions|
    ensures forall j :: 0 <= j < |t.directions| ==>
      t.directions[j] == Combine(Column(eig, j), s.directions, |s.center|)
  {
    var dNum, n := |s.directions|, |s.center|;
    var dirs := MatMul(Transpose(eig, dNum), s.directions, n);
    assert forall j :: 0 <= j < dNum ==> dirs[j] == Combine(Column(eig, j), s.directions, n) by {
      forall j | 0 <= j < dNum
        ensures dirs[j] == Combine(Column(eig, j), s.directions, n)
      {
        forall x | 0 <= x < n
          ensures dirs[j][x] == Combine(Column(eig, j), s.directions, n)[x]
        {
          CombineAt(Column(eig, j), s.directions, n, x);
          assert s.directions[..dNum] == s.directions;
        }
      }
    }
    AffineSubspace(dirs, s.center)
  }

  /** The identity matrix of size n. */
  function Identity(n: nat): (m: seq<Vec>)
    ensures |m| == n && IsMatrix(m, n)
  {
    seq(n, i requires 0 <= i < n => Unit(n, i))
  }

  lemma IdentityColumn(n: nat, j: nat)
    requires j < n
    ensures Column(Identity(n), j) == Unit(n, j)
  {
    forall r | 0 <= r < n
      ensures Column(Identity(n), j)[r] == Unit(n, j)[r]
    {
      assert Identity(n)[r] == Unit(n, r);
    }
  }

  /** Reorienting by the identity eigenbasis leaves the subspace as it was. */
  lemma ReorientIdentity(s: AffineSubspace)
    requires WellFormed(s)
    ensures Reorient(s, Identity(|s.directions|)) == s
  {
    var dNum, n := |s.directions|, |s.center|;
    var t := Reorient(s, Identity(dNum));
    forall j | 0 <= j < dNum
      ensures t.directions[j] == s.directions[j]
    {
      IdentityColumn(dNum, j);
      CombineUnit(dNum, j, s.directions, n);
    }
    assert t.directions == s.directions;
  }

  /**
   * hessian_scan after the eigen-decomposition: the collective scan of the reoriented
   * subspace with the caller's scope and resolution. eig is the eigenvector matrix
   * (eigenvectors as columns) of the Hessian restricted to the subspace directions.
   */
  method HessianScan(f: Vec -> real, s: AffineSubspace, eig: seq<Vec>, scope: Scope, resolution: Resolution)
    returns (r: Result<ScanCollection, ScanError>, calls: seq<Vec>)
    requires WellFormed(s) && |eig| == |s.directions| && IsMatrix(eig, |s.directions|)
    requires Conforms(scope, resolution, |s.directions|)
    ensures CollectiveOutcome(f, Reorient(s, eig), scope, resolution, r, calls)
    ensures r.Ok? ==> forall j :: 0 <= j < |r.value.scanlist| ==>
      r.value.scanlist[j].subspace == AffineSubspace([Combine(Column(eig, j), s.directions, |s.center|)], s.center)
  {
    r, calls := CollectiveScan(f, Reorient(s, eig), scope, resolution);
  }
}
