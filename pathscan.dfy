/**
 * The path side of the scan engine: the resampling step of pathscan, which turns a
 * path (an ordered sequence of points) into the sequence of points to evaluate under
 * one of four modes: raw, refined, compressed and segmented.
 */
module PathScans {
  import opened Results
  import opened Linear
  import Indexing

  /** A path with the function values along it and the mode that produced it. */
  datatype PathScan = PathScan(result: seq<real>, path: seq<Vec>, mode: string)

  datatype PathError = EmptyPath | InvalidResolution | UnknownMode

  /** p + (q - p) · t: the point a fraction t of the way from p to q. */
  function Lerp(p: Vec, q: Vec, t: real): (v: Vec)
    requires |p| == |q|
    ensures |v| == |p|
  {
    Add(p, Scale(t, Sub(q, p)))
  }

  lemma LerpEnds(p: Vec, q: Vec)
    requires |p| == |q|
    ensures Lerp(p, q, 0.0) == p && Lerp(p, q, 1.0) == q
  {
    assert Lerp(p, q, 0.0) == p;
    assert Lerp(p, q, 1.0) == q;
  }

  // ---------------------------------------------------------------- refined

  /** (l_p - 1) · (resolution + 1) + 1: the size of the refined path buffer. */
  function RefinedLength(lp: nat, resolution: int): int
  {
    (lp - 1) * (resolution + 1) + 1
  }

  /** Entry j of a refined path (any but the last): step j % (res+1) of the res+1 equal steps along segment j / (res+1). */
  function RefinedPoint(path: seq<Vec>, dim: nat, res: nat, j: nat): (v: Vec)
    requires IsMatrix(path, dim) && |path| > 0 && j < (|path| - 1) * (res + 1)
    ensures |v| == dim
  {
    Indexing.DivBound(j, |path| - 1, res + 1);
    var k, i := j / (res + 1), j % (res + 1);
    Lerp(path[k], path[k + 1], (i as real) / ((res + 1) as real))
  }

  /** What the refined mode promises. */
  ghost predicate RefinedOutcome(path: seq<Vec>, dim: nat, resolution: int, r: Result<seq<Vec>, PathError>)
    requires IsMatrix(path, dim)
  {
    && (r.Err? <==> |path| == 0 || RefinedLength(|path|, resolution) <= 0)
    && (r.Err? ==> r.error == (if |path| == 0 then EmptyPath else InvalidResolution))
    && (r.Ok? ==>
          && |r.value| == RefinedLength(|path|, resolution)
          && r.value[|r.value| - 1] == path[|path| - 1]
          && (resolution >= 0 ==>
                forall j :: 0 <= j < |r.value| - 1 ==> r.value[j] == RefinedPoint(path, dim, resolution, j)))
  }

  /**
   * The refined mode: resolution + 1 equal interpolation steps on every segment,
   * written into a preallocated buffer, then the last original point in the last slot.
   */
  method Refine(path: seq<Vec>, dim: nat, resolution: int) returns (r: Result<seq<Vec>, PathError>)
    requires IsMatrix(path, dim)
    ensures RefinedOutcome(path, dim, resolution, r)
  {
    var lp := |path|;
    if lp == 0 {
      return Err(EmptyPath);
    }
    var size := RefinedLength(lp, resolution);
    if size <= 0 {
      return Err(InvalidResolution);
    }
    var scanpath := new Vec[size](_ => Zero(dim));
    FillBlocks(scanpath, path, dim, resolution);
    scanpath[size - 1] := path[lp - 1];
    r := Ok(scanpath[..]);
  }

  /** The first n slots of scanpath hold their refined points. */
  ghost predicate Filled(scanpath: array<Vec>, path: seq<Vec>, dim: nat, resolution: int, n: nat)
    requires IsMatrix(path, dim) && |path| > 0
    reads scanpath
  {
    resolution >= 0 ==>
      forall j :: 0 <= j < n && j < scanpath.Length && j < (|path| - 1) * (resolution + 1) ==>
        scanpath[j] == RefinedPoint(path, dim, resolution, j)
  }

  /** The outer loop of the refined mode: every slot but the last, segment by segment. */
  method FillBlocks(scanpath: array<Vec>, path: seq<Vec>, dim: nat, resolution: int)
    requires IsMatrix(path, dim) && |path| > 0
    requires scanpath.Length == RefinedLength(|path|, resolution) > 0
    modifies scanpath
    ensures resolution >= 0 ==>
      forall j :: 0 <= j < scanpath.Length - 1 ==> scanpath[j] == RefinedPoint(path, dim, resolution, j)
  {
    var lp, width := |path|, resolution + 1;
    assert lp > 1 ==> width >= 0 by {
      Indexing.MulLe(width, -1, lp - 1);
    }
    var step := 0;
    ghost var base := 0;
    while step < lp - 1
      invariant 0 <= step <= lp - 1 && base == step * width
      invariant Filled(scanpath, path, dim, resolution, base)
    {
      assert base + width == (step + 1) * width <= (lp - 1) * width by {
        Indexing.MulLe(step + 1, lp - 1, width);
      }
      FillBlock(scanpath, path, dim, resolution, step, base);
      step := step + 1;
      base := base + width;
    }
    assert base == scanpath.Length - 1;
  }

  /**
   * The inner loop of the refined mode: the resolution + 1 interpolated points of segment
   * step, written from position base = step · (resolution + 1) on.
   */
  method FillBlock(scanpath: array<Vec>, path: seq<Vec>, dim: nat, resolution: int, step: nat, ghost base: nat)
    requires IsMatrix(path, dim) && resolution >= -1 && step + 1 < |path|
    requires base == step * (resolution + 1)
    requires base + (resolution + 1) <= (|path| - 1) * (resolution + 1) < scanpath.Length
    requires Filled(scanpath, path, dim, resolution, base)
    modifies scanpath
    ensures Filled(scanpath, path, dim, resolution, base + (resolution + 1))
    ensures forall j :: base + (resolution + 1) <= j < scanpath.Length ==> scanpath[j] == old(scanpath[j])
  {
    var width := resolution + 1;
    var i := 0;
    while i < width
      invariant 0 <= i <= width
      invariant Filled(scanpath, path, dim, resolution, base + i)
      invariant forall j :: base + i <= j < scanpath.Length ==> scanpath[j] == old(scanpath[j])
    {
      var pos := step * width + i;
      assert pos == base + i;
      assert RefinedPoint(path, dim, resolution, pos) == Lerp(path[step], path[step + 1], (i as real) / (width as real)) by {
        Indexing.DivMod(step, width, i);
      }
      scanpath[pos] := Lerp(path[step], path[step + 1], (i as real) / (width as real));
      i := i + 1;
    }
  }

  /** Refining keeps every original point but the last at the start of its block. */
  lemma RefinedKeepsNodes(path: seq<Vec>, dim: nat, res: nat, k: nat)
    requires IsMatrix(path, dim) && k + 1 < |path|
    ensures k * (res + 1) < (|path| - 1) * (res + 1)
    ensures RefinedPoint(path, dim, res, k * (res + 1)) == path[k]
  {
    Indexing.MulBound(k, |path| - 1, res + 1, 0);
    Indexing.DivMod(k, res + 1, 0);
    LerpEnds(path[k], path[k + 1]);
  }

  /**
   * A refined path holds every original point k at k · (resolution + 1), the last one in
   * the slot the snap fills: the original path is a subsequence of the refined one.
   */
  lemma RefinedKeepsPath(path: seq<Vec>, dim: nat, resolution: nat, r: Result<seq<Vec>, PathError>)
    requires IsMatrix(path, dim) && RefinedOutcome(path, dim, resolution, r) && r.Ok?
    ensures forall k :: 0 <= k < |path| ==>
      k * (resolution + 1) < |r.value| && r.value[k * (resolution + 1)] == path[k]
  {
    forall k | 0 <= k < |path|
      ensures k * (resolution + 1) < |r.value| && r.value[k * (resolution + 1)] == path[k]
    {
      if k + 1 < |path| {
        RefinedKeepsNodes(path, dim, resolution, k);
      }
    }
  }

  // ---------------------------------------------------- shared by the walks

  /** The length of the segment that ends at point m: the norm of path[m - 1] - path[m]. */
  function Hop(path: seq<Vec>, dist: (Vec, Vec) -> real, m: nat): real
    requires 0 < m < |path|
  {
    dist(path[m - 1], path[m])
  }

  /** The length of the path from point a to point b: the sum of its segment lengths. */
  function Arc(path: seq<Vec>, dist: (Vec, Vec) -> real, a: nat, b: nat): real
    requires a <= b < |path|
    decreases b - a
  {
    if a == b then 0.0 else Arc(path, dist, a, b - 1) + Hop(path, dist, b)
  }

  lemma {:induction false} ArcMonotone(path: seq<Vec>, dist: (Vec, Vec) -> real, a: nat, b: nat, c: nat)
    requires a <= b <= c < |path|
    requires forall u, v :: dist(u, v) >= 0.0
    ensures Arc(path, dist, a, b) <= Arc(path, dist, a, c)
    decreases c - b
  {
    if b < c {
      ArcMonotone(path, dist, a, b, c - 1);
    }
  }

  /** The total length of the path, summed segment by segment from the front. */
  method PathLength(path: seq<Vec>, dist: (Vec, Vec) -> real) returns (total: real)
    requires |path| > 0
    ensures total == Arc(path, dist, 0, |path| - 1)
  {
    total := 0.0;
    var id := 0;
    while id < |path| - 1
      invariant 0 <= id <= |path| - 1
      invariant total == Arc(path, dist, 0, id)
    {
      total := total + Hop(path, dist, id + 1);
      id := id + 1;
    }
  }

  /** sel starts at 0 and picks strictly increasing positions below bound. */
  predicate Selection(sel: seq<nat>, bound: nat)
  {
    && |sel| >= 1 && sel[0] == 0
    && (forall j :: 0 <= j < |sel| ==> sel[j] < bound)
    && (forall j :: 0 <= j < |sel| - 1 ==> sel[j] < sel[j + 1])
  }

  /** The points of the path at the selected positions. */
  function Pick(path: seq<Vec>, sel: seq<nat>): (out: seq<Vec>)
    requires forall j :: 0 <= j < |sel| ==> sel[j] < |path|
    ensures |out| == |sel|
  {
    seq(|sel|, j requires 0 <= j < |sel| => path[sel[j]])
  }

  lemma PickSnoc(path: seq<Vec>, sel: seq<nat>, m: nat)
    requires (forall j :: 0 <= j < |sel| ==> sel[j] < |path|) && m < |path|
    ensures Pick(path, sel + [m]) == Pick(path, sel) + [path[m]]
  {
  }

  lemma {:induction false} SelectionGrowth(sel: seq<nat>, bound: nat, i: nat, k: nat)
    requires Selection(sel, bound) && i <= k < |sel|
    ensures sel[k] >= sel[i] + (k - i)
  {
    if i < k {
      SelectionGrowth(sel, bound, i, k - 1);
    }
  }

  /** A selection below bound keeps at most bound positions. */
  lemma SelectionLength(sel: seq<nat>, bound: nat)
    requires Selection(sel, bound)
    ensures |sel| <= bound
  {
    SelectionGrowth(sel, bound, 0, |sel| - 1);
  }

  /** The resampled path keeps its first point and a subsequence of the others. */
  lemma PickIsSubsequence(path: seq<Vec>, sel: seq<nat>)
    requires Selection(sel, |path|)
    ensures var out := Pick(path, sel);
      && 1 <= |out| <= |path| && out[0] == path[0]
      && forall j :: 0 <= j < |out| ==> out[j] == path[sel[j]]
  {
    SelectionLength(sel, |path|);
  }

  // ------------------------------------------------------------- compressed

  /** Every point strictly between a and b is less than stepsize away from a along the path. */
  ghost predicate ShortWalk(path: seq<Vec>, dist: (Vec, Vec) -> real, stepsize: real, a: nat, b: nat)
    requires a <= b <= |path|
  {
    forall m :: a < m < b ==> Arc(path, dist, a, m) < stepsize
  }

  /** b is the first point after a at which the length walked since a reaches stepsize. */
  ghost predicate FirstReach(path: seq<Vec>, dist: (Vec, Vec) -> real, stepsize: real, a: nat, b: nat)
    requires a < b < |path|
  {
    Arc(path, dist, a, b) >= stepsize && ShortWalk(path, dist, stepsize, a, b)
  }

  /** Each kept point is the first reach of stepsize from the one kept before it. */
  ghost predicate Reaching(path: seq<Vec>, dist: (Vec, Vec) -> real, stepsize: real, sel: seq<nat>)
    requires Selection(sel, |path|)
  {
    forall j :: 0 <= j < |sel| - 1 ==> FirstReach(path, dist, stepsize, sel[j], sel[j + 1])
  }

  /** What the compressed mode promises, with sel the positions it keeps. */
  ghost predicate CompressedOutcome(path: seq<Vec>, dist: (Vec, Vec) -> real, stepsize: real,
                                    r: Result<seq<Vec>, PathError>, sel: seq<nat>)
  {
    && (r.Err? <==> |path| == 0)
    && (r.Err? ==> r.error == EmptyPath)
    && (r.Ok? ==>
          && Selection(sel, |path|) && r.value == Pick(path, sel) && |r.value| <= |path|
          && Reaching(path, dist, stepsize, sel)
          && ShortWalk(path, dist, stepsize, sel[|sel| - 1], |path|))
  }

  /** The compressed walk before point cp: sel kept so far, acc walked since the last of them. */
  ghost predicate CompressState(path: seq<Vec>, dist: (Vec, Vec) -> real, stepsize: real,
                                sel: seq<nat>, cp: nat, acc: real)
  {
    && 0 < cp <= |path| && Selection(sel, cp)
    && Reaching(path, dist, stepsize, sel)
    && acc == Arc(path, dist, sel[|sel| - 1], cp - 1)
    && ShortWalk(path, dist, stepsize, sel[|sel| - 1], cp)
  }

  lemma CompressKeep(path: seq<Vec>, dist: (Vec, Vec) -> real, stepsize: real, sel: seq<nat>, cp: nat, acc: real)
    requires CompressState(path, dist, stepsize, sel, cp, acc) && cp < |path|
    requires acc + Hop(path, dist, cp) >= stepsize
    ensures CompressState(path, dist, stepsize, sel + [cp], cp + 1, 0.0)
  {
    var sel' := sel + [cp];
    assert FirstReach(path, dist, stepsize, sel[|sel| - 1], cp);
    assert forall j :: 0 <= j < |sel| ==> sel'[j] == sel[j];
  }

  lemma CompressSkip(path: seq<Vec>, dist: (Vec, Vec) -> real, stepsize: real, sel: seq<nat>, cp: nat, acc: real)
    requires CompressState(path, dist, stepsize, sel, cp, acc) && cp < |path|
    requires acc + Hop(path, dist, cp) < stepsize
    ensures CompressState(path, dist, stepsize, sel, cp + 1, acc + Hop(path, dist, cp))
  {
    assert Arc(path, dist, sel[|sel| - 1], cp) == acc + Hop(path, dist, cp);
  }

  /**
   * The compressed mode: keep the first point, then walk the path summing segment
   * lengths and keep a point as soon as the sum reaches stepsize, resetting it to 0.
   */
  method Compress(path: seq<Vec>, dim: nat, dist: (Vec, Vec) -> real, stepsize: real)
    returns (r: Result<seq<Vec>, PathError>, ghost sel: seq<nat>)
    requires IsMatrix(path, dim)
    ensures CompressedOutcome(path, dist, stepsize, r, sel)
  {
    var lp := |path|;
    if lp == 0 {
      return Err(EmptyPath), [];
    }
    var scanpath := new Vec[lp](_ => Zero(dim));
    scanpath[0] := path[0];
    var cp, csp := 1, 1;
    var acc := 0.0;
    sel := [0];
    while cp < lp
      invariant CompressState(path, dist, stepsize, sel, cp, acc)
      invariant |sel| == csp <= cp
      invariant scanpath[..csp] == Pick(path, sel)
    {
      ghost var walked := acc;
      acc := acc + Hop(path, dist, cp);
      if acc >= stepsize {
        CompressKeep(path, dist, stepsize, sel, cp, walked);
        scanpath[csp] := path[cp];
        PickSnoc(path, sel, cp);
        sel := sel + [cp];
        cp, csp := cp + 1, csp + 1;
        acc := 0.0;
      } else {
        CompressSkip(path, dist, stepsize, sel, cp, walked);
        cp := cp + 1;
      }
    }
    SelectionLength(sel, lp);
    r := Ok(scanpath[..csp]);
  }

  // -------------------------------------------------------------- segmented

  /** The segment that ends at point m is at least stepsize long. */
  ghost predicate Long(path: seq<Vec>, dist: (Vec, Vec) -> real, stepsize: real, m: nat)
    requires 0 < m < |path|
  {
    Hop(path, dist, m) >= stepsize
  }

  /** No segment ending strictly between a and b is at least stepsize long. */
  ghost predicate NoLong(path: seq<Vec>, dist: (Vec, Vec) -> real, stepsize: real, a: nat, b: nat)
    requires a <= b <= |path|
  {
    forall m :: a < m < b ==> !Long(path, dist, stepsize, m)
  }

  /** b is the first point after a whose own incoming segment is at least stepsize long. */
  ghost predicate FirstLong(path: seq<Vec>, dist: (Vec, Vec) -> real, stepsize: real, a: nat, b: nat)
    requires a < b < |path|
  {
    Long(path, dist, stepsize, b) && NoLong(path, dist, stepsize, a, b)
  }

  /**
   * Kept points alternate: after a kept point at an even position of sel comes the
   * first point whose incoming segment is long, after one at an odd position the next point.
   */
  ghost predicate Alternating(path: seq<Vec>, dist: (Vec, Vec) -> real, stepsize: real, sel: seq<nat>)
    requires Selection(sel, |path|)
  {
    forall j :: 0 <= j < |sel| - 1 ==>
      if j % 2 == 0 then FirstLong(path, dist, stepsize, sel[j], sel[j + 1]) else sel[j + 1] == sel[j] + 1
  }

  /** total path length / (resolution - 1): the step the segmented mode derives. */
  function SegmentStep(path: seq<Vec>, dist: (Vec, Vec) -> real, resolution: int): real
    requires |path| > 0 && resolution != 1
  {
    Arc(path, dist, 0, |path| - 1) / ((resolution - 1) as real)
  }

  /**
   * The points the segmented mode keeps, as its loop is written: the accumulator only
   * ever holds 0 or stepsize, so which points are kept depends on single segment lengths.
   */
  ghost predicate SegmentedSelection(path: seq<Vec>, dist: (Vec, Vec) -> real, stepsize: real, sel: seq<nat>)
  {
    && Selection(sel, |path|)
    && Alternating(path, dist, stepsize, sel)
    && (if (|sel| - 1) % 2 == 0
        then NoLong(path, dist, stepsize, sel[|sel| - 1], |path|)
        else sel[|sel| - 1] == |path| - 1)
  }

  /**
   * The segmented mode fails: an empty path has no first point, and with resolution 1 and
   * at most one point the total length is still the integer 0, so dividing it by 0 raises.
   */
  predicate StepUndefined(path: seq<Vec>, resolution: int)
  {
    |path| == 0 || (resolution == 1 && |path| == 1)
  }

  /** What the segmented mode promises, with sel the positions it keeps. */
  ghost predicate SegmentedOutcome(path: seq<Vec>, dist: (Vec, Vec) -> real, resolution: int,
                                   r: Result<seq<Vec>, PathError>, sel: seq<nat>)
  {
    && (r.Err? <==> StepUndefined(path, resolution))
    && (r.Err? ==> r.error == (if resolution == 1 then InvalidResolution else EmptyPath))
    && (r.Ok? ==> Selection(sel, |path|) && r.value == Pick(path, sel) && |r.value| <= |path|)
    && (r.Ok? && resolution == 1 ==> sel == [0])
    && (r.Ok? && resolution != 1 ==> SegmentedSelection(path, dist, SegmentStep(path, dist, resolution), sel))
  }

  /** The segmented walk before point cp: sel kept so far, acc the accumulator. */
  ghost predicate SegmentState(path: seq<Vec>, dist: (Vec, Vec) -> real, stepsize: real,
                               sel: seq<nat>, cp: nat, acc: real)
  {
    && 0 < cp <= |path| && Selection(sel, cp)
    && Alternating(path, dist, stepsize, sel)
    && (if (|sel| - 1) % 2 == 0
        then acc == 0.0 && NoLong(path, dist, stepsize, sel[|sel| - 1], cp)
        else acc == stepsize && cp == sel[|sel| - 1] + 1)
  }

  lemma SegmentKeep(path: seq<Vec>, dist: (Vec, Vec) -> real, stepsize: real, sel: seq<nat>, cp: nat, acc: real)
    requires SegmentState(path, dist, stepsize, sel, cp, acc) && cp < |path|
    requires acc + Hop(path, dist, cp) >= stepsize
    ensures SegmentState(path, dist, stepsize, sel + [cp], cp + 1, stepsize - acc)
  {
    var sel' := sel + [cp];
    assert forall j :: 0 <= j < |sel| ==> sel'[j] == sel[j];
  }

  lemma SegmentSkip(path: seq<Vec>, dist: (Vec, Vec) -> real, stepsize: real, sel: seq<nat>, cp: nat, acc: real)
    requires SegmentState(path, dist, stepsize, sel, cp, acc) && cp < |path|
    requires acc + Hop(path, dist, cp) < stepsize && Hop(path, dist, cp) >= 0.0
    ensures SegmentState(path, dist, stepsize, sel, cp + 1, acc)
  {
  }

  /**
   * The segmented mode as written: stepsize = total length / (resolution - 1), then the
   * walk of SegmentWalk.
   */
  method Segment(path: seq<Vec>, dim: nat, dist: (Vec, Vec) -> real, resolution: int)
    returns (r: Result<seq<Vec>, PathError>, ghost sel: seq<nat>)
    requires IsMatrix(path, dim)
    requires forall u, v :: dist(u, v) >= 0.0
    ensures SegmentedOutcome(path, dist, resolution, r, sel)
  {
    if StepUndefined(path, resolution) {
      return Err(if resolution == 1 then InvalidResolution else EmptyPath), [];
    }
    if resolution == 1 {
      // a float length divided by 0 is inf or nan, which no acc_path + segment reaches
      return Ok([path[0]]), [0];
    }
    var total := PathLength(path, dist);
    var stepsize := total / ((resolution - 1) as real);
    var out;
    out, sel := SegmentWalk(path, dim, dist, stepsize);
    r := Ok(out);
  }

  /**
   * The walk of the segmented mode as written: a point is kept when acc_path plus its
   * incoming segment reaches stepsize, and acc_path then becomes stepsize - acc_path;
   * a point that is not kept leaves acc_path unchanged.
   */
  method SegmentWalk(path: seq<Vec>, dim: nat, dist: (Vec, Vec) -> real, stepsize: real)
    returns (out: seq<Vec>, ghost sel: seq<nat>)
    requires IsMatrix(path, dim) && |path| > 0
    requires forall u, v :: dist(u, v) >= 0.0
    ensures SegmentedSelection(path, dist, stepsize, sel) && out == Pick(path, sel) && |out| <= |path|
  {
    var lp := |path|;
    var scanpath := new Vec[lp](_ => Zero(dim));
    scanpath[0] := path[0];
    var cp, csp := 1, 1;
    var acc := 0.0;
    sel := [0];
    while cp < lp
      invariant SegmentState(path, dist, stepsize, sel, cp, acc)
      invariant |sel| == csp <= cp
      invariant scanpath[..csp] == Pick(path, sel)
    {
      if acc + Hop(path, dist, cp) >= stepsize {
        SegmentKeep(path, dist, stepsize, sel, cp, acc);
        var reststep := stepsize - acc;
        scanpath[csp] := path[cp];
        PickSnoc(path, sel, cp);
        sel := sel + [cp];
        cp, csp := cp + 1, csp + 1;
        acc := reststep;
      } else {
        SegmentSkip(path, dist, stepsize, sel, cp, acc);
        cp := cp + 1;
      }
    }
    SelectionLength(sel, lp);
    out := scanpath[..csp];
  }

  /** level · stepsize, as the sum of level copies of stepsize. */
  function Multiple(level: nat, stepsize: real): real
  {
    if level == 0 then 0.0 else Multiple(level - 1, stepsize) + stepsize
  }

  lemma {:induction false} MultipleIsProduct(level: nat, stepsize: real)
    ensures Multiple(level, stepsize) == (level as real) * stepsize
  {
    if level > 0 {
      MultipleIsProduct(level - 1, stepsize);
    }
  }

  /** Every point strictly between a and b lies less than level · stepsize from the start. */
  ghost predicate BelowLevel(path: seq<Vec>, dist: (Vec, Vec) -> real, stepsize: real, level: nat, a: nat, b: nat)
    requires a <= b <= |path|
  {
    forall m :: a < m < b ==> Arc(path, dist, 0, m) < Multiple(level, stepsize)
  }

  /** b is the first point after a at least level · stepsize from the start of the path. */
  ghost predicate FirstPast(path: seq<Vec>, dist: (Vec, Vec) -> real, stepsize: real, level: nat, a: nat, b: nat)
    requires a < b < |path|
  {
    Arc(path, dist, 0, b) >= Multiple(level, stepsize) && BelowLevel(path, dist, stepsize, level, a, b)
  }

  /** The kept point at position j + 1 of sel is the first to pass (j + 1) · stepsize. */
  ghost predicate Passing(path: seq<Vec>, dist: (Vec, Vec) -> real, stepsize: real, sel: seq<nat>)
    requires Selection(sel, |path|)
  {
    forall j :: 0 <= j < |sel| - 1 ==> FirstPast(path, dist, stepsize, j + 1, sel[j], sel[j + 1])
  }

  /**
   * The points the segmented mode evidently means to keep: the j-th kept point (j >= 1)
   * is the first point after the previous one whose length from the start of the path
   * reaches j · stepsize.
   */
  ghost predicate CarrySelection(path: seq<Vec>, dist: (Vec, Vec) -> real, stepsize: real, sel: seq<nat>)
  {
    && Selection(sel, |path|)
    && Passing(path, dist, stepsize, sel)
    && BelowLevel(path, dist, stepsize, |sel|, sel[|sel| - 1], |path|)
  }

  /** What the segmented mode with the accumulator carried promises, with sel the positions it keeps. */
  ghost predicate CarriedOutcome(path: seq<Vec>, dist: (Vec, Vec) -> real, resolution: int,
                                 r: Result<seq<Vec>, PathError>, sel: seq<nat>)
  {
    && (r.Err? <==> StepUndefined(path, resolution))
    && (r.Err? ==> r.error == (if resolution == 1 then InvalidResolution else EmptyPath))
    && (r.Ok? ==> Selection(sel, |path|) && r.value == Pick(path, sel) && |r.value| <= |path|)
    && (r.Ok? && resolution == 1 ==> sel == [0])
    && (r.Ok? && resolution != 1 ==> CarrySelection(path, dist, SegmentStep(path, dist, resolution), sel))
  }

  /** The carried walk before point cp: sel kept so far, acc the length past the last level reached. */
  ghost predicate CarryState(path: seq<Vec>, dist: (Vec, Vec) -> real, stepsize: real,
                             sel: seq<nat>, cp: nat, acc: real)
  {
    && 0 < cp <= |path| && Selection(sel, cp)
    && Passing(path, dist, stepsize, sel)
    && acc == Arc(path, dist, 0, cp - 1) - Multiple(|sel| - 1, stepsize)
    && BelowLevel(path, dist, stepsize, |sel|, sel[|sel| - 1], cp)
  }

  lemma CarryKeep(path: seq<Vec>, dist: (Vec, Vec) -> real, stepsize: real, sel: seq<nat>, cp: nat, acc: real)
    requires CarryState(path, dist, stepsize, sel, cp, acc) && cp < |path|
    requires acc + Hop(path, dist, cp) >= stepsize
    ensures CarryState(path, dist, stepsize, sel + [cp], cp + 1, acc + Hop(path, dist, cp) - stepsize)
  {
    var sel' := sel + [cp];
    assert Arc(path, dist, 0, cp) == Arc(path, dist, 0, cp - 1) + Hop(path, dist, cp);
    assert Multiple(|sel|, stepsize) == Multiple(|sel| - 1, stepsize) + stepsize;
    assert FirstPast(path, dist, stepsize, |sel|, sel[|sel| - 1], cp);
    assert forall j :: 0 <= j < |sel| ==> sel'[j] == sel[j];
  }

  lemma CarrySkip(path: seq<Vec>, dist: (Vec, Vec) -> real, stepsize: real, sel: seq<nat>, cp: nat, acc: real)
    requires CarryState(path, dist, stepsize, sel, cp, acc) && cp < |path|
    requires acc + Hop(path, dist, cp) < stepsize
    ensures CarryState(path, dist, stepsize, sel, cp + 1, acc + Hop(path, dist, cp))
  {
    assert Arc(path, dist, 0, cp) == Arc(path, dist, 0, cp - 1) + Hop(path, dist, cp);
    assert Multiple(|sel|, stepsize) == Multiple(|sel| - 1, stepsize) + stepsize;
  }

  /**
   * The segmented mode with the accumulator carried: a point that is not kept adds its
   * segment to acc_path, and a kept point leaves the overshoot acc_path + segment - stepsize.
   */
  method SegmentCarry(path: seq<Vec>, dim: nat, dist: (Vec, Vec) -> real, resolution: int)
    returns (r: Result<seq<Vec>, PathError>, ghost sel: seq<nat>)
    requires IsMatrix(path, dim)
    ensures CarriedOutcome(path, dist, resolution, r, sel)
  {
    if StepUndefined(path, resolution) {
      return Err(if resolution == 1 then InvalidResolution else EmptyPath), [];
    }
    if resolution == 1 {
      // a float length divided by 0 is inf or nan, which no acc_path + segment reaches
      return Ok([path[0]]), [0];
    }
    var total := PathLength(path, dist);
    var stepsize := total / ((resolution - 1) as real);
    var out;
    out, sel := CarryWalk(path, dim, dist, stepsize);
    r := Ok(out);
  }

  /** The walk of the carried segmented mode, for a given stepsize. */
  method CarryWalk(path: seq<Vec>, dim: nat, dist: (Vec, Vec) -> real, stepsize: real)
    returns (out: seq<Vec>, ghost sel: seq<nat>)
    requires IsMatrix(path, dim) && |path| > 0
    ensures CarrySelection(path, dist, stepsize, sel) && out == Pick(path, sel) && |out| <= |path|
  {
    var lp := |path|;
    var scanpath := new Vec[lp](_ => Zero(dim));
    scanpath[0] := path[0];
    var cp, csp := 1, 1;
    var acc := 0.0;
    sel := [0];
    while cp < lp
      invariant CarryState(path, dist, stepsize, sel, cp, acc)
      invariant |sel| == csp <= cp
      invariant scanpath[..csp] == Pick(path, sel)
    {
      var segment := Hop(path, dist, cp);
      if acc + segment >= stepsize {
        CarryKeep(path, dist, stepsize, sel, cp, acc);
        scanpath[csp] := path[cp];
        PickSnoc(path, sel, cp);
        sel := sel + [cp];
        cp, csp := cp + 1, csp + 1;
        acc := acc + segment - stepsize;
      } else {
        CarrySkip(path, dist, stepsize, sel, cp, acc);
        cp := cp + 1;
        acc := acc + segment;
      }
    }
    SelectionLength(sel, lp);
    out := scanpath[..csp];
  }

  lemma SignOfFactor(a: real, s: real)
    requires s > 0.0 && a * s >= 0.0
    ensures a >= 0.0
  {
  }

  /** If level steps of total / r fit into total, then level is at most r. */
  lemma LevelBound(level: nat, r: real, total: real, step: real)
    requires r > 0.0 && total > 0.0 && step == total / r
    requires Multiple(level, step) <= total
    ensures level as real <= r
  {
    MultipleIsProduct(level, step);
    assert Multiple(level, step) == (level as real) * step;
    assert r * step == total;
    assert step > 0.0;
    assert (r - level as real) * step >= 0.0;
    SignOfFactor(r - level as real, step);
  }

  /** The last point the carried mode keeps lies at least (|sel| - 1) · stepsize from the start. */
  lemma CarryLastKeptLevel(path: seq<Vec>, dist: (Vec, Vec) -> real, stepsize: real, sel: seq<nat>)
    requires CarrySelection(path, dist, stepsize, sel)
    ensures Arc(path, dist, 0, sel[|sel| - 1]) >= Multiple(|sel| - 1, stepsize)
  {
    if |sel| >= 2 {
      var j := |sel| - 2;
      assert FirstPast(path, dist, stepsize, j + 1, sel[j], sel[j + 1]);
    }
  }

  /** With a positive total length, the carried segmented mode keeps at most resolution points. */
  lemma CarryKeepsAtMostResolution(path: seq<Vec>, dist: (Vec, Vec) -> real, resolution: int, sel: seq<nat>)
    requires |path| > 0 && resolution >= 2
    requires forall u, v :: dist(u, v) >= 0.0
    requires Arc(path, dist, 0, |path| - 1) > 0.0
    requires CarrySelection(path, dist, SegmentStep(path, dist, resolution), sel)
    ensures |sel| <= resolution
  {
    var stepsize := SegmentStep(path, dist, resolution);
    var total := Arc(path, dist, 0, |path| - 1);
    CarryLastKeptLevel(path, dist, stepsize, sel);
    ArcMonotone(path, dist, 0, sel[|sel| - 1], |path| - 1);
    LevelBound(|sel| - 1, (resolution - 1) as real, total, stepsize);
  }

  lemma {:induction false} MultipleMono(a: nat, b: nat, stepsize: real)
    requires a <= b && stepsize >= 0.0
    ensures Multiple(a, stepsize) <= Multiple(b, stepsize)
    decreases b - a
  {
    if a < b {
      MultipleMono(a, b - 1, stepsize);
    }
  }

  /** r steps of total / r make up total. */
  lemma FullLevel(r: nat, total: real)
    requires r > 0
    ensures Multiple(r, total / (r as real)) == total
  {
    MultipleIsProduct(r, total / (r as real));
  }

  /** The derived step is not negative when the path length is not. */
  lemma SegmentStepNonneg(path: seq<Vec>, dist: (Vec, Vec) -> real, resolution: int)
    requires |path| > 0 && resolution >= 2 && Arc(path, dist, 0, |path| - 1) >= 0.0
    ensures SegmentStep(path, dist, resolution) >= 0.0
  {
  }

  /** A carried selection whose next level lies within the path ends at the last point. */
  lemma CarryEndsAtLast(path: seq<Vec>, dist: (Vec, Vec) -> real, stepsize: real, sel: seq<nat>)
    requires CarrySelection(path, dist, stepsize, sel)
    requires Arc(path, dist, 0, |path| - 1) >= Multiple(|sel|, stepsize)
    ensures sel[|sel| - 1] == |path| - 1
  {
  }

  /** When level steps make up the whole length, the last kept point lies at the full length. */
  lemma CarryReachesLevel(path: seq<Vec>, dist: (Vec, Vec) -> real, stepsize: real, level: nat, sel: seq<nat>)
    requires CarrySelection(path, dist, stepsize, sel) && stepsize >= 0.0
    requires forall u, v :: dist(u, v) >= 0.0
    requires Multiple(level, stepsize) == Arc(path, dist, 0, |path| - 1)
    ensures Arc(path, dist, 0, sel[|sel| - 1]) == Arc(path, dist, 0, |path| - 1)
  {
    var last := sel[|sel| - 1];
    if |sel| > level {
      assert Arc(path, dist, 0, last) >= Arc(path, dist, 0, |path| - 1) by {
        CarryLastKeptLevel(path, dist, stepsize, sel);
        MultipleMono(level, |sel| - 1, stepsize);
      }
      ArcMonotone(path, dist, 0, last, |path| - 1);
    } else {
      assert last == |path| - 1 by {
        MultipleMono(|sel|, level, stepsize);
        CarryEndsAtLast(path, dist, stepsize, sel);
      }
    }
  }

  /**
   * With the accumulator carried, the last point kept lies at the full length of the
   * path: the samples run from the start of the path to its end.
   */
  lemma CarryReachesEnd(path: seq<Vec>, dist: (Vec, Vec) -> real, resolution: int, sel: seq<nat>)
    requires |path| > 0 && resolution >= 2
    requires forall u, v :: dist(u, v) >= 0.0
    requires CarrySelection(path, dist, SegmentStep(path, dist, resolution), sel)
    ensures Arc(path, dist, 0, sel[|sel| - 1]) == Arc(path, dist, 0, |path| - 1)
  {
    var total := Arc(path, dist, 0, |path| - 1);
    ArcMonotone(path, dist, 0, 0, |path| - 1);
    SegmentStepNonneg(path, dist, resolution);
    FullLevel(resolution - 1, total);
    CarryReachesLevel(path, dist, SegmentStep(path, dist, resolution), resolution - 1, sel);
  }

  // ---------------------------------------------------------------- pathscan

  /**
   * The resampling step of pathscan: raw keeps the path, the three other modes build a
   * new point sequence, and a mode name outside the four leaves no result. The segmented
   * mode is the loop as written (Segment); SegmentCarry is its corrected form.
   */
  method Resample(path: seq<Vec>, dim: nat, mode: string, resolution: int, stepsize: real, dist: (Vec, Vec) -> real)
    returns (r: Result<seq<Vec>, PathError>, ghost sel: seq<nat>)
    requires IsMatrix(path, dim)
    requires forall u, v :: dist(u, v) >= 0.0
    ensures mode == "raw" ==> r == Ok(path)
    ensures mode == "refined" ==> RefinedOutcome(path, dim, resolution, r)
    ensures mode == "compressed" ==> CompressedOutcome(path, dist, stepsize, r, sel)
    ensures mode == "segmented" ==> SegmentedOutcome(path, dist, resolution, r, sel)
    ensures mode !in {"raw", "refined", "compressed", "segmented"} ==> r == Err(UnknownMode)
  {
    sel := [];
    if mode == "raw" {
      r := Ok(path);
    } else if mode == "refined" {
      r := Refine(path, dim, resolution);
    } else if mode == "compressed" {
      r, sel := Compress(path, dim, dist, stepsize);
    } else if mode == "segmented" {
      r, sel := Segment(path, dim, dist, resolution);
    } else {
      r := Err(UnknownMode);
    }
  }

  // --------------------------------------- the segmented mode on a fine path

  /** Five collinear points one unit apart: a straight path of length 4. */
  function FinePath(): (path: seq<Vec>)
    ensures IsMatrix(path, 1)
  {
    [[0.0], [1.0], [2.0], [3.0], [4.0]]
  }

  /** The Euclidean distance on the line. */
  function LineDistance(u: Vec, v: Vec): (d: real)
    ensures d >= 0.0
  {
    if |u| == 1 && |v| == 1 then (if u[0] <= v[0] then v[0] - u[0] else u[0] - v[0]) else 0.0
  }

  lemma FinePathLengths()
    ensures forall m :: 0 <= m < 5 ==> Arc(FinePath(), LineDistance, 0, m) == m as real
    ensures SegmentStep(FinePath(), LineDistance, 3) == 2.0
  {
    var p := FinePath();
    assert Arc(p, LineDistance, 0, 1) == 1.0;
    assert Arc(p, LineDistance, 0, 2) == 2.0;
    assert Arc(p, LineDistance, 0, 3) == 3.0;
    assert Arc(p, LineDistance, 0, 4) == 4.0;
  }

  /** As written, the first point kept after the start always ends a segment at least stepsize long. */
  lemma SegmentedFirstKeptIsLong(path: seq<Vec>, dist: (Vec, Vec) -> real, stepsize: real, sel: seq<nat>)
    requires SegmentedSelection(path, dist, stepsize, sel)
    ensures |sel| >= 2 ==> Long(path, dist, stepsize, sel[1])
  {
  }

  /** So a path none of whose segments is at least stepsize long yields its first point only. */
  lemma SegmentedStallsWithoutLongSegments(path: seq<Vec>, dist: (Vec, Vec) -> real, stepsize: real, sel: seq<nat>)
    requires SegmentedSelection(path, dist, stepsize, sel)
    requires NoLong(path, dist, stepsize, 0, |path|)
    ensures sel == [0]
  {
    SegmentedFirstKeptIsLong(path, dist, stepsize, sel);
  }

  /**
   * As written, the segmented mode with resolution 3 keeps only the first point of the
   * fine path: no single segment reaches the step of 2 and the accumulator never grows.
   */
  lemma SegmentedStallsOnFinePath(sel: seq<nat>)
    requires SegmentedSelection(FinePath(), LineDistance, SegmentStep(FinePath(), LineDistance, 3), sel)
    ensures sel == [0]
  {
    FinePathLengths();
    var p := FinePath();
    assert NoLong(p, LineDistance, 2.0, 0, |p|);
    SegmentedStallsWithoutLongSegments(p, LineDistance, 2.0, sel);
  }

  /** With the accumulator carried, the same call keeps the points at lengths 0, 2 and 4. */
  lemma CarryOnFinePath(sel: seq<nat>)
    requires CarrySelection(FinePath(), LineDistance, SegmentStep(FinePath(), LineDistance, 3), sel)
    ensures sel == [0, 2, 4]
  {
    FinePathLengths();
    var p := FinePath();
    assert Multiple(1, 2.0) == 2.0 && Multiple(2, 2.0) == 4.0 && Multiple(3, 2.0) == 6.0;
    assert Arc(p, LineDistance, 0, 2) == 2.0 && Arc(p, LineDistance, 0, 4) == 4.0;
    assert |sel| >= 2;
    assert sel[1] == 2;
    assert |sel| >= 3;
    assert sel[2] == 4;
    SelectionGrowth(sel, |p|, 2, |sel| - 1);
  }
}
