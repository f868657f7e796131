/**
 * Placement of the airflow holes: an `np.arange` progression on each axis and the x-major
 * cross product of the two, as in 3d-mesh/airflow.py, create_airflow.py,
 * printing/create_airflow.py and printing/create_airflow_box.py.
 */
module HoleGrid {
  import opened Numeric
  import opened Wrappers

  /** Scaling both sides of a strict inequality by a positive factor. */
  lemma MulLeft(a: real, b: real, c: real)
    requires a < b && c > 0.0
    ensures a * c < b * c
  {
  }

  lemma MulLeftLe(a: real, b: real, c: real)
    requires a <= b && c > 0.0
    ensures a * c <= b * c
  {
  }

  lemma DivMul(a: real, c: real)
    requires c != 0.0
    ensures a / c * c == a
  {
  }

  /**
   * `np.arange(start, stop, step)` in exact arithmetic: `max(0, ceil((stop - start) / step))`
   * values `start + k * step`. A zero step makes numpy raise, which is `None` here.
   */
  function Arange(start: real, stop: real, step: real): (r: Option<seq<real>>)
    ensures r.None? <==> step == 0.0
  {
    if step == 0.0 then None
    else
      var n := Max(0, Ceil((stop - start) / step));
      Some(seq(n, k requires 0 <= k < n => start + k as real * step))
  }

  /** The offsets `k * step` for `0 <= k < d / step` lie in `[0, d)` when the step is positive. */
  lemma RisingOffset(d: real, step: real, k: real)
    requires step > 0.0 && 0.0 <= k < d / step
    ensures 0.0 <= k * step < d
  {
    MulLeft(k, d / step, step);
    MulLeftLe(0.0, k, step);
    DivMul(d, step);
  }

  /** The offset `n * step` reaches `d` once `n >= d / step`, for a positive step. */
  lemma RisingEnd(d: real, step: real, n: real)
    requires step > 0.0 && d / step <= n
    ensures d <= n * step
  {
    MulLeftLe(d / step, n, step);
    DivMul(d, step);
  }

  /** The offsets `k * step` for `0 <= k < d / step` lie in `(d, 0]` when the step is negative. */
  lemma FallingOffset(d: real, step: real, k: real)
    requires step < 0.0 && 0.0 <= k < d / step
    ensures d < k * step <= 0.0
  {
    MulLeft(k, d / step, -step);
    MulLeftLe(0.0, k, -step);
    DivMul(d, step);
  }

  /** The offset `n * step` gets down to `d` once `n >= d / step`, for a negative step. */
  lemma FallingEnd(d: real, step: real, n: real)
    requires step < 0.0 && d / step <= n
    ensures n * step <= d
  {
    MulLeftLe(d / step, n, -step);
    DivMul(d, step);
  }

  /**
   * With a positive step the progression is exactly the values `start + k * step` below `stop`:
   * every listed value is below `stop`, and the next one would not be.
   */
  lemma ArangeRising(start: real, stop: real, step: real)
    requires step > 0.0
    ensures var r := Arange(start, stop, step).value;
      && (forall k :: 0 <= k < |r| ==> start <= r[k] < stop)
      && start + |r| as real * step >= stop
  {
    var r := Arange(start, stop, step).value;
    forall k | 0 <= k < |r|
      ensures start <= r[k] < stop
    {
      RisingOffset(stop - start, step, k as real);
    }
    if |r| == 0 {
      RisingEnd(stop - start, step, 0.0);
    } else {
      RisingEnd(stop - start, step, |r| as real);
    }
  }

  /** With a negative step the progression is the values `start + k * step` above `stop`. */
  lemma ArangeFalling(start: real, stop: real, step: real)
    requires step < 0.0
    ensures var r := Arange(start, stop, step).value;
      && (forall k :: 0 <= k < |r| ==> stop < r[k] <= start)
      && start + |r| as real * step <= stop
  {
    var r := Arange(start, stop, step).value;
    forall k | 0 <= k < |r|
      ensures stop < r[k] <= start
    {
      FallingOffset(stop - start, step, k as real);
    }
    if |r| == 0 {
      FallingEnd(stop - start, step, 0.0);
    } else {
      FallingEnd(stop - start, step, |r| as real);
    }
  }

  /** An empty range gives no values: `stop <= start` with a positive step. */
  lemma ArangeEmpty(start: real, stop: real, step: real)
    requires step > 0.0 && stop <= start
    ensures Arange(start, stop, step) == Some([])
  {
    var q := (stop - start) / step;
    assert q <= 0.0 by {
      DivMul(stop - start, step);
      if q > 0.0 {
        MulLeft(0.0, q, step);
      }
    }
    assert Ceil(q) <= 0;
    assert |Arange(start, stop, step).value| == 0;
  }

  /** A hole position in the plane of the mesh. */
  datatype Point = Point(x: real, y: real)

  /** The holes of one x value: one per y value, in order, shifted by `(dx, dy)`. */
  function Row(x: real, ys: seq<real>, dx: real, dy: real): (r: seq<Point>)
    ensures |r| == |ys|
  {
    seq(|ys|, j requires 0 <= j < |ys| => Point(x + dx, ys[j] + dy))
  }

  /** The x-major cross product of `xs` and `ys`, shifted by `(dx, dy)`. */
  function Grid(xs: seq<real>, ys: seq<real>, dx: real, dy: real): (r: seq<Point>)
    ensures |r| == |xs| * |ys|
  {
    if xs == [] then []
    else Grid(xs[..|xs| - 1], ys, dx, dy) + Row(xs[|xs| - 1], ys, dx, dy)
  }

  lemma RowIndexBound(i: nat, j: nat, n: nat, m: nat)
    requires i < n && j < m
    ensures i * m + j < n * m
  {
    assert i * m + j < (i + 1) * m;
    assert (i + 1) * m <= n * m;
  }

  /** Hole `(i, j)` is at index `i * |ys| + j`: x-major order, every pair exactly once. */
  lemma {:induction false} GridAt(xs: seq<real>, ys: seq<real>, dx: real, dy: real, i: nat, j: nat)
    requires i < |xs| && j < |ys|
    ensures i * |ys| + j < |Grid(xs, ys, dx, dy)|
    ensures Grid(xs, ys, dx, dy)[i * |ys| + j] == Point(xs[i] + dx, ys[j] + dy)
    decreases |xs|
  {
    var init := xs[..|xs| - 1];
    RowIndexBound(i, j, |xs|, |ys|);
    if i < |init| {
      GridAt(init, ys, dx, dy, i, j);
    } else {
      assert |Grid(init, ys, dx, dy)| == i * |ys|;
    }
  }

  /** Every hole lies in the box spanned by the axis values, shifted. */
  lemma {:induction false} GridWithin(xs: seq<real>, ys: seq<real>, dx: real, dy: real, loX: real, hiX: real, loY: real, hiY: real)
    requires forall k :: 0 <= k < |xs| ==> loX <= xs[k] < hiX
    requires forall k :: 0 <= k < |ys| ==> loY <= ys[k] < hiY
    ensures forall p :: p in Grid(xs, ys, dx, dy) ==> loX + dx <= p.x < hiX + dx && loY + dy <= p.y < hiY + dy
    decreases |xs|
  {
    if xs != [] {
      GridWithin(xs[..|xs| - 1], ys, dx, dy, loX, hiX, loY, hiY);
    }
  }

  /** The nested loop that appends one hole per `(x, y)` pair. */
  method GridPositions(xs: seq<real>, ys: seq<real>, dx: real, dy: real) returns (positions: seq<Point>)
    ensures positions == Grid(xs, ys, dx, dy)
  {
    positions := [];
    var i := 0;
    while i < |xs|
      invariant i <= |xs|
      invariant positions == Grid(xs[..i], ys, dx, dy)
    {
      var j := 0;
      while j < |ys|
        invariant j <= |ys|
        invariant positions == Grid(xs[..i], ys, dx, dy) + Row(xs[i], ys[..j], dx, dy)
      {
        assert Row(xs[i], ys[..j + 1], dx, dy) == Row(xs[i], ys[..j], dx, dy) + [Point(xs[i] + dx, ys[j] + dy)];
        positions := positions + [Point(xs[i] + dx, ys[j] + dy)];
        j := j + 1;
      }
      assert ys[..j] == ys;
      assert xs[..i + 1][..i] == xs[..i];
      i := i + 1;
    }
    assert xs[..i] == xs;
  }

  /** The axis values of 3d-mesh/airflow.py: from the spacing, in steps of it, below `dim - spacing`. */
  function CenteredAxis(dim: real, spacing: real): Option<seq<real>>
  {
    Arange(spacing, dim - spacing, spacing)
  }

  /**
   * The hole positions of `create_airflow_mesh` in 3d-mesh/airflow.py, centred on the
   * rectangle (the z of every hole is 0). A zero spacing makes `np.arange` raise.
   */
  method CenteredHolePositions(width: real, length: real, spacing: real) returns (r: Option<seq<Point>>)
    ensures r.None? <==> spacing == 0.0
    ensures r.Some? ==> r.value == Grid(CenteredAxis(width, spacing).value, CenteredAxis(length, spacing).value, -width / 2.0, -length / 2.0)
  {
    var margin := spacing;
    var xPositions := Arange(margin, width - margin, spacing);
    var yPositions := Arange(margin, length - margin, spacing);
    if xPositions.None? || yPositions.None? {
      return None;
    }
    var positions := GridPositions(xPositions.value, yPositions.value, -width / 2.0, -length / 2.0);
    return Some(positions);
  }

  /** No hole fits when the rectangle is at most two spacings wide or long. */
  lemma CenteredNoHoles(width: real, length: real, spacing: real)
    requires spacing > 0.0 && (width <= 2.0 * spacing || length <= 2.0 * spacing)
    ensures Grid(CenteredAxis(width, spacing).value, CenteredAxis(length, spacing).value, -width / 2.0, -length / 2.0) == []
  {
    if width <= 2.0 * spacing {
      ArangeEmpty(spacing, width - spacing, spacing);
    } else {
      ArangeEmpty(spacing, length - spacing, spacing);
    }
  }

  /** Every centred hole is at least one spacing inside each edge: `S - W/2 <= x < W/2 - S`. */
  lemma CenteredHolesInside(width: real, length: real, spacing: real)
    requires spacing > 0.0
    ensures forall p :: p in Grid(CenteredAxis(width, spacing).value, CenteredAxis(length, spacing).value, -width / 2.0, -length / 2.0) ==>
      spacing - width / 2.0 <= p.x < width / 2.0 - spacing && spacing - length / 2.0 <= p.y < length / 2.0 - spacing
  {
    ArangeRising(spacing, width - spacing, spacing);
    ArangeRising(spacing, length - spacing, spacing);
    GridWithin(CenteredAxis(width, spacing).value, CenteredAxis(length, spacing).value, -width / 2.0, -length / 2.0,
      spacing, width - spacing, spacing, length - spacing);
  }

  /**
   * A 20 by 20 rectangle with spacing 5 gets four holes, at -5 and 0 on each axis: the axis
   * values are 5 and 10, since 15 is not below `20 - 5`.
   */
  lemma CenteredExample()
    ensures Grid(CenteredAxis(20.0, 5.0).value, CenteredAxis(20.0, 5.0).value, -10.0, -10.0)
      == [Point(-5.0, -5.0), Point(-5.0, 0.0), Point(0.0, -5.0), Point(0.0, 0.0)]
  {
    var xs := CenteredAxis(20.0, 5.0).value;
    assert Ceil((15.0 - 5.0) / 5.0) == 2;
    assert xs == [5.0, 10.0];
    assert xs[..1] == [5.0];
    assert xs[..1][..0] == [];
  }
}
