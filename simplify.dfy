/**
 * The targets model-manipulation/simplifyModel.py computes from a mesh's vertex count. Both
 * functions reject a percentage outside `(0, 1]` before loading anything; the quadric path then
 * rejects an empty mesh and computes the target `max(2, int(n * p))`, while the clustering path
 * computes the unclamped target `int(n * p)`. What open3d keeps for a given target is its own. A mesh is represented by its vertex count; open3d's loading,
 * decimation and clustering and the voxel-size formula are not modelled.
 */
module Simplify {
  import opened Numeric
  import opened Wrappers

  const PercentageError: string := "Percentage must be between 0 and 1 (exclusive)."

  /** `0 < percentage <= 1`. */
  predicate ValidPercentage(p: real)
  {
    0.0 < p <= 1.0
  }

  /**
   * `simplify_mesh_with_open3d` up to the decimation call: the error raised, or the target
   * vertex count. `vertexCount` is the loaded mesh's, read only after the percentage check.
   */
  function QuadricTarget(meshUrl: string, p: real, vertexCount: nat): (r: Result<int, string>)
    ensures !ValidPercentage(p) ==> r == Err(PercentageError)
    ensures ValidPercentage(p) && vertexCount == 0 ==> r == Err("Failed to load mesh from " + meshUrl)
    ensures r.Ok? <==> ValidPercentage(p) && vertexCount > 0
    ensures r.Ok? ==> r.value >= 2 && r.value >= Trunc(vertexCount as real * p)
    ensures r.Ok? && Trunc(vertexCount as real * p) >= 2 ==> r.value == Trunc(vertexCount as real * p)
  {
    if !ValidPercentage(p) then Err(PercentageError)
    else if vertexCount == 0 then Err("Failed to load mesh from " + meshUrl)
    else Ok(Max(2, Trunc(vertexCount as real * p)))
  }

  /** The quadric target never exceeds the vertex count, except that it is always at least 2. */
  lemma QuadricTargetBounded(meshUrl: string, p: real, vertexCount: nat)
    requires QuadricTarget(meshUrl, p, vertexCount).Ok?
    ensures QuadricTarget(meshUrl, p, vertexCount).value <= Max(2, vertexCount)
  {
    assert vertexCount as real * p <= vertexCount as real;
    TruncMonotone(vertexCount as real * p, vertexCount as real);
  }

  lemma NonNegativeProduct(a: real, b: real)
    requires a >= 0.0 && b >= 0.0
    ensures a * b >= 0.0
  {
  }

  /** A higher percentage never gives a smaller target. */
  lemma QuadricTargetMonotone(meshUrl: string, p: real, q: real, vertexCount: nat)
    requires QuadricTarget(meshUrl, p, vertexCount).Ok? && QuadricTarget(meshUrl, q, vertexCount).Ok?
    requires p <= q
    ensures QuadricTarget(meshUrl, p, vertexCount).value <= QuadricTarget(meshUrl, q, vertexCount).value
  {
    var n := vertexCount as real;
    assert n * q - n * p == n * (q - p);
    NonNegativeProduct(n, q - p);
    TruncMonotone(vertexCount as real * p, vertexCount as real * q);
  }

  /** With a full percentage the target is the vertex count itself, for a mesh with at least two. */
  lemma QuadricFullTargetIsVertexCount(meshUrl: string, vertexCount: nat)
    requires vertexCount >= 2
    ensures QuadricTarget(meshUrl, 1.0, vertexCount) == Ok(vertexCount)
  {
  }

  /**
   * `simplify_mesh_with_vertex_clustering` up to the voxel size: the error raised, or the
   * target vertex count, which nothing clamps.
   */
  function ClusteringTarget(p: real, vertexCount: nat): (r: Result<int, string>)
    ensures r.Ok? <==> ValidPercentage(p)
    ensures r.Err? ==> r.error == PercentageError
    ensures r.Ok? ==> 0 <= r.value <= vertexCount
    ensures r.Ok? ==> (r.value > 0 <==> vertexCount as real * p >= 1.0)
  {
    if !ValidPercentage(p) then Err(PercentageError)
    else
      var target := Trunc(vertexCount as real * p);
      assert vertexCount as real * p <= vertexCount as real;
      TruncMonotone(vertexCount as real * p, vertexCount as real);
      Ok(target)
  }

  /** The clustering target can be 0, so the voxel size `diagonal / 0 ** (1/3)` divides by zero. */
  lemma ClusteringTargetCanBeZero()
    ensures ClusteringTarget(0.5, 1) == Ok(0)
    ensures ClusteringTarget(0.98, 0) == Ok(0)
  {
  }

  /** Where the quadric path refuses an empty mesh, the clustering path goes on with a 0 target. */
  lemma EmptyMeshPaths(meshUrl: string, p: real)
    requires ValidPercentage(p)
    ensures QuadricTarget(meshUrl, p, 0).Err?
    ensures ClusteringTarget(p, 0) == Ok(0)
  {
  }
}
