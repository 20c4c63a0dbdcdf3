/**
 * The displacement pass: `PositionUpdateJob` and its `Execute`, which gives
 * every cube of the field its position for the current viewpoint offset.
 */
module Displacement {
  import opened Grid
  import opened HeightField

  /** A `Vector3`; single-precision rounding is not modelled. */
  datatype Vec3 = Vec3(x: real, y: real, z: real)

  /** A cube's `Transform`: the one piece of engine state the pass writes. */
  class Transform {
    var position: Vec3

    constructor (p: Vec3)
      ensures position == p
    {
      position := p;
    }
  }

  /** The transforms are pairwise different objects. */
  predicate Distinct(ts: seq<Transform>)
  {
    forall j, k :: 0 <= j < k < |ts| ==> ts[j] != ts[k]
  }

  /** The job's fields: the field's sizes and the viewpoint offset of this pass. */
  datatype PositionUpdateJob = PositionUpdateJob(height: int, width: int, layers: int, xoffset: int, zoffset: int)
  {
    function Size(): (d: Dims)
    {
      Dims(width, height, layers)
    }

    /** Where the cube of cell `c` goes for this offset: shifted column, terrain height plus the layer offset. */
    function CellPosition(noise: (real, real) -> real, c: Cell): (p: Vec3)
    {
      var px := (c.x + xoffset) as real;
      var pz := (c.z + zoffset) as real;
      Vec3(px, PerlinHeight(noise, px, pz) + c.yoffset as real, pz)
    }

    /** `Execute(i, transform)`: the position written to the transform at index `i`. */
    function Execute(noise: (real, real) -> real, i: int): (p: Vec3)
      requires width > 0 && layers > 0
    {
      CellPosition(noise, Decode(Size(), i))
    }
  }

  /**
   * `Schedule` over the transform access array followed by the job's
   * completion. Unity runs `Execute` once per index on worker threads; every
   * index writes only its own transform, so a loop over the indices in order
   * yields the same final positions.
   */
  method RunPass(job: PositionUpdateJob, noise: (real, real) -> real, transforms: seq<Transform>)
    requires |transforms| == 0 || (job.width > 0 && job.layers > 0)
    requires Distinct(transforms)
    modifies set t | t in transforms
    ensures forall k :: 0 <= k < |transforms| ==> transforms[k].position == job.Execute(noise, k)
  {
    for k := 0 to |transforms|
      invariant forall j :: 0 <= j < k ==> transforms[j].position == job.Execute(noise, j)
    {
      transforms[k].position := job.Execute(noise, k);
    }
  }

  /** Different indices never put their cubes at the same position, whatever the sizes. */
  lemma {:induction false} ExecuteInjective(job: PositionUpdateJob, noise: (real, real) -> real, i: int, j: int)
    requires job.width > 0 && job.layers > 0 && i != j
    ensures job.Execute(noise, i) != job.Execute(noise, j)
  {
    EncodeDecode(job.Size(), i);
    EncodeDecode(job.Size(), j);
  }

  /**
   * For a square field the pass covers exactly the window of columns
   * `[xoffset, xoffset + width)` by `[zoffset, zoffset + height)`: every valid
   * index lands inside it, one layer step apart within a column.
   */
  lemma {:induction false} ExecuteInWindow(job: PositionUpdateJob, noise: (real, real) -> real, i: int)
    requires 0 <= job.layers && 0 <= job.width && job.width == job.height
    requires 0 <= i < Count(job.Size())
    ensures job.width > 0 && job.layers > 0
    ensures var p := job.Execute(noise, i);
      && job.xoffset as real <= p.x < (job.xoffset + job.width) as real
      && job.zoffset as real <= p.z < (job.zoffset + job.height) as real
      && PerlinHeight(noise, p.x, p.z) <= p.y < PerlinHeight(noise, p.x, p.z) + job.layers as real
  {
    PositiveFactors(job.Size());
    DecodeInGrid(job.Size(), i);
  }

  /** For a square field every cell of the window receives a cube: the one at the cell's encoded index. */
  lemma {:induction false} ExecuteCoversWindow(job: PositionUpdateJob, noise: (real, real) -> real, c: Cell)
    requires job.width == job.height && InGrid(job.Size(), c)
    ensures 0 <= Encode(job.Size(), c) < Count(job.Size())
    ensures job.Execute(noise, Encode(job.Size(), c)) == job.CellPosition(noise, c)
  {
    DecodeEncode(job.Size(), c);
  }
}
