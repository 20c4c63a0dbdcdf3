/**
 * The `PerlinScroller` component: it creates one cube per cell at start-up,
 * moves with the arrow keys, and schedules a displacement pass each frame its
 * position changed.
 */
module Scroller {
  import opened Grid
  import opened Displacement

  /**
   * The component's own position: `x` and `z` on the ground plane, and its
   * height `y`, which no key changes but which `Update` compares with `lastPos`.
   */
  datatype Point = Point(x: int, y: int, z: int)

  /** The four keys `Update` polls. */
  datatype Arrow = Up | Down | Left | Right

  /** The order in which `Update` tests the keys. */
  function Rank(a: Arrow): (r: nat)
  {
    match a
    case Up => 0
    case Down => 1
    case Left => 2
    case Right => 3
  }

  /** The translation bound to a key. */
  function Step(a: Arrow): (t: Point)
  {
    match a
    case Up => Point(0, 0, 2)
    case Down => Point(0, 0, -2)
    case Left => Point(-2, 0, 0)
    case Right => Point(2, 0, 0)
  }

  function Abs(n: int): (m: nat)
  {
    if n < 0 then -n else n
  }

  /**
   * The key handling of `Update`: the first held key in the order Up, Down,
   * Left, Right translates the component by two units along one axis; no held
   * key, no move.
   */
  function Move(p: Point, held: set<Arrow>): (q: Point)
    ensures q.y == p.y
    ensures q.x == p.x || q.z == p.z
    ensures Abs(q.x - p.x) + Abs(q.z - p.z) == if held == {} then 0 else 2
  {
    if Up in held then Point(p.x, p.y, p.z + 2)
    else if Down in held then Point(p.x, p.y, p.z - 2)
    else if Left in held then Point(p.x - 2, p.y, p.z)
    else if Right in held then Point(p.x + 2, p.y, p.z)
    else
      NoArrowHeld(held);
      p
  }

  lemma NoArrowHeld(held: set<Arrow>)
    requires Up !in held && Down !in held && Left !in held && Right !in held
    ensures held == {}
  {
    forall a | a in held
      ensures false
    {
      match a
      case Up =>
      case Down =>
      case Left =>
      case Right =>
    }
  }

  /** The move is the step of the held key that comes first; every other held key is ignored. */
  lemma MoveFollowsFirstHeldKey(p: Point, held: set<Arrow>, a: Arrow)
    requires a in held
    requires forall b :: b in held ==> Rank(a) <= Rank(b)
    ensures Move(p, held) == Point(p.x + Step(a).x, p.y + Step(a).y, p.z + Step(a).z)
  {
    match a
    case Up =>
    case Down => assert Up !in held;
    case Left => assert Up !in held && Down !in held;
    case Right => assert Up !in held && Down !in held && Left !in held;
  }

  /**
   * `(int)(p - size / 2.0f)`: the position less half the size, cast to `int`,
   * that is truncated toward zero. For the integer positions the keys reach
   * the float value is exact, so this is computed on integers.
   */
  function Offset(p: int, size: int): (r: int)
    ensures var v := p as real - size as real / 2.0;
      && (v >= 0.0 ==> r as real <= v < r as real + 1.0)
      && (v < 0.0 ==> r as real - 1.0 < v <= r as real)
  {
    CDiv(2 * p - size, 2)
  }

  /** For an even size the offset is exactly the position less half the size. */
  lemma OffsetOfEvenSize(p: int, size: int)
    requires size % 2 == 0
    ensures Offset(p, size) == p - size / 2
  {
    var n := 2 * p - size;
    CDivExact(p - size / 2, 2);
    assert n == (p - size / 2) * 2;
  }

  /** The cube that `CreatePrimitive` makes and `Instantiate` copies; only its transform is modelled. */
  class Cube {
    const transform: Transform

    /** `GameObject.CreatePrimitive(PrimitiveType.Cube)`: a new cube at the origin. */
    constructor CreatePrimitive()
      ensures fresh(transform) && transform.position == Vec3(0.0, 0.0, 0.0)
    {
      transform := new Transform(Vec3(0.0, 0.0, 0.0));
    }

    /** `Instantiate(original)`: a new cube with its own transform, at the original's position. */
    constructor Instantiate(original: Cube)
      ensures fresh(transform) && transform.position == original.transform.position
    {
      transform := new Transform(original.transform.position);
    }
  }

  /** The position `CreateCubes` gives the template after instantiating cube `i`: `(x, 0, y)`. */
  function Placement(d: Dims, i: int): (p: Vec3)
    requires d.width > 0 && d.layers > 0
  {
    var xyz := PlacementCoords(d, i);
    Vec3(xyz.0 as real, 0.0, xyz.1 as real)
  }

  /**
   * Where cube `i` starts: the template is moved only after each copy, so
   * cube 0 starts at the origin and cube `i > 0` at the placement of `i - 1`.
   */
  function InitialPosition(d: Dims, i: int): (p: Vec3)
    requires d.width > 0 && d.layers > 0
  {
    if i == 0 then Vec3(0.0, 0.0, 0.0) else Placement(d, i - 1)
  }

  class PerlinScroller {
    const width: int
    const height: int
    const layers: int
    /** `Mathf.PerlinNoise`, a foreign library routine. */
    const noise: (real, real) -> real

    var cubeCount: int
    var cubes: array<Cube?>
    var cubeTransforms: array<Transform?>
    /** `cubeTransformAccessArray`: the transforms handed to the job system at start-up. */
    var accessArray: seq<Transform>
    var cubeJob: PositionUpdateJob
    /** `cubePositonJobHandle` refers to a scheduled pass not yet completed. */
    var jobPending: bool
    /** `cubeTransformAccessArray` has been disposed. */
    var disposed: bool
    /** `Start` has run. */
    var started: bool
    /** `transform.position`. */
    var position: Point
    var lastPos: Point

    function Size(): (d: Dims)
    {
      Dims(width, height, layers)
    }

    ghost predicate Valid()
      reads this, cubes, cubeTransforms
    {
      && WellFormed(Size())
      && cubeCount == Count(Size())
      && cubes.Length == cubeCount
      && cubeTransforms.Length == cubeCount
      && (started ==>
            && |accessArray| == cubeCount
            && Distinct(accessArray)
            && forall i :: 0 <= i < cubeCount ==>
                 cubes[i] != null && cubeTransforms[i] == cubes[i].transform && accessArray[i] == cubes[i].transform)
    }

    /** The component as the engine creates it: field initialisers, then `Awake`. */
    constructor (width: int, height: int, layers: int, noise: (real, real) -> real, position: Point)
      requires WellFormed(Dims(width, height, layers))
      ensures Valid() && !started && !jobPending && !disposed
      ensures this.width == width && this.height == height && this.layers == layers && this.noise == noise
      ensures cubeCount == width * height * layers
      ensures fresh(cubes) && fresh(cubeTransforms)
      ensures forall i :: 0 <= i < cubeCount ==> cubes[i] == null && cubeTransforms[i] == null
      ensures this.position == position && lastPos == Point(0, 0, 0)
      ensures cubeJob == PositionUpdateJob(0, 0, 0, 0, 0) && accessArray == []
    {
      this.width := width;
      this.height := height;
      this.layers := layers;
      this.noise := noise;
      this.position := position;
      lastPos := Point(0, 0, 0);
      cubeJob := PositionUpdateJob(0, 0, 0, 0, 0);
      jobPending := false;
      disposed := false;
      started := false;
      accessArray := [];
      new;
      // Awake
      cubeCount := width * height * layers;
      cubes := new Cube?[cubeCount](_ => null);
      cubeTransforms := new Transform?[cubeCount](_ => null);
    }

    /**
     * `CreateCubes(count)`: `count` new cubes copied from a template, which is
     * moved to the placement of index `i` only after cube `i` was copied from it.
     */
    method CreateCubes(count: int) returns (result: array<Cube?>)
      requires 0 <= count
      requires count == 0 || (width > 0 && layers > 0)
      ensures fresh(result) && result.Length == count
      ensures forall i :: 0 <= i < count ==> result[i] != null && fresh(result[i].transform)
      ensures forall j, k :: 0 <= j < k < count ==> result[j].transform != result[k].transform
      ensures forall i :: 0 <= i < count ==> result[i].transform.position == InitialPosition(Size(), i)
    {
      result := new Cube?[count];
      var cubeToCopy := new Cube.CreatePrimitive();
      for i := 0 to count
        invariant forall k :: 0 <= k < i ==> result[k] != null && fresh(result[k].transform)
        invariant forall k :: 0 <= k < i ==> result[k].transform != cubeToCopy.transform
        invariant forall j, k :: 0 <= j < k < i ==> result[j].transform != result[k].transform
        invariant 0 < count ==> cubeToCopy.transform.position == InitialPosition(Size(), i)
        invariant forall k :: 0 <= k < i ==> result[k].transform.position == InitialPosition(Size(), k)
      {
        var currentCube := new Cube.Instantiate(cubeToCopy);
        var xyz := PlacementCoords(Size(), i);
        cubeToCopy.transform.position := Vec3(xyz.0 as real, 0.0, xyz.1 as real);
        result[i] := currentCube;
      }
      // `Destroy(cubeToCopy)` is an engine call and is not modelled.
    }

    /** `Start`: create the cubes and hand their transforms to the job system. */
    method Start()
      requires Valid() && !started && !disposed
      modifies this, cubeTransforms
      ensures Valid() && started && !disposed
      ensures fresh(cubes) && cubeTransforms == old(cubeTransforms)
      ensures position == old(position) && lastPos == old(lastPos)
      ensures jobPending == old(jobPending) && cubeJob == old(cubeJob)
      ensures cubeCount > 0 ==> width > 0 && layers > 0
      ensures forall i :: 0 <= i < cubeCount ==> fresh(accessArray[i])
      ensures forall i :: 0 <= i < cubeCount ==> accessArray[i].position == InitialPosition(Size(), i)
    {
      if cubeCount > 0 {
        PositiveFactors(Size());
      }
      cubes := CreateCubes(cubeCount);
      for i := 0 to cubeCount
        modifies cubeTransforms
        invariant forall k :: 0 <= k < i ==> cubeTransforms[k] == cubes[k].transform
      {
        cubeTransforms[i] := cubes[i].transform;
      }
      var ts := cubeTransforms;
      accessArray := seq(ts.Length, i requires 0 <= i < ts.Length && ts[i] != null reads ts => ts[i] as Transform);
      started := true;
    }

    /**
     * `Update`: move by the first held arrow key; if the position then equals
     * `lastPos` do nothing more, otherwise record it and schedule one pass with
     * the offsets of the new position.
     */
    method Update(held: set<Arrow>)
      requires Valid() && started && !disposed
      modifies this, set t | t in accessArray
      ensures Valid() && started && !disposed
      ensures cubes == old(cubes) && cubeTransforms == old(cubeTransforms) && accessArray == old(accessArray)
      ensures position == Move(old(position), held)
      ensures lastPos == position
      ensures position == old(lastPos) ==>
        && jobPending == old(jobPending) && cubeJob == old(cubeJob)
        && forall k :: 0 <= k < |accessArray| ==> accessArray[k].position == old(accessArray[k].position)
      ensures position != old(lastPos) ==>
        && jobPending
        && cubeJob == PositionUpdateJob(height, width, layers, Offset(position.x, width), Offset(position.z, height))
        && forall k :: 0 <= k < |accessArray| ==> accessArray[k].position == cubeJob.Execute(noise, k)
    {
      position := Move(position, held);
      if position == lastPos {
        return;
      }
      lastPos := position;
      cubeJob := PositionUpdateJob(height, width, layers, Offset(position.x, width), Offset(position.z, height));
      if cubeCount > 0 {
        PositiveFactors(Size());
      }
      RunPass(cubeJob, noise, accessArray);
      jobPending := true;
    }

    /** `LateUpdate`: complete the scheduled pass, but only when the position differs from `lastPos`. */
    method LateUpdate()
      requires Valid() && !disposed
      modifies this`jobPending
      ensures position == lastPos ==> jobPending == old(jobPending)
      ensures position != lastPos ==> !jobPending
    {
      if position == lastPos {
        return;
      }
      jobPending := false;
    }

    /** One frame: `Update`, then `LateUpdate`. */
    method Tick(held: set<Arrow>)
      requires Valid() && started && !disposed
      modifies this, set t | t in accessArray
      ensures Valid() && started && !disposed
      ensures cubes == old(cubes) && cubeTransforms == old(cubeTransforms) && accessArray == old(accessArray)
      ensures position == Move(old(position), held) && lastPos == position
      ensures jobPending == (old(jobPending) || position != old(lastPos))
      ensures position == old(lastPos) ==>
        && cubeJob == old(cubeJob)
        && forall k :: 0 <= k < |accessArray| ==> accessArray[k].position == old(accessArray[k].position)
      ensures position != old(lastPos) ==>
        && cubeJob == PositionUpdateJob(height, width, layers, Offset(position.x, width), Offset(position.z, height))
        && forall k :: 0 <= k < |accessArray| ==> accessArray[k].position == cubeJob.Execute(noise, k)
    {
      Update(held);
      LateUpdate();
    }

    /**
     * `LateUpdate` as its guard evidently intends: complete the pass that
     * `Update` scheduled this frame. A pass is pending at this point exactly
     * when one was scheduled and its handle not yet completed.
     */
    method LateUpdateFenced()
      requires Valid() && !disposed
      modifies this`jobPending
      ensures !jobPending
    {
      if !jobPending {
        return;
      }
      jobPending := false;
    }

    /** One frame with the intended fence: `Update`, then `LateUpdateFenced`. */
    method TickFenced(held: set<Arrow>)
      requires Valid() && started && !disposed
      modifies this, set t | t in accessArray
      ensures Valid() && started && !disposed
      ensures cubes == old(cubes) && cubeTransforms == old(cubeTransforms) && accessArray == old(accessArray)
      ensures position == Move(old(position), held) && lastPos == position
      ensures !jobPending
      ensures position == old(lastPos) ==>
        && cubeJob == old(cubeJob)
        && forall k :: 0 <= k < |accessArray| ==> accessArray[k].position == old(accessArray[k].position)
      ensures position != old(lastPos) ==>
        && cubeJob == PositionUpdateJob(height, width, layers, Offset(position.x, width), Offset(position.z, height))
        && forall k :: 0 <= k < |accessArray| ==> accessArray[k].position == cubeJob.Execute(noise, k)
    {
      Update(held);
      LateUpdateFenced();
    }

    /** `OnDestroy`: dispose the transform access array, whether or not a pass is pending. */
    method OnDestroy()
      requires Valid() && started && !disposed
      modifies this`disposed
      ensures disposed
    {
      disposed := true;
    }
  }

  /**
   * A frame whose key moves the component leaves its pass uncompleted (the
   * `lastPos` that `LateUpdate` compares with was just set by `Update`), and
   * `OnDestroy` then disposes the transform access array under that pass.
   */
  method UnfencedPassExample() returns (pendingAfterFrame: bool, pendingAtDispose: bool)
    ensures pendingAfterFrame && pendingAtDispose
  {
    var scroller := new PerlinScroller(1, 1, 1, (px: real, pz: real) => 0.0, Point(0, 0, 0));
    scroller.Start();
    scroller.Tick({Up});
    pendingAfterFrame := scroller.jobPending;
    scroller.OnDestroy();
    pendingAtDispose := scroller.disposed && scroller.jobPending;
  }

  /**
   * With the intended fence, the same frame leaves nothing pending, so
   * `OnDestroy` disposes the transform access array with no pass outstanding.
   */
  method FencedShutdownExample() returns (pendingAtDispose: bool)
    ensures !pendingAtDispose
  {
    var scroller := new PerlinScroller(1, 1, 1, (px: real, pz: real) => 0.0, Point(0, 0, 0));
    scroller.Start();
    scroller.TickFenced({Up});
    scroller.OnDestroy();
    pendingAtDispose := scroller.jobPending;
  }

  /**
   * `lastPos` starts at the origin, so a component placed above the ground
   * schedules a pass on its first frame even when no key is held.
   */
  method RaisedStartExample() returns (pendingAfterFrame: bool)
    ensures pendingAfterFrame
  {
    var scroller := new PerlinScroller(1, 1, 1, (px: real, pz: real) => 0.0, Point(0, 5, 0));
    scroller.Start();
    scroller.Tick({});
    pendingAfterFrame := scroller.jobPending;
  }
}
