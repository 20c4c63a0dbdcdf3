# PerlinScroller, modelled in Dafny

`PerlinScroller` is a Unity component that shows a field of `width * height * layers`
cubes. Each cube stands over a column of Perlin-noise terrain, and the arrow keys scroll
the window. Each frame in which its position changes, the component schedules a
`PositionUpdateJob` on the job system. The job decodes every cube's linear index into a
column `(x, z)` and a layer offset `yoffset`, then moves the cube to the terrain height of
the shifted column. `LateUpdate` is meant to wait for that job, and `OnDestroy` releases
the transform access array.

The model has four modules:

- `Grid` (`grid.dfy`) covers the index arithmetic of `Execute` and `CreateCubes`. It uses
  C#'s truncating `/` (`CDiv`), so a negative numerator divides as it does in C#. `Decode`
  follows the code as written. `x` divides by `width * layers`, while `z` subtracts
  `x * height * layers`. `Encode` is the inverse. `PlacementCoords` is the second copy of the
  arithmetic, the one in `CreateCubes`.
- `HeightField` (`height.dfy`) covers `GeneratePerlinHeight`. It works on `real`, and the
  noise routine is a parameter.
- `Displacement` (`displacement.dfy`) covers `PositionUpdateJob`. `CellPosition` gives the
  position of a decoded cell. `Execute` gives the position for an index. `RunPass` is the
  loop that writes each cube's `Transform`.
- `Scroller` (`scroller.dfy`) covers the component as a class. The constructor plays the
  role of `Awake`. The other members are `Start`, `CreateCubes`, `Update`, `LateUpdate`,
  `Tick` (one frame: `Update` then `LateUpdate`) and `OnDestroy`. The class also keeps
  the key handling (`Move`) and the offset cast (`Offset`).

Observations on the source that shape the model:

- **The square-field assumption.** The decode computes `x` by dividing by
  `width * layers` but subtracts `x * height * layers` to get `z` (line 32), while
  `yoffset` subtracts `x * width * layers` (line 33). The result stays inside the grid
  only when `width == height`. For any other shape, some valid index lands outside
  (`Grid.DecodeInGridIffSquare`). The default sizes (100 by 100) are square, and the model
  follows the code as written.
- **The fence.** `LateUpdate` repeats the test `Update` uses to decide whether to schedule
  a pass (line 132 repeats line 114). It was evidently meant to complete the pass that
  `Update` scheduled in the same frame. But `Update` has just set `lastPos` to the current
  position, so the test never succeeds and `Complete()` is not reached. This holds as long
  as nothing else moves the component between `Update` and `LateUpdate`; in the engine,
  another script or an animator could. The model has no such mover. So after a frame, a pass
  is left uncompleted through its handle exactly when one ever was (`Tick`). `OnDestroy`
  then disposes the access array without completing that pass (`UnfencedPassExample`).
  The intended fence is modelled next to it (`LateUpdateFenced`, `TickFenced`); see
  "## Findings".
- **Initial placement.** `CreateCubes` moves the template after copying it, not the copy
  (lines 72-76). Cube `i > 0` therefore starts at the placement of index `i - 1`, and cube 0
  starts at the origin. All layers of a column start at height 0.

## Model

| member | source | states |
|---|---|---|
| `Grid.CDiv` | Assets/PerlinScroller.cs:31-32 | C# integer division by a positive divisor: the remainder has the sign of the dividend and is smaller than the divisor, which means the quotient is truncated toward zero |
| `Grid.EncodeDecode` | Assets/PerlinScroller.cs:31-33 | for positive `width` and `layers`, any `height` and any index, `i == x*width*layers + z*layers + yoffset` for the decoded triple |
| `Grid.DecodeInjective` | Assets/PerlinScroller.cs:31-33 | two indices with the same decoded triple are equal, whatever the sizes |
| `Grid.DecodeInGrid` | Assets/PerlinScroller.cs:31-33 | when `width == height`, every index in `[0, cubeCount)` decodes to `0 <= x < width`, `0 <= z < height`, `0 <= yoffset < layers` |
| `Grid.DecodeEncode` | Assets/PerlinScroller.cs:31-33 | when `width == height`, every grid cell encodes to an index in `[0, cubeCount)`, and that index decodes back to the cell, so decode is a bijection onto the grid |
| `Grid.NarrowFieldEscapes` | Assets/PerlinScroller.cs:31-32 | when `width < height`, the valid index `width*layers` decodes to `z == width - height < 0` |
| `Grid.WideFieldEscapes` | Assets/PerlinScroller.cs:31-32 | when `width > height`, the valid index `height*layers` decodes to `z == height`, outside the grid |
| `Grid.DecodeInGridIffSquare` | Assets/PerlinScroller.cs:31-33 | for positive sizes, every valid index decodes inside the grid if and only if `width == height` |
| `Grid.PlacementAgreesWithDecode` | Assets/PerlinScroller.cs:73-75 | the `(x, y, z)` of `CreateCubes` is the `(x, z, yoffset)` of `Execute` for every index |
| `HeightField.AveragedSamplesCoincide` | Assets/PerlinScroller.cs:142-150 | the two averaged samples are the same sample, so the height is `50 * noise(0.03 posx, 0.06 posz)` |
| `HeightField.HeightRange` | Assets/PerlinScroller.cs:142-150 | a noise value in `[0, 1]` gives a height in `[0, 50]` |
| `Displacement.RunPass` | Assets/PerlinScroller.cs:29-38 | after the pass, each of the distinct transforms at index `k` holds `Execute(k)`, which is `(x+xoffset, height(x+xoffset, z+zoffset) + yoffset, z+zoffset)` for the cell decoded from `k`; only those transforms change |
| `Displacement.ExecuteInjective` | Assets/PerlinScroller.cs:29-38 | two different indices never receive the same position, whatever the sizes |
| `Displacement.ExecuteInWindow` | Assets/PerlinScroller.cs:29-38 | for a square field, every valid index is placed in the window `[xoffset, xoffset+width) x [zoffset, zoffset+height)`, at most `layers` units above the terrain |
| `Displacement.ExecuteCoversWindow` | Assets/PerlinScroller.cs:29-38 | for a square field, every cell of the window receives the cube at its encoded index |
| `Scroller.Move` | Assets/PerlinScroller.cs:105-112 | a frame's key handling keeps the height and moves along at most one ground axis, by 2 units when some arrow is held and by 0 otherwise |
| `Scroller.MoveFollowsFirstHeldKey` | Assets/PerlinScroller.cs:105-112 | the move is the step of the first held key in the order Up (+2 z), Down (-2 z), Left (-2 x), Right (+2 x), and lower-priority keys are ignored |
| `Scroller.Offset` | Assets/PerlinScroller.cs:119-120 | the offset is `p - size/2` cast to `int`: truncated toward zero |
| `Scroller.OffsetOfEvenSize` | Assets/PerlinScroller.cs:119-120 | for an even size the offset is exactly `p - size/2` |
| `Scroller.Cube.CreatePrimitive` | Assets/PerlinScroller.cs:63 | the template is a new cube with a new transform at the origin |
| `Scroller.Cube.Instantiate` | Assets/PerlinScroller.cs:72 | a copy has a new transform at the original's position |
| `Scroller.PerlinScroller.constructor` | Assets/PerlinScroller.cs:41-46 | `cubeCount == width*height*layers`, and `cubes` and `cubeTransforms` are fresh arrays of that length holding no object; `lastPos` is the origin; the job has all fields 0 and the access array is empty; nothing is pending or disposed |
| `Scroller.PerlinScroller.CreateCubes` | Assets/PerlinScroller.cs:60-83 | returns a fresh array of exactly `count` new cubes with pairwise distinct new transforms; cube 0 is at the origin and cube `i > 0` at `(x, 0, y)` of index `i - 1` |
| `Scroller.PerlinScroller.Start` | Assets/PerlinScroller.cs:49-58 | `cubes` and `cubeTransforms` both have length `cubeCount`; `cubeTransforms[i]` is `cubes[i]`'s transform and so is the access array's entry `i`; the transforms are new and pairwise distinct, and each sits at the initial position `CreateCubes` gave it |
| `Scroller.PerlinScroller.Update` | Assets/PerlinScroller.cs:105-127 | moves by `Move`; if the new position, height included, equals `lastPos`, the pending flag, the job and every cube position are unchanged; otherwise `lastPos` becomes the position and exactly one pass is scheduled, with offsets `Offset(x, width)` and `Offset(z, height)`, and every cube ends at that pass's `Execute`; in both cases `lastPos == position` afterwards |
| `Scroller.PerlinScroller.LateUpdate` | Assets/PerlinScroller.cs:130-134 | completes the pending pass only when the position differs from `lastPos`, and otherwise leaves it pending |
| `Scroller.PerlinScroller.Tick` | Assets/PerlinScroller.cs:86-134 | over one frame a pass is pending afterwards exactly when one was pending before or the position after the move differs from `lastPos`, so the `LateUpdate` after `Update` never completes anything; cube positions and the job are as `Update` left them |
| `Scroller.PerlinScroller.OnDestroy` | Assets/PerlinScroller.cs:136-140 | disposes the access array, and only that, whether or not a pass is pending |
| `Scroller.UnfencedPassExample` | Assets/PerlinScroller.cs:114-139 | on a 1x1x1 field, a frame with Up held leaves its pass pending, and `OnDestroy` then disposes with that pass still pending |
| `Scroller.PerlinScroller.LateUpdateFenced` | Assets/PerlinScroller.cs:130-134 | the intended fence: after it, no pass is pending, whether or not one was scheduled this frame |
| `Scroller.PerlinScroller.TickFenced` | Assets/PerlinScroller.cs:86-134 | one frame with the intended fence: cube positions and the job are as `Update` leaves them (both unchanged when the position after the move equals `lastPos`), and no pass is pending afterwards |
| `Scroller.FencedShutdownExample` | Assets/PerlinScroller.cs:114-139 | with the intended fence, the same frame as in `UnfencedPassExample` leaves nothing pending when `OnDestroy` disposes |
| `Scroller.RaisedStartExample` | Assets/PerlinScroller.cs:114-126 | a component starting at height 5 above the origin schedules a pass on its first frame with no key held, because `lastPos` starts at the origin (line 19) |

## Left out

- Floating point: `Vector3` components and all height arithmetic are `real`. Single-precision rounding is not modelled, and neither is the approximate equality of Unity's `Vector3 ==`. Positions are compared exactly.
- `Mathf.PerlinNoise` is a foreign routine. It is a parameter of the model (`noise`), and nothing is assumed of it except where a lemma states a range.
- The component's position is an integer point `(x, y, z)`. A non-integer starting position is not modelled. `Translate`'s local-space semantics are taken as world axes, which holds for an unrotated component.
- Input polling becomes the set of arrow keys held during the frame.
- Displacement.RunPass: the job system's worker threads, `Schedule` and `JobHandle` are not modelled. The pass runs as a sequential loop at the moment `Update` schedules it, which gives the same final positions because every index writes only its own transform. No state between scheduling and completion is modelled, so reading positions before the fence is not captured.
- Scroller.PerlinScroller.LateUpdate: `Complete()` is the clearing of the pending flag, since the pass's writes were already applied when it was scheduled. "Pending" means "not yet completed through its handle", not "writes not yet applied". Other components that move this one between `Update` and `LateUpdate` are not modelled.
- Scroller.PerlinScroller.OnDestroy: requires that `Start` ran and that nothing was disposed before. Disposing an access array that was never created is not modelled.
- Grid sizes: negative sizes, and a cell count that overflows a C# `int`, are excluded (`Grid.WellFormed`).
- Grid.Decode: C# `int` overflow of the intermediate `x * height * layers` is not modelled. For `width >= height` it cannot happen; for `width < height` it can, in fields whose `height * height * layers` exceeds `int.MaxValue`.
- Scroller.PerlinScroller.CreateCubes: a positive `count` when `width` or `layers` is 0 would divide by zero in C#. A precondition excludes it. `Start` never does this, because `cubeCount` is then 0.
- Renderer and collider settings of the template (lines 64-68) and `Destroy(cubeToCopy)` (line 80) are engine calls. Cubes are modelled only through their transforms.
- The field `xoffset` declared at line 85 is never read. The disabled region at lines 88-103 is dead code.
- The Unity lifecycle order (`Awake`, `Start`, then `Update` and `LateUpdate` each frame, `OnDestroy` last) is expressed as preconditions together with the model's own `started` and `disposed` flags.

## Findings

| source | as written | input that shows it | evidently intended | confidence | as-written member | corrected member |
|---|---|---|---|---|---|---|
| Assets/PerlinScroller.cs:130-134 | `LateUpdate` completes the job only when `transform.position != lastPos`, but `Update` has just set `lastPos` to that position, so `Complete()` is never reached and `OnDestroy` disposes with the pass uncompleted | a 1x1x1 field starting at the origin, one frame with Up held, then `OnDestroy` | complete the pass `Update` scheduled in the same frame, so nothing is pending when the frame ends | not executed | `Scroller.UnfencedPassExample` | `Scroller.PerlinScroller.TickFenced` |
