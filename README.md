# Ray caster model

A Dafny model of a small Python ray caster (`main.py`). The renderer fires
one primary ray per pixel from a camera, through a rotated screen, into a
scene of spheres. It finds the nearest sphere the ray hits and colours the
pixel with that sphere's colour. The colour is cut to a quarter when the
single point light is blocked by an object of the scene, the hit object
itself included, so a sphere darkens its own side that faces away from the
light (a hard shadow). Pixels
whose ray hits nothing stay black in the zero-initialised
`height × width × 3` buffer.

The model is split into five modules:

- `Geometry` holds vectors, 3×3 matrices, `normalise` and the numeric
  layer. numpy's `sqrt`, `sin`, `cos`, `tan` and `radians` are the fields
  of a `Maths` value. Only the square root is constrained: on non-negative
  inputs it returns the non-negative square root (`Maths.SqrtSpec`).
- `Camera` holds `generateTransformationMatrix`, the screen window and
  `np.linspace`.
- `Intersection` holds `sphereIntersect` and `nearestObject`. The latter
  is a method whose loop is proved against the pure function
  `NearestAmong`.
- `Shading` holds `illumination`.
- `Render` holds `compute`. It is a method that fills an `array3<real>`
  row by row and logs, as ghost state, every cell it writes.

`compute` reads the scene and the render parameters from module-level
globals. In the model these are gathered into a `Config` value that is
passed explicitly, and `illumination` receives the scene as an argument.

## Model

| member | source | states |
|---|---|---|
| Geometry.NormPos | main.py:66-67 | a non-zero vector has a strictly positive norm |
| Geometry.Normalise | main.py:66-67 | normalising a non-zero vector yields a non-zero vector |
| Geometry.NormaliseUnit | main.py:66-67 | `normalise(v)` has unit length and is a positive multiple of `v` |
| Geometry.ApplyMul | main.py:62 | `(a @ b) @ v == a @ (b @ v)` for the matrix product used by the camera |
| Camera.TransformationOrder | main.py:43-63 | the composed matrix applies the x rotation first, then y, then z, each angle converted to radians |
| Camera.ZeroRotationIsIdentity | main.py:43-63 | when each angle, converted to radians, has cosine 1 and sine 0, every ray direction is left unchanged |
| Camera.Screen | main.py:105-106 | the window spans left 1 to right -1, is symmetric vertically (`bottom == -top`), and `top = height / width` |
| Camera.Linspace | main.py:112-113 | element 0 is `start`; for more than one element the last is `stop` |
| Camera.LinspaceEvenlySpaced | main.py:112-113 | consecutive `np.linspace` values differ by `(stop - start) / (num - 1)` |
| Intersection.Min | main.py:79 | Python's `min` returns one of its arguments, no larger than either |
| Intersection.SphereIntersect | main.py:69-80 | a discriminant `<= 0` (including a tangent ray) gives `None`; any reported distance is strictly positive |
| Intersection.SphereIntersectNearRoot | main.py:69-80 | a hit is reported iff the discriminant and `t2 = (-b - sqrt(disc)) / 2` are both positive; the value is `t2`, never more than `t1` |
| Intersection.NearRootPositiveIff | main.py:76-78 | for a non-negative square root `s` of `b² - 4c`, `t2 > 0` iff `b < 0` and `c > 0` |
| Intersection.HitIffOutsideAndFacing | main.py:69-80 | along a unit direction, a hit iff the start is strictly outside the sphere, the ray heads towards it and the line crosses the sphere at two points (`disc > 0`) |
| Intersection.NearRootSolves | main.py:77 | `t2` solves `t² + b t + c = 0` (division by 2, as written, is exact for a unit direction) |
| Intersection.HitOnSurface | main.py:69-80 | along a unit direction, the reported distance lands exactly on the sphere's surface |
| Intersection.Distances | main.py:83 | one entry per object, entry `i` being object `i`'s hit distance; every entry is `None` or strictly positive, so the `if dist` guard drops exactly the misses and never a reported distance |
| Intersection.NearestAmong | main.py:84-89 | after scanning the first `n` objects: no object iff `minDist` is infinite; a chosen object has index `< n`, positive distance, and `minDist` equals its hit distance |
| Intersection.NearestAmongMinimal | main.py:86-89 | nothing is chosen iff no scanned object is hit; the chosen distance is `<=` every hit; every earlier object is strictly farther (the first of equal distances wins) |
| Intersection.NearestHitOnSurface | main.py:82-90 | along a unit direction, the reported nearest point lies on the chosen sphere |
| Intersection.NearestObject | main.py:82-90 | the loop returns exactly the nearest-object function's `minDist` and object (`None` and infinity on a miss) |
| Shading.Illumination | main.py:92-102 | the result is the object's colour or that colour times 0.25 |
| Shading.ShadowedIffOccluded | main.py:92-102 | the colour is darkened iff some scene object meets the shadow ray closer than the light |
| Shading.UnoccludedKeepsColour | main.py:97-101 | when the shadow ray meets nothing (`minDist` infinite) the colour is returned unchanged |
| Shading.IlluminationInUnitRange | main.py:92-102 | an object colour in `[0, 1]` stays in `[0, 1]` after shading |
| Render.RowCellsSpec | main.py:113-118 | the cells written in a row prefix are exactly its marked cells, left to right |
| Render.CellsSpec | main.py:112-118 | the cells written in the first rows are exactly the marked cells, strictly increasing in row-major order |
| Render.TracePixel | main.py:113-118 | one inner-loop pass returns the pixel's colour (black on a miss) and whether its primary ray hits |
| Render.RenderRow | main.py:113-118 | row `i` ends up holding its pixel colours, other rows are untouched, and the cells written are exactly the row's hits, left to right |
| Render.Compute | main.py:108-120 | a fresh `height × width × 3` buffer: each cell holds its pixel's colour channel (black on a miss); the cells written are exactly the hit pixels, in row-major order, each once |
| Render.MissStaysBlack | main.py:116-118 | a pixel whose primary ray meets no object is black |
| Render.HitPixelColour | main.py:116-118 | if the ray hits object `k`, the pixel shows a nearest object no farther than `k` (not after `k` on a tie), in its colour or a quarter of it |
| Render.PrimaryHitOnSurface | main.py:114-116 | the distance reported for a primary ray lands on the surface of the object hit |
| Render.PixelInUnitRange | main.py:118 | with scene colours in `[0, 1]`, every pixel colour is in `[0, 1]`, the range the image writer expects |

## Left out

- Input and output are not modelled: the filename prompt, `plt.imsave` and the progress and completion prints (main.py:119, 123-125).
- Floating point is not modelled: arithmetic is on exact reals, so rounding, overflow, `NaN` and infinities other than `minDist`'s `np.inf` are absent.
- `sin`, `cos`, `tan` and `radians` are arbitrary functions. The only property assumed of `sqrt` is `Maths.SqrtSpec`. No trigonometric identity is used, so the rotation matrices are not proved orthogonal.
- Geometry.Normalise: normalising a zero vector gives `NaN` components in numpy; the model requires a non-zero vector instead, and `Render.Renderable` states that every vector the renderer normalises is non-zero.
- Render.ValidConfig: a zero width or height, or a field of view whose half-angle tangent is zero, divides by zero in the source; the model requires these not to happen.
- The scene and render parameters (main.py:7-34) are module-level globals in the source and a `Config` argument in the model; the particular scene values are not modelled.
- `illumination` reads the global `objects` (main.py:97); the model passes the scene as a parameter.
- The two `np.linspace` ranges of `compute` are evaluated per pixel by `Camera.Linspace` inside `Render.TracePixel` rather than built once as arrays; each value is the same element of the range.
- Both roots divide by 2 and not by `2a` (main.py:76-77). The model keeps this as written; it is exact only for unit directions, and every direction the renderer casts is normalised.
