/** The frame renderer: one primary ray per pixel, shaded on a hit, written
    into a zero-initialised `height × width × 3` buffer. */
module Render {
  import opened Geometry
  import opened Camera
  import opened Intersection
  import opened Shading

  /** The render parameters and the scene, passed explicitly rather than
      held in module-level globals. Angles are in degrees. */
  datatype Config = Config(
    width: nat,
    height: nat,
    camera: Vec3,
    xRotation: real,
    yRotation: real,
    zRotation: real,
    fov: real,
    objects: seq<Sphere>,
    lighting: Light)

  /** What the arithmetic of `compute` needs of the configuration: a
      non-empty image (the aspect ratio divides by both dimensions) and a
      field of view whose half-angle tangent is not zero. */
  predicate ValidConfig(m: Maths, cfg: Config) {
    0 < cfg.width && 0 < cfg.height && m.tan(m.radians(cfg.fov / 2.0)) != 0.0
  }

  /** `separation = tan(radians(fov / 2)) ** -1`, the focal distance. */
  function Separation(m: Maths, fov: real): real
    requires m.tan(m.radians(fov / 2.0)) != 0.0
  {
    1.0 / m.tan(m.radians(fov / 2.0))
  }

  /** `[separation, y, z]` for row `i` and column `j`: the pixel's ray in
      camera space, `y` and `z` spaced evenly across the screen window. */
  function CameraRay(m: Maths, cfg: Config, i: nat, j: nat): Vec3
    requires ValidConfig(m, cfg) && i < cfg.height && j < cfg.width
  {
    var screen := Screen(cfg.width, cfg.height);
    var z := Linspace(screen.top, screen.bottom, cfg.height, i);
    var y := Linspace(screen.left, screen.right, cfg.width, j);
    Vec3(Separation(m, cfg.fov), y, z)
  }

  /** `rotation @ [separation, y, z]`, before normalisation. */
  function RayVector(m: Maths, cfg: Config, i: nat, j: nat): Vec3
    requires ValidConfig(m, cfg) && i < cfg.height && j < cfg.width
  {
    Apply(TransformationMatrix(m, cfg.xRotation, cfg.yRotation, cfg.zRotation), CameraRay(m, cfg, i, j))
  }

  /** The vectors the pixel's computation normalises are non-zero. */
  ghost predicate PixelDefined(m: Maths, cfg: Config, i: nat, j: nat)
    requires m.SqrtSpec() && ValidConfig(m, cfg) && i < cfg.height && j < cfg.width
  {
    RayVector(m, cfg, i, j) != Zero
    && var direction := Normalise(m, RayVector(m, cfg, i, j));
       var n := NearestHit(m, cfg.objects, cfg.camera, direction);
       n.index.Some? ==>
         ShadeDefined(m, cfg.objects[n.index.value], n.dist.value, cfg.camera, direction, cfg.lighting)
  }

  /** The configuration can be rendered without normalising a zero vector. */
  ghost predicate Renderable(m: Maths, cfg: Config) {
    m.SqrtSpec() && ValidConfig(m, cfg)
    && forall i: nat, j: nat :: i < cfg.height && j < cfg.width ==> PixelDefined(m, cfg, i, j)
  }

  /** The unit direction of the primary ray through pixel `(i, j)`. */
  function PixelDirection(m: Maths, cfg: Config, i: nat, j: nat): Vec3
    requires Renderable(m, cfg) && i < cfg.height && j < cfg.width
  {
    assert PixelDefined(m, cfg, i, j);
    Normalise(m, RayVector(m, cfg, i, j))
  }

  /** The primary ray through pixel `(i, j)` hits some object. */
  ghost predicate PixelHit(m: Maths, cfg: Config, i: nat, j: nat)
    requires Renderable(m, cfg) && i < cfg.height && j < cfg.width
  {
    NearestHit(m, cfg.objects, cfg.camera, PixelDirection(m, cfg, i, j)).index.Some?
  }

  /** The colour of pixel `(i, j)`: the shaded nearest object, or black. */
  function Pixel(m: Maths, cfg: Config, i: nat, j: nat): Vec3
    requires Renderable(m, cfg) && i < cfg.height && j < cfg.width
  {
    assert PixelDefined(m, cfg, i, j);
    var direction := PixelDirection(m, cfg, i, j);
    var n := NearestHit(m, cfg.objects, cfg.camera, direction);
    if n.index.Some? then
      Illumination(m, cfg.objects, cfg.objects[n.index.value], n.dist.value, cfg.camera, direction, cfg.lighting)
    else Zero
  }

  /** Channel `k` (0 red, 1 green, 2 blue) of colour `c`. */
  function Channel(c: Vec3, k: nat): real
    requires k < 3
  {
    if k == 0 then c.x else if k == 1 then c.y else c.z
  }

  /** `pixels` and `hits` tabulate the image: `height` rows of `width`
      cells, cell `(i, j)` holding the colour of pixel `(i, j)` and whether
      its primary ray hits an object. */
  ghost predicate Depicts(m: Maths, cfg: Config, pixels: seq<seq<Vec3>>, hits: seq<seq<bool>>)
    requires Renderable(m, cfg)
  {
    |pixels| == cfg.height && |hits| == cfg.height
    && (forall i :: 0 <= i < cfg.height ==> |pixels[i]| == cfg.width && |hits[i]| == cfg.width)
    && forall i: nat, j: nat {:trigger Pixel(m, cfg, i, j)} {:trigger PixelHit(m, cfg, i, j)} ::
         i < cfg.height && j < cfg.width ==>
           pixels[i][j] == Pixel(m, cfg, i, j) && (hits[i][j] <==> PixelHit(m, cfg, i, j))
  }

  /** Every renderable configuration has its image tabulated. */
  lemma Tabulate(m: Maths, cfg: Config) returns (pixels: seq<seq<Vec3>>, hits: seq<seq<bool>>)
    requires Renderable(m, cfg)
    ensures Depicts(m, cfg, pixels, hits)
  {
    pixels := seq(cfg.height, i requires 0 <= i < cfg.height =>
                seq(cfg.width, j requires 0 <= j < cfg.width => Pixel(m, cfg, i, j)));
    hits := seq(cfg.height, i requires 0 <= i < cfg.height =>
              seq(cfg.width, j requires 0 <= j < cfg.width => PixelHit(m, cfg, i, j)));
  }

  /** Pixel `p` comes before pixel `q` in row-major order. */
  predicate Before(p: (nat, nat), q: (nat, nat)) {
    p.0 < q.0 || (p.0 == q.0 && p.1 < q.1)
  }

  /** Strictly increasing in row-major order. */
  predicate Increasing(s: seq<(nat, nat)>) {
    forall a, b :: 0 <= a < b < |s| ==> Before(s[a], s[b])
  }

  /** The cells `(i, j)` of row `i` left of column `n` that `hits` marks,
      left to right. */
  function RowCells(hits: seq<seq<bool>>, i: nat, n: nat): seq<(nat, nat)>
    requires i < |hits| && n <= |hits[i]|
  {
    if n == 0 then []
    else RowCells(hits, i, n - 1) + (if hits[i][n - 1] then [(i, n - 1)] else [])
  }

  /** The marked cells of the first `n` rows, in row-major order. */
  function Cells(hits: seq<seq<bool>>, n: nat): seq<(nat, nat)>
    requires n <= |hits|
  {
    if n == 0 then [] else Cells(hits, n - 1) + RowCells(hits, n - 1, |hits[n - 1]|)
  }

  /** `RowCells` lists exactly the marked cells of its row prefix, in order. */
  lemma {:induction false} RowCellsSpec(hits: seq<seq<bool>>, i: nat, n: nat)
    requires i < |hits| && n <= |hits[i]|
    ensures Increasing(RowCells(hits, i, n))
    ensures forall p :: p in RowCells(hits, i, n) <==> p.0 == i && p.1 < n && hits[p.0][p.1]
  {
    if n > 0 {
      RowCellsSpec(hits, i, n - 1);
    }
  }

  /** `Cells` lists exactly the marked cells of its first rows, in order,
      each once. */
  lemma {:induction false} CellsSpec(hits: seq<seq<bool>>, n: nat)
    requires n <= |hits|
    ensures Increasing(Cells(hits, n))
    ensures forall p :: p in Cells(hits, n) <==> p.0 < n && p.1 < |hits[p.0]| && hits[p.0][p.1]
  {
    if n > 0 {
      CellsSpec(hits, n - 1);
      RowCellsSpec(hits, n - 1, |hits[n - 1]|);
      var prev, row := Cells(hits, n - 1), RowCells(hits, n - 1, |hits[n - 1]|);
      forall a, b | 0 <= a < b < |prev + row|
        ensures Before((prev + row)[a], (prev + row)[b])
      {
        if a < |prev| && |prev| <= b {
          assert prev[a] in prev;
          assert row[b - |prev|] in row;
        }
      }
    }
  }

  /** The body of `compute`'s inner loop for pixel `(i, j)`: the ray
      `[separation, y, z]`, with `z` and `y` the `i`-th and `j`-th values of
      the two `np.linspace` ranges, is rotated and normalised, the nearest
      object is found and, on a hit, shaded. `rotation` and `separation` are
      the values `compute` hoists out of its loops. The result is the
      pixel's entry in any tabulation of the image: its colour (black on a
      miss) and whether it is a hit. */
  method TracePixel(m: Maths, cfg: Config, ghost pixels: seq<seq<Vec3>>, ghost hits: seq<seq<bool>>,
                    rotation: Mat3, separation: real, i: nat, j: nat)
    returns (hit: bool, colour: Vec3)
    requires Renderable(m, cfg) && Depicts(m, cfg, pixels, hits) && i < cfg.height && j < cfg.width
    requires rotation == TransformationMatrix(m, cfg.xRotation, cfg.yRotation, cfg.zRotation)
    requires separation == Separation(m, cfg.fov)
    ensures hit == hits[i][j] && colour == pixels[i][j]
    ensures !hit ==> colour == Zero
  {
    assert PixelDefined(m, cfg, i, j);
    var screen := Screen(cfg.width, cfg.height);
    var z := Linspace(screen.top, screen.bottom, cfg.height, i);
    var y := Linspace(screen.left, screen.right, cfg.width, j);
    var direction := Normalise(m, Apply(rotation, Vec3(separation, y, z)));
    var origin := cfg.camera;
    var nearest, distance := NearestObject(m, cfg.objects, origin, direction);
    hit := nearest.Some?;
    colour := Zero;
    if nearest.Some? {
      colour := Illumination(m, cfg.objects, nearest.value, distance.value, origin, direction, cfg.lighting);
    }
    assert colour == Pixel(m, cfg, i, j);
  }

  /** One pass of `compute`'s outer loop: fills row `i` of the buffer,
      left to right, writing a cell only when its primary ray hits an
      object; returns the cells written, in order. */
  method RenderRow(m: Maths, cfg: Config, ghost pixels: seq<seq<Vec3>>, ghost hits: seq<seq<bool>>,
                   image: array3<real>, rotation: Mat3, separation: real, i: nat)
    returns (ghost rowWrites: seq<(nat, nat)>)
    requires Renderable(m, cfg) && Depicts(m, cfg, pixels, hits) && i < cfg.height
    requires image.Length0 == cfg.height && image.Length1 == cfg.width && image.Length2 == 3
    requires rotation == TransformationMatrix(m, cfg.xRotation, cfg.yRotation, cfg.zRotation)
    requires separation == Separation(m, cfg.fov)
    requires forall j: nat, k: nat :: j < cfg.width && k < 3 ==> image[i, j, k] == 0.0
    modifies image
    ensures forall i': nat, j: nat, k: nat :: i' < cfg.height && i' != i && j < cfg.width && k < 3 ==>
              image[i', j, k] == old(image[i', j, k])
    ensures forall j: nat, k: nat :: j < cfg.width && k < 3 ==> image[i, j, k] == Channel(pixels[i][j], k)
    ensures rowWrites == RowCells(hits, i, cfg.width)
  {
    rowWrites := [];
    for j := 0 to cfg.width
      invariant forall i': nat, j': nat, k: nat :: i' < cfg.height && i' != i && j' < cfg.width && k < 3 ==>
                  image[i', j', k] == old(image[i', j', k])
      invariant forall j': nat, k: nat :: j' < j && k < 3 ==> image[i, j', k] == Channel(pixels[i][j'], k)
      invariant forall j': nat, k: nat :: j <= j' < cfg.width && k < 3 ==> image[i, j', k] == 0.0
      invariant rowWrites == RowCells(hits, i, j)
    {
      var hit, colour := TracePixel(m, cfg, pixels, hits, rotation, separation, i, j);
      if hit {
        image[i, j, 0] := colour.x;
        image[i, j, 1] := colour.y;
        image[i, j, 2] := colour.z;
        rowWrites := rowWrites + [(i, j)];
      }
    }
  }

  /** `compute`: renders every pixel of the configuration into a fresh
      zero-initialised buffer. Each cell ends up holding its pixel's colour
      (black where the primary ray meets nothing). `writes` records, in
      order, each cell the loops assign: exactly the pixels whose primary
      ray hits an object, in row-major order and so each once. */
  method Compute(m: Maths, cfg: Config) returns (image: array3<real>, ghost writes: seq<(nat, nat)>)
    requires Renderable(m, cfg)
    ensures fresh(image)
    ensures image.Length0 == cfg.height && image.Length1 == cfg.width && image.Length2 == 3
    ensures forall i: nat, j: nat, k: nat :: i < cfg.height && j < cfg.width && k < 3 ==>
              image[i, j, k] == Channel(Pixel(m, cfg, i, j), k)
    ensures Increasing(writes)
    ensures forall i: nat, j: nat ::
              (i, j) in writes <==> i < cfg.height && j < cfg.width && PixelHit(m, cfg, i, j)
  {
    ghost var pixels, hits := Tabulate(m, cfg);
    image := new real[cfg.height, cfg.width, 3]((_, _, _) => 0.0);
    var rotation := TransformationMatrix(m, cfg.xRotation, cfg.yRotation, cfg.zRotation);
    var separation := Separation(m, cfg.fov);
    writes := [];
    for i := 0 to cfg.height
      invariant forall i': nat, j': nat, k: nat :: i' < i && j' < cfg.width && k < 3 ==>
                  image[i', j', k] == Channel(pixels[i'][j'], k)
      invariant forall i': nat, j': nat, k: nat :: i <= i' < cfg.height && j' < cfg.width && k < 3 ==>
                  image[i', j', k] == 0.0
      invariant writes == Cells(hits, i)
    {
      ghost var rowWrites := RenderRow(m, cfg, pixels, hits, image, rotation, separation, i);
      writes := writes + rowWrites;
    }
    CellsSpec(hits, cfg.height);
  }

  /** A pixel whose primary ray meets no object is black. */
  lemma MissStaysBlack(m: Maths, cfg: Config, i: nat, j: nat)
    requires Renderable(m, cfg) && i < cfg.height && j < cfg.width
    requires forall k :: 0 <= k < |cfg.objects| ==>
               HitAt(m, cfg.objects, k, cfg.camera, PixelDirection(m, cfg, i, j)).None?
    ensures Pixel(m, cfg, i, j) == Zero
  {
    NearestAmongMinimal(m, cfg.objects, cfg.camera, PixelDirection(m, cfg, i, j), |cfg.objects|);
  }

  /** If the primary ray hits object `k`, the pixel shows the nearest
      object, which is no farther than `k` and, at equal distance, does not
      come after `k` in the scene; its colour is that object's colour,
      possibly darkened by shadow. */
  lemma HitPixelColour(m: Maths, cfg: Config, i: nat, j: nat, k: nat)
    requires Renderable(m, cfg) && i < cfg.height && j < cfg.width && k < |cfg.objects|
    requires HitAt(m, cfg.objects, k, cfg.camera, PixelDirection(m, cfg, i, j)).Some?
    ensures var t := HitAt(m, cfg.objects, k, cfg.camera, PixelDirection(m, cfg, i, j)).value;
            var n := NearestHit(m, cfg.objects, cfg.camera, PixelDirection(m, cfg, i, j));
            n.index.Some? && n.dist.value <= t && (n.dist.value == t ==> n.index.value <= k)
            && var obj := cfg.objects[n.index.value];
               Pixel(m, cfg, i, j) == obj.colour || Pixel(m, cfg, i, j) == Scale(obj.colour, ShadowFactor)
  {
    NearestAmongMinimal(m, cfg.objects, cfg.camera, PixelDirection(m, cfg, i, j), |cfg.objects|);
  }

  /** The distance `nearestObject` reports for a primary ray is a true
      distance: the point it names lies on the surface of the object hit. */
  lemma PrimaryHitOnSurface(m: Maths, cfg: Config, i: nat, j: nat)
    requires Renderable(m, cfg) && i < cfg.height && j < cfg.width
    requires PixelHit(m, cfg, i, j)
    ensures var direction := PixelDirection(m, cfg, i, j);
            var n := NearestHit(m, cfg.objects, cfg.camera, direction);
            var obj := cfg.objects[n.index.value];
            OnSurface(SurfacePoint(cfg.camera, n.dist.value, direction), obj.centre, obj.radius)
  {
    assert PixelDefined(m, cfg, i, j);
    NormaliseUnit(m, RayVector(m, cfg, i, j));
    NearestHitOnSurface(m, cfg.objects, cfg.camera, PixelDirection(m, cfg, i, j));
  }

  /** Every colour in the scene lies in `[0, 1]`. */
  predicate ColoursInUnitRange(objects: seq<Sphere>) {
    forall k :: 0 <= k < |objects| ==> InUnitRange(objects[k].colour)
  }

  /** The buffer meets the image writer's contract: with every object
      colour in `[0, 1]`, every pixel colour is in `[0, 1]`. */
  lemma PixelInUnitRange(m: Maths, cfg: Config, i: nat, j: nat)
    requires Renderable(m, cfg) && i < cfg.height && j < cfg.width
    requires ColoursInUnitRange(cfg.objects)
    ensures InUnitRange(Pixel(m, cfg, i, j))
  {
    assert PixelDefined(m, cfg, i, j);
    var direction := PixelDirection(m, cfg, i, j);
    var n := NearestHit(m, cfg.objects, cfg.camera, direction);
    if n.index.Some? {
      IlluminationInUnitRange(m, cfg.objects, cfg.objects[n.index.value], n.dist.value,
                              cfg.camera, direction, cfg.lighting);
    }
  }
}
