/** Hard-shadow shading of a hit point by the single point light. */
module Shading {
  import opened Geometry
  import opened Intersection

  /** The scene's light: `{'position'}`. */
  datatype Light = Light(position: Vec3)

  /** How far the surface point is lifted along the surface normal before
      the shadow ray is cast, so that the ray does not meet its own sphere. */
  const AcneOffset: real := 0.00001

  /** Colours are scaled by this factor in shadow. */
  const ShadowFactor: real := 0.25

  /** `origin + distance * direction`. */
  function SurfacePoint(origin: Vec3, distance: real, direction: Vec3): Vec3 {
    Add(origin, Scale(direction, distance))
  }

  /** The surface point moved `AcneOffset` outwards along the normal of `obj`. */
  function ShadowOrigin(m: Maths, obj: Sphere, point: Vec3): Vec3
    requires m.SqrtSpec() && Sub(point, obj.centre) != Zero
  {
    Add(point, Scale(Normalise(m, Sub(point, obj.centre)), AcneOffset))
  }

  /** The two vectors `illumination` normalises are not zero: the hit point
      is not the sphere's centre and the lifted point is not the light. */
  ghost predicate ShadeDefined(m: Maths, obj: Sphere, distance: real, origin: Vec3, direction: Vec3, light: Light) {
    m.SqrtSpec()
    && Sub(SurfacePoint(origin, distance, direction), obj.centre) != Zero
    && Sub(light.position, ShadowOrigin(m, obj, SurfacePoint(origin, distance, direction))) != Zero
  }

  /** `shadowed = b < magnitudeIncedentRay`; `np.inf` is never below. */
  predicate Shadowed(b: Distance, magnitude: real) {
    b.Finite? && b.value < magnitude
  }

  /** `illumination`, with the scene passed in rather than read from the
      global `objects`: the object's colour, or a quarter of it when the
      shadow ray towards the light meets an object before the light. */
  function Illumination(m: Maths, objects: seq<Sphere>, obj: Sphere, distance: real,
                        origin: Vec3, direction: Vec3, light: Light): (c: Vec3)
    requires ShadeDefined(m, obj, distance, origin, direction, light)
    ensures c == obj.colour || c == Scale(obj.colour, ShadowFactor)
  {
    var intersection := ShadowOrigin(m, obj, SurfacePoint(origin, distance, direction));
    var incedentRay := Sub(light.position, intersection);
    var shadow := NearestHit(m, objects, intersection, Normalise(m, incedentRay));
    var magnitudeIncedentRay := Norm(m, incedentRay);
    if !Shadowed(shadow.dist, magnitudeIncedentRay) then obj.colour
    else Scale(obj.colour, ShadowFactor)
  }

  /** Object `i` meets the ray from `point` towards the light closer than
      the light is. */
  predicate Blocks(m: Maths, objects: seq<Sphere>, i: nat, point: Vec3, light: Light)
    requires m.SqrtSpec() && i < |objects| && Sub(light.position, point) != Zero
  {
    var toLight := Sub(light.position, point);
    var t := HitAt(m, objects, i, point, Normalise(m, toLight));
    t.Some? && t.value < Norm(m, toLight)
  }

  /** Some object of the scene stands between `point` and the light. */
  ghost predicate Occluded(m: Maths, objects: seq<Sphere>, point: Vec3, light: Light)
    requires m.SqrtSpec() && Sub(light.position, point) != Zero
  {
    exists i :: 0 <= i < |objects| && Blocks(m, objects, i, point, light)
  }

  /** The shadow rule in terms of the scene: a hit is darkened exactly when
      some object of the scene, the hit object itself included, blocks the
      light from the lifted hit point. */
  lemma ShadowedIffOccluded(m: Maths, objects: seq<Sphere>, obj: Sphere, distance: real,
                            origin: Vec3, direction: Vec3, light: Light)
    requires ShadeDefined(m, obj, distance, origin, direction, light)
    ensures var point := ShadowOrigin(m, obj, SurfacePoint(origin, distance, direction));
            Illumination(m, objects, obj, distance, origin, direction, light)
              == if Occluded(m, objects, point, light) then Scale(obj.colour, ShadowFactor) else obj.colour
  {
    var point := ShadowOrigin(m, obj, SurfacePoint(origin, distance, direction));
    var toLight := Sub(light.position, point);
    var shadow := NearestHit(m, objects, point, Normalise(m, toLight));
    if Shadowed(shadow.dist, Norm(m, toLight)) {
      var k := shadow.index.value;
      assert Blocks(m, objects, k, point, light);
    } else {
      NearestAmongMinimal(m, objects, point, Normalise(m, toLight), |objects|);
      forall i | 0 <= i < |objects|
        ensures !Blocks(m, objects, i, point, light)
      {
      }
    }
  }

  /** In particular, when the shadow ray meets no object at all
      (`minDist` is infinite) the colour comes back unchanged. */
  lemma UnoccludedKeepsColour(m: Maths, objects: seq<Sphere>, obj: Sphere, distance: real,
                              origin: Vec3, direction: Vec3, light: Light)
    requires ShadeDefined(m, obj, distance, origin, direction, light)
    requires var point := ShadowOrigin(m, obj, SurfacePoint(origin, distance, direction));
             var toLight := Sub(light.position, point);
             forall i :: 0 <= i < |objects| ==> HitAt(m, objects, i, point, Normalise(m, toLight)).None?
    ensures Illumination(m, objects, obj, distance, origin, direction, light) == obj.colour
  {
    var point := ShadowOrigin(m, obj, SurfacePoint(origin, distance, direction));
    NearestAmongMinimal(m, objects, point, Normalise(m, Sub(light.position, point)), |objects|);
  }

  /** A colour in the unit cube. */
  predicate InUnitRange(c: Vec3) {
    0.0 <= c.x <= 1.0 && 0.0 <= c.y <= 1.0 && 0.0 <= c.z <= 1.0
  }

  /** Shading never takes a colour out of `[0, 1]`. */
  lemma IlluminationInUnitRange(m: Maths, objects: seq<Sphere>, obj: Sphere, distance: real,
                                origin: Vec3, direction: Vec3, light: Light)
    requires ShadeDefined(m, obj, distance, origin, direction, light)
    requires InUnitRange(obj.colour)
    ensures InUnitRange(Illumination(m, objects, obj, distance, origin, direction, light))
  {
  }
}
