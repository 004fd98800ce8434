/** Ray–sphere intersection and the nearest-object query along a ray. */
module Intersection {
  import opened Geometry

  /** A scene object: `{'centre', 'radius', 'colour'}`. */
  datatype Sphere = Sphere(centre: Vec3, radius: real, colour: Vec3)

  /** The coefficients of `a t² + b t + c`, whose roots are where the ray
      `start + t * direction` meets the sphere. */
  datatype Quadratic = Quadratic(a: real, b: real, c: real)

  function RayQuadratic(centre: Vec3, radius: real, start: Vec3, direction: Vec3): Quadratic {
    var x := Sub(start, centre);
    Quadratic(Dot(direction, direction), 2.0 * Dot(x, direction), Dot(x, x) - radius * radius)
  }

  function Discriminant(q: Quadratic): real {
    q.b * q.b - 4.0 * q.a * q.c
  }

  /** `t1` of `sphereIntersect`; note the division by 2 rather than 2a. */
  function FarRoot(m: Maths, q: Quadratic): real {
    (-q.b + m.sqrt(Discriminant(q))) / 2.0
  }

  /** `t2` of `sphereIntersect`. */
  function NearRoot(m: Maths, q: Quadratic): real {
    (-q.b - m.sqrt(Discriminant(q))) / 2.0
  }

  /** Python's `min(a, b)`: `b` only when it is strictly smaller. */
  function Min(a: real, b: real): (r: real)
    ensures r <= a && r <= b
    ensures r == a || r == b
  {
    if b < a then b else a
  }

  /** `sphereIntersect`: the distance along the ray to the sphere, reported
      only when the discriminant is positive and both roots lie strictly
      ahead of the start point. A tangent ray (discriminant zero) misses. */
  function SphereIntersect(m: Maths, centre: Vec3, radius: real, start: Vec3, direction: Vec3): (t: Option<real>)
    ensures Discriminant(RayQuadratic(centre, radius, start, direction)) <= 0.0 ==> t == None
    ensures t.Some? ==> 0.0 < t.value
  {
    var q := RayQuadratic(centre, radius, start, direction);
    var disc := Discriminant(q);
    if disc > 0.0 then
      var t1 := FarRoot(m, q);
      var t2 := NearRoot(m, q);
      if t1 > 0.0 && t2 > 0.0 then Some(Min(t1, t2)) else None
    else None
  }

  /** A hit is reported exactly when the discriminant is positive and the
      nearer root is positive, and the value reported is that nearer root
      `t2 = (-b - sqrt(disc)) / 2`. */
  lemma SphereIntersectNearRoot(m: Maths, centre: Vec3, radius: real, start: Vec3, direction: Vec3)
    requires m.SqrtSpec()
    ensures var q := RayQuadratic(centre, radius, start, direction);
            var t := SphereIntersect(m, centre, radius, start, direction);
            (t.Some? <==> 0.0 < Discriminant(q) && 0.0 < NearRoot(m, q))
            && (t.Some? ==> t.value == NearRoot(m, q) && NearRoot(m, q) <= FarRoot(m, q))
  {
    var q := RayQuadratic(centre, radius, start, direction);
    if 0.0 < Discriminant(q) {
      assert m.SqrtAt(Discriminant(q));
      assert 0.0 <= m.sqrt(Discriminant(q));
    }
  }

  lemma SquareLess(x: real, y: real)
    requires 0.0 <= x < y
    ensures x * x < y * y
  {
    MulPos(y - x, y + x);
    calc {
      y * y - x * x;
      ==
      (y - x) * (y + x);
      >
      0.0;
    }
  }

  /** For a non-negative square root `s` of the discriminant `b² - 4c` (unit direction, so `a = 1`):
      `-b > s` exactly when `b < 0` and `c > 0`. */
  lemma NearRootPositiveIff(b: real, c: real, s: real)
    requires 0.0 <= s && s * s == b * b - 4.0 * c
    ensures s < -b <==> b < 0.0 && 0.0 < c
  {
    if s < -b {
      SquareLess(s, -b);
      calc {
        4.0 * c;
        ==
        b * b - s * s;
        ==
        (-b) * (-b) - s * s;
        >
        0.0;
      }
    }
    if b < 0.0 && 0.0 < c && -b <= s {
      if -b < s {
        SquareLess(-b, s);
      }
      assert false;
    }
  }

  /** With a unit direction, `sphereIntersect` reports a hit exactly when
      the start point is strictly outside the sphere (`c > 0`), the ray
      heads towards the centre (`b < 0`) and the line crosses the sphere at
      two points (`disc > 0`): a start point inside the sphere, a sphere
      behind the start, or a line that misses or only touches it, is a
      miss. */
  lemma HitIffOutsideAndFacing(m: Maths, centre: Vec3, radius: real, start: Vec3, direction: Vec3)
    requires m.SqrtSpec() && Dot(direction, direction) == 1.0
    ensures var q := RayQuadratic(centre, radius, start, direction);
            var hit := SphereIntersect(m, centre, radius, start, direction).Some?;
            hit <==> 0.0 < q.c && q.b < 0.0 && 0.0 < Discriminant(q)
  {
    var q := RayQuadratic(centre, radius, start, direction);
    SphereIntersectNearRoot(m, centre, radius, start, direction);
    if 0.0 < Discriminant(q) {
      var s := m.sqrt(Discriminant(q));
      assert m.SqrtAt(Discriminant(q));
      assert 0.0 <= s && s * s == Discriminant(q);
      assert Discriminant(q) == q.b * q.b - 4.0 * q.c;
      NearRootPositiveIff(q.b, q.c, s);
    }
  }

  /** `|x + t d|² = |x|² + 2t (x·d) + t² |d|²`. */
  lemma DotExpand(x: Vec3, d: Vec3, t: real)
    ensures Dot(Add(x, Scale(d, t)), Add(x, Scale(d, t)))
         == Dot(x, x) + t * (2.0 * Dot(x, d)) + t * t * Dot(d, d)
  {
  }

  /** `t2 = (-b - s) / 2` is a root of `t² + b t + c` when `s² = b² - 4c`. */
  lemma NearRootSolves(b: real, c: real, s: real)
    requires s * s == b * b - 4.0 * c
    ensures var t := (-b - s) / 2.0; t * t + b * t + c == 0.0
  {
    var t := (-b - s) / 2.0;
    calc {
      t * t + b * t + c;
      ==
      (b * b + 2.0 * b * s + s * s) / 4.0 - (b * b + b * s) / 2.0 + c;
      ==
      (s * s - b * b) / 4.0 + c;
      ==
      0.0;
    }
  }

  /** Point `p` lies on the surface of the sphere. */
  ghost predicate OnSurface(p: Vec3, centre: Vec3, radius: real) {
    Dot(Sub(p, centre), Sub(p, centre)) == radius * radius
  }

  /** With a unit direction the reported distance is a true one: the point
      `start + t * direction` lies on the sphere's surface. */
  lemma HitOnSurface(m: Maths, centre: Vec3, radius: real, start: Vec3, direction: Vec3, t: real)
    requires m.SqrtSpec() && Dot(direction, direction) == 1.0
    requires SphereIntersect(m, centre, radius, start, direction) == Some(t)
    ensures OnSurface(Add(start, Scale(direction, t)), centre, radius)
  {
    var q := RayQuadratic(centre, radius, start, direction);
    SphereIntersectNearRoot(m, centre, radius, start, direction);
    var s := m.sqrt(Discriminant(q));
    assert m.SqrtAt(Discriminant(q));
    assert 0.0 <= s && s * s == Discriminant(q);
    assert s * s == q.b * q.b - 4.0 * q.c;
    NearRootSolves(q.b, q.c, s);
    var x := Sub(start, centre);
    var p := Add(start, Scale(direction, t));
    assert Sub(p, centre) == Add(x, Scale(direction, t));
    DotExpand(x, direction, t);
    calc {
      Dot(Sub(p, centre), Sub(p, centre));
      ==
      Dot(x, x) + t * q.b + t * t * 1.0;
      ==
      (t * t + q.b * t + q.c) + radius * radius;
      ==
      radius * radius;
    }
  }

  /** The hit distance of object `i` along a ray: one element of the
      `distances` list in `nearestObject`. */
  function HitAt(m: Maths, objects: seq<Sphere>, i: nat, origin: Vec3, direction: Vec3): Option<real>
    requires i < |objects|
  {
    SphereIntersect(m, objects[i].centre, objects[i].radius, origin, direction)
  }

  /** The list comprehension of `nearestObject`. Every entry is `None` or a
      strictly positive distance, so the loop's truth test `if dist` drops
      exactly the misses: a reported distance is never the falsy `0.0`. */
  function Distances(m: Maths, objects: seq<Sphere>, origin: Vec3, direction: Vec3): (ds: seq<Option<real>>)
    ensures |ds| == |objects|
    ensures forall i :: 0 <= i < |ds| ==> ds[i] == HitAt(m, objects, i, origin, direction)
    ensures forall i :: 0 <= i < |ds| ==> (Truthy(ds[i]) <==> ds[i].Some?)
  {
    seq(|objects|, i requires 0 <= i < |objects| => HitAt(m, objects, i, origin, direction))
  }

  /** `np.inf` or a finite distance. */
  datatype Distance = Finite(value: real) | Infinite

  /** Python's truth test `if dist`: neither `None` nor `0.0`. */
  predicate Truthy(d: Option<real>) {
    d.Some? && d.value != 0.0
  }

  /** `d < minDist`, with every real below `np.inf`. */
  predicate Below(d: real, bound: Distance) {
    bound.Infinite? || d < bound.value
  }

  /** The index of the nearest object so far (`None` for Python's `None`)
      and `minDist`. */
  datatype Nearest = Nearest(index: Option<nat>, dist: Distance)

  /** The state `(nearest, minDist)` of `nearestObject`'s loop after it has
      looked at the first `n` distances: it keeps the first truthy distance
      strictly below the best so far, so it ends on the first object whose
      hit distance is smallest, or on `None` and infinity when no object is
      hit. */
  function NearestAmong(m: Maths, objects: seq<Sphere>, origin: Vec3, direction: Vec3, n: nat): (r: Nearest)
    requires n <= |objects|
    ensures r.index.None? <==> r.dist.Infinite?
    ensures r.index.Some? ==>
              var k := r.index.value;
              k < n && 0.0 < r.dist.value
              && HitAt(m, objects, k, origin, direction) == Some(r.dist.value)
  {
    if n == 0 then Nearest(None, Infinite)
    else
      var before := NearestAmong(m, objects, origin, direction, n - 1);
      var dist := HitAt(m, objects, n - 1, origin, direction);
      if Truthy(dist) && Below(dist.value, before.dist) then Nearest(Some(n - 1), Finite(dist.value))
      else before
  }

  /** `nearestObject` as a function of the scene: its loop run over every
      object. */
  function NearestHit(m: Maths, objects: seq<Sphere>, origin: Vec3, direction: Vec3): Nearest {
    NearestAmong(m, objects, origin, direction, |objects|)
  }

  /** The object `nearestObject`'s loop settles on is the nearest one hit:
      it reports no object exactly when none is hit, its distance is at most
      every hit distance, and every object before it is strictly farther
      (ties go to the earlier object). */
  lemma {:induction false} NearestAmongMinimal(m: Maths, objects: seq<Sphere>, origin: Vec3, direction: Vec3, n: nat)
    requires n <= |objects|
    ensures var r := NearestAmong(m, objects, origin, direction, n);
            (r.index.None? <==> forall i :: 0 <= i < n ==> HitAt(m, objects, i, origin, direction).None?)
            && (r.index.Some? ==>
                  forall i :: 0 <= i < n && HitAt(m, objects, i, origin, direction).Some? ==>
                    r.dist.value <= HitAt(m, objects, i, origin, direction).value)
            && (r.index.Some? ==>
                  forall i :: 0 <= i < r.index.value && HitAt(m, objects, i, origin, direction).Some? ==>
                    r.dist.value < HitAt(m, objects, i, origin, direction).value)
  {
    if n > 0 {
      NearestAmongMinimal(m, objects, origin, direction, n - 1);
    }
  }

  /** Along a unit direction, the distance `nearestObject` reports is a true
      distance: it names a point on the surface of the object it returns. */
  lemma NearestHitOnSurface(m: Maths, objects: seq<Sphere>, origin: Vec3, direction: Vec3)
    requires m.SqrtSpec() && Dot(direction, direction) == 1.0
    requires NearestHit(m, objects, origin, direction).index.Some?
    ensures var n := NearestHit(m, objects, origin, direction);
            var obj := objects[n.index.value];
            OnSurface(Add(origin, Scale(direction, n.dist.value)), obj.centre, obj.radius)
  {
    var n := NearestHit(m, objects, origin, direction);
    var obj := objects[n.index.value];
    HitOnSurface(m, obj.centre, obj.radius, origin, direction, n.dist.value);
  }

  /** `nearestObject`: scans the scene once, keeping the first object whose
      hit distance is strictly below the best so far. */
  method NearestObject(m: Maths, objects: seq<Sphere>, origin: Vec3, direction: Vec3)
    returns (nearest: Option<Sphere>, minDist: Distance)
    ensures var n := NearestHit(m, objects, origin, direction);
            minDist == n.dist
            && nearest == (if n.index.Some? then Some(objects[n.index.value]) else None)
  {
    var distances := Distances(m, objects, origin, direction);
    nearest := None;
    minDist := Infinite;
    ghost var index: Option<nat> := None;
    for i := 0 to |distances|
      invariant Nearest(index, minDist) == NearestAmong(m, objects, origin, direction, i)
      invariant nearest == (if index.Some? then Some(objects[index.value]) else None)
    {
      var dist := distances[i];
      if Truthy(dist) && Below(dist.value, minDist) {
        minDist := Finite(dist.value);
        nearest := Some(objects[i]);
        index := Some(i);
      }
    }
  }
}
