/**
 * The engine's vector types reduced to what the game rules use: real-valued
 * triples and pairs, differences, squared lengths and the normalisation of a
 * planar vector.  Square roots never appear; a distance `d` is compared
 * through `d * d`, and a length that must be divided by is passed in together
 * with the fact that it squares to the vector's squared length.
 */
module Geometry {

  datatype Vec3 = Vec3(x: real, y: real, z: real)

  datatype Vec2 = Vec2(x: real, y: real)

  const Origin: Vec3 := Vec3(0.0, 0.0, 0.0)

  const Zero2: Vec2 := Vec2(0.0, 0.0)

  /** Unity's `Vector2.normalized` returns the zero vector at or below this length. */
  const NormalizeCutoff: real := 0.00001

  function Abs(a: real): (r: real)
    ensures r >= 0.0 && (r == a || r == -a)
  {
    if a < 0.0 then -a else a
  }

  function Sub(a: Vec3, b: Vec3): Vec3 {
    Vec3(a.x - b.x, a.y - b.y, a.z - b.z)
  }

  function NormSq(v: Vec3): (r: real)
    ensures r >= 0.0
  {
    v.x * v.x + v.y * v.y + v.z * v.z
  }

  /** The square of `Vector3.Distance(a, b)`. */
  function DistSq(a: Vec3, b: Vec3): (r: real)
    ensures r >= 0.0
  {
    NormSq(Sub(a, b))
  }

  /** The squared length of the (x, z) part of a vector, the plane the agents move in. */
  function PlanarNormSq(v: Vec3): (r: real)
    ensures r >= 0.0
  {
    v.x * v.x + v.z * v.z
  }

  function Norm2Sq(v: Vec2): (r: real)
    ensures r >= 0.0
  {
    v.x * v.x + v.y * v.y
  }

  /** The (x, z) part of a vector as a planar pair. */
  function Planar(v: Vec3): (r: Vec2)
    ensures Norm2Sq(r) == PlanarNormSq(v)
  {
    Vec2(v.x, v.z)
  }

  /** `Vector3.Distance(a, b) < radius`, stated without the square root. */
  predicate WithinRadius(a: Vec3, b: Vec3, radius: real) {
    0.0 <= radius && DistSq(a, b) < radius * radius
  }

  /** `Vector3.Distance(a, b) > bound` for a bound that is not negative. */
  predicate FartherThan(a: Vec3, b: Vec3, bound: real)
    requires bound >= 0.0
  {
    DistSq(a, b) > bound * bound
  }

  /**
   * Comparing distances and comparing their squares agree, which is why the
   * squared comparisons above stand for the engine's distance comparisons.
   */
  lemma SquareOrder(d: real, m: real)
    requires d >= 0.0 && m >= 0.0
    ensures d < m <==> d * d < m * m
  {
    var dd, dm, mm := d * d, d * m, m * m;
    if d < m {
      assert dd <= dm;
      assert dm < mm;
    } else {
      assert mm <= dm;
      assert dm <= dd;
    }
  }

  /**
   * `v.normalized`, given `len`, the length of `v`: a unit vector pointing the
   * same way as `v`, or the zero vector when `v` is too short to normalise.
   */
  function Normalized(v: Vec2, len: real): (r: Vec2)
    requires len >= 0.0 && len * len == Norm2Sq(v)
    ensures len <= NormalizeCutoff ==> r == Zero2
    ensures len > NormalizeCutoff ==>
      && Norm2Sq(r) == 1.0
      && r.x * v.y == r.y * v.x
      && r.x * v.x + r.y * v.y > 0.0
  {
    if len > NormalizeCutoff then
      var r := Vec2(v.x / len, v.y / len);
      assert r.x * len == v.x && r.y * len == v.y;
      assert Norm2Sq(r) * (len * len) == Norm2Sq(v) by {
        calc {
          Norm2Sq(r) * (len * len);
          (r.x * len) * (r.x * len) + (r.y * len) * (r.y * len);
          v.x * v.x + v.y * v.y;
        }
      }
      assert (r.x * v.x + r.y * v.y) * len == len * len by {
        calc {
          (r.x * v.x + r.y * v.y) * len;
          (r.x * len) * v.x + (r.y * len) * v.y;
          v.x * v.x + v.y * v.y;
        }
      }
      r
    else
      Zero2
  }
}
