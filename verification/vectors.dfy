/**
 * The engine's value types: 2-D and 3-D vectors and Euler rotations.
 * Coordinates are `real`, an idealisation of rustender's `f64`; only the
 * ring operations (add, sub, dot, cross) are modelled.
 */
module Vectors {

  /** A fixed-length array `[f64; 3]`. */
  type Triple = s: seq<real> | |s| == 3 witness [0.0, 0.0, 0.0]

  datatype Vec3 = Vec3(x: real, y: real, z: real)

  datatype Vec2 = Vec2(x: real, y: real)

  /** Euler angles in radians, one per axis. */
  datatype Rotation = Rotation(x: real, y: real, z: real)

  // ---------------------------------------------------------------- Vec3

  /** `Vec3::new`: stores the coordinates in order, as the array conversion does. */
  function New3(x: real, y: real, z: real): (r: Vec3)
    ensures r.x == x && r.y == y && r.z == z
    ensures r == FromArray([x, y, z])
  {
    Vec3(x, y, z)
  }

  /** `From<[f64; 3]> for Vec3`: element i becomes the i-th coordinate. */
  function FromArray(value: Triple): (r: Vec3)
    ensures [r.x, r.y, r.z] == value
  {
    Vec3(value[0], value[1], value[2])
  }

  /** `impl Add for Vec3`: coordinate-wise sum. */
  function Add3(a: Vec3, b: Vec3): (r: Vec3)
    ensures r.x == a.x + b.x && r.y == a.y + b.y && r.z == a.z + b.z
  {
    FromArray([a.x + b.x, a.y + b.y, a.z + b.z])
  }

  /** `impl Sub for Vec3`: coordinate-wise difference. */
  function Sub3(a: Vec3, b: Vec3): (r: Vec3)
    ensures r.x == a.x - b.x && r.y == a.y - b.y && r.z == a.z - b.z
  {
    FromArray([a.x - b.x, a.y - b.y, a.z - b.z])
  }

  /** `Vec3::dot`: sum of coordinate products; never negative on a vector with itself. */
  function Dot(a: Vec3, b: Vec3): (r: real)
    ensures a == b ==> r >= 0.0
  {
    a.x * b.x + a.y * b.y + a.z * b.z
  }

  /** `Vec3::cross`: a vector orthogonal to both operands. */
  function Cross(a: Vec3, b: Vec3): (r: Vec3)
    ensures Dot(a, r) == 0.0 && Dot(b, r) == 0.0
  {
    FromArray([
      a.y * b.z - a.z * b.y,
      a.z * b.x - a.x * b.z,
      a.x * b.y - a.y * b.x
    ])
  }

  /** Component-wise negation, used to state anti-commutativity of Cross. */
  function Neg3(a: Vec3): Vec3 {
    Vec3(-a.x, -a.y, -a.z)
  }

  const Zero3 := Vec3(0.0, 0.0, 0.0)

  /** Addition commutes. */
  lemma Add3Commutes(a: Vec3, b: Vec3)
    ensures Add3(a, b) == Add3(b, a)
  {
  }

  /** Subtraction and addition undo each other, and a vector minus itself is zero. */
  lemma Vec3AddSubCancel(a: Vec3, b: Vec3)
    ensures Sub3(Add3(a, b), b) == a
    ensures Add3(Sub3(a, b), b) == a
    ensures Sub3(a, a) == Zero3
  {
  }

  /** The worked examples of the vector tests. */
  lemma Vec3Examples()
    ensures New3(1.0, 2.0, 3.0) == FromArray([1.0, 2.0, 3.0])
    ensures Add3(FromArray([1.0, 2.0, 3.0]), FromArray([1.0, 2.0, 3.0])) == FromArray([2.0, 4.0, 6.0])
    ensures Sub3(FromArray([1.0, 2.0, 3.0]), FromArray([1.0, 2.0, 3.0])) == FromArray([0.0, 0.0, 0.0])
  {
  }

  /** The dot product is symmetric. */
  lemma DotSymmetric(a: Vec3, b: Vec3)
    ensures Dot(a, b) == Dot(b, a)
  {
  }

  /** The cross product is anti-commutative and vanishes on a vector with itself. */
  lemma CrossAntiCommutative(a: Vec3, b: Vec3)
    ensures Cross(a, b) == Neg3(Cross(b, a))
    ensures Cross(a, a) == Zero3
  {
  }

  // ---------------------------------------------------------------- Vec2

  /** `Vec2::new`. */
  function New2(x: real, y: real): (r: Vec2)
    ensures r.x == x && r.y == y
  {
    Vec2(x, y)
  }

  /** `impl Add for Vec2`: coordinate-wise sum. */
  function Add2(a: Vec2, b: Vec2): (r: Vec2)
    ensures r.x == a.x + b.x && r.y == a.y + b.y
  {
    Vec2(a.x + b.x, a.y + b.y)
  }

  /** `impl Sub for Vec2`: coordinate-wise difference. */
  function Sub2(a: Vec2, b: Vec2): (r: Vec2)
    ensures r.x == a.x - b.x && r.y == a.y - b.y
  {
    Vec2(a.x - b.x, a.y - b.y)
  }

  /** Subtraction and addition undo each other, and a vector minus itself is zero. */
  lemma Vec2AddSubCancel(a: Vec2, b: Vec2)
    ensures Sub2(Add2(a, b), b) == a
    ensures Add2(Sub2(a, b), b) == a
    ensures Sub2(a, a) == Vec2(0.0, 0.0)
  {
  }

  // ---------------------------------------------------------------- Rotation

  /** `Rotation::new`: one angle per axis, in order. */
  function NewRotation(x: real, y: real, z: real): (r: Rotation)
    ensures r.x == x && r.y == y && r.z == z
  {
    Rotation(x, y, z)
  }
}
