/** The camera and its builder. The builder never sets a rotation. */
module Cameras {
  import opened Options
  import opened Vectors

  datatype Camera = Camera(location: Vec3, width: nat, height: nat, rotation: Rotation, fov: real)

  datatype CameraBuilder = CameraBuilder(
    location: Option<Vec3>,
    width: Option<nat>,
    height: Option<nat>,
    fov: Option<real>)

  /** `Camera::new`: a builder with every field unset. */
  function New(): (b: CameraBuilder)
    ensures b.location == None && b.width == None && b.height == None && b.fov == None
  {
    CameraBuilder(None, None, None, None)
  }

  /**
   * `build`: the location defaults to the origin, the size to 100 by 60 and
   * the field of view to 90; the rotation is always zero.
   */
  function Build(b: CameraBuilder): (c: Camera)
    ensures c.location == (if b.location.Some? then b.location.value else Vec3(0.0, 0.0, 0.0))
    ensures c.width == (if b.width.Some? then b.width.value else 100)
    ensures c.height == (if b.height.Some? then b.height.value else 60)
    ensures c.fov == (if b.fov.Some? then b.fov.value else 90.0)
    ensures c.rotation == Rotation(0.0, 0.0, 0.0)
  {
    Camera(
      b.location.UnwrapOr(FromArray([0.0, 0.0, 0.0])),
      b.width.UnwrapOr(100),
      b.height.UnwrapOr(60),
      NewRotation(0.0, 0.0, 0.0),
      b.fov.UnwrapOr(90.0))
  }

  /** `location`: overrides exactly the location of the built camera. */
  function Location(b: CameraBuilder, location: Vec3): (r: CameraBuilder)
    ensures Build(r) == Build(b).(location := location)
    ensures r.(location := b.location) == b
  {
    b.(location := Some(location))
  }

  /** `width`: overrides exactly the width of the built camera. */
  function Width(b: CameraBuilder, width: nat): (r: CameraBuilder)
    ensures Build(r) == Build(b).(width := width)
    ensures r.(width := b.width) == b
  {
    b.(width := Some(width))
  }

  /** `height`: overrides exactly the height of the built camera. */
  function Height(b: CameraBuilder, height: nat): (r: CameraBuilder)
    ensures Build(r) == Build(b).(height := height)
    ensures r.(height := b.height) == b
  {
    b.(height := Some(height))
  }

  /** `fov`: overrides exactly the field of view of the built camera. */
  function Fov(b: CameraBuilder, fov: real): (r: CameraBuilder)
    ensures Build(r) == Build(b).(fov := fov)
    ensures r.(fov := b.fov) == b
  {
    b.(fov := Some(fov))
  }

  /** A builder with nothing set builds a 100 by 60 camera at the origin with a 90 field of view. */
  lemma BuildEmpty()
    ensures Build(New()) == Camera(Vec3(0.0, 0.0, 0.0), 100, 60, Rotation(0.0, 0.0, 0.0), 90.0)
  {
  }

  /** For every setter the last write wins, and every two setters of different fields commute. */
  lemma SettersOrderIndependent(b: CameraBuilder, l1: Vec3, l2: Vec3, w1: nat, w2: nat, h1: nat, h2: nat, f1: real, f2: real)
    ensures Location(Location(b, l1), l2) == Location(b, l2)
    ensures Width(Width(b, w1), w2) == Width(b, w2)
    ensures Height(Height(b, h1), h2) == Height(b, h2)
    ensures Fov(Fov(b, f1), f2) == Fov(b, f2)
    ensures Location(Width(b, w1), l1) == Width(Location(b, l1), w1)
    ensures Location(Height(b, h1), l1) == Height(Location(b, l1), h1)
    ensures Location(Fov(b, f1), l1) == Fov(Location(b, l1), f1)
    ensures Width(Height(b, h1), w1) == Height(Width(b, w1), h1)
    ensures Width(Fov(b, f1), w1) == Fov(Width(b, w1), f1)
    ensures Height(Fov(b, f1), h1) == Fov(Height(b, h1), f1)
  {
  }

  /** The documented example: location (1,0,0), width 80, height 50. */
  lemma CameraExample()
    ensures Build(Height(Width(Location(New(), FromArray([1.0, 0.0, 0.0])), 80), 50))
         == Camera(Vec3(1.0, 0.0, 0.0), 80, 50, Rotation(0.0, 0.0, 0.0), 90.0)
  {
  }
}
