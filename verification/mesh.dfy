/**
 * Meshes and their fluent builder. Every setter consumes the builder and
 * returns it with one field replaced; `Build` fills in the defaults.
 */
module Meshes {
  import opened Options
  import opened Vectors
  import opened Triangles

  datatype Mesh = Mesh(triangles: seq<Triangle>, position: Vec3, rotation: Rotation, scale: Vec3)

  datatype MeshBuilder = MeshBuilder(
    triangles: seq<Triangle>,
    position: Option<Vec3>,
    rotation: Option<Rotation>,
    scale: Option<Vec3>)

  /** `Mesh::new`: an empty builder. */
  function New(): (b: MeshBuilder)
    ensures b.triangles == [] && b.position == None && b.rotation == None && b.scale == None
  {
    MeshBuilder([], None, None, None)
  }

  /** `build`: keeps the triangle list and defaults each unset field. */
  function Build(b: MeshBuilder): (m: Mesh)
    ensures m.triangles == b.triangles
    ensures m.position == (if b.position.Some? then b.position.value else Vec3(0.0, 0.0, 0.0))
    ensures m.rotation == (if b.rotation.Some? then b.rotation.value else Rotation(0.0, 0.0, 0.0))
    ensures m.scale == (if b.scale.Some? then b.scale.value else Vec3(1.0, 1.0, 1.0))
  {
    Mesh(
      b.triangles,
      b.position.UnwrapOr(FromArray([0.0, 0.0, 0.0])),
      b.rotation.UnwrapOr(NewRotation(0.0, 0.0, 0.0)),
      b.scale.UnwrapOr(FromArray([1.0, 1.0, 1.0])))
  }

  /** `set_triangles`: replaces the list; nothing else changes. */
  function SetTriangles(b: MeshBuilder, triangles: seq<Triangle>): (r: MeshBuilder)
    ensures r.triangles == triangles && r.(triangles := b.triangles) == b
  {
    b.(triangles := triangles)
  }

  /** `add_triangle`: appends after the earlier triangles; nothing else changes. */
  function AddTriangle(b: MeshBuilder, triangle: Triangle): (r: MeshBuilder)
    ensures |r.triangles| == |b.triangles| + 1 && r.triangles[|b.triangles|] == triangle
    ensures r.triangles[..|b.triangles|] == b.triangles && r.(triangles := b.triangles) == b
  {
    b.(triangles := b.triangles + [triangle])
  }

  /** `set_rotation`: the built mesh has exactly these angles; nothing else changes. */
  function SetRotation(b: MeshBuilder, x: real, y: real, z: real): (r: MeshBuilder)
    ensures Build(r).rotation == Rotation(x, y, z) && r.(rotation := b.rotation) == b
  {
    b.(rotation := Some(NewRotation(x, y, z)))
  }

  /** `set_rotation_x`: changes only the x angle of the built mesh; unset axes build to 0 either way. */
  function SetRotationX(b: MeshBuilder, angle: real): (r: MeshBuilder)
    ensures Build(r).rotation == Build(b).rotation.(x := angle) && r.(rotation := b.rotation) == b
  {
    match b.rotation
    case Some(rot) => b.(rotation := Some(rot.(x := angle)))
    case None => b.(rotation := Some(NewRotation(angle, 0.0, 0.0)))
  }

  /** `set_rotation_y`: changes only the y angle of the built mesh. */
  function SetRotationY(b: MeshBuilder, angle: real): (r: MeshBuilder)
    ensures Build(r).rotation == Build(b).rotation.(y := angle) && r.(rotation := b.rotation) == b
  {
    match b.rotation
    case Some(rot) => b.(rotation := Some(rot.(y := angle)))
    case None => b.(rotation := Some(NewRotation(0.0, angle, 0.0)))
  }

  /** `set_rotation_z`: changes only the z angle of the built mesh. */
  function SetRotationZ(b: MeshBuilder, angle: real): (r: MeshBuilder)
    ensures Build(r).rotation == Build(b).rotation.(z := angle) && r.(rotation := b.rotation) == b
  {
    match b.rotation
    case Some(rot) => b.(rotation := Some(rot.(z := angle)))
    case None => b.(rotation := Some(NewRotation(0.0, 0.0, angle)))
  }

  /** `set_position`: the built mesh sits at `position`; nothing else changes. */
  function SetPosition(b: MeshBuilder, position: Vec3): (r: MeshBuilder)
    ensures Build(r).position == position && r.(position := b.position) == b
  {
    b.(position := Some(position))
  }

  /** `set_position_x`: changes only the x coordinate of the built mesh; unset axes build to 0 either way. */
  function SetPositionX(b: MeshBuilder, x: real): (r: MeshBuilder)
    ensures Build(r).position == Build(b).position.(x := x) && r.(position := b.position) == b
  {
    match b.position
    case Some(p) => b.(position := Some(p.(x := x)))
    case None => b.(position := Some(FromArray([x, 0.0, 0.0])))
  }

  /** `set_position_y`: changes only the y coordinate of the built mesh. */
  function SetPositionY(b: MeshBuilder, y: real): (r: MeshBuilder)
    ensures Build(r).position == Build(b).position.(y := y) && r.(position := b.position) == b
  {
    match b.position
    case Some(p) => b.(position := Some(p.(y := y)))
    case None => b.(position := Some(FromArray([0.0, y, 0.0])))
  }

  /** `set_position_z`: changes only the z coordinate of the built mesh. */
  function SetPositionZ(b: MeshBuilder, z: real): (r: MeshBuilder)
    ensures Build(r).position == Build(b).position.(z := z) && r.(position := b.position) == b
  {
    match b.position
    case Some(p) => b.(position := Some(p.(z := z)))
    case None => b.(position := Some(FromArray([0.0, 0.0, z])))
  }

  /** `set_scale`: the built mesh has scale `scale`; nothing else changes. */
  function SetScale(b: MeshBuilder, scale: Vec3): (r: MeshBuilder)
    ensures Build(r).scale == scale && r.(scale := b.scale) == b
  {
    b.(scale := Some(scale))
  }

  /**
   * `set_scale_x`: on a set scale it changes the x factor alone; on an unset
   * scale it fills the other axes with 0, not with the build default 1.
   */
  function SetScaleX(b: MeshBuilder, x: real): (r: MeshBuilder)
    ensures b.scale.Some? ==> Build(r).scale == Build(b).scale.(x := x)
    ensures b.scale.None? ==> Build(r).scale == Vec3(x, 0.0, 0.0)
    ensures r.(scale := b.scale) == b
  {
    match b.scale
    case Some(s) => b.(scale := Some(s.(x := x)))
    case None => b.(scale := Some(FromArray([x, 0.0, 0.0])))
  }

  /** `set_scale_y`: as `set_scale_x`, for the y factor. */
  function SetScaleY(b: MeshBuilder, y: real): (r: MeshBuilder)
    ensures b.scale.Some? ==> Build(r).scale == Build(b).scale.(y := y)
    ensures b.scale.None? ==> Build(r).scale == Vec3(0.0, y, 0.0)
    ensures r.(scale := b.scale) == b
  {
    match b.scale
    case Some(s) => b.(scale := Some(s.(y := y)))
    case None => b.(scale := Some(FromArray([0.0, y, 0.0])))
  }

  /** `set_scale_z`: as `set_scale_x`, for the z factor. */
  function SetScaleZ(b: MeshBuilder, z: real): (r: MeshBuilder)
    ensures b.scale.Some? ==> Build(r).scale == Build(b).scale.(z := z)
    ensures b.scale.None? ==> Build(r).scale == Vec3(0.0, 0.0, z)
    ensures r.(scale := b.scale) == b
  {
    match b.scale
    case Some(s) => b.(scale := Some(s.(z := z)))
    case None => b.(scale := Some(FromArray([0.0, 0.0, z])))
  }

  /** A builder with nothing set builds an empty mesh at the origin, unrotated, at unit scale. */
  lemma BuildEmpty()
    ensures Build(New()) == Mesh([], Vec3(0.0, 0.0, 0.0), Rotation(0.0, 0.0, 0.0), Vec3(1.0, 1.0, 1.0))
  {
  }

  datatype Axis = X | Y | Z

  datatype Field = TrianglesField | RotationField | PositionField | ScaleField

  /** One builder call as a value, so that a property can range over every setter. */
  datatype Call =
    | SetTrianglesCall(ts: seq<Triangle>)
    | AddTriangleCall(t: Triangle)
    | SetRotationCall(rx: real, ry: real, rz: real)
    | SetRotationAxisCall(axis: Axis, angle: real)
    | SetPositionCall(p: Vec3)
    | SetPositionAxisCall(axis: Axis, v: real)
    | SetScaleCall(s: Vec3)
    | SetScaleAxisCall(axis: Axis, v: real)

  /** Carries out one call on the builder. */
  function Perform(b: MeshBuilder, c: Call): MeshBuilder {
    match c
    case SetTrianglesCall(ts) => SetTriangles(b, ts)
    case AddTriangleCall(t) => AddTriangle(b, t)
    case SetRotationCall(x, y, z) => SetRotation(b, x, y, z)
    case SetRotationAxisCall(X, a) => SetRotationX(b, a)
    case SetRotationAxisCall(Y, a) => SetRotationY(b, a)
    case SetRotationAxisCall(Z, a) => SetRotationZ(b, a)
    case SetPositionCall(p) => SetPosition(b, p)
    case SetPositionAxisCall(X, v) => SetPositionX(b, v)
    case SetPositionAxisCall(Y, v) => SetPositionY(b, v)
    case SetPositionAxisCall(Z, v) => SetPositionZ(b, v)
    case SetScaleCall(s) => SetScale(b, s)
    case SetScaleAxisCall(X, v) => SetScaleX(b, v)
    case SetScaleAxisCall(Y, v) => SetScaleY(b, v)
    case SetScaleAxisCall(Z, v) => SetScaleZ(b, v)
  }

  /** The builder field a call writes. */
  function FieldOf(c: Call): Field {
    match c
    case SetTrianglesCall(_) | AddTriangleCall(_) => TrianglesField
    case SetRotationCall(_, _, _) | SetRotationAxisCall(_, _) => RotationField
    case SetPositionCall(_) | SetPositionAxisCall(_, _) => PositionField
    case SetScaleCall(_) | SetScaleAxisCall(_, _) => ScaleField
  }

  /** The axis a per-axis setter writes; None for a call that writes its whole field. */
  function AxisOf(c: Call): Option<Axis> {
    match c
    case SetRotationAxisCall(a, _) => Some(a)
    case SetPositionAxisCall(a, _) => Some(a)
    case SetScaleAxisCall(a, _) => Some(a)
    case _ => None
  }

  /**
   * `later` replaces all that `earlier` wrote: both write the same field, and
   * `later` either sets the field whole or sets the same axis.
   */
  predicate Overrides(later: Call, earlier: Call) {
    && FieldOf(later) == FieldOf(earlier)
    && !later.AddTriangleCall?
    && (AxisOf(later).None? || AxisOf(later) == AxisOf(earlier))
  }

  /** The two calls write different fields, or different axes of one field. */
  predicate Independent(c: Call, d: Call) {
    || FieldOf(c) != FieldOf(d)
    || (AxisOf(c).Some? && AxisOf(d).Some? && AxisOf(c) != AxisOf(d))
  }

  /** For every setter, a later call that overrides an earlier one leaves no trace of it. */
  lemma LastWriteWins(b: MeshBuilder, earlier: Call, later: Call)
    requires Overrides(later, earlier)
    ensures Perform(Perform(b, earlier), later) == Perform(b, later)
  {
    match later
    case SetTrianglesCall(_) =>
    case AddTriangleCall(_) =>
    case SetRotationCall(_, _, _) =>
    case SetPositionCall(_) =>
    case SetScaleCall(_) =>
    case SetRotationAxisCall(_, _) =>
    case SetPositionAxisCall(_, _) =>
    case SetScaleAxisCall(_, _) =>
  }

  /** Two builders hold the same value in field f. */
  predicate Agree(b: MeshBuilder, b': MeshBuilder, f: Field) {
    match f
    case TrianglesField => b.triangles == b'.triangles
    case RotationField => b.rotation == b'.rotation
    case PositionField => b.position == b'.position
    case ScaleField => b.scale == b'.scale
  }

  /** A call leaves every field but its own as it was. */
  lemma PerformFrame(b: MeshBuilder, c: Call)
    ensures forall f: Field :: f != FieldOf(c) ==> Agree(Perform(b, c), b, f)
  {
    match c
    case SetTrianglesCall(_) =>
    case AddTriangleCall(_) =>
    case SetRotationCall(_, _, _) =>
    case SetPositionCall(_) =>
    case SetScaleCall(_) =>
    case SetRotationAxisCall(_, _) =>
    case SetPositionAxisCall(_, _) =>
    case SetScaleAxisCall(_, _) =>
  }

  /** What a call writes depends on nothing but the old value of its own field. */
  lemma PerformLocal(b: MeshBuilder, b': MeshBuilder, c: Call)
    requires Agree(b', b, FieldOf(c))
    ensures Agree(Perform(b, c), Perform(b', c), FieldOf(c))
  {
    match c
    case SetTrianglesCall(_) =>
    case AddTriangleCall(_) =>
    case SetRotationCall(_, _, _) =>
    case SetPositionCall(_) =>
    case SetScaleCall(_) =>
    case SetRotationAxisCall(_, _) =>
    case SetPositionAxisCall(_, _) =>
    case SetScaleAxisCall(_, _) =>
  }

  /** Builders that agree in every field are equal. */
  lemma AgreeEverywhere(b: MeshBuilder, b': MeshBuilder)
    requires forall f: Field :: Agree(b, b', f)
    ensures b == b'
  {
    assert Agree(b, b', TrianglesField) && Agree(b, b', RotationField);
    assert Agree(b, b', PositionField) && Agree(b, b', ScaleField);
  }

  /**
   * Two writes to different fields fc and fd, made in either order, end equal:
   * bc and bd are b after one write each, l is bc after the fd write and r is
   * bd after the fc write.
   */
  lemma FramesCommute(b: MeshBuilder, bc: MeshBuilder, bd: MeshBuilder, l: MeshBuilder, r: MeshBuilder, fc: Field, fd: Field)
    requires fc != fd
    requires forall f: Field :: f != fc ==> Agree(bc, b, f)
    requires forall f: Field :: f != fd ==> Agree(bd, b, f)
    requires forall f: Field :: f != fd ==> Agree(l, bc, f)
    requires forall f: Field :: f != fc ==> Agree(r, bd, f)
    requires Agree(bc, r, fc) && Agree(bd, l, fd)
    ensures l == r
  {
    forall f: Field
      ensures Agree(l, r, f)
    {
      if f == fc {
        assert Agree(l, bc, f) && Agree(bc, r, f);
      } else if f == fd {
        assert Agree(l, bd, f) && Agree(r, bd, f);
      } else {
        assert Agree(l, bc, f) && Agree(bc, b, f) && Agree(r, bd, f) && Agree(bd, b, f);
      }
      match f {
        case TrianglesField =>
        case RotationField =>
        case PositionField =>
        case ScaleField =>
      }
    }
    AgreeEverywhere(l, r);
  }

  /** Setting two different rotation angles, in either order, gives the same builder. */
  lemma RotationAxesCommute(b: MeshBuilder, a1: Axis, p: real, a2: Axis, q: real)
    requires a1 != a2
    ensures Perform(Perform(b, SetRotationAxisCall(a1, p)), SetRotationAxisCall(a2, q))
         == Perform(Perform(b, SetRotationAxisCall(a2, q)), SetRotationAxisCall(a1, p))
  {
    match b.rotation {
      case None =>
      case Some(_) =>
    }
  }

  /** Setting two different position coordinates, in either order, gives the same builder. */
  lemma PositionAxesCommute(b: MeshBuilder, a1: Axis, p: real, a2: Axis, q: real)
    requires a1 != a2
    ensures Perform(Perform(b, SetPositionAxisCall(a1, p)), SetPositionAxisCall(a2, q))
         == Perform(Perform(b, SetPositionAxisCall(a2, q)), SetPositionAxisCall(a1, p))
  {
    match b.position {
      case None =>
      case Some(_) =>
    }
  }

  /** Setting two different scale factors, in either order, gives the same builder. */
  lemma ScaleAxesCommute(b: MeshBuilder, a1: Axis, p: real, a2: Axis, q: real)
    requires a1 != a2
    ensures Perform(Perform(b, SetScaleAxisCall(a1, p)), SetScaleAxisCall(a2, q))
         == Perform(Perform(b, SetScaleAxisCall(a2, q)), SetScaleAxisCall(a1, p))
  {
    match b.scale {
      case None =>
      case Some(_) =>
    }
  }

  /** Calls to different fields, or to different axes of one field, commute. */
  lemma IndependentCallsCommute(b: MeshBuilder, c: Call, d: Call)
    requires Independent(c, d)
    ensures Perform(Perform(b, c), d) == Perform(Perform(b, d), c)
  {
    if FieldOf(c) == FieldOf(d) {
      match c
      case SetRotationAxisCall(a1, p) => RotationAxesCommute(b, a1, p, d.axis, d.angle);
      case SetPositionAxisCall(a1, p) => PositionAxesCommute(b, a1, p, d.axis, d.v);
      case SetScaleAxisCall(a1, p) => ScaleAxesCommute(b, a1, p, d.axis, d.v);
    } else {
      var bc, bd := Perform(b, c), Perform(b, d);
      PerformFrame(b, c);
      PerformFrame(b, d);
      PerformFrame(bc, d);
      PerformFrame(bd, c);
      PerformLocal(b, bd, c);
      PerformLocal(b, bc, d);
      FramesCommute(b, bc, bd, Perform(bc, d), Perform(bd, c), FieldOf(c), FieldOf(d));
    }
  }

  /** The mesh test: set triangles, zero the rotation, then set its x angle. */
  lemma MeshInitExample()
    ensures
      var t := FromRows([[1.0, 1.0, 1.0], [2.0, 2.0, 2.0], [3.0, 3.0, 3.0]]);
      Build(SetRotationX(SetRotation(SetTriangles(New(), [t]), 0.0, 0.0, 0.0), 2.0))
        == Mesh([t], FromArray([0.0, 0.0, 0.0]), NewRotation(2.0, 0.0, 0.0), FromArray([1.0, 1.0, 1.0]))
  {
  }
}
