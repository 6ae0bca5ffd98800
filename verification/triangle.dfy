/** Triangles: three corner points whose order gives the winding. */
module Triangles {
  import opened Vectors

  /** A fixed-length array `[Vec3; 3]`. */
  type Corners = s: seq<Vec3> | |s| == 3 witness [Zero3, Zero3, Zero3]

  /** A fixed-length array `[[f64; 3]; 3]`, one row per corner. */
  type Rows = s: seq<Triple> | |s| == 3 witness [ZeroRow, ZeroRow, ZeroRow]

  const ZeroRow: Triple := [0.0, 0.0, 0.0]

  datatype Triangle = Triangle(vertices: Corners)

  /** `Triangle::new`: keeps the corners in the given order. */
  function New(vertices: Corners): (r: Triangle)
    ensures forall i :: 0 <= i < 3 ==> r.vertices[i] == vertices[i]
  {
    Triangle(vertices)
  }

  /** `From<[Vec3; 3]> for Triangle`: the same triangle `new` makes. */
  function FromVertices(value: Corners): (r: Triangle)
    ensures r.vertices == value
  {
    New(value)
  }

  /** `From<[[f64; 3]; 3]> for Triangle`: each row becomes one corner, coordinates in order. */
  function FromRows(value: Rows): (r: Triangle)
    ensures forall i :: 0 <= i < 3 ==> r.vertices[i] == Vec3(value[i][0], value[i][1], value[i][2])
  {
    New([
      FromArray([value[0][0], value[0][1], value[0][2]]),
      FromArray([value[1][0], value[1][1], value[1][2]]),
      FromArray([value[2][0], value[2][1], value[2][2]])
    ])
  }

  /** Both conversion routes give the same triangle for the same numbers. */
  lemma ConversionsAgree(value: Rows)
    ensures FromRows(value) == FromVertices([FromArray(value[0]), FromArray(value[1]), FromArray(value[2])])
  {
    var t := FromRows(value);
    assert t.vertices[0] == FromArray(value[0]);
    assert t.vertices[1] == FromArray(value[1]);
    assert t.vertices[2] == FromArray(value[2]);
  }

  /** The worked example of the triangle test. */
  lemma TriangleExample()
    ensures FromVertices([FromArray([1.0, 1.1, 1.1]), FromArray([2.0, 2.1, 2.1]), FromArray([3.0, 3.1, 3.1])])
         == FromRows([[1.0, 1.1, 1.1], [2.0, 2.1, 2.1], [3.0, 3.1, 3.1]])
  {
  }
}
