/**
 * The transfer of a scene into the frame buffer. Every mesh, in list order,
 * and every triangle of it, in mesh order, contributes the grid points it
 * covers, each carrying the one glyph chosen for that triangle; a point is
 * written only when it passes the bounds guard, and a later write to a cell
 * replaces an earlier one.
 *
 * How a triangle becomes grid points (rasterizing, projecting with the
 * camera's focal length, truncating to integers) and which glyph its shading
 * picks are parameters here: `cover` and `shade`.
 */
module Transfer {
  import opened Options
  import opened Triangles
  import opened Meshes
  import opened Frames

  /** A projected point, truncated to integer column and row. */
  type Point2 = (int, int)

  /** One attempted write: a point and the glyph of its triangle. */
  datatype Write = Write(x: int, y: int, glyph: char)

  /**
   * The guard in front of every write: the column lies inside a row of width
   * `w` and the row among the `len / w` full rows. A zero width fails at
   * `x < w`, before the division is reached.
   */
  predicate InBounds(x: int, y: int, w: nat, len: nat) {
    x >= 0 && y >= 0 && x < w && y < len / w
  }

  /** Whether write `wr` passes the guard and lands on flat index `n`. */
  predicate Hits(wr: Write, w: nat, len: nat, n: nat) {
    InBounds(wr.x, wr.y, w, len) && IndexOf(wr.x, wr.y, w) == n
  }

  /** A write that passes the guard lands inside the buffer. */
  lemma GuardedIndexInRange(x: int, y: int, w: nat, len: nat)
    requires InBounds(x, y, w, len)
    ensures 0 <= IndexOf(x, y, w) < len
  {
    // x + y * w < (y + 1) * w <= (len / w) * w <= len
    RowsApart(y, len / w, w);
    var _ := CellOf(len, w);
  }

  /**
   * A write that passes the guard lands on the cell `print` draws at the
   * written column and row.
   */
  lemma WriteShowsAtItsCell(x: int, y: int, w: nat, len: nat)
    requires InBounds(x, y, w, len)
    ensures IndexOf(x, y, w) < len && CellOf(IndexOf(x, y, w), w) == (x, y)
  {
    GuardedIndexInRange(x, y, w, len);
    CellIndexRoundTrip(0, x, y, w);
  }

  /** The writes for the points of one triangle, all with its glyph. */
  function Writes(points: seq<Point2>, glyph: char): seq<Write>
    decreases |points|
  {
    if points == [] then []
    else Writes(points[..|points| - 1], glyph) + [Write(points[|points| - 1].0, points[|points| - 1].1, glyph)]
  }

  /** The writes of one triangle: the glyph is chosen once for the triangle. */
  function TriangleWrites(t: Triangle, cover: Triangle -> seq<Point2>, shade: Triangle -> char): seq<Write> {
    var ascii := shade(t);
    Writes(cover(t), ascii)
  }

  /** The writes of a mesh's triangles, in order. */
  function MeshWrites(ts: seq<Triangle>, cover: Triangle -> seq<Point2>, shade: Triangle -> char): seq<Write>
    decreases |ts|
  {
    if ts == [] then []
    else MeshWrites(ts[..|ts| - 1], cover, shade) + TriangleWrites(ts[|ts| - 1], cover, shade)
  }

  /** The writes of a whole scene, mesh after mesh. */
  function SceneWrites(ms: seq<Mesh>, cover: Triangle -> seq<Point2>, shade: Triangle -> char): seq<Write>
    decreases |ms|
  {
    if ms == [] then []
    else SceneWrites(ms[..|ms| - 1], cover, shade) + MeshWrites(ms[|ms| - 1].triangles, cover, shade)
  }

  /**
   * One guarded write: the cell the point names takes the glyph when the
   * point passes the guard; otherwise nothing changes.
   */
  function Apply(cells: seq<char>, w: nat, wr: Write): (r: seq<char>)
    ensures |r| == |cells|
    ensures forall n :: 0 <= n < |cells| ==> r[n] == if Hits(wr, w, |cells|, n) then wr.glyph else cells[n]
  {
    if InBounds(wr.x, wr.y, w, |cells|) then
      GuardedIndexInRange(wr.x, wr.y, w, |cells|);
      cells[IndexOf(wr.x, wr.y, w) := wr.glyph]
    else cells
  }

  /** The buffer after carrying out `ws` in order on `cells`, rows `w` wide. */
  function Paint(cells: seq<char>, w: nat, ws: seq<Write>): (r: seq<char>)
    ensures |r| == |cells|
    decreases |ws|
  {
    if ws == [] then cells
    else Apply(Paint(cells, w, ws[..|ws| - 1]), w, ws[|ws| - 1])
  }

  /** The glyph of the last write among `ws` that hits index `n`, if any. */
  function LastHit(ws: seq<Write>, w: nat, len: nat, n: nat): Option<char>
    decreases |ws|
  {
    if ws == [] then None
    else if Hits(ws[|ws| - 1], w, len, n) then Some(ws[|ws| - 1].glyph)
    else LastHit(ws[..|ws| - 1], w, len, n)
  }

  /** One more write extends the painting by one step. */
  lemma PaintSnoc(cells: seq<char>, w: nat, ws: seq<Write>, wr: Write)
    ensures Paint(cells, w, ws + [wr]) == Apply(Paint(cells, w, ws), w, wr)
  {
    assert (ws + [wr])[..|ws|] == ws;
  }

  /** Every cell ends with the glyph of the last write hitting it, or keeps its own. */
  lemma {:induction false} PaintCell(cells: seq<char>, w: nat, ws: seq<Write>, n: nat)
    requires n < |cells|
    ensures Paint(cells, w, ws)[n] == LastHit(ws, w, |cells|, n).UnwrapOr(cells[n])
    decreases |ws|
  {
    if ws != [] {
      PaintCell(cells, w, ws[..|ws| - 1], n);
    }
  }

  /** LastHit is the glyph of the last hitting write, and None exactly when nothing hits. */
  lemma {:induction false} LastHitIsLast(ws: seq<Write>, w: nat, len: nat, n: nat, k: nat)
    ensures LastHit(ws, w, len, n).None? <==> forall j :: 0 <= j < |ws| ==> !Hits(ws[j], w, len, n)
    ensures k < |ws| && Hits(ws[k], w, len, n) && (forall j :: k < j < |ws| ==> !Hits(ws[j], w, len, n))
            ==> LastHit(ws, w, len, n) == Some(ws[k].glyph)
    decreases |ws|
  {
    if ws != [] {
      var init := ws[..|ws| - 1];
      LastHitIsLast(init, w, len, n, k);
      assert forall j :: 0 <= j < |init| ==> init[j] == ws[j];
    }
  }

  /** A cell that no write hits keeps its glyph. */
  lemma PaintUntouched(cells: seq<char>, w: nat, ws: seq<Write>, n: nat)
    requires n < |cells|
    requires forall j :: 0 <= j < |ws| ==> !Hits(ws[j], w, |cells|, n)
    ensures Paint(cells, w, ws)[n] == cells[n]
  {
    PaintCell(cells, w, ws, n);
    LastHitIsLast(ws, w, |cells|, n, 0);
  }

  /** A cell ends with the glyph of the last write that hits it. */
  lemma PaintLastWins(cells: seq<char>, w: nat, ws: seq<Write>, n: nat, k: nat)
    requires n < |cells| && k < |ws|
    requires Hits(ws[k], w, |cells|, n)
    requires forall j :: k < j < |ws| ==> !Hits(ws[j], w, |cells|, n)
    ensures Paint(cells, w, ws)[n] == ws[k].glyph
  {
    PaintCell(cells, w, ws, n);
    LastHitIsLast(ws, w, |cells|, n, k);
  }

  /** Carrying out two batches of writes is carrying out their concatenation. */
  lemma {:induction false} PaintAppend(cells: seq<char>, w: nat, a: seq<Write>, b: seq<Write>)
    ensures Paint(cells, w, a + b) == Paint(Paint(cells, w, a), w, b)
    decreases |b|
  {
    if b != [] {
      var init := b[..|b| - 1];
      assert a + b == (a + init) + [b[|b| - 1]];
      assert b == init + [b[|b| - 1]];
      PaintAppend(cells, w, a, init);
      PaintSnoc(cells, w, a + init, b[|b| - 1]);
    } else {
      assert a + b == a;
    }
  }

  /** All writes of one triangle carry the glyph shaded for it, one per covered point. */
  lemma {:induction false} OneGlyphPerTriangle(points: seq<Point2>, glyph: char)
    ensures |Writes(points, glyph)| == |points|
    ensures forall k :: 0 <= k < |points| ==>
      Writes(points, glyph)[k] == Write(points[k].0, points[k].1, glyph)
    decreases |points|
  {
    if points != [] {
      OneGlyphPerTriangle(points[..|points| - 1], glyph);
    }
  }

  /** Meshes are visited in list order: the writes of a longer list extend those of its prefix. */
  lemma {:induction false} SceneWritesAppend(a: seq<Mesh>, b: seq<Mesh>, cover: Triangle -> seq<Point2>, shade: Triangle -> char)
    ensures SceneWrites(a + b, cover, shade) == SceneWrites(a, cover, shade) + SceneWrites(b, cover, shade)
    decreases |b|
  {
    if b != [] {
      var init := b[..|b| - 1];
      assert (a + b)[..|a + b| - 1] == a + init;
      assert (a + b)[|a + b| - 1] == b[|b| - 1];
      SceneWritesAppend(a, init, cover, shade);
    } else {
      assert a + b == a;
    }
  }

  /** Triangles are visited in mesh order, in the same sense. */
  lemma {:induction false} MeshWritesAppend(a: seq<Triangle>, b: seq<Triangle>, cover: Triangle -> seq<Point2>, shade: Triangle -> char)
    ensures MeshWrites(a + b, cover, shade) == MeshWrites(a, cover, shade) + MeshWrites(b, cover, shade)
    decreases |b|
  {
    if b != [] {
      var init := b[..|b| - 1];
      assert (a + b)[..|a + b| - 1] == a + init;
      assert (a + b)[|a + b| - 1] == b[|b| - 1];
      MeshWritesAppend(a, init, cover, shade);
    } else {
      assert a + b == a;
    }
  }

  /** The back buffer being filled and the meshes being read. */
  class Transferer {
    const target: AsciiBuffer
    const meshes: seq<Mesh>

    constructor (target: AsciiBuffer, meshes: seq<Mesh>)
      ensures this.target == target && this.meshes == meshes
    {
      this.target := target;
      this.meshes := meshes;
    }

    /**
     * `start_transfering`: carries out the scene's writes on the back buffer,
     * mesh after mesh. The stride and the length of the buffer stay as they
     * were, and the meshes are only read.
     */
    method StartTransfering(cover: Triangle -> seq<Point2>, shade: Triangle -> char)
      modifies target`buffer
      ensures target.buffer == Paint(old(target.buffer), target.chunkWidth, SceneWrites(meshes, cover, shade))
      ensures |target.buffer| == old(|target.buffer|) && target.chunkWidth == old(target.chunkWidth)
    {
      ghost var original := target.buffer;
      var i := 0;
      while i < |meshes|
        invariant i <= |meshes|
        invariant target.buffer == Paint(original, target.chunkWidth, SceneWrites(meshes[..i], cover, shade))
      {
        TransferMesh(meshes[i], cover, shade);
        assert meshes[..i + 1][..i] == meshes[..i];
        PaintAppend(original, target.chunkWidth, SceneWrites(meshes[..i], cover, shade), MeshWrites(meshes[i].triangles, cover, shade));
        i := i + 1;
      }
      assert meshes[..i] == meshes;
    }

    /** The closure run for each mesh: its triangles' writes, in mesh order. */
    method TransferMesh(m: Mesh, cover: Triangle -> seq<Point2>, shade: Triangle -> char)
      modifies target`buffer
      ensures target.buffer == Paint(old(target.buffer), target.chunkWidth, MeshWrites(m.triangles, cover, shade))
    {
      ghost var original := target.buffer;
      var triangles := m.triangles;
      var j := 0;
      while j < |triangles|
        invariant j <= |triangles|
        invariant target.buffer == Paint(original, target.chunkWidth, MeshWrites(triangles[..j], cover, shade))
      {
        TransferTriangle(triangles[j], cover, shade);
        assert triangles[..j + 1][..j] == triangles[..j];
        PaintAppend(original, target.chunkWidth, MeshWrites(triangles[..j], cover, shade), TriangleWrites(triangles[j], cover, shade));
        j := j + 1;
      }
      assert triangles[..j] == triangles;
    }

    /**
     * The closure run for each triangle: the glyph is chosen once, then every
     * covered point is written with it.
     */
    method TransferTriangle(t: Triangle, cover: Triangle -> seq<Point2>, shade: Triangle -> char)
      modifies target`buffer
      ensures target.buffer == Paint(old(target.buffer), target.chunkWidth, TriangleWrites(t, cover, shade))
    {
      ghost var original := target.buffer;
      var ascii := shade(t);
      var points := cover(t);
      var k := 0;
      while k < |points|
        invariant k <= |points|
        invariant target.buffer == Paint(original, target.chunkWidth, Writes(points[..k], ascii))
      {
        var (x, y) := points[k];
        WritePoint(x, y, ascii);
        assert points[..k + 1][..k] == points[..k];
        PaintSnoc(original, target.chunkWidth, Writes(points[..k], ascii), Write(x, y, ascii));
        k := k + 1;
      }
      assert points[..k] == points;
    }

    /** The closure run for each projected point: the guarded `update_at`. */
    method WritePoint(x: int, y: int, ascii: char)
      modifies target`buffer
      ensures target.buffer == Apply(old(target.buffer), target.chunkWidth, Write(x, y, ascii))
    {
      if x >= 0 && y >= 0 && x < target.chunkWidth && y < target.Len() / target.chunkWidth {
        GuardedIndexInRange(x, y, target.chunkWidth, target.Len());
        target.UpdateAt(x, y, ascii);
      }
    }
  }
}
