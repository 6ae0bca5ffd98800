/**
 * The character frame buffer: a flat, row-major sequence of glyphs whose rows
 * are `chunkWidth` cells wide. Cell (x, y) lives at index `x + y * chunkWidth`.
 */
module Frames {
  /** Rust's `u32`, the type of the row stride. */
  type U32 = n: nat | n < 0x1_0000_0000

  /** Where `print` puts a glyph: the cursor column and row, each cast to `u16`. */
  datatype Placement = Placement(column: nat, row: nat, glyph: char)

  /** The `as u16` cast of a non-negative index: it keeps the low 16 bits. */
  function U16(n: nat): (r: nat)
    ensures r < 0x1_0000 && (n < 0x1_0000 ==> r == n)
  {
    n % 0x1_0000
  }

  /** The (column, row) of flat index `i` in rows of width `w`. */
  function CellOf(i: nat, w: nat): (c: (nat, nat))
    requires w > 0
    ensures c.0 < w && i == c.0 + c.1 * w
  {
    (i % w, i / w)
  }

  /** The flat index of cell (x, y): the inverse of CellOf. */
  function IndexOf(x: nat, y: nat, w: nat): nat {
    x + y * w
  }

  /** Rows further down start at least one whole row later. */
  lemma {:induction false} RowsApart(a: nat, b: nat, w: nat)
    ensures a < b ==> a * w + w <= b * w
  {
    if a < b {
      assert b * w == (b - 1) * w + w;
      RowsApart(a, b - 1, w);
    }
  }

  /** A flat index and a column inside the row determine each other. */
  lemma CellIndexRoundTrip(i: nat, x: nat, y: nat, w: nat)
    requires w > 0
    ensures IndexOf(CellOf(i, w).0, CellOf(i, w).1, w) == i
    ensures x < w ==> CellOf(IndexOf(x, y, w), w) == (x, y)
  {
    // Two decompositions with both columns below w have equal rows: otherwise
    // the rows would differ by a whole row of w cells.
    var c := CellOf(IndexOf(x, y, w), w);
    RowsApart(c.1, y, w);
    RowsApart(y, c.1, w);
  }

  /** Distinct indices sit at distinct cells. */
  lemma CellOfInjective(i: nat, j: nat, w: nat)
    requires w > 0
    ensures CellOf(i, w) == CellOf(j, w) <==> i == j
  {
  }

  /** Where `print` draws glyph `g` found at flat index `i`. */
  function PlacementOf(i: nat, w: nat, g: char): Placement
    requires w > 0
  {
    Placement(U16(CellOf(i, w).0), U16(CellOf(i, w).1), g)
  }

  class AsciiBuffer {
    var buffer: seq<char>
    var chunkWidth: U32

    /** `AsciiBuffer::new`: stores exactly the given glyphs and stride. */
    constructor (chunkWidth: U32, buff: seq<char>)
      ensures this.buffer == buff && this.chunkWidth == chunkWidth
    {
      this.buffer := buff;
      this.chunkWidth := chunkWidth;
    }

    /** `set`: replaces the glyphs and keeps the stride. */
    method Set(buff: seq<char>)
      modifies this`buffer
      ensures buffer == buff && chunkWidth == old(chunkWidth)
    {
      buffer := buff;
    }

    /** `len`: the number of glyphs held. */
    function Len(): (n: nat)
      reads this
      ensures n == |buffer|
    {
      |buffer|
    }

    /**
     * `chunk`: a fresh buffer with the same stride holding a copy of glyphs
     * `start` up to `end`; slicing out of range panics in the Rust code.
     */
    method Chunk(start: nat, end: nat) returns (c: AsciiBuffer)
      requires start <= end <= |buffer|
      ensures fresh(c) && c.chunkWidth == chunkWidth
      ensures |c.buffer| == end - start
      ensures forall k :: 0 <= k < end - start ==> c.buffer[k] == buffer[start + k]
    {
      c := new AsciiBuffer(chunkWidth, buffer[start..end]);
    }

    /**
     * Writes glyph `g` at cell (x, y), that is at index `x + y * chunkWidth`;
     * indexing past the end panics.
     */
    method UpdateAt(x: nat, y: nat, g: char)
      requires IndexOf(x, y, chunkWidth) < |buffer|
      modifies this`buffer
      ensures buffer == old(buffer)[IndexOf(x, y, chunkWidth) := g]
      ensures chunkWidth == old(chunkWidth)
    {
      buffer := buffer[x + y * chunkWidth := g];
    }

    /**
     * The placements `print` draws, one per glyph in index order: glyph i goes
     * to its column and row in the grid, each truncated to 16 bits. A zero
     * stride with glyphs to draw divides by zero in the Rust code.
     */
    method Print() returns (ps: seq<Placement>)
      requires chunkWidth > 0 || |buffer| == 0
      ensures |ps| == |buffer|
      ensures forall i :: 0 <= i < |ps| ==> ps[i] == PlacementOf(i, chunkWidth, buffer[i])
    {
      ps := [];
      for i := 0 to |buffer|
        invariant |ps| == i
        invariant forall k :: 0 <= k < i ==> ps[k] == PlacementOf(k, chunkWidth, buffer[k])
      {
        var x := i % chunkWidth;
        var y := i / chunkWidth;
        ps := ps + [Placement(U16(x), U16(y), buffer[i])];
      }
    }
  }

  /**
   * While the grid fits the 16-bit cursor, `print` puts every glyph in a cell
   * of its own, in the column range of the stride.
   */
  lemma PrintPlacesApart(ps: seq<Placement>, buffer: seq<char>, w: nat)
    requires w > 0 && w <= 0x1_0000 && |buffer| <= w * 0x1_0000
    requires |ps| == |buffer|
    requires forall i :: 0 <= i < |ps| ==> ps[i] == PlacementOf(i, w, buffer[i])
    ensures forall i :: 0 <= i < |ps| ==> ps[i].column < w && IndexOf(ps[i].column, ps[i].row, w) == i
    ensures forall i, j :: 0 <= i < j < |ps| ==> (ps[i].column, ps[i].row) != (ps[j].column, ps[j].row)
  {
    forall i | 0 <= i < |ps|
      ensures ps[i].column < w && IndexOf(ps[i].column, ps[i].row, w) == i
    {
      // A row at or past 0x1_0000 would start at or past the end of the buffer.
      RowsApart(0xFFFF, CellOf(i, w).1, w);
    }
  }
}
