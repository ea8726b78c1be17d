/** The plane mesh sample (`NodeMeshGenerator`): a grid of `width` × `height` cells whose
    (width+1) × (height+1) vertices are evaluated row by row through the graph, and whose
    cells are split into two triangles each. Only the integer side is modelled: the size
    clamp, the order and flags of the vertex evaluations, and the triangle index list. */
module GridMesh {
  import opened MeshArith

  /** `ProcessAsset`: `Mathf.Max(n, 1)`, the least size of at least 1 and at least `n`. */
  function Clamp(n: int): (r: int)
    ensures r >= 1 && r >= n
    ensures r == n || r == 1
  {
    if n < 1 then 1 else n
  }

  /** Clamping a clamped size changes nothing. */
  lemma {:induction false} ClampIdempotent(n: int)
    ensures Clamp(Clamp(n)) == Clamp(n)
  {
  }

  /** The number of vertices of a grid of `w` × `h` cells (`verticesCount`). */
  function VertexCount(w: nat, h: nat): nat {
    (w + 1) * (h + 1)
  }

  /** The place of vertex (x, y) in the vertex arrays: rows of `w + 1` vertices. */
  function VertexIndex(w: nat, x: nat, y: nat): nat {
    y * (w + 1) + x
  }

  /** One evaluation of the graph: the grid coordinates fed to the X and Y inputs (before
      they are divided by the size) and the Start flag. */
  datatype Sample = Sample(x: nat, y: nat, start: bool)

  /** The evaluation for array slot `i`: its column, its row, and Start set on slot 0. */
  function SampleAt(w: nat, i: nat): Sample {
    Sample(i % (w + 1), i / (w + 1), i == 0)
  }

  /** The vertex at (x, y) is evaluated with exactly those coordinates, and Start is set
      only for the corner (0, 0). */
  lemma {:induction false} SampleOfVertex(w: nat, x: nat, y: nat)
    requires x <= w
    ensures SampleAt(w, VertexIndex(w, x, y)) == Sample(x, y, x == 0 && y == 0)
  {
    DivModOf(w + 1, y, x);
    if VertexIndex(w, x, y) == 0 {
      assert y * (w + 1) == 0;
      if y > 0 {
        MulAtLeast(y, w + 1);
      }
    }
  }

  /** The vertex loop of `GenerateMesh`: rows in turn, each from left to right, setting
      Start on the first evaluation only. */
  method Samples(w: nat, h: nat) returns (r: seq<Sample>)
    ensures |r| == VertexCount(w, h)
    ensures forall i :: 0 <= i < |r| ==> r[i] == SampleAt(w, i)
  {
    r := [];
    var y := 0;
    var i := 0;
    while y < h + 1
      invariant 0 <= y <= h + 1
      invariant i == |r| == y * (w + 1)
      invariant forall j :: 0 <= j < |r| ==> r[j] == SampleAt(w, j)
    {
      var x := 0;
      while x < w + 1
        invariant 0 <= x <= w + 1
        invariant i == |r| == y * (w + 1) + x
        invariant forall j :: 0 <= j < |r| ==> r[j] == SampleAt(w, j)
      {
        SampleOfVertex(w, x, y);
        r := r + [Sample(x, y, i == 0)];
        x := x + 1;
        i := i + 1;
      }
      assert (y + 1) * (w + 1) == y * (w + 1) + (w + 1);
      y := y + 1;
    }
  }

  /** Every vertex of the grid is evaluated once, at its own slot, and Start is true for
      the first evaluation alone. */
  lemma {:induction false} SamplesCoverGrid(w: nat, h: nat, r: seq<Sample>)
    requires |r| == VertexCount(w, h)
    requires forall i :: 0 <= i < |r| ==> r[i] == SampleAt(w, i)
    ensures forall x: nat, y: nat :: x <= w && y <= h ==>
      (VertexIndex(w, x, y) < |r| && r[VertexIndex(w, x, y)] == Sample(x, y, x == 0 && y == 0))
    ensures forall i :: 0 <= i < |r| ==> (r[i].start <==> i == 0)
  {
    forall x: nat, y: nat | x <= w && y <= h
      ensures VertexIndex(w, x, y) < |r| && r[VertexIndex(w, x, y)] == Sample(x, y, x == 0 && y == 0)
    {
      VertexIndexBelow(w, h, x, y);
      SampleOfVertex(w, x, y);
    }
  }

  /** Every vertex of the grid has a slot in the vertex arrays. */
  lemma {:induction false} VertexIndexBelow(w: nat, h: nat, x: nat, y: nat)
    requires x <= w && y <= h
    ensures VertexIndex(w, x, y) < VertexCount(w, h)
  {
    assert (h + 1) * (w + 1) == h * (w + 1) + (w + 1);
    MulMonotone(y, h, w + 1);
  }

  // ----- triangles -----

  /** The six indices cell (x, y) contributes: the triangles (top left, bottom left,
      bottom right) and (bottom right, top right, top left), rows growing downwards. */
  function CellCorners(w: nat, x: nat, y: nat): seq<nat> {
    [VertexIndex(w, x, y), VertexIndex(w, x, y + 1), VertexIndex(w, x + 1, y + 1),
     VertexIndex(w, x + 1, y + 1), VertexIndex(w, x + 1, y), VertexIndex(w, x, y)]
  }

  /** What triangle slot `i` holds: corner `i % 6` of cell `i / 6`, cells row by row. */
  function CornerAt(w: nat, i: nat): nat
    requires w > 0
  {
    var c := i / 6;
    CellCorners(w, c % w, c / w)[i % 6]
  }

  /** The source's arithmetic (`v1 = v0 + 1`, `v2 = v0 + vertWidth`, `v3 = v2 + 1`)
      names the cell's four corners. */
  lemma {:induction false} CornerArithmetic(w: nat, x: nat, y: nat)
    ensures var v0 := y * (w + 1) + x;
      VertexIndex(w, x + 1, y) == v0 + 1 &&
      VertexIndex(w, x, y + 1) == v0 + (w + 1) &&
      VertexIndex(w, x + 1, y + 1) == v0 + (w + 1) + 1
  {
    assert (y + 1) * (w + 1) == y * (w + 1) + (w + 1);
  }

  /** Slots 6c … 6c+5 hold the corners of cell c = y·w + x. */
  lemma {:induction false} CellSlots(w: nat, x: nat, y: nat, k: nat)
    requires x < w && k < 6
    ensures CornerAt(w, 6 * (y * w + x) + k) == CellCorners(w, x, y)[k]
  {
    var c := y * w + x;
    DivModOf(6, c, k);
    DivModOf(w, y, x);
  }

  /** The triangle loop of `GenerateMesh`: cells row by row, six indices each, written
      from the source's corner arithmetic. */
  method Triangles(w: nat, h: nat) returns (t: seq<int>)
    ensures |t| == w * h * 6
    ensures forall i :: 0 <= i < |t| ==> w > 0 && t[i] == CornerAt(w, i)
  {
    t := [];
    var y := 0;
    while y < h
      invariant 0 <= y <= h
      invariant |t| == 6 * (y * w)
      invariant forall i :: 0 <= i < |t| ==> w > 0 && t[i] == CornerAt(w, i)
    {
      var x := 0;
      while x < w
        invariant 0 <= x <= w
        invariant |t| == 6 * (y * w + x)
        invariant forall i :: 0 <= i < |t| ==> w > 0 && t[i] == CornerAt(w, i)
      {
        var v0 := y * (w + 1) + x;
        var v1 := v0 + 1;
        var v2 := v0 + (w + 1);
        var v3 := v2 + 1;
        CornerArithmetic(w, x, y);
        AppendCell(t, w, x, y, [v0, v2, v3, v3, v1, v0]);
        t := t + [v0, v2, v3, v3, v1, v0];
        x := x + 1;
      }
      assert (y + 1) * w == y * w + w;
      y := y + 1;
    }
  }

  /** Appending the corners of the next cell keeps every slot at its corner. */
  lemma {:induction false} AppendCell(t: seq<int>, w: nat, x: nat, y: nat, cell: seq<int>)
    requires x < w && |t| == 6 * (y * w + x)
    requires forall i :: 0 <= i < |t| ==> t[i] == CornerAt(w, i)
    requires cell == CellCorners(w, x, y)
    ensures forall i :: 0 <= i < |t + cell| ==> (t + cell)[i] == CornerAt(w, i)
  {
    forall i | |t| <= i < |t + cell| ensures (t + cell)[i] == CornerAt(w, i) {
      CellSlots(w, x, y, i - |t|);
    }
  }

  /** Every corner of a cell of the grid is one of its vertices. */
  lemma {:induction false} CornersBelow(w: nat, h: nat, x: nat, y: nat)
    requires x < w && y < h
    ensures forall k :: 0 <= k < 6 ==> CellCorners(w, x, y)[k] < VertexCount(w, h)
  {
    VertexIndexBelow(w, h, x, y);
    VertexIndexBelow(w, h, x + 1, y);
    VertexIndexBelow(w, h, x, y + 1);
    VertexIndexBelow(w, h, x + 1, y + 1);
  }

  /** Every index of the triangle list names a vertex of the grid. */
  lemma {:induction false} TrianglesInRange(w: nat, h: nat, t: seq<int>)
    requires |t| == w * h * 6
    requires forall i :: 0 <= i < |t| ==> w > 0 && t[i] == CornerAt(w, i)
    ensures forall i :: 0 <= i < |t| ==> 0 <= t[i] < VertexCount(w, h)
  {
    forall i | 0 <= i < |t| ensures 0 <= t[i] < VertexCount(w, h) {
      var c := i / 6;
      assert c < w * h;
      var y := c / w;
      assert y < h;
      CornersBelow(w, h, c % w, y);
    }
  }

  // ----- the whole generation -----

  /** What `GenerateMesh` leaves in the mesh: nothing when Position is not connected,
      otherwise the evaluations in order and the triangle list. */
  datatype Mesh = Cleared | Grid(samples: seq<Sample>, triangles: seq<int>)

  /** `ProcessAsset`: the size is clamped to at least one cell each way; without a
      connected Position output the mesh is cleared and nothing is evaluated. */
  method Generate(width: int, height: int, positionConnected: bool) returns (m: Mesh)
    ensures !positionConnected ==> m == Cleared
    ensures positionConnected ==> (m.Grid? &&
      |m.samples| == VertexCount(Clamp(width), Clamp(height)) &&
      |m.triangles| == Clamp(width) * Clamp(height) * 6)
    ensures m.Grid? ==> forall i :: 0 <= i < |m.triangles| ==>
      0 <= m.triangles[i] < VertexCount(Clamp(width), Clamp(height)) &&
      m.triangles[i] == CornerAt(Clamp(width), i)
    ensures m.Grid? ==> forall i :: 0 <= i < |m.samples| ==>
      m.samples[i] == SampleAt(Clamp(width), i) && (m.samples[i].start <==> i == 0)
  {
    var w := Clamp(width);
    var h := Clamp(height);
    if !positionConnected {
      return Cleared;
    }
    var samples := Samples(w, h);
    var triangles := Triangles(w, h);
    SamplesCoverGrid(w, h, samples);
    TrianglesInRange(w, h, triangles);
    m := Grid(samples, triangles);
  }
}
