/** Terrain mesh triangulation: `MeshGenerator.GenerateTerrainMesh` and the
    `MeshData` buffers it fills, triangles going in through the write cursor
    of `addTriangle`. */
module MeshGenerator {
  import opened Wrappers
  import opened EngineTypes
  import opened Grid

  /** The three buffers of a mesh and the private write cursor `triangleIndex`
      that `addTriangle` advances. */
  datatype MeshData = MeshData(vertices: seq<Vector3>, triangles: seq<int>, uvs: seq<Vector2>, triangleIndex: nat)

  /** The exceptions the mesh code can raise: an array write past the end of
      a buffer, and an array allocated with a negative length. */
  datatype MeshError = IndexOutOfRange | NegativeSize

  /** Triangle-index slots the constructor allocates, computed as written:
      `(meshWidth - 1) * (meshHeight - 1) * 6`. */
  function TriangleSlotsAsWritten(meshWidth: int, meshHeight: int): int {
    (meshWidth - 1) * (meshHeight - 1) * 6
  }

  /** Triangle-index slots of the corrected constructor: six per quad of the
      grid, so none at all for an empty grid. */
  function TriangleSlots(meshWidth: nat, meshHeight: nat): nat {
    if meshWidth == 0 || meshHeight == 0 then 0 else (meshWidth - 1) * (meshHeight - 1) * 6
  }

  /** The `MeshData` constructor, as written: buffers sized for the grid,
      every slot at its default value, the cursor at the start; a negative
      triangle-buffer length raises instead. */
  function NewMeshData(meshWidth: nat, meshHeight: nat): (r: Result<MeshData, MeshError>)
    ensures r.Failure? <==> TriangleSlotsAsWritten(meshWidth, meshHeight) < 0
    ensures r.Failure? ==> r.error == NegativeSize
    ensures r.Success? ==> |r.value.vertices| == meshWidth * meshHeight && |r.value.uvs| == meshWidth * meshHeight
    ensures r.Success? ==> |r.value.triangles| == TriangleSlotsAsWritten(meshWidth, meshHeight)
    ensures r.Success? ==> forall i :: 0 <= i < |r.value.vertices| ==> r.value.vertices[i] == Zero3
    ensures r.Success? ==> forall i :: 0 <= i < |r.value.uvs| ==> r.value.uvs[i] == Zero2
    ensures r.Success? ==> forall i :: 0 <= i < |r.value.triangles| ==> r.value.triangles[i] == 0
    ensures r.Success? ==> r.value.triangleIndex == 0
  {
    var cells := meshWidth * meshHeight;
    var slots := TriangleSlotsAsWritten(meshWidth, meshHeight);
    if slots < 0 then
      Failure(NegativeSize)
    else
      Success(MeshData(seq(cells, _ => Zero3), seq(slots, _ => 0), seq(cells, _ => Zero2), 0))
  }

  /** The constructor raises exactly on a grid with no columns and two or
      more rows, or no rows and two or more columns. */
  lemma NewMeshDataFailsExactly(meshWidth: nat, meshHeight: nat)
    ensures NewMeshData(meshWidth, meshHeight).Failure? <==>
              (meshWidth == 0 && meshHeight >= 2) || (meshHeight == 0 && meshWidth >= 2)
  {
    if meshWidth >= 1 && meshHeight >= 1 {
      MulMonotone(0, meshWidth - 1, meshHeight - 1);
    }
  }

  /** `addTriangle(a, b, c)`: writes the three corner indices at the cursor
      and advances it by three; a cursor within three of the end raises. */
  function AddTriangle(m: MeshData, a: int, b: int, c: int): (r: Result<MeshData, MeshError>)
    ensures r.Success? <==> m.triangleIndex + 3 <= |m.triangles|
    ensures r.Success? ==> r.value.triangleIndex == m.triangleIndex + 3
    ensures r.Success? ==> |r.value.triangles| == |m.triangles|
    ensures r.Success? ==> r.value.triangles[m.triangleIndex..r.value.triangleIndex] == [a, b, c]
    ensures r.Success? ==> r.value.triangles[..r.value.triangleIndex] == m.triangles[..m.triangleIndex] + [a, b, c]
    ensures r.Success? ==> r.value.vertices == m.vertices && r.value.uvs == m.uvs
  {
    var t := m.triangleIndex;
    if t + 3 <= |m.triangles| then
      var triangles := m.triangles[t := a][t + 1 := b][t + 2 := c];
      assert triangles[..t + 3] == m.triangles[..t] + [a, b, c];
      Success(m.(triangles := triangles, triangleIndex := t + 3))
    else
      Failure(IndexOutOfRange)
  }

  /** `addTriangle` writes only its three slots: every other slot of the
      triangle buffer keeps its value. */
  lemma AddTriangleKeepsOtherSlots(m: MeshData, a: int, b: int, c: int)
    requires AddTriangle(m, a, b, c).Success?
    ensures forall i :: 0 <= i < |m.triangles| && !(m.triangleIndex <= i < m.triangleIndex + 3) ==>
              AddTriangle(m, a, b, c).value.triangles[i] == m.triangles[i]
  {
  }

  // ---------------------------------------------------------------------
  // Reference definitions of what the generator is meant to lay out.
  // ---------------------------------------------------------------------

  /** Where vertex (x, y) belongs: x and z centred on the origin, z growing
      towards the top row, y the height-map value. */
  function VertexAt(heightMap: HeightMap, x: nat, y: nat): Vector3
    requires heightMap.Valid() && x < heightMap.width && y < heightMap.height
  {
    Vector3(x as real - (heightMap.width - 1) as real / 2.0,
            heightMap.At(x, y),
            (heightMap.height - 1) as real / 2.0 - y as real)
  }

  /** The texture coordinate of vertex (x, y): its grid position as a fraction
      of the grid size, which stays below 1 in both directions. */
  function UvAt(width: nat, height: nat, x: nat, y: nat): (uv: Vector2)
    requires x < width && y < height
    ensures 0.0 <= uv.x < 1.0 && 0.0 <= uv.y < 1.0
  {
    var u := x as real / width as real;
    var v := y as real / height as real;
    assert u * width as real == x as real;
    assert v * height as real == y as real;
    assert u >= 1.0 ==> u * width as real >= width as real;
    assert v >= 1.0 ==> v * height as real >= height as real;
    Vector2(u, v)
  }

  /** The two triangles of the quad whose top-left vertex is `v`:
      (v, v+w+1, v+w) then (v+w+1, v, v+1). */
  function QuadTriangles(width: nat, v: nat): seq<int> {
    [v, v + width + 1, v + width, v + width + 1, v, v + 1]
  }

  /** What cell (x, y) contributes: its quad's triangles, or nothing on the
      right or bottom edge. */
  function CellTriangles(width: nat, height: nat, x: nat, y: nat): seq<int> {
    if x + 1 < width && y + 1 < height then QuadTriangles(width, Index(width, x, y)) else []
  }

  /** The triangle indices of the first `n` cells of row `y`, in scan order. */
  function RowTriangles(width: nat, height: nat, y: nat, n: nat): seq<int> {
    if n == 0 then [] else RowTriangles(width, height, y, n - 1) + CellTriangles(width, height, n - 1, y)
  }

  /** The triangle indices of the first `n` rows, in scan order. */
  function GridTriangles(width: nat, height: nat, n: nat): seq<int> {
    if n == 0 then [] else GridTriangles(width, height, n - 1) + RowTriangles(width, height, n - 1, width)
  }

  /** The rank of an interior cell among the quads, in scan order. */
  function QuadRank(width: nat, x: nat, y: nat): int {
    y * (width - 1) + x
  }

  // ---------------------------------------------------------------------
  // Properties of the reference layout.
  // ---------------------------------------------------------------------

  /** A row holds six indices per cell that is not on the right edge, and
      the bottom row holds none. */
  lemma {:induction false} RowTrianglesLength(width: nat, height: nat, y: nat, n: nat)
    requires n <= width
    ensures y + 1 >= height ==> |RowTriangles(width, height, y, n)| == 0
    ensures y + 1 < height && n < width ==> |RowTriangles(width, height, y, n)| == 6 * n
    ensures y + 1 < height && n == width > 0 ==> |RowTriangles(width, height, y, n)| == 6 * (width - 1)
  {
    if n > 0 {
      RowTrianglesLength(width, height, y, n - 1);
    }
  }

  /** The first `n` rows above the bottom row hold `6 * (width - 1)` indices each. */
  lemma {:induction false} GridTrianglesLength(width: nat, height: nat, n: nat)
    requires n < height && width > 0
    ensures |GridTriangles(width, height, n)| == 6 * (width - 1) * n
  {
    if n > 0 {
      GridTrianglesLength(width, height, n - 1);
      RowTrianglesLength(width, height, n - 1, width);
    }
  }

  /** The whole grid emits exactly the slots the corrected constructor
      allocates: six per quad, `(width - 1) * (height - 1)` quads. */
  lemma TriangleCount(width: nat, height: nat)
    ensures |GridTriangles(width, height, height)| == TriangleSlots(width, height)
  {
    if height > 0 {
      if width > 0 {
        GridTrianglesLength(width, height, height - 1);
      } else {
        GridTrianglesEmptyWidth(height, height - 1);
      }
      RowTrianglesLength(width, height, height - 1, width);
    }
  }

  /** A grid with no columns emits nothing. */
  lemma {:induction false} GridTrianglesEmptyWidth(height: nat, n: nat)
    ensures GridTriangles(0, height, n) == []
  {
    if n > 0 {
      GridTrianglesEmptyWidth(height, n - 1);
    }
  }

  /** Fewer cells of a row emit a prefix of what more cells emit. */
  lemma {:induction false} RowTrianglesPrefix(width: nat, height: nat, y: nat, n: nat, m: nat)
    requires n <= m
    ensures RowTriangles(width, height, y, n) <= RowTriangles(width, height, y, m)
    decreases m
  {
    if n < m {
      RowTrianglesPrefix(width, height, y, n, m - 1);
    }
  }

  /** Fewer rows emit a prefix of what more rows emit. */
  lemma {:induction false} GridTrianglesPrefix(width: nat, height: nat, n: nat, m: nat)
    requires n <= m
    ensures GridTriangles(width, height, n) <= GridTriangles(width, height, m)
    decreases m
  {
    if n < m {
      GridTrianglesPrefix(width, height, n, m - 1);
    }
  }

  /** Everything emitted up to and including cell (x, y) is a prefix of what
      the whole grid emits. */
  lemma EmittedThroughCell(width: nat, height: nat, x: nat, y: nat)
    requires x < width && y < height
    ensures GridTriangles(width, height, y) + RowTriangles(width, height, y, x + 1) <= GridTriangles(width, height, height)
  {
    RowTrianglesPrefix(width, height, y, x + 1, width);
    GridTrianglesPrefix(width, height, y + 1, height);
  }

  /** Each interior cell's six indices sit at six times its quad rank, in the
      documented winding order. */
  lemma QuadTrianglesAt(width: nat, height: nat, x: nat, y: nat)
    requires x + 1 < width && y + 1 < height
    ensures 6 * QuadRank(width, x, y) + 6 <= |GridTriangles(width, height, height)|
    ensures GridTriangles(width, height, height)[6 * QuadRank(width, x, y)..6 * QuadRank(width, x, y) + 6]
            == QuadTriangles(width, Index(width, x, y))
  {
    var all := GridTriangles(width, height, height);
    var before := GridTriangles(width, height, y) + RowTriangles(width, height, y, x);
    var quad := QuadTriangles(width, Index(width, x, y));
    CellStep(width, height, x, y);
    EmittedThroughCell(width, height, x, y);
    assert before + quad <= all;
    GridTrianglesLength(width, height, y);
    RowTrianglesLength(width, height, y, x);
    QuadRankOffset(width, x, y);
    assert |before| == 6 * QuadRank(width, x, y);
    assert all[|before|..|before| + 6] == (before + quad)[|before|..|before| + 6];
  }

  /** Six times a quad's rank counts the indices of the full rows above it
      and of the cells before it in its own row. */
  lemma QuadRankOffset(width: nat, x: nat, y: nat)
    requires width > 0
    ensures 6 * QuadRank(width, x, y) == 6 * (width - 1) * y + 6 * x
  {
  }

  /** Every index a cell emits names a vertex of the grid. */
  lemma CellTrianglesInRange(width: nat, height: nat, x: nat, y: nat)
    ensures forall i :: 0 <= i < |CellTriangles(width, height, x, y)| ==>
              0 <= CellTriangles(width, height, x, y)[i] < width * height
  {
    if x + 1 < width && y + 1 < height {
      IndexInRange(width, height, x + 1, y + 1);
      assert Index(width, x + 1, y + 1) == Index(width, x, y) + width + 1;
    }
  }

  /** Every index emitted by the first `n` cells of a row names a vertex. */
  lemma {:induction false} RowTrianglesInRange(width: nat, height: nat, y: nat, n: nat)
    ensures forall i :: 0 <= i < |RowTriangles(width, height, y, n)| ==>
              0 <= RowTriangles(width, height, y, n)[i] < width * height
  {
    if n > 0 {
      RowTrianglesInRange(width, height, y, n - 1);
      CellTrianglesInRange(width, height, n - 1, y);
    }
  }

  /** Every index the grid emits names a vertex: it lies in [0, width * height). */
  lemma {:induction false} GridTrianglesInRange(width: nat, height: nat, n: nat)
    ensures forall i :: 0 <= i < |GridTriangles(width, height, n)| ==>
              0 <= GridTriangles(width, height, n)[i] < width * height
  {
    if n > 0 {
      GridTrianglesInRange(width, height, n - 1);
      RowTrianglesInRange(width, height, n - 1, width);
    }
  }

  /** The mesh is centred: mirrored columns have opposite x, mirrored rows
      opposite z. */
  lemma VertexCentred(heightMap: HeightMap, x: nat, y: nat)
    requires heightMap.Valid() && x < heightMap.width && y < heightMap.height
    ensures VertexAt(heightMap, x, y).x == -VertexAt(heightMap, heightMap.width - 1 - x, y).x
    ensures VertexAt(heightMap, x, y).z == -VertexAt(heightMap, x, heightMap.height - 1 - y).z
  {
  }

  /** The corrected slot count agrees with the constructor as written on
      every grid with at least one row and one column. */
  lemma SlotsAgreeOnNonEmptyGrids(width: nat, height: nat)
    requires width > 0 && height > 0
    ensures TriangleSlots(width, height) == TriangleSlotsAsWritten(width, height)
  {
  }

  /** As written, the constructor gives an empty height map six triangle
      slots that no cell ever fills, and a zero-width map with two or more
      rows a negative array size. */
  lemma EmptyGridSlotsAsWritten()
    ensures TriangleSlotsAsWritten(0, 0) == 6 && |GridTriangles(0, 0, 0)| == 0
    ensures forall h :: h >= 2 ==> TriangleSlotsAsWritten(0, h) < 0
  {
  }

  // ---------------------------------------------------------------------
  // The generator.
  // ---------------------------------------------------------------------

  /** The vertex that belongs at flat index `k`. */
  function VertexOfIndex(heightMap: HeightMap, k: nat): Vector3
    requires heightMap.Valid() && k < heightMap.width * heightMap.height
  {
    IndexBijection(heightMap.width, heightMap.height);
    var c := CellOf(heightMap.width, k);
    VertexAt(heightMap, c.0, c.1)
  }

  /** The texture coordinate that belongs at flat index `k`. */
  function UvOfIndex(width: nat, height: nat, k: nat): Vector2
    requires k < width * height
  {
    IndexBijection(width, height);
    var c := CellOf(width, k);
    UvAt(width, height, c.0, c.1)
  }

  /** Cell (x, y) sits at a flat index inside the buffers, where the
      reference vertex and uv are those of (x, y) itself. */
  lemma CellAtIndex(heightMap: HeightMap, x: nat, y: nat)
    requires heightMap.Valid() && x < heightMap.width && y < heightMap.height
    ensures Index(heightMap.width, x, y) < heightMap.width * heightMap.height
    ensures VertexOfIndex(heightMap, Index(heightMap.width, x, y)) == VertexAt(heightMap, x, y)
    ensures UvOfIndex(heightMap.width, heightMap.height, Index(heightMap.width, x, y))
            == UvAt(heightMap.width, heightMap.height, x, y)
  {
    IndexBijection(heightMap.width, heightMap.height);
  }

  /** Buffers that agree with the reference at every flat index agree with
      it at every cell. */
  lemma FlatToCells(heightMap: HeightMap, vertices: seq<Vector3>, uvs: seq<Vector2>)
    requires heightMap.Valid()
    requires |vertices| == heightMap.width * heightMap.height == |uvs|
    requires forall k :: 0 <= k < |vertices| ==> vertices[k] == VertexOfIndex(heightMap, k)
    requires forall k :: 0 <= k < |uvs| ==> uvs[k] == UvOfIndex(heightMap.width, heightMap.height, k)
    ensures forall x, y :: 0 <= x < heightMap.width && 0 <= y < heightMap.height ==>
              && Index(heightMap.width, x, y) < |vertices|
              && vertices[Index(heightMap.width, x, y)] == VertexAt(heightMap, x, y)
              && uvs[Index(heightMap.width, x, y)] == UvAt(heightMap.width, heightMap.height, x, y)
  {
    forall x, y | 0 <= x < heightMap.width && 0 <= y < heightMap.height
      ensures Index(heightMap.width, x, y) < |vertices|
      ensures vertices[Index(heightMap.width, x, y)] == VertexAt(heightMap, x, y)
      ensures uvs[Index(heightMap.width, x, y)] == UvAt(heightMap.width, heightMap.height, x, y)
    {
      CellAtIndex(heightMap, x, y);
    }
  }

  /** Cell (x, y) extends what row `y` has emitted by its own triangles, and
      the result is still a prefix of the whole grid's. */
  lemma CellStep(width: nat, height: nat, x: nat, y: nat)
    requires x < width && y < height
    ensures RowTriangles(width, height, y, x + 1) == RowTriangles(width, height, y, x) + CellTriangles(width, height, x, y)
    ensures |GridTriangles(width, height, y) + RowTriangles(width, height, y, x + 1)| <= |GridTriangles(width, height, height)|
    ensures x + 1 < width && y + 1 < height ==> CellTriangles(width, height, x, y) == QuadTriangles(width, Index(width, x, y))
    ensures !(x + 1 < width && y + 1 < height) ==> CellTriangles(width, height, x, y) == []
  {
    EmittedThroughCell(width, height, x, y);
  }

  /** The quad's six indices are its two triangles, one after the other. */
  lemma QuadSplit(width: nat, v: nat)
    ensures QuadTriangles(width, v) == [v, v + width + 1, v + width] + [v + width + 1, v, v + 1]
  {
  }

  /** Row `y` complete is where row `y + 1` starts. */
  lemma RowStep(width: nat, height: nat, y: nat)
    requires y < height
    ensures GridTriangles(width, height, y) + RowTriangles(width, height, y, width) == GridTriangles(width, height, y + 1)
    ensures Index(width, width, y) == Index(width, 0, y + 1) <= width * height
  {
    MulMonotone(y + 1, height, width);
  }

  /** Vertices and uvs hold the reference values at every flat index below `n`. */
  ghost predicate VerticesBefore(heightMap: HeightMap, vertices: seq<Vector3>, uvs: seq<Vector2>, n: nat)
    requires heightMap.Valid()
  {
    && |vertices| == heightMap.width * heightMap.height && |uvs| == heightMap.width * heightMap.height
    && n <= heightMap.width * heightMap.height
    && (forall k :: 0 <= k < n ==> vertices[k] == VertexOfIndex(heightMap, k))
    && (forall k :: 0 <= k < n ==> uvs[k] == UvOfIndex(heightMap.width, heightMap.height, k))
  }

  /** The triangle buffer holds, up to the cursor, what the cells before
      (x, y) in scan order emit, and has exactly the slots the whole grid
      emits. */
  ghost predicate TrianglesBefore(width: nat, height: nat, m: MeshData, x: nat, y: nat) {
    && |m.triangles| == |GridTriangles(width, height, height)|
    && m.triangleIndex <= |m.triangles|
    && m.triangles[..m.triangleIndex] == GridTriangles(width, height, y) + RowTriangles(width, height, y, x)
  }

  /** The state of the buffers once every cell before (x, y) in scan order
      has been visited. */
  ghost predicate FilledBefore(heightMap: HeightMap, m: MeshData, x: nat, y: nat)
    requires heightMap.Valid()
  {
    && x <= heightMap.width && y <= heightMap.height
    && VerticesBefore(heightMap, m.vertices, m.uvs, Index(heightMap.width, x, y))
    && TrianglesBefore(heightMap.width, heightMap.height, m, x, y)
  }

  /** Writing cell (x, y)'s vertex and uv, as the generator computes them,
      at its flat index extends the written prefix by one. */
  lemma VertexStep(heightMap: HeightMap, topLeftX: real, topLeftZ: real, vertices: seq<Vector3>, uvs: seq<Vector2>, x: nat, y: nat)
    requires heightMap.Valid() && x < heightMap.width && y < heightMap.height
    requires topLeftX == (heightMap.width as int - 1) as real / -2.0
    requires topLeftZ == (heightMap.height as int - 1) as real / 2.0
    requires VerticesBefore(heightMap, vertices, uvs, Index(heightMap.width, x, y))
    ensures Index(heightMap.width, x, y) < |vertices|
    ensures VerticesBefore(heightMap,
              vertices[Index(heightMap.width, x, y) := Vector3(topLeftX + x as real, heightMap.At(x, y), topLeftZ - y as real)],
              uvs[Index(heightMap.width, x, y) := Vector2(x as real / heightMap.width as real, y as real / heightMap.height as real)],
              Index(heightMap.width, x, y) + 1)
  {
    CellAtIndex(heightMap, x, y);
  }

  /** An interior cell's two `addTriangle` calls both fit, and leave the
      buffer holding everything emitted through that cell. */
  lemma QuadStep(width: nat, height: nat, m: MeshData, x: nat, y: nat, v: nat)
    requires x + 1 < width && y + 1 < height && v == Index(width, x, y)
    requires TrianglesBefore(width, height, m, x, y)
    ensures && AddTriangle(m, v, v + width + 1, v + width).Success?
            && AddTriangle(AddTriangle(m, v, v + width + 1, v + width).value, v + width + 1, v, v + 1).Success?
            && TrianglesBefore(width, height,
                 AddTriangle(AddTriangle(m, v, v + width + 1, v + width).value, v + width + 1, v, v + 1).value, x + 1, y)
  {
    CellStep(width, height, x, y);
    QuadSplit(width, v);
    AddTwoTriangles(m, v, v + width + 1, v + width, v + width + 1, v, v + 1);
    ConcatAssociates(GridTriangles(width, height, y), RowTriangles(width, height, y, x), QuadTriangles(width, v));
  }

  /** Appending to a concatenation appends to its second part. */
  lemma ConcatAssociates(a: seq<int>, b: seq<int>, c: seq<int>)
    ensures (a + b) + c == a + (b + c)
  {
  }

  /** Two `addTriangle` calls with room for six indices both succeed and
      append the two triples, in order, to the filled prefix. */
  lemma AddTwoTriangles(m: MeshData, a: int, b: int, c: int, d: int, e: int, f: int)
    requires m.triangleIndex + 6 <= |m.triangles|
    ensures AddTriangle(m, a, b, c).Success?
    ensures AddTriangle(AddTriangle(m, a, b, c).value, d, e, f).Success?
    ensures var m2 := AddTriangle(AddTriangle(m, a, b, c).value, d, e, f).value;
            && |m2.triangles| == |m.triangles|
            && m2.triangleIndex == m.triangleIndex + 6
            && m2.triangles[..m2.triangleIndex] == m.triangles[..m.triangleIndex] + ([a, b, c] + [d, e, f])
  {
    var m1 := AddTriangle(m, a, b, c).value;
    var m2 := AddTriangle(m1, d, e, f).value;
    assert m2.triangles[..m2.triangleIndex] == m.triangles[..m.triangleIndex] + [a, b, c] + [d, e, f];
  }

  /** A cell on the right or bottom edge emits nothing. */
  lemma EdgeStep(width: nat, height: nat, m: MeshData, x: nat, y: nat)
    requires x < width && y < height && !(x + 1 < width && y + 1 < height)
    requires TrianglesBefore(width, height, m, x, y)
    ensures TrianglesBefore(width, height, m, x + 1, y)
  {
    CellStep(width, height, x, y);
    assert RowTriangles(width, height, y, x + 1) == RowTriangles(width, height, y, x);
  }

  /** The inner loop of `GenerateTerrainMesh` over row `y`, one cell at a
      time. */
  method FillRow(heightMap: HeightMap, topLeftX: real, topLeftZ: real, y: nat, m0: MeshData, vertexIndex0: nat)
    returns (m: MeshData, vertexIndex: nat)
    requires heightMap.Valid() && y < heightMap.height
    requires topLeftX == (heightMap.width as int - 1) as real / -2.0
    requires topLeftZ == (heightMap.height as int - 1) as real / 2.0
    requires vertexIndex0 == Index(heightMap.width, 0, y)
    requires FilledBefore(heightMap, m0, 0, y)
    ensures vertexIndex == Index(heightMap.width, heightMap.width, y)
    ensures FilledBefore(heightMap, m, heightMap.width, y)
  {
    m := m0;
    vertexIndex := vertexIndex0;
    var x := 0;
    while x < heightMap.width
      invariant 0 <= x <= heightMap.width
      invariant vertexIndex == Index(heightMap.width, x, y)
      invariant FilledBefore(heightMap, m, x, y)
    {
      m := FillCell(heightMap, topLeftX, topLeftZ, x, y, m, vertexIndex);
      vertexIndex := vertexIndex + 1;
      x := x + 1;
    }
  }

  /** The body of the inner loop for cell (x, y): writes its vertex and uv
      at the running vertex index and, off the right and bottom edges, emits
      the quad's two triangles. */
  method FillCell(heightMap: HeightMap, topLeftX: real, topLeftZ: real, x: nat, y: nat, m0: MeshData, vertexIndex: nat)
    returns (m: MeshData)
    requires heightMap.Valid() && x < heightMap.width && y < heightMap.height
    requires topLeftX == (heightMap.width as int - 1) as real / -2.0
    requires topLeftZ == (heightMap.height as int - 1) as real / 2.0
    requires vertexIndex == Index(heightMap.width, x, y)
    requires FilledBefore(heightMap, m0, x, y)
    ensures FilledBefore(heightMap, m, x + 1, y)
  {
    var width := heightMap.width;
    var height := heightMap.height;
    VertexStep(heightMap, topLeftX, topLeftZ, m0.vertices, m0.uvs, x, y);
    m := m0.(vertices := m0.vertices[vertexIndex := Vector3(topLeftX + x as real, heightMap.At(x, y), topLeftZ - y as real)],
             uvs := m0.uvs[vertexIndex := Vector2(x as real / width as real, y as real / height as real)]);

    if x < width - 1 && y < height - 1 {
      QuadStep(width, height, m, x, y, vertexIndex);
      var r1 := AddTriangle(m, vertexIndex, vertexIndex + width + 1, vertexIndex + width);
      m := r1.value;
      var r2 := AddTriangle(m, vertexIndex + width + 1, vertexIndex, vertexIndex + 1);
      m := r2.value;
    } else {
      EdgeStep(width, height, m, x, y);
    }
  }

  /** Fresh buffers for a map with at least one row hold nothing yet, as
      the loop expects, and have exactly the slots the grid emits. */
  lemma Started(heightMap: HeightMap, m: MeshData)
    requires heightMap.Valid() && heightMap.height > 0
    requires NewMeshData(heightMap.width, heightMap.height) == Success(m)
    ensures FilledBefore(heightMap, m, 0, 0)
  {
    TriangleCount(heightMap.width, heightMap.height);
    SlotsAgreeWhenAllocated(heightMap.width, heightMap.height);
    assert m.triangles[..0] == [];
  }

  /** Whenever the constructor as written succeeds on a grid with at least
      one row, it allocates the corrected slot count. */
  lemma SlotsAgreeWhenAllocated(width: nat, height: nat)
    requires height > 0 && TriangleSlotsAsWritten(width, height) >= 0
    ensures TriangleSlotsAsWritten(width, height) == TriangleSlots(width, height)
  {
    if width > 0 {
      SlotsAgreeOnNonEmptyGrids(width, height);
    }
  }

  /** A finished row is the start of the next one. */
  lemma NextRow(heightMap: HeightMap, m: MeshData, y: nat)
    requires heightMap.Valid() && y < heightMap.height
    requires FilledBefore(heightMap, m, heightMap.width, y)
    ensures FilledBefore(heightMap, m, 0, y + 1)
    ensures Index(heightMap.width, heightMap.width, y) == Index(heightMap.width, 0, y + 1)
  {
    RowStep(heightMap.width, heightMap.height, y);
  }

  /** Once every row is visited the buffers are complete: the triangle
      buffer up to the cursor is exactly the reference layout, six indices
      per quad, every index there names a vertex, and every cell's vertex
      and uv sit at its flat index. */
  lemma Completed(heightMap: HeightMap, m: MeshData)
    requires heightMap.Valid()
    requires FilledBefore(heightMap, m, 0, heightMap.height)
    ensures m.triangleIndex == |m.triangles| == TriangleSlots(heightMap.width, heightMap.height)
    ensures m.triangles == GridTriangles(heightMap.width, heightMap.height, heightMap.height)
    ensures forall i :: 0 <= i < |m.triangles| ==> 0 <= m.triangles[i] < |m.vertices|
    ensures forall x, y :: 0 <= x < heightMap.width && 0 <= y < heightMap.height ==>
              && Index(heightMap.width, x, y) < |m.vertices|
              && m.vertices[Index(heightMap.width, x, y)] == VertexAt(heightMap, x, y)
              && m.uvs[Index(heightMap.width, x, y)] == UvAt(heightMap.width, heightMap.height, x, y)
  {
    var width := heightMap.width;
    var height := heightMap.height;
    assert m.triangles[..m.triangleIndex] == GridTriangles(width, height, height);
    assert m.triangles == m.triangles[..m.triangleIndex];
    GridTrianglesInRange(width, height, height);
    assert Index(width, 0, height) == width * height;
    FlatToCells(heightMap, m.vertices, m.uvs);
    TriangleCount(width, height);
  }

  /** On a map with no rows the loop never runs and the fresh buffers are
      the result: no vertices, and six unwritten triangle slots for a map
      with no columns either. */
  lemma EmptyMapMesh(width: nat, m: MeshData)
    requires NewMeshData(width, 0) == Success(m)
    ensures |m.vertices| == 0 && |m.uvs| == 0 && m.triangleIndex == 0
    ensures width == 0 ==> m.triangles == [0, 0, 0, 0, 0, 0]
    ensures width == 1 ==> m.triangles == []
    ensures width < 2
  {
    if width == 0 {
      assert m.triangles == [0, 0, 0, 0, 0, 0];
    }
  }

  /** After the loop: a map with rows has been laid out completely, and a
      map without rows keeps its fresh buffers; either way the buffers are
      what `GenerateTerrainMesh` promises. */
  lemma Finished(heightMap: HeightMap, m0: MeshData, m: MeshData)
    requires heightMap.Valid() && NewMeshData(heightMap.width, heightMap.height) == Success(m0)
    requires heightMap.height > 0 ==> FilledBefore(heightMap, m, 0, heightMap.height)
    requires heightMap.height == 0 ==> m == m0
    ensures |m.vertices| == heightMap.width * heightMap.height
    ensures |m.uvs| == heightMap.width * heightMap.height
    ensures |m.triangles| == TriangleSlotsAsWritten(heightMap.width, heightMap.height)
    ensures m.triangleIndex == TriangleSlots(heightMap.width, heightMap.height) <= |m.triangles|
    ensures m.triangles[..m.triangleIndex] == GridTriangles(heightMap.width, heightMap.height, heightMap.height)
    ensures forall i :: 0 <= i < m.triangleIndex ==> 0 <= m.triangles[i] < |m.vertices|
    ensures heightMap.width > 0 && heightMap.height > 0 ==> m.triangleIndex == |m.triangles|
    ensures heightMap.width == 0 && heightMap.height == 0 ==>
              m.triangles == [0, 0, 0, 0, 0, 0] && m.triangleIndex == 0
    ensures forall x, y :: 0 <= x < heightMap.width && 0 <= y < heightMap.height ==>
              && Index(heightMap.width, x, y) < |m.vertices|
              && m.vertices[Index(heightMap.width, x, y)] == VertexAt(heightMap, x, y)
              && m.uvs[Index(heightMap.width, x, y)] == UvAt(heightMap.width, heightMap.height, x, y)
  {
    if heightMap.height > 0 {
      Completed(heightMap, m);
      SlotsAgreeWhenAllocated(heightMap.width, heightMap.height);
    } else {
      EmptyMapMesh(heightMap.width, m);
    }
  }

  /** `GenerateTerrainMesh`: allocates the buffers through the constructor
      (raising where it does), then lays out one vertex and one uv per
      height-map cell at flat index `y * width + x`, and two triangles per
      quad through the `addTriangle` cursor. On a grid with at least one
      row and one column the triangle buffer is filled exactly; on an empty
      grid its six slots are never written and keep the default 0. */
  method GenerateTerrainMesh(heightMap: HeightMap) returns (r: Result<MeshData, MeshError>)
    requires heightMap.Valid()
    ensures r.Failure? <==> TriangleSlotsAsWritten(heightMap.width, heightMap.height) < 0
    ensures r.Success? ==> |r.value.vertices| == heightMap.width * heightMap.height
    ensures r.Success? ==> |r.value.uvs| == heightMap.width * heightMap.height
    ensures r.Success? ==> |r.value.triangles| == TriangleSlotsAsWritten(heightMap.width, heightMap.height)
    ensures r.Success? ==> r.value.triangleIndex == TriangleSlots(heightMap.width, heightMap.height) <= |r.value.triangles|
    ensures r.Success? ==> r.value.triangles[..r.value.triangleIndex] == GridTriangles(heightMap.width, heightMap.height, heightMap.height)
    ensures r.Success? ==> forall i :: 0 <= i < r.value.triangleIndex ==> 0 <= r.value.triangles[i] < |r.value.vertices|
    ensures r.Success? && heightMap.width > 0 && heightMap.height > 0 ==> r.value.triangleIndex == |r.value.triangles|
    ensures r.Success? && heightMap.width == 0 && heightMap.height == 0 ==>
              r.value.triangles == [0, 0, 0, 0, 0, 0] && r.value.triangleIndex == 0
    ensures r.Success? ==> forall x, y :: 0 <= x < heightMap.width && 0 <= y < heightMap.height ==>
              && Index(heightMap.width, x, y) < |r.value.vertices|
              && r.value.vertices[Index(heightMap.width, x, y)] == VertexAt(heightMap, x, y)
              && r.value.uvs[Index(heightMap.width, x, y)] == UvAt(heightMap.width, heightMap.height, x, y)
  {
    var width := heightMap.width;
    var height := heightMap.height;
    var topLeftX := (width as int - 1) as real / -2.0;
    var topLeftZ := (height as int - 1) as real / 2.0;

    var made := NewMeshData(width, height);
    if made.Failure? {
      return Failure(made.error);
    }
    var m := made.value;
    if height > 0 {
      Started(heightMap, m);
    }
    var vertexIndex := 0;

    var y := 0;
    while y < height
      invariant 0 <= y <= height
      invariant vertexIndex == Index(width, 0, y)
      invariant height > 0 ==> FilledBefore(heightMap, m, 0, y)
      invariant height == 0 ==> m == made.value
    {
      m, vertexIndex := FillRow(heightMap, topLeftX, topLeftZ, y, m, vertexIndex);
      NextRow(heightMap, m, y);
      y := y + 1;
    }
    Finished(heightMap, made.value, m);
    r := Success(m);
  }
}
