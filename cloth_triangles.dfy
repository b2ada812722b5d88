/** The triangles of the cloth: the index buffer handed to the mesh, and
    the order in which the wind pass visits triangles. */
module ClothTriangles {
  import opened Particles
  import opened Grid
  import opened Basics

  /** Three particle slots, in winding order. */
  datatype Triangle = Triangle(v0: nat, v1: nat, v2: nat)

  function Corners(t: Triangle): seq<nat> {
    [t.v0, t.v1, t.v2]
  }

  function Flatten(ts: seq<Triangle>): seq<nat> {
    if ts == [] then [] else Flatten(ts[..|ts| - 1]) + Corners(ts[|ts| - 1])
  }

  // ------------------------------------------------------- wind traversal

  /** The two triangles the wind pass takes for cell (x, y): with
      i = Index(X, x, y), first [i, i + X, i + 1], then [i + 1, i + X, i + X + 1].
      The two share the diagonal edge between i + X and i + 1. */
  function CellTriangles(X: nat, x: nat, y: nat): (r: seq<Triangle>)
    ensures |r| == 2 && r[0].v1 == r[1].v1 && r[0].v2 == r[1].v0
  {
    [Triangle(Index(X, x, y), Index(X, x, y + 1), Index(X, x + 1, y)),
     Triangle(Index(X, x + 1, y), Index(X, x, y + 1), Index(X, x + 1, y + 1))]
  }

  /** The triangles of the first n cells of row y. */
  function WindRow(X: nat, y: nat, n: nat): seq<Triangle> {
    if n == 0 then [] else WindRow(X, y, n - 1) + CellTriangles(X, n - 1, y)
  }

  /** The triangles of the first m rows of cells (X - 1 cells per row). */
  function WindRows(X: nat, m: nat): seq<Triangle>
    requires X >= 1
  {
    if m == 0 then [] else WindRows(X, m - 1) + WindRow(X, m - 1, X - 1)
  }

  /** Every triangle the wind pass visits, in visiting order: cells row by
      row, (Y - 1) rows of (X - 1) cells. */
  function WindOrder(X: nat, Y: nat): seq<Triangle>
    requires X >= 1 && Y >= 1
  {
    WindRows(X, Y - 1)
  }

  // --------------------------------------------------------- index buffer

  /** The six entries the index buffer holds for cell (x, y): the corners of
      its two wind triangles. */
  function CellIndices(X: nat, x: nat, y: nat): (r: seq<nat>)
    ensures |r| == 6
  {
    [Index(X, x, y), Index(X, x, y + 1), Index(X, x + 1, y),
     Index(X, x + 1, y), Index(X, x, y + 1), Index(X, x + 1, y + 1)]
  }

  /** The entries of the first n cells of row y: six per cell. */
  function BufferRow(X: nat, y: nat, n: nat): (r: seq<nat>)
    ensures |r| == 6 * n
  {
    if n == 0 then [] else BufferRow(X, y, n - 1) + CellIndices(X, n - 1, y)
  }

  function BufferRows(X: nat, m: nat): seq<nat>
    requires X >= 1
  {
    if m == 0 then [] else BufferRows(X, m - 1) + BufferRow(X, m - 1, X - 1)
  }

  /** The whole index buffer: six entries per cell, cells row-major. */
  function IndexBuffer(X: nat, Y: nat): seq<nat>
    requires X >= 1 && Y >= 1
  {
    BufferRows(X, Y - 1)
  }

  /** The buffer slot that cell (x, y) writes its k-th entry to. */
  function SlotOffset(X: nat, x: nat, y: nat, k: nat): nat
    requires X >= 1
  {
    (y * (X - 1) + x) * 6 + k
  }

  /** Row y + 1's slots start where row y's 6 * (X - 1) slots end. */
  lemma NextRowSlots(X: nat, y: nat)
    requires X >= 1
    ensures (y + 1) * (X - 1) * 6 == y * (X - 1) * 6 + 6 * (X - 1)
  {
    MulSucc(y, X - 1);
  }

  lemma {:induction false} BufferRowsLength(X: nat, m: nat)
    requires X >= 1
    ensures |BufferRows(X, m)| == m * (X - 1) * 6
  {
    if m > 0 {
      var W := X - 1;
      BufferRowsLength(X, m - 1);
      MulSucc(m - 1, W);
      assert m * W * 6 == (m - 1) * W * 6 + 6 * W;
    }
  }

  /** The buffer has room for exactly two triangles per cell. */
  lemma IndexBufferLength(X: nat, Y: nat)
    requires ValidDims(X, Y)
    ensures |IndexBuffer(X, Y)| == (Y - 1) * (X - 1) * 2 * 3
  {
    BufferRowsLength(X, Y - 1);
  }

  // ------------------------------------------------ wind pass == buffer

  lemma {:induction false} FlattenConcat(a: seq<Triangle>, b: seq<Triangle>)
    ensures Flatten(a + b) == Flatten(a) + Flatten(b)
    decreases |b|
  {
    if b != [] {
      var b' := b[..|b| - 1];
      assert (a + b)[..|a + b| - 1] == a + b';
      assert (a + b)[|a + b| - 1] == b[|b| - 1];
      FlattenConcat(a, b');
    } else {
      assert a + b == a;
    }
  }

  lemma FlattenCell(X: nat, x: nat, y: nat)
    ensures Flatten(CellTriangles(X, x, y)) == CellIndices(X, x, y)
  {
    var ts := CellTriangles(X, x, y);
    assert ts[..1][..0] == [];
    assert Flatten(ts[..1]) == Corners(ts[0]);
  }

  lemma {:induction false} FlattenRow(X: nat, y: nat, n: nat)
    ensures Flatten(WindRow(X, y, n)) == BufferRow(X, y, n)
  {
    if n > 0 {
      var done, cell := WindRow(X, y, n - 1), CellTriangles(X, n - 1, y);
      calc {
        Flatten(WindRow(X, y, n));
        Flatten(done + cell);
        { FlattenConcat(done, cell); }
        Flatten(done) + Flatten(cell);
        { FlattenRow(X, y, n - 1); FlattenCell(X, n - 1, y);
          ConcatEqual(Flatten(done), Flatten(cell), BufferRow(X, y, n - 1), CellIndices(X, n - 1, y)); }
        BufferRow(X, y, n - 1) + CellIndices(X, n - 1, y);
        BufferRow(X, y, n);
      }
    }
  }

  lemma {:induction false} FlattenRows(X: nat, m: nat)
    requires X >= 1
    ensures Flatten(WindRows(X, m)) == BufferRows(X, m)
  {
    if m > 0 {
      var done, row := WindRows(X, m - 1), WindRow(X, m - 1, X - 1);
      calc {
        Flatten(WindRows(X, m));
        Flatten(done + row);
        { FlattenConcat(done, row); }
        Flatten(done) + Flatten(row);
        { FlattenRows(X, m - 1); FlattenRow(X, m - 1, X - 1);
          ConcatEqual(Flatten(done), Flatten(row), BufferRows(X, m - 1), BufferRow(X, m - 1, X - 1)); }
        BufferRows(X, m - 1) + BufferRow(X, m - 1, X - 1);
        BufferRows(X, m);
      }
    }
  }

  lemma {:induction false} FlattenLength(ts: seq<Triangle>)
    ensures |Flatten(ts)| == 3 * |ts|
    decreases |ts|
  {
    if ts != [] { FlattenLength(ts[..|ts| - 1]); }
  }

  lemma {:induction false} FlattenAt(ts: seq<Triangle>, t: nat, r: nat)
    requires t < |ts| && r < 3
    ensures |Flatten(ts)| == 3 * |ts|
    ensures Flatten(ts)[3 * t + r] == Corners(ts[t])[r]
    decreases |ts|
  {
    FlattenLength(ts);
    var init := ts[..|ts| - 1];
    FlattenLength(init);
    if t < |ts| - 1 {
      FlattenAt(init, t, r);
    }
  }

  /** The wind pass and the index buffer describe the same triangles in the
      same order with the same winding: the t-th triangle the wind pass
      visits is made of buffer entries 3t, 3t + 1 and 3t + 2. */
  lemma WindOrderMatchesIndexBuffer(X: nat, Y: nat)
    requires ValidDims(X, Y)
    ensures Flatten(WindOrder(X, Y)) == IndexBuffer(X, Y)
    ensures |IndexBuffer(X, Y)| == 3 * |WindOrder(X, Y)|
    ensures forall t :: 0 <= t < |WindOrder(X, Y)| ==>
      WindOrder(X, Y)[t] == Triangle(IndexBuffer(X, Y)[3 * t], IndexBuffer(X, Y)[3 * t + 1], IndexBuffer(X, Y)[3 * t + 2])
  {
    var ts := WindOrder(X, Y);
    FlattenRows(X, Y - 1);
    FlattenLength(ts);
    forall t | 0 <= t < |ts|
      ensures ts[t] == Triangle(IndexBuffer(X, Y)[3 * t], IndexBuffer(X, Y)[3 * t + 1], IndexBuffer(X, Y)[3 * t + 2])
    {
      FlattenAt(ts, t, 0);
      FlattenAt(ts, t, 1);
      FlattenAt(ts, t, 2);
    }
  }

  // ------------------------------------------------------ buffer slots

  lemma {:induction false} BufferRowAt(X: nat, y: nat, n: nat, x: nat, k: nat)
    requires x < n && k < 6
    ensures BufferRow(X, y, n)[6 * x + k] == CellIndices(X, x, y)[k]
  {
    if x < n - 1 {
      BufferRowAt(X, y, n - 1, x, k);
    }
  }

  /** Entry r of row y sits right after the entries of the y rows before
      it. */
  lemma {:induction false} BufferRowsAt(X: nat, m: nat, y: nat, r: nat)
    requires X >= 1 && y < m && r < 6 * (X - 1)
    ensures |BufferRows(X, y)| + r < |BufferRows(X, m)|
    ensures BufferRows(X, m)[|BufferRows(X, y)| + r] == BufferRow(X, y, X - 1)[r]
  {
    var W := X - 1;
    if y < m - 1 {
      BufferRowsAt(X, m - 1, y, r);
      ConcatAt(BufferRows(X, m - 1), BufferRow(X, m - 1, W), |BufferRows(X, y)| + r);
    } else {
      ConcatAt(BufferRows(X, y), BufferRow(X, y, W), |BufferRows(X, y)| + r);
    }
  }

  /** Slot offsets of cells in the first m rows stay below m rows' worth. */
  lemma SlotBound(X: nat, x: nat, y: nat, k: nat, m: nat)
    requires X >= 1 && x < X - 1 && y < m && k < 6
    ensures SlotOffset(X, x, y, k) < m * (X - 1) * 6
  {
    var W := X - 1;
    MulLeft(y + 1, m, W);
    MulSucc(y, W);
    MulLeft(y * W + x + 1, m * W, 6);
  }

  /** Cell (x, y) writes its six entries to slots SlotOffset(X, x, y, 0..5). */
  lemma IndexBufferAt(X: nat, Y: nat, x: nat, y: nat, k: nat)
    requires ValidDims(X, Y) && x < X - 1 && y < Y - 1 && k < 6
    ensures SlotOffset(X, x, y, k) < |IndexBuffer(X, Y)|
    ensures IndexBuffer(X, Y)[SlotOffset(X, x, y, k)] == CellIndices(X, x, y)[k]
  {
    BufferRowsCellAt(X, Y - 1, x, y, k);
    SlotAfterRows(X, x, y, k);
  }

  /** Entry k of cell (x, y) sits 6 * x + k past the rows below row y. */
  lemma BufferRowsCellAt(X: nat, m: nat, x: nat, y: nat, k: nat)
    requires X >= 1 && x < X - 1 && y < m && k < 6
    ensures |BufferRows(X, y)| + (6 * x + k) < |BufferRows(X, m)|
    ensures BufferRows(X, m)[|BufferRows(X, y)| + (6 * x + k)] == CellIndices(X, x, y)[k]
  {
    BufferRowAt(X, y, X - 1, x, k);
    BufferRowsAt(X, m, y, 6 * x + k);
  }

  /** Slot k of cell (x, y) lies 6 * x + k past the entries of the rows
      below row y. */
  lemma SlotAfterRows(X: nat, x: nat, y: nat, k: nat)
    requires X >= 1
    ensures SlotOffset(X, x, y, k) == |BufferRows(X, y)| + (6 * x + k)
  {
    BufferRowsLength(X, y);
  }

  /** The cell and entry that slot s of the buffer belongs to. */
  function SlotCellX(X: nat, s: nat): nat requires X >= 2 { ColumnOf(X - 1, s / 6) }
  function SlotCellY(X: nat, s: nat): nat requires X >= 2 { RowOf(X - 1, s / 6) }
  function SlotEntry(s: nat): nat { s % 6 }

  /** The slots written for the cells are pairwise distinct and cover the
      whole buffer: (x, y, k) |-> SlotOffset(X, x, y, k) is a bijection from
      [0, X - 1) x [0, Y - 1) x [0, 6) onto [0, (Y - 1) * (X - 1) * 6). */
  lemma SlotOffsetBijection(X: nat, Y: nat)
    requires ValidDims(X, Y)
    ensures forall x: nat, y: nat, k: nat :: x < X - 1 && y < Y - 1 && k < 6 ==>
      SlotOffset(X, x, y, k) < (Y - 1) * (X - 1) * 6
      && SlotCellX(X, SlotOffset(X, x, y, k)) == x
      && SlotCellY(X, SlotOffset(X, x, y, k)) == y
      && SlotEntry(SlotOffset(X, x, y, k)) == k
    ensures forall x: nat, y: nat, k: nat, x': nat, y': nat, k': nat ::
      (x < X - 1 && y < Y - 1 && k < 6 && x' < X - 1 && y' < Y - 1 && k' < 6 &&
       SlotOffset(X, x, y, k) == SlotOffset(X, x', y', k')) ==> x == x' && y == y' && k == k'
    ensures forall s: nat :: s < (Y - 1) * (X - 1) * 6 ==>
      SlotCellX(X, s) < X - 1 && SlotCellY(X, s) < Y - 1 && SlotEntry(s) < 6
      && SlotOffset(X, SlotCellX(X, s), SlotCellY(X, s), SlotEntry(s)) == s
  {
    var W := X - 1;
    forall x: nat, y: nat, k: nat | x < W && y < Y - 1 && k < 6
      ensures SlotOffset(X, x, y, k) < (Y - 1) * W * 6
      ensures SlotCellX(X, SlotOffset(X, x, y, k)) == x
      ensures SlotCellY(X, SlotOffset(X, x, y, k)) == y
      ensures SlotEntry(SlotOffset(X, x, y, k)) == k
    {
      SlotBound(X, x, y, k, Y - 1);
      var c := Index(W, x, y);
      assert SlotOffset(X, x, y, k) == c * 6 + k;
      assert (c * 6 + k) / 6 == c && (c * 6 + k) % 6 == k;
      CoordsOfIndex(W, x, y);
    }
    forall s: nat | s < (Y - 1) * W * 6
      ensures SlotCellX(X, s) < W && SlotCellY(X, s) < Y - 1 && SlotEntry(s) < 6
      ensures SlotOffset(X, SlotCellX(X, s), SlotCellY(X, s), SlotEntry(s)) == s
    {
      var c := s / 6;
      assert c < (Y - 1) * W;
      CoordsInRange(W, Y - 1, c);
    }
  }

  /** Every entry of the index buffer is a valid particle slot. */
  lemma IndexBufferInRange(X: nat, Y: nat)
    requires ValidDims(X, Y)
    ensures forall s :: 0 <= s < |IndexBuffer(X, Y)| ==> IndexBuffer(X, Y)[s] < X * Y
  {
    IndexBufferLength(X, Y);
    SlotOffsetBijection(X, Y);
    forall s | 0 <= s < |IndexBuffer(X, Y)| ensures IndexBuffer(X, Y)[s] < X * Y {
      var x, y, k := SlotCellX(X, s), SlotCellY(X, s), SlotEntry(s);
      IndexBufferAt(X, Y, x, y, k);
      IndexInRange(X, Y, x, y);
      IndexInRange(X, Y, x + 1, y);
      IndexInRange(X, Y, x, y + 1);
      IndexInRange(X, Y, x + 1, y + 1);
    }
  }

  /** The wind pass visits cells in the same row-major order as the buffer:
      the triangles of cell (x, y) are visits 2c and 2c + 1, where
      c = Index(X - 1, x, y) is the cell's position in that order. */
  lemma WindOrderAtCell(X: nat, Y: nat, x: nat, y: nat, j: nat)
    requires ValidDims(X, Y) && x < X - 1 && y < Y - 1 && j < 2
    ensures 2 * Index(X - 1, x, y) + j < |WindOrder(X, Y)|
    ensures WindOrder(X, Y)[2 * Index(X - 1, x, y) + j] == CellTriangles(X, x, y)[j]
  {
    var t := 2 * Index(X - 1, x, y) + j;
    var s := SlotOffset(X, x, y, 3 * j);
    assert s == 3 * t;
    IndexBufferAt(X, Y, x, y, 3 * j);
    IndexBufferAt(X, Y, x, y, 3 * j + 1);
    IndexBufferAt(X, Y, x, y, 3 * j + 2);
    var buf := IndexBuffer(X, Y);
    var entries := CellIndices(X, x, y);
    assert buf[s] == entries[3 * j] && buf[s + 1] == entries[3 * j + 1] && buf[s + 2] == entries[3 * j + 2];
    WindOrderAt(X, Y, t);
  }

  /** One triangle of the wind pass, read back from the buffer. */
  lemma WindOrderAt(X: nat, Y: nat, t: nat)
    requires ValidDims(X, Y) && 3 * t + 2 < |IndexBuffer(X, Y)|
    ensures t < |WindOrder(X, Y)|
    ensures WindOrder(X, Y)[t] == Triangle(IndexBuffer(X, Y)[3 * t], IndexBuffer(X, Y)[3 * t + 1], IndexBuffer(X, Y)[3 * t + 2])
  {
    WindOrderMatchesIndexBuffer(X, Y);
  }

  /** With the initial positions, the cross product of the two edges leaving
      the triangle's first vertex, as the wind force computes it. */
  function RestCross(X: nat, t: Triangle): Vec3
    requires X > 0
  {
    var p0, p1, p2 := PositionAt(X, t.v0), PositionAt(X, t.v1), PositionAt(X, t.v2);
    Cross(Sub(p1, p0), Sub(p2, p0))
  }

  /** A triangle has three distinct in-range corners and, at rest, the
      orientation of every cell's triangles: normal (0, 0, -1), area 1/2. */
  predicate WellWound(X: nat, Y: nat, t: Triangle)
    requires X > 0
  {
    t.v0 < X * Y && t.v1 < X * Y && t.v2 < X * Y
    && t.v0 != t.v1 && t.v1 != t.v2 && t.v0 != t.v2
    && RestCross(X, t) == Vec3(0.0, 0.0, -1.0)
  }

  lemma CellWellWound(X: nat, Y: nat, x: nat, y: nat)
    requires ValidDims(X, Y) && x < X - 1 && y < Y - 1
    ensures WellWound(X, Y, CellTriangles(X, x, y)[0]) && WellWound(X, Y, CellTriangles(X, x, y)[1])
  {
    IndexInRange(X, Y, x, y);
    IndexInRange(X, Y, x + 1, y);
    IndexInRange(X, Y, x, y + 1);
    IndexInRange(X, Y, x + 1, y + 1);
    CoordsOfIndex(X, x, y);
    CoordsOfIndex(X, x + 1, y);
    CoordsOfIndex(X, x, y + 1);
    CoordsOfIndex(X, x + 1, y + 1);
    FirstCross(X, x, y);
    SecondCross(X, x, y);
  }

  lemma FirstCross(X: nat, x: nat, y: nat)
    requires x + 1 < X
    ensures RestCross(X, CellTriangles(X, x, y)[0]) == Vec3(0.0, 0.0, -1.0)
  {
    var t := CellTriangles(X, x, y)[0];
    assert t == Triangle(Index(X, x, y), Index(X, x, y + 1), Index(X, x + 1, y));
    PositionAtIndex(X, x, y);
    PositionAtIndex(X, x, y + 1);
    PositionAtIndex(X, x + 1, y);
    FirstEdges(x, y);
  }

  /** The first triangle's edges at rest: one step to the next row, one step
      to the next column. */
  lemma FirstEdges(x: nat, y: nat)
    ensures Cross(Sub(InitialPosition(x, y + 1), InitialPosition(x, y)), Sub(InitialPosition(x + 1, y), InitialPosition(x, y)))
      == Vec3(0.0, 0.0, -1.0)
  {
    StepVectors(x, y);
  }

  /** Differences between the rest positions of a cell's four corners. */
  lemma StepVectors(x: nat, y: nat)
    ensures Sub(InitialPosition(x, y + 1), InitialPosition(x, y)) == Vec3(0.0, 1.0, 0.0)
    ensures Sub(InitialPosition(x + 1, y), InitialPosition(x, y)) == Vec3(1.0, 0.0, 0.0)
    ensures Sub(InitialPosition(x, y + 1), InitialPosition(x + 1, y)) == Vec3(-1.0, 1.0, 0.0)
    ensures Sub(InitialPosition(x + 1, y + 1), InitialPosition(x + 1, y)) == Vec3(0.0, 1.0, 0.0)
  {
  }

  lemma SecondCross(X: nat, x: nat, y: nat)
    requires x + 1 < X
    ensures RestCross(X, CellTriangles(X, x, y)[1]) == Vec3(0.0, 0.0, -1.0)
  {
    var t := CellTriangles(X, x, y)[1];
    assert t == Triangle(Index(X, x + 1, y), Index(X, x, y + 1), Index(X, x + 1, y + 1));
    PositionAtIndex(X, x + 1, y);
    PositionAtIndex(X, x, y + 1);
    PositionAtIndex(X, x + 1, y + 1);
    SecondEdges(x, y);
  }

  /** The second triangle's edges at rest: one step back a column and on a
      row, one step to the next row. */
  lemma SecondEdges(x: nat, y: nat)
    ensures Cross(Sub(InitialPosition(x, y + 1), InitialPosition(x + 1, y)), Sub(InitialPosition(x + 1, y + 1), InitialPosition(x + 1, y)))
      == Vec3(0.0, 0.0, -1.0)
  {
    StepVectors(x, y);
  }

  /** The wind pass visits two triangles per cell. */
  lemma WindOrderLength(X: nat, Y: nat)
    requires ValidDims(X, Y)
    ensures |WindOrder(X, Y)| == (Y - 1) * (X - 1) * 2
  {
    WindOrderMatchesIndexBuffer(X, Y);
    IndexBufferLength(X, Y);
  }

  /** The t-th triangle the wind pass visits is the (t % 2)-th triangle of
      cell t / 2, and so is well wound. */
  lemma VisitWellWound(X: nat, Y: nat, t: nat)
    requires ValidDims(X, Y) && t < (Y - 1) * (X - 1) * 2
    ensures t < |WindOrder(X, Y)| && WellWound(X, Y, WindOrder(X, Y)[t])
  {
    var W := X - 1;
    var c, j := t / 2, t % 2;
    assert c < W * (Y - 1);
    CoordsInRange(W, Y - 1, c);
    var x, y := ColumnOf(W, c), RowOf(W, c);
    WindOrderAtCell(X, Y, x, y, j);
    CellWellWound(X, Y, x, y);
  }

  /** At rest (the initial positions), every triangle the wind pass visits
      (and so every triangle of the buffer) is non-degenerate and wound the
      same way. */
  lemma WindTrianglesWellWound(X: nat, Y: nat)
    requires ValidDims(X, Y)
    ensures |WindOrder(X, Y)| == (Y - 1) * (X - 1) * 2
    ensures forall t :: 0 <= t < |WindOrder(X, Y)| ==> WellWound(X, Y, WindOrder(X, Y)[t])
  {
    WindOrderLength(X, Y);
    forall t | 0 <= t < |WindOrder(X, Y)| ensures WellWound(X, Y, WindOrder(X, Y)[t]) {
      VisitWellWound(X, Y, t);
    }
  }
}
