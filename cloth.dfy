/** The cloth object: its particle, vertex and triangle arrays, its
    constraint list, and the loops that fill and read them. */
module Cloth {
  import opened Particles
  import opened Constraints
  import opened Grid
  import opened Basics
  import opened ClothConstraints
  import opened ClothTriangles

  // The lemmas about the cloth as built take its dimensions as parameters
  // pinned by a requires, rather than applying the general lemmas to the
  // literals ClothX and ClothY: with literal arguments the solver unfolds
  // the recursive list functions all the way down.

  /** The cloth as built, X = Y = 64, has 12033 constraints. */
  lemma BuiltConstraintCount(X: nat, Y: nat)
    requires X == ClothX && Y == ClothY
    ensures |AllConstraints(X, Y)| == 12033
  {
    ConstraintCount(X, Y);
  }

  /** In the cloth as built no constraint joins two pinned particles, so
      the relaxation step never divides by a zero weight sum. */
  lemma BuiltWeightSums(X: nat, Y: nat)
    requires X == ClothX && Y == ClothY
    ensures forall c :: c in AllConstraints(X, Y) ==> WeightSum(X, Y, c) != 0.0
  {
    NoZeroWeightSum(X, Y);
  }

  /** The cloth as built pins the particles in slots 4032 and 4095. */
  lemma BuiltPinnedSlots(X: nat, Y: nat)
    requires X == ClothX && Y == ClothY
    ensures PinnedSlots(X, Y) == {4032, 4095}
  {
    PinnedSlotsAreTopCorners(X, Y);
  }

  /** The index buffer of the cloth as built has 23814 entries, each a slot
      below 4096. */
  lemma BuiltIndexBuffer(X: nat, Y: nat)
    requires X == ClothX && Y == ClothY
    ensures |IndexBuffer(X, Y)| == 23814
    ensures forall s :: 0 <= s < |IndexBuffer(X, Y)| ==> IndexBuffer(X, Y)[s] < 4096
  {
    IndexBufferLength(X, Y);
    IndexBufferInRange(X, Y);
  }

  class MyCloth {
    /** Particles per row and number of rows (64 and 64 as built). */
    const X: nat
    const Y: nat

    /** Mesh vertex positions, one per particle, row-major. */
    const vertices: array<Vec3>
    /** The mesh index buffer: two triangles, six entries, per cell. */
    const triangles: array<nat>
    /** The particles, row-major; constraints and triangles refer to them
        by slot. */
    const particles: array<Particle>
    /** The constraint list, relaxed in this order. */
    var distanceConstraints: seq<DistanceConstraint>

    ghost predicate Valid()
      reads this
    {
      ValidDims(X, Y)
      && vertices.Length == Y * X
      && particles.Length == Y * X
      && triangles.Length == (Y - 1) * (X - 1) * 2 * 3
    }

    /** Every slot of `particles` holds the particle the pinning rule and
        the initial positions give it. */
    ghost predicate ParticlesReady()
      reads particles
    {
      X > 0 && forall i :: 0 <= i < particles.Length ==> particles[i] == ParticleAt(X, Y, i)
    }

    /** The arrays as the field initialisers allocate them, and an empty
        constraint list. */
    constructor (X: nat, Y: nat)
      requires ValidDims(X, Y)
      ensures Valid() && this.X == X && this.Y == Y
      ensures fresh(vertices) && fresh(triangles) && fresh(particles)
      ensures distanceConstraints == []
    {
      this.X, this.Y := X, Y;
      vertices := new Vec3[Y * X];
      triangles := new nat[(Y - 1) * (X - 1) * 2 * 3];
      particles := new Particle[Y * X];
      distanceConstraints := [];
    }

    /** Places particle (x, y) at (x, y, 0), pins the two top corners, and
        appends the constraints of every cell in row-major order. */
    method InitVertices()
      requires Valid()
      modifies this, vertices, particles
      ensures forall i :: 0 <= i < X * Y ==> vertices[i] == PositionAt(X, i) && particles[i] == ParticleAt(X, Y, i)
      ensures distanceConstraints == old(distanceConstraints) + AllConstraints(X, Y)
      ensures Valid()
    {
      var y := 0;
      while y < Y
        invariant 0 <= y <= Y
        invariant forall i :: 0 <= i < vertices.Length && i < y * X ==> vertices[i] == PositionAt(X, i) && particles[i] == ParticleAt(X, Y, i)
        invariant distanceConstraints == old(distanceConstraints)
      {
        InitParticleRow(y);
        y := y + 1;
      }
      assert Y * X == X * Y;
      AddConstraints();
    }

    /** InitVertices' second outer loop: the links of every particle, row
        by row. */
    method AddConstraints()
      requires Valid()
      requires ParticlesReady()
      modifies this
      ensures distanceConstraints == old(distanceConstraints) + AllConstraints(X, Y)
      ensures Valid()
    {
      var y := 0;
      while y < Y
        invariant 0 <= y <= Y
        invariant Valid()
        invariant distanceConstraints == old(distanceConstraints) + GridConstraints(X, Y, y)
      {
        AddRowConstraints(y);
        ConcatAssoc(old(distanceConstraints), GridConstraints(X, Y, y), RowConstraints(X, Y, y, X));
        assert GridConstraints(X, Y, y + 1) == GridConstraints(X, Y, y) + RowConstraints(X, Y, y, X);
        y := y + 1;
      }
    }

    /** One pass of InitVertices' first outer loop: the particles of row y,
        at (x, y, 0), pinned when they are a top corner. */
    method InitParticleRow(y: nat)
      requires Valid() && y < Y
      requires forall i :: 0 <= i < vertices.Length && i < y * X ==> vertices[i] == PositionAt(X, i) && particles[i] == ParticleAt(X, Y, i)
      modifies vertices, particles
      ensures forall i :: 0 <= i < vertices.Length && i < (y + 1) * X ==> vertices[i] == PositionAt(X, i) && particles[i] == ParticleAt(X, Y, i)
      ensures forall i :: (y + 1) * X <= i < vertices.Length ==> vertices[i] == old(vertices[i]) && particles[i] == old(particles[i])
      ensures Valid()
    {
      ghost var row := y * X;
      IndexInRange(X, Y, X - 1, y);
      var x := 0;
      while x < X
        invariant 0 <= x <= X
        invariant forall i :: 0 <= i < vertices.Length && i < row + x ==> vertices[i] == PositionAt(X, i) && particles[i] == ParticleAt(X, Y, i)
        invariant forall i :: row + x <= i < vertices.Length ==> vertices[i] == old(vertices[i]) && particles[i] == old(particles[i])
      {
        CoordsOfIndex(X, x, y);
        vertices[y * X + x] := InitialPosition(x, y);
        if y == Y - 1 && (x == 0 || x == X - 1) {
          particles[y * X + x] := NewParticle(vertices[y * X + x], Pinned);
        } else {
          particles[y * X + x] := NewParticle(vertices[y * X + x], Free(FreeMass));
        }
        x := x + 1;
      }
      MulSucc(y, X);
      assert row + X == (y + 1) * X;
    }

    /** One pass of InitVertices' second outer loop: for each point of row
        y, its right, next-row and diagonal constraints, each when that
        neighbour exists, with rest lengths read from the particles. */
    method AddRowConstraints(y: nat)
      requires Valid() && y < Y
      requires ParticlesReady()
      modifies this
      ensures distanceConstraints == old(distanceConstraints) + RowConstraints(X, Y, y, X)
      ensures Valid()
    {
      var x := 0;
      while x < X
        invariant 0 <= x <= X
        invariant Valid()
        invariant distanceConstraints == old(distanceConstraints) + RowConstraints(X, Y, y, x)
      {
        AddCellConstraints(x, y);
        ConcatAssoc(old(distanceConstraints), RowConstraints(X, Y, y, x), CellConstraints(X, Y, x, y));
        assert RowConstraints(X, Y, y, x + 1) == RowConstraints(X, Y, y, x) + CellConstraints(X, Y, x, y);
        x := x + 1;
      }
    }

    /** One pass of AddRowConstraints' loop: the links of particle (x, y)
        to its right, next-row and diagonal neighbours, where they exist. */
    method AddCellConstraints(x: nat, y: nat)
      requires Valid() && x < X && y < Y
      requires ParticlesReady()
      modifies this
      ensures distanceConstraints == old(distanceConstraints) + CellConstraints(X, Y, x, y)
      ensures Valid()
    {
      IndexInRange(X, Y, x, y);
      CoordsOfIndex(X, x, y);
      MulSucc(y, X);
      if x < X - 1 {
        IndexInRange(X, Y, x + 1, y);
        CoordsOfIndex(X, x + 1, y);
        distanceConstraints := distanceConstraints
          + [NewConstraint(y * X + x, y * X + x + 1, particles[y * X + x].position, particles[y * X + x + 1].position, 1.0)];
      }
      if y < Y - 1 {
        IndexInRange(X, Y, x, y + 1);
        CoordsOfIndex(X, x, y + 1);
        distanceConstraints := distanceConstraints
          + [NewConstraint(y * X + x, (y + 1) * X + x, particles[y * X + x].position, particles[(y + 1) * X + x].position, 1.0)];
      }
      if x < X - 1 && y < Y - 1 {
        IndexInRange(X, Y, x + 1, y + 1);
        CoordsOfIndex(X, x + 1, y + 1);
        distanceConstraints := distanceConstraints
          + [NewConstraint(y * X + x, (y + 1) * X + x + 1, particles[y * X + x].position, particles[(y + 1) * X + x + 1].position, 1.0)];
      }
    }

    /** Fills the index buffer: the entries of cell (x, y) go to slots
        SlotOffset(X, x, y, 0..5). */
    method InitIndices()
      requires Valid()
      modifies triangles
      ensures triangles[..] == IndexBuffer(X, Y)
      ensures Valid()
    {
      var y := 0;
      while y < Y - 1
        invariant 0 <= y <= Y - 1
        invariant y * (X - 1) * 6 <= triangles.Length
        invariant triangles[..y * (X - 1) * 6] == BufferRows(X, y)
      {
        NextRowSlots(X, y);
        MulLeft(y + 1, Y - 1, X - 1);
        InitRowIndices(y, y * (X - 1) * 6);
        y := y + 1;
      }
    }

    /** One pass of InitIndices' outer loop: the cells of row y. */
    method InitRowIndices(y: nat, ghost base: nat)
      requires Valid() && y < Y - 1
      requires base == y * (X - 1) * 6 && base + 6 * (X - 1) <= triangles.Length
      modifies triangles
      ensures triangles[..base + 6 * (X - 1)] == old(triangles[..base]) + BufferRow(X, y, X - 1)
      ensures forall i :: base + 6 * (X - 1) <= i < triangles.Length ==> triangles[i] == old(triangles[i])
      ensures Valid()
    {
      ghost var done := triangles[..base];
      var x := 0;
      while x < X - 1
        invariant 0 <= x <= X - 1
        invariant base + 6 * x <= triangles.Length
        invariant triangles[..base + 6 * x] == done + BufferRow(X, y, x)
        invariant forall i :: base + 6 * x <= i < triangles.Length ==> triangles[i] == old(triangles[i])
      {
        ghost var before := triangles[..base + 6 * x];
        assert SlotOffset(X, x, y, 0) == base + 6 * x && SlotOffset(X, x, y, 6) == base + 6 * (x + 1);
        WriteCellIndices(x, y);
        AppendStep(triangles[..base + 6 * (x + 1)], before, done, BufferRow(X, y, x), CellIndices(X, x, y), BufferRow(X, y, x + 1));
        x := x + 1;
      }
    }

    /** The body of InitRowIndices' loop: the six entries of cell (x, y). */
    method WriteCellIndices(x: nat, y: nat)
      requires Valid() && x < X - 1 && y < Y - 1
      modifies triangles
      ensures SlotOffset(X, x, y, 6) <= triangles.Length
      ensures triangles[..SlotOffset(X, x, y, 6)] == old(triangles[..SlotOffset(X, x, y, 0)]) + CellIndices(X, x, y)
      ensures forall i :: SlotOffset(X, x, y, 6) <= i < triangles.Length ==> triangles[i] == old(triangles[i])
      ensures Valid()
    {
      var o := (y * (X - 1) + x) * 6;
      var here, next := y * X + x, (y + 1) * X + x;
      SlotBound(X, x, y, 5, Y - 1);
      triangles[o] := here;
      triangles[o + 1] := next;
      triangles[o + 2] := here + 1;
      triangles[o + 3] := here + 1;
      triangles[o + 4] := next;
      triangles[o + 5] := next + 1;
      assert triangles[..o] == old(triangles[..o]);
      assert triangles[o..o + 6] == CellIndices(X, x, y);
      assert triangles[..o + 6] == triangles[..o] + triangles[o..o + 6];
    }

    /** The triangles the wind pass of one simulation step hands to the
        wind-force computation, in the order it visits them. */
    method WindTriangles() returns (visits: seq<Triangle>)
      requires Valid()
      ensures visits == WindOrder(X, Y)
    {
      visits := [];
      var y := 0;
      while y < Y - 1
        invariant 0 <= y <= Y - 1
        invariant visits == WindRows(X, y)
      {
        var x := 0;
        while x < X - 1
          invariant 0 <= x <= X - 1
          invariant visits == WindRows(X, y) + WindRow(X, y, x)
        {
          var idx0 := y * X + x;
          var idx1 := (y + 1) * X + x;
          var idx2 := y * X + x + 1;
          visits := visits + [Triangle(idx0, idx1, idx2)];
          idx0 := y * X + x + 1;
          idx1 := (y + 1) * X + x;
          idx2 := (y + 1) * X + x + 1;
          visits := visits + [Triangle(idx0, idx1, idx2)];
          ConcatAssoc(WindRows(X, y), WindRow(X, y, x), CellTriangles(X, x, y));
          assert WindRow(X, y, x + 1) == WindRow(X, y, x) + CellTriangles(X, x, y);
          x := x + 1;
        }
        y := y + 1;
      }
    }

    /** The copy-out after each step: every mesh vertex takes its
        particle's position. */
    method CopyOutPositions()
      requires Valid()
      modifies vertices
      ensures forall i :: 0 <= i < vertices.Length ==> vertices[i] == particles[i].position
      ensures Valid()
    {
      var y := 0;
      while y < Y
        invariant 0 <= y <= Y
        invariant forall i :: 0 <= i < y * X ==> vertices[i] == particles[i].position
      {
        var x := 0;
        ghost var row := y * X;
        IndexInRange(X, Y, X - 1, y);
        while x < X
          invariant 0 <= x <= X
          invariant forall i :: 0 <= i < row + x ==> vertices[i] == particles[i].position
        {
          vertices[y * X + x] := particles[y * X + x].position;
          x := x + 1;
        }
        MulSucc(y, X);
        y := y + 1;
      }
    }
  }
}
