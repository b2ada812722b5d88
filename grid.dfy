/** The particle grid: row-major indexing, initial positions and the
    pinning rule. */
module Grid {
  import opened Particles
  import opened Basics

  /** The grid dimensions the cloth is built with: X particles per row,
      Y rows. The rest of the model holds for any X, Y >= 2. */
  const ClothX: nat := 64
  const ClothY: nat := 64

  /** The finite mass of every particle that is not pinned. */
  const FreeMass: real := 0.1

  predicate ValidDims(X: int, Y: int) {
    X >= 2 && Y >= 2
  }

  /** The array slot of grid point (x, y): row-major, X points per row. */
  function Index(X: nat, x: nat, y: nat): nat {
    y * X + x
  }

  /** The grid column of array slot i. */
  function ColumnOf(X: nat, i: nat): nat
    requires X > 0
  {
    i % X
  }

  /** The grid row of array slot i. */
  function RowOf(X: nat, i: nat): nat
    requires X > 0
  {
    i / X
  }

  /** Index is the inverse of (ColumnOf, RowOf) on the grid. */
  lemma CoordsOfIndex(X: nat, x: nat, y: nat)
    requires x < X
    ensures ColumnOf(X, Index(X, x, y)) == x && RowOf(X, Index(X, x, y)) == y
  {
    var i := y * X + x;
    var q, r := i / X, i % X;
    assert i == q * X + r;
    if q < y {
      MulLeft(q + 1, y, X);
      assert false;
    } else if y < q {
      MulLeft(y + 1, q, X);
      assert false;
    }
  }

  /** Every grid point's slot lies below X * Y; CoordsInRange shows that
      every number below X * Y is some point's slot. */
  lemma IndexInRange(X: nat, Y: nat, x: nat, y: nat)
    requires x < X && y < Y
    ensures Index(X, x, y) < X * Y
  {
    MulLeft(y + 1, Y, X);
  }

  lemma CoordsInRange(X: nat, Y: nat, i: nat)
    requires X > 0 && i < X * Y
    ensures ColumnOf(X, i) < X && RowOf(X, i) < Y
    ensures Index(X, ColumnOf(X, i), RowOf(X, i)) == i
  {
    if i / X >= Y {
      MulLeft(Y, i / X, X);
      assert false;
    }
  }

  /** (x, y) |-> y * X + x is a bijection from [0, X) x [0, Y) onto
      [0, X * Y), with (ColumnOf, RowOf) as its inverse. */
  lemma IndexBijection(X: nat, Y: nat)
    requires X > 0
    ensures forall x: nat, y: nat :: x < X && y < Y ==>
      Index(X, x, y) < X * Y && ColumnOf(X, Index(X, x, y)) == x && RowOf(X, Index(X, x, y)) == y
    ensures forall i: nat :: i < X * Y ==>
      ColumnOf(X, i) < X && RowOf(X, i) < Y && Index(X, ColumnOf(X, i), RowOf(X, i)) == i
  {
    forall x: nat, y: nat | x < X && y < Y
      ensures Index(X, x, y) < X * Y && ColumnOf(X, Index(X, x, y)) == x && RowOf(X, Index(X, x, y)) == y
    {
      IndexInRange(X, Y, x, y);
      CoordsOfIndex(X, x, y);
    }
    forall i: nat | i < X * Y
      ensures ColumnOf(X, i) < X && RowOf(X, i) < Y && Index(X, ColumnOf(X, i), RowOf(X, i)) == i
    {
      CoordsInRange(X, Y, i);
    }
  }

  /** The pinning rule: the two ends of the top row (y == Y - 1). */
  predicate IsPinnedPoint(X: nat, Y: nat, x: nat, y: nat) {
    y == Y - 1 && (x == 0 || x == X - 1)
  }

  function InitialMass(X: nat, Y: nat, x: nat, y: nat): (m: Mass)
    ensures m.Free? ==> m.kg > 0.0
  {
    if IsPinnedPoint(X, Y, x, y) then Pinned else Free(FreeMass)
  }

  /** Grid point (x, y) starts at (x, y, 0). */
  function InitialPosition(x: nat, y: nat): Vec3 {
    Vec3(x as real, y as real, 0.0)
  }

  function InitialParticle(X: nat, Y: nat, x: nat, y: nat): Particle {
    NewParticle(InitialPosition(x, y), InitialMass(X, Y, x, y))
  }

  /** The initial position stored in array slot i. */
  function PositionAt(X: nat, i: nat): Vec3
    requires X > 0
  {
    InitialPosition(ColumnOf(X, i), RowOf(X, i))
  }

  /** The slot of grid point (x, y) holds the position of (x, y). */
  lemma PositionAtIndex(X: nat, x: nat, y: nat)
    requires x < X
    ensures PositionAt(X, Index(X, x, y)) == InitialPosition(x, y)
  {
    CoordsOfIndex(X, x, y);
  }

  /** The particle created in array slot i. */
  function ParticleAt(X: nat, Y: nat, i: nat): (p: Particle)
    requires X > 0
    ensures p.mass.Free? ==> p.mass.kg > 0.0
    ensures p.velocity == Zero && p.positionTemp == p.position
  {
    InitialParticle(X, Y, ColumnOf(X, i), RowOf(X, i))
  }

  /** Slot i holds a pinned particle exactly when it is one of the two top
      corners; every other particle is free with the uniform mass. */
  lemma PinnedParticleAt(X: nat, Y: nat, i: nat)
    requires ValidDims(X, Y) && i < X * Y
    ensures ParticleAt(X, Y, i).mass ==
      if i == (Y - 1) * X || i == (Y - 1) * X + X - 1 then Pinned else Free(FreeMass)
  {
    CoordsInRange(X, Y, i);
    if i == (Y - 1) * X {
      CoordsOfIndex(X, 0, Y - 1);
    } else if i == (Y - 1) * X + X - 1 {
      CoordsOfIndex(X, X - 1, Y - 1);
    }
  }

  /** The slots holding pinned particles. */
  function PinnedSlots(X: nat, Y: nat): set<nat>
    requires X > 0
  {
    set i: nat | i < X * Y && ParticleAt(X, Y, i).mass.Pinned?
  }

  /** Exactly two particles are pinned: the top-left and top-right corners. */
  lemma PinnedSlotsAreTopCorners(X: nat, Y: nat)
    requires ValidDims(X, Y)
    ensures PinnedSlots(X, Y) == {(Y - 1) * X, (Y - 1) * X + X - 1}
    ensures |PinnedSlots(X, Y)| == 2
  {
    IndexInRange(X, Y, 0, Y - 1);
    IndexInRange(X, Y, X - 1, Y - 1);
    PinnedParticleAt(X, Y, (Y - 1) * X);
    PinnedParticleAt(X, Y, (Y - 1) * X + X - 1);
    forall i: nat | i < X * Y
      ensures ParticleAt(X, Y, i).mass.Pinned? <==> i == (Y - 1) * X || i == (Y - 1) * X + X - 1
    {
      PinnedParticleAt(X, Y, i);
    }
  }
}
