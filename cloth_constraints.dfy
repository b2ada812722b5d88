/** The distance constraints the cloth is built with, as a function of the
    grid dimensions, and what is proved about them. */
module ClothConstraints {
  import opened Particles
  import opened Constraints
  import opened Grid
  import opened Basics

  /** Every constraint of the cloth is created with full stiffness. */
  const Stiffness: real := 1.0

  /** The constraint from grid point (x1, y1) to grid point (x2, y2), with
      its rest length taken from their initial positions. */
  function Link(X: nat, x1: nat, y1: nat, x2: nat, y2: nat): DistanceConstraint {
    NewConstraint(Index(X, x1, y1), Index(X, x2, y2), InitialPosition(x1, y1), InitialPosition(x2, y2), Stiffness)
  }

  /** What one visit of cell (x, y) appends: the right neighbour, then the
      next-row neighbour, then the diagonal one (next column, next row), each
      when it exists. */
  function CellConstraints(X: nat, Y: nat, x: nat, y: nat): (r: seq<DistanceConstraint>)
    ensures |r| <= 3
  {
    (if x < X - 1 then [Link(X, x, y, x + 1, y)] else [])
    + (if y < Y - 1 then [Link(X, x, y, x, y + 1)] else [])
    + (if x < X - 1 && y < Y - 1 then [Link(X, x, y, x + 1, y + 1)] else [])
  }

  /** The constraints of the first n cells of row y. */
  function RowConstraints(X: nat, Y: nat, y: nat, n: nat): seq<DistanceConstraint> {
    if n == 0 then [] else RowConstraints(X, Y, y, n - 1) + CellConstraints(X, Y, n - 1, y)
  }

  /** The constraints of the first m rows. */
  function GridConstraints(X: nat, Y: nat, m: nat): seq<DistanceConstraint> {
    if m == 0 then [] else GridConstraints(X, Y, m - 1) + RowConstraints(X, Y, m - 1, X)
  }

  /** The whole constraint list, in the order it is built. */
  function AllConstraints(X: nat, Y: nat): seq<DistanceConstraint> {
    GridConstraints(X, Y, Y)
  }

  // ---------------------------------------------------------------- count

  lemma CellCount(X: nat, Y: nat, x: nat, y: nat)
    ensures |CellConstraints(X, Y, x, y)| ==
      (if x < X - 1 then 1 else 0) + (if y < Y - 1 then 1 else 0) + (if x < X - 1 && y < Y - 1 then 1 else 0)
  {
  }

  lemma {:induction false} RowCount(X: nat, Y: nat, y: nat, n: nat)
    requires 1 <= X && n <= X
    ensures |RowConstraints(X, Y, y, n)| ==
      (if n < X then n else X - 1) + (if y < Y - 1 then n + (if n < X then n else X - 1) else 0)
  {
    if n > 0 {
      RowCount(X, Y, y, n - 1);
      CellCount(X, Y, n - 1, y);
    }
  }

  lemma {:induction false} GridCount(X: nat, Y: nat, m: nat)
    requires X >= 1 && 1 <= Y && m <= Y
    ensures |GridConstraints(X, Y, m)| ==
      m * (X - 1) + (if m < Y then m else Y - 1) * (2 * X - 1)
  {
    if m > 0 {
      GridCount(X, Y, m - 1);
      RowCount(X, Y, m - 1, X);
      MulSucc(m - 1, X - 1);
      MulSucc(m - 1, 2 * X - 1);
    }
  }

  /** The list has one right-neighbour constraint per point off the last
      column, one next-row constraint per point off the last row and
      one diagonal per cell. */
  lemma ConstraintCount(X: nat, Y: nat)
    requires ValidDims(X, Y)
    ensures |AllConstraints(X, Y)| == (X - 1) * Y + X * (Y - 1) + (X - 1) * (Y - 1)
  {
    GridCount(X, Y, Y);
  }

  // ---------------------------------------------------------------- shape

  /** c joins two distinct particles of the grid; the second lies 0 or 1
      columns and 0 or 1 rows further on than the first; its squared
      rest length is the squared grid distance (1 or 2) and its
      stiffness is 1. */
  predicate NeighbourLink(X: nat, Y: nat, c: DistanceConstraint)
    requires X > 0
  {
    c.p1 < X * Y && c.p2 < X * Y && c.p1 != c.p2
    && var dx := ColumnOf(X, c.p2) - ColumnOf(X, c.p1);
       var dy := RowOf(X, c.p2) - RowOf(X, c.p1);
       0 <= dx <= 1 && 0 <= dy <= 1 && 0 < dx + dy
       && c.restLengthSq == (dx + dy) as real
       && c.stiffness == Stiffness
  }

  lemma LinkIsNeighbour(X: nat, Y: nat, x1: nat, y1: nat, x2: nat, y2: nat)
    requires x2 < X && y2 < Y
    requires x1 <= x2 <= x1 + 1 && y1 <= y2 <= y1 + 1 && (x1, y1) != (x2, y2)
    ensures NeighbourLink(X, Y, Link(X, x1, y1, x2, y2))
  {
    IndexInRange(X, Y, x1, y1);
    IndexInRange(X, Y, x2, y2);
    CoordsOfIndex(X, x1, y1);
    CoordsOfIndex(X, x2, y2);
    var d := Sub(InitialPosition(x1, y1), InitialPosition(x2, y2));
    assert d == Vec3(x1 as real - x2 as real, y1 as real - y2 as real, 0.0);
    SquaredStep(x1 as real - x2 as real, y1 as real - y2 as real);
  }

  /** The squared length of a grid step (dx, dy, 0) with |dx|, |dy| <= 1. */
  lemma SquaredStep(a: real, b: real)
    requires a == 0.0 || a == -1.0
    requires b == 0.0 || b == -1.0
    ensures SquaredNorm(Vec3(a, b, 0.0)) == -(a + b)
  {
  }

  lemma CellLinksAreNeighbours(X: nat, Y: nat, x: nat, y: nat)
    requires x < X && y < Y
    ensures forall c :: c in CellConstraints(X, Y, x, y) ==> NeighbourLink(X, Y, c)
  {
    if x < X - 1 { LinkIsNeighbour(X, Y, x, y, x + 1, y); }
    if y < Y - 1 { LinkIsNeighbour(X, Y, x, y, x, y + 1); }
    if x < X - 1 && y < Y - 1 { LinkIsNeighbour(X, Y, x, y, x + 1, y + 1); }
  }

  lemma {:induction false} RowLinksAreNeighbours(X: nat, Y: nat, y: nat, n: nat)
    requires n <= X && y < Y
    ensures forall c :: c in RowConstraints(X, Y, y, n) ==> NeighbourLink(X, Y, c)
  {
    if n > 0 {
      RowLinksAreNeighbours(X, Y, y, n - 1);
      CellLinksAreNeighbours(X, Y, n - 1, y);
    }
  }

  lemma {:induction false} GridLinksAreNeighbours(X: nat, Y: nat, m: nat)
    requires X > 0 && m <= Y
    ensures forall c :: c in GridConstraints(X, Y, m) ==> NeighbourLink(X, Y, c)
  {
    if m > 0 {
      var prev, row := GridConstraints(X, Y, m - 1), RowConstraints(X, Y, m - 1, X);
      GridLinksAreNeighbours(X, Y, m - 1);
      RowLinksAreNeighbours(X, Y, m - 1, X);
      forall c | c in prev + row ensures NeighbourLink(X, Y, c) {
        if c in prev { } else { assert c in row; }
      }
    }
  }

  /** Grid point (x2, y2) is the right, next-row or diagonal neighbour of
      grid point (x1, y1), and both lie on the grid. */
  predicate Adjacent(X: nat, Y: nat, x1: nat, y1: nat, x2: nat, y2: nat) {
    x2 < X && y2 < Y
    && ((x2 == x1 + 1 && y2 == y1) || (x2 == x1 && y2 == y1 + 1) || (x2 == x1 + 1 && y2 == y1 + 1))
  }

  lemma {:induction false} CellInRow(X: nat, Y: nat, x: nat, y: nat, n: nat)
    requires x < n
    ensures forall c :: c in CellConstraints(X, Y, x, y) ==> c in RowConstraints(X, Y, y, n)
  {
    if x < n - 1 {
      CellInRow(X, Y, x, y, n - 1);
    }
  }

  lemma {:induction false} RowInGrid(X: nat, Y: nat, y: nat, m: nat)
    requires y < m
    ensures forall c :: c in RowConstraints(X, Y, y, X) ==> c in GridConstraints(X, Y, m)
  {
    var prev, last := GridConstraints(X, Y, m - 1), RowConstraints(X, Y, m - 1, X);
    assert GridConstraints(X, Y, m) == prev + last;
    if y < m - 1 {
      RowInGrid(X, Y, y, m - 1);
      forall c | c in RowConstraints(X, Y, y, X) ensures c in prev + last {
        assert c in prev;
      }
    }
  }

  /** The constraint list holds exactly the links between grid neighbours:
      every entry is a neighbour link, and every right, next-row and
      diagonal neighbour pair is joined by an entry. */
  lemma ConstraintsAreExactlyNeighbourLinks(X: nat, Y: nat)
    requires ValidDims(X, Y)
    ensures forall c :: c in AllConstraints(X, Y) ==> NeighbourLink(X, Y, c)
    ensures forall x1: nat, y1: nat, x2: nat, y2: nat :: Adjacent(X, Y, x1, y1, x2, y2) ==>
      Link(X, x1, y1, x2, y2) in AllConstraints(X, Y)
  {
    GridLinksAreNeighbours(X, Y, Y);
    forall x1: nat, y1: nat, x2: nat, y2: nat | Adjacent(X, Y, x1, y1, x2, y2)
      ensures Link(X, x1, y1, x2, y2) in AllConstraints(X, Y)
    {
      assert Link(X, x1, y1, x2, y2) in CellConstraints(X, Y, x1, y1);
      CellInRow(X, Y, x1, y1, X);
      RowInGrid(X, Y, y1, Y);
    }
  }

  // ---------------------------------------------------------------- order

  /** a comes before b in row-major order of their first endpoints, and by
      second endpoint among constraints of the same point. */
  predicate Precedes(a: DistanceConstraint, b: DistanceConstraint) {
    a.p1 < b.p1 || (a.p1 == b.p1 && a.p2 < b.p2)
  }

  predicate StrictlyOrdered(cs: seq<DistanceConstraint>) {
    forall i, j :: 0 <= i < j < |cs| ==> Precedes(cs[i], cs[j])
  }

  /** Every entry's first endpoint lies in [lo, hi). */
  predicate StartsWithin(cs: seq<DistanceConstraint>, lo: int, hi: int) {
    forall i :: 0 <= i < |cs| ==> lo <= cs[i].p1 < hi
  }

  /** Two ordered runs whose first endpoints occupy consecutive ranges make
      one ordered run. */
  lemma OrderedConcat(cs: seq<DistanceConstraint>, a: seq<DistanceConstraint>, b: seq<DistanceConstraint>, lo: int, mid: int, hi: int)
    requires cs == a + b
    requires StrictlyOrdered(a) && StartsWithin(a, lo, mid)
    requires StrictlyOrdered(b) && StartsWithin(b, mid, hi)
    requires lo <= mid <= hi
    ensures StrictlyOrdered(cs) && StartsWithin(cs, lo, hi)
  {
    forall i, j | 0 <= i < j < |a + b| ensures Precedes((a + b)[i], (a + b)[j]) {
      if j < |a| {
        assert (a + b)[i] == a[i] && (a + b)[j] == a[j];
      } else if i >= |a| {
        assert (a + b)[i] == b[i - |a|] && (a + b)[j] == b[j - |a|];
      } else {
        assert (a + b)[i] == a[i] && (a + b)[j] == b[j - |a|];
      }
    }
    forall i | 0 <= i < |a + b| ensures lo <= (a + b)[i].p1 < hi {
      if i < |a| {
        assert (a + b)[i] == a[i];
      } else {
        assert (a + b)[i] == b[i - |a|];
      }
    }
  }

  /** Within a cell the entries all start at the cell's point and go right,
      then to the next row, then diagonally: 1 < X < X + 1 steps further on. */
  lemma CellOrdered(X: nat, Y: nat, x: nat, y: nat)
    requires X >= 2
    ensures StrictlyOrdered(CellConstraints(X, Y, x, y))
    ensures StartsWithin(CellConstraints(X, Y, x, y), y * X + x, y * X + x + 1)
  {
  }

  /** The first slot of row m, as a running sum of row widths. */
  function RowStart(X: nat, m: nat): nat {
    if m == 0 then 0 else RowStart(X, m - 1) + X
  }

  lemma {:induction false} RowStartIsProduct(X: nat, m: nat)
    ensures RowStart(X, m) == m * X
  {
    if m > 0 {
      RowStartIsProduct(X, m - 1);
      MulSucc(m - 1, X);
    }
  }

  lemma {:induction false} RowOrdered(X: nat, Y: nat, y: nat, n: nat)
    requires X >= 2 && n <= X
    ensures StrictlyOrdered(RowConstraints(X, Y, y, n))
    ensures StartsWithin(RowConstraints(X, Y, y, n), RowStart(X, y), RowStart(X, y) + n)
  {
    if n > 0 {
      var done, cell := RowConstraints(X, Y, y, n - 1), CellConstraints(X, Y, n - 1, y);
      var lo := RowStart(X, y);
      RowStartIsProduct(X, y);
      RowOrdered(X, Y, y, n - 1);
      CellOrdered(X, Y, n - 1, y);
      OrderedConcat(RowConstraints(X, Y, y, n), done, cell, lo, lo + (n - 1), lo + n);
    }
  }

  lemma {:induction false} GridOrdered(X: nat, Y: nat, m: nat)
    requires X >= 2
    ensures StrictlyOrdered(GridConstraints(X, Y, m))
    ensures StartsWithin(GridConstraints(X, Y, m), 0, RowStart(X, m))
  {
    if m > 0 {
      var prev, row := GridConstraints(X, Y, m - 1), RowConstraints(X, Y, m - 1, X);
      GridOrdered(X, Y, m - 1);
      RowOrdered(X, Y, m - 1, X);
      OrderedConcat(GridConstraints(X, Y, m), prev, row, 0, RowStart(X, m - 1), RowStart(X, m));
    }
  }

  /** The list is strictly increasing in (first endpoint, second endpoint):
      cells are visited row-major, and within one cell the right link comes
      before the next-row one, which comes before the diagonal. Together with
      ConstraintsAreExactlyNeighbourLinks this fixes the list entirely. */
  lemma ConstraintsInRowMajorOrder(X: nat, Y: nat)
    requires ValidDims(X, Y)
    ensures StrictlyOrdered(AllConstraints(X, Y))
  {
    GridOrdered(X, Y, Y);
  }

  // ---------------------------------------------------------------- pinning

  predicate BothPinned(X: nat, Y: nat, c: DistanceConstraint)
    requires X > 0
  {
    ParticleAt(X, Y, c.p1).mass.Pinned? && ParticleAt(X, Y, c.p2).mass.Pinned?
  }

  /** Some constraint joins two pinned particles exactly when the grid is
      two points wide: only then are the two pinned corners neighbours. */
  lemma BothPinnedIffTwoWide(X: nat, Y: nat)
    requires ValidDims(X, Y)
    ensures (exists c :: c in AllConstraints(X, Y) && BothPinned(X, Y, c)) <==> X == 2
  {
    ConstraintsAreExactlyNeighbourLinks(X, Y);
    if X == 2 {
      assert Adjacent(X, Y, 0, Y - 1, 1, Y - 1);
      var c := Link(X, 0, Y - 1, 1, Y - 1);
      PinnedParticleAt(X, Y, c.p1);
      PinnedParticleAt(X, Y, c.p2);
      assert c in AllConstraints(X, Y) && BothPinned(X, Y, c);
    } else {
      forall c | c in AllConstraints(X, Y) ensures !BothPinned(X, Y, c) {
        assert NeighbourLink(X, Y, c);
        PinnedParticleAt(X, Y, c.p1);
        PinnedParticleAt(X, Y, c.p2);
      }
    }
  }

  /** The sum w1 + w2 of the inverse masses of c's endpoints, by which the
      relaxation step divides. */
  function WeightSum(X: nat, Y: nat, c: DistanceConstraint): real
    requires X > 0
  {
    InverseMass(ParticleAt(X, Y, c.p1).mass) + InverseMass(ParticleAt(X, Y, c.p2).mass)
  }

  /** When the grid is wider than two points (as the 64 x 64 cloth is), no
      constraint joins two pinned particles, so the weight sum w1 + w2 the
      relaxation step divides by is never zero. */
  lemma NoZeroWeightSum(X: nat, Y: nat)
    requires ValidDims(X, Y) && X != 2
    ensures forall c :: c in AllConstraints(X, Y) ==> WeightSum(X, Y, c) != 0.0
  {
    BothPinnedIffTwoWide(X, Y);
    forall c | c in AllConstraints(X, Y) ensures WeightSum(X, Y, c) != 0.0 {
      assert !BothPinned(X, Y, c);
      WeightSumZeroIffBothPinned(ParticleAt(X, Y, c.p1).mass, ParticleAt(X, Y, c.p2).mass);
    }
  }
}
