# Cloth grid topology

A model of the integer topology in `MyCloth`, a Unity position-based cloth
simulation. The cloth covers an X × Y grid of particles (64 × 64 as
built). The model covers the following:

- **Row-major indexing.** Point (x, y) lives in array slot `y * X + x`.
- **Pinning rule.** The two ends of the top row have infinite mass; every
  other particle has mass 0.1.
- **Constraint list.** `InitVertices` builds it: for each point in row-major
  order, a link to its right neighbour (x + 1, y), then its next-row neighbour
  (x, y + 1), then its diagonal neighbour (x + 1, y + 1), each only when that
  neighbour exists. Rows are numbered upwards: row Y - 1 is the top row.
- **Triangle index buffer.** `InitIndices` fills it with six entries per
  cell.
- **Wind traversal.** `SimulateOneStep` walks the triangles in this order.
- **Copy-out loop.** `Update` copies particle positions back into the mesh
  vertices.

The model is stated for any X, Y ≥ 2. The constants `ClothX = ClothY = 64`
record the size the cloth is built with. The `Built…` lemmas of `Cloth`
state the main facts at that size.

Modules:

- `Basics` holds small facts about sequence concatenation and integer
  products, used as proof steps.
- `Particles` holds vectors, masses (`Pinned`, for the infinite-mass
  sentinel, or `Free(kg)`) and the particle record.
- `Constraints` holds the distance-constraint record and the inverse-mass
  weights of the relaxation step.
- `Grid` holds indexing, initial positions and the pinning rule.
- `ClothConstraints` holds the constraint list as a function of X and Y,
  with its count, shape, order and pinning lemmas.
- `ClothTriangles` holds the index buffer and the wind visit order as
  functions, and proves they agree slot by slot. It also proves bounds, slot
  coverage and triangle orientation.
- `Cloth` holds the class `MyCloth`, with its arrays and its constraint list.
  Its loops are proved against those functions:
  - the particle loop and the constraint loop of `InitVertices`;
  - `InitIndices`;
  - the wind loop's index computation;
  - the copy-out loop.

## Model

| member | source | states |
|---|---|---|
| Grid.Index | Assets/Scripts/MyCloth.cs:162 | the slot `y * X + x` of grid point (x, y), row-major with X points per row; IndexInRange, CoordsOfIndex and IndexBijection state its properties |
| Grid.CoordsOfIndex | Assets/Scripts/MyCloth.cs:162 | the slot `y * X + x` of a grid point with x < X decodes back to column x and row y |
| Grid.IndexInRange | Assets/Scripts/MyCloth.cs:10 | every grid point's slot is below X * Y, the length of `vertices` and `particles` |
| Grid.IndexBijection | Assets/Scripts/MyCloth.cs:157-171 | (x, y) ↦ y * X + x maps [0, X) × [0, Y) onto [0, X * Y), and (column, row) decoding is its two-sided inverse, so the nested loops reach every slot exactly once |
| Grid.CoordsInRange | Assets/Scripts/MyCloth.cs:157-171 | every slot below X * Y decodes to a grid point (column < X, row < Y) whose slot it is, so the nested loops leave no slot unvisited |
| Grid.IsPinnedPoint | Assets/Scripts/MyCloth.cs:163 | the pinning guard: y is Y - 1 and x is 0 or X - 1, the two ends of the top row; PinnedSlotsAreTopCorners states which slots it selects |
| Grid.InitialPosition | Assets/Scripts/MyCloth.cs:161-162 | the position (x, y, 0) that `Set(x, y, z)` with z = 0 gives point (x, y) |
| Grid.InitialParticle | Assets/Scripts/MyCloth.cs:163-170 | the particle built for point (x, y) from its initial position and the mass the pinning rule gives it |
| Grid.PositionAt | Assets/Scripts/MyCloth.cs:161-162 | the initial position held in slot i, that of the point the slot decodes to; PositionAtIndex ties it to the point's own slot |
| Grid.InitialMass | Assets/Scripts/MyCloth.cs:163-170 | the mass the pinning rule gives point (x, y): the infinite-mass sentinel for the two top corners, 0.1 otherwise; every finite mass is positive |
| Grid.ParticleAt | Assets/Scripts/MyCloth.cs:161-170 | the particle created for slot i, at rest; a finite mass is positive, so its inverse mass is defined |
| Grid.PositionAtIndex | Assets/Scripts/MyCloth.cs:161-162 | the slot of point (x, y) holds the position (x, y, 0) |
| Grid.PinnedParticleAt | Assets/Scripts/MyCloth.cs:163-170 | slot i holds a pinned particle if i is (Y - 1) * X or (Y - 1) * X + X - 1; otherwise it holds a free particle of mass 0.1 |
| Grid.PinnedSlotsAreTopCorners | Assets/Scripts/MyCloth.cs:163-170 | the set of pinned slots is exactly the two top corners, and it has two elements |
| Particles.NewParticle | Assets/Scripts/Particle.cs:13-20 | a new particle is at rest: zero velocity and zero predicted velocity, predicted position equal to its position |
| Constraints.NewConstraint | Assets/Scripts/DistanceConstraint.cs:14-19 | a new constraint's rest length is the current distance of its two particles; the squared rest length is never negative |
| Constraints.InverseMass | Assets/Scripts/DistanceConstraint.cs:22-23 | the weight 1 / mass is never negative, and is zero exactly for the infinite-mass sentinel |
| Constraints.WeightSumZeroIffBothPinned | Assets/Scripts/DistanceConstraint.cs:22-28 | the sum w1 + w2 that the projection divides by is zero if and only if both endpoints are pinned |
| ClothConstraints.Link | Assets/Scripts/MyCloth.cs:180-188 | one `new DistanceConstraint(…, 1.0f)` between two grid points, with the rest length taken from their initial positions; LinkIsNeighbour states its properties |
| ClothConstraints.CellConstraints | Assets/Scripts/MyCloth.cs:178-189 | the guarded additions of one point: right, next-row and diagonal link, each when that neighbour exists, at most three |
| ClothConstraints.RowConstraints | Assets/Scripts/MyCloth.cs:176-190 | the constraints the inner loop appends for the first n points of row y, in build order; see RowCount, RowLinksAreNeighbours, RowOrdered |
| ClothConstraints.GridConstraints | Assets/Scripts/MyCloth.cs:174-191 | the constraints appended for the first m rows, in build order; see GridCount, GridLinksAreNeighbours, GridOrdered |
| ClothConstraints.AllConstraints | Assets/Scripts/MyCloth.cs:174-191 | the whole list that the second nested loop builds, in build order; see ConstraintCount, ConstraintsAreExactlyNeighbourLinks, ConstraintsInRowMajorOrder |
| ClothConstraints.WeightSum | Assets/Scripts/DistanceConstraint.cs:22-27 | the divisor w1 + w2 of a listed constraint, from the inverse masses of its endpoints; see NoZeroWeightSum |
| ClothConstraints.CellCount | Assets/Scripts/MyCloth.cs:178-189 | a point appends one constraint for each guard that holds: right, next row, diagonal |
| ClothConstraints.RowCount | Assets/Scripts/MyCloth.cs:176-190 | the count after the first n points of row y, in closed form |
| ClothConstraints.GridCount | Assets/Scripts/MyCloth.cs:174-191 | the count after the first m rows, in closed form |
| ClothConstraints.ConstraintCount | Assets/Scripts/MyCloth.cs:174-191 | the list has (X-1)·Y + X·(Y-1) + (X-1)·(Y-1) entries |
| ClothConstraints.LinkIsNeighbour | Assets/Scripts/MyCloth.cs:180-188 | a link to the right, next-row or diagonal neighbour joins two distinct in-range slots; its squared rest length is the squared grid distance (1 or 2) and its stiffness is 1 |
| ClothConstraints.CellLinksAreNeighbours | Assets/Scripts/MyCloth.cs:178-189 | every constraint one point appends is such a neighbour link |
| ClothConstraints.RowLinksAreNeighbours | Assets/Scripts/MyCloth.cs:176-190 | every constraint that a prefix of a row appends is a neighbour link |
| ClothConstraints.GridLinksAreNeighbours | Assets/Scripts/MyCloth.cs:174-191 | every constraint that a prefix of the rows appends is a neighbour link |
| ClothConstraints.CellInRow | Assets/Scripts/MyCloth.cs:176-190 | the constraints of point x of row y occur among the row's constraints |
| ClothConstraints.RowInGrid | Assets/Scripts/MyCloth.cs:174-191 | the constraints of row y occur among those of any longer prefix of the rows |
| ClothConstraints.ConstraintsAreExactlyNeighbourLinks | Assets/Scripts/MyCloth.cs:174-191 | every entry is a neighbour link; conversely, every right pair, next-row pair and diagonal pair of grid points has its link in the list |
| ClothConstraints.CellOrdered | Assets/Scripts/MyCloth.cs:178-189 | within one point the entries start at that point and go right, then to the next row, then diagonal, strictly increasing by second endpoint |
| ClothConstraints.RowOrdered | Assets/Scripts/MyCloth.cs:176-190 | a row's prefix is strictly ordered, and every entry starts in that prefix |
| ClothConstraints.GridOrdered | Assets/Scripts/MyCloth.cs:174-191 | the first m rows' entries are strictly ordered, and every entry starts below RowStart(X, m), the first slot of row m |
| ClothConstraints.RowStartIsProduct | Assets/Scripts/MyCloth.cs:161-162 | row m starts at slot m · X, the sum of m row widths |
| ClothConstraints.ConstraintsInRowMajorOrder | Assets/Scripts/MyCloth.cs:174-191 | the whole list is strictly increasing in (first endpoint, second endpoint), i.e. row-major order |
| ClothConstraints.BothPinnedIffTwoWide | Assets/Scripts/MyCloth.cs:163 | some constraint has both endpoints pinned if and only if X == 2 |
| ClothConstraints.NoZeroWeightSum | Assets/Scripts/DistanceConstraint.cs:27 | for X ≠ 2 (so for the 64-wide cloth), no constraint in the list has w1 + w2 == 0 |
| ClothTriangles.CellIndices | Assets/Scripts/MyCloth.cs:200-205 | the six entries written for cell (x, y), in slot order |
| ClothTriangles.BufferRow | Assets/Scripts/MyCloth.cs:198-206 | the entries written by the first n cells of row y, six per cell |
| ClothTriangles.BufferRows | Assets/Scripts/MyCloth.cs:196-207 | the entries written by the first m rows of cells, row after row; see BufferRowsLength, BufferRowsAt |
| ClothTriangles.IndexBuffer | Assets/Scripts/MyCloth.cs:194-208 | the whole index buffer as InitIndices leaves it; see IndexBufferLength, IndexBufferAt, IndexBufferInRange |
| ClothTriangles.SlotOffset | Assets/Scripts/MyCloth.cs:200-205 | the slot `(y * (X - 1) + x) * 6 + k` that cell (x, y) writes its k-th entry to; see SlotBound, SlotOffsetBijection |
| ClothTriangles.BufferRowsLength | Assets/Scripts/MyCloth.cs:196-207 | the first m rows of cells fill m · (X-1) · 6 slots |
| ClothTriangles.IndexBufferLength | Assets/Scripts/MyCloth.cs:11 | the entries written fill exactly the (Y-1)·(X-1)·2·3 slots allocated |
| ClothTriangles.BufferRowAt | Assets/Scripts/MyCloth.cs:198-206 | within a row, entry 6x + k is entry k of cell x |
| ClothTriangles.BufferRowsAt | Assets/Scripts/MyCloth.cs:196-207 | the entries of row y follow those of rows 0 .. y-1 |
| ClothTriangles.SlotBound | Assets/Scripts/MyCloth.cs:200-205 | every slot written for a cell of the first m rows lies below m · (X-1) · 6 |
| ClothTriangles.BufferRowsCellAt | Assets/Scripts/MyCloth.cs:198-205 | entry k of cell (x, y) lies 6·x + k past the entries of the rows below row y |
| ClothTriangles.IndexBufferAt | Assets/Scripts/MyCloth.cs:200-205 | slot (y·(X-1) + x)·6 + k holds entry k of cell (x, y): i, i+X, i+1, i+1, i+X, i+X+1 with i = y·X + x |
| ClothTriangles.SlotOffsetBijection | Assets/Scripts/MyCloth.cs:196-207 | the slots written are pairwise distinct (injective) and cover [0, (Y-1)·(X-1)·6) (surjective), with an explicit inverse, so each slot is written exactly once |
| ClothTriangles.IndexBufferInRange | Assets/Scripts/MyCloth.cs:200-205 | every entry of the buffer is a valid particle slot, below X · Y |
| ClothTriangles.CellTriangles | Assets/Scripts/MyCloth.cs:90-100 | the two triangles the wind pass takes for cell (x, y), which share the diagonal edge between i + X and i + 1 |
| ClothTriangles.WindRow | Assets/Scripts/MyCloth.cs:88-105 | the triangles the wind loop visits for the first n cells of row y, in visiting order |
| ClothTriangles.WindRows | Assets/Scripts/MyCloth.cs:86-106 | the triangles visited for the first m rows of cells |
| ClothTriangles.WindOrder | Assets/Scripts/MyCloth.cs:86-106 | every triangle the wind pass visits, in order; see WindOrderMatchesIndexBuffer, WindOrderLength, WindTrianglesWellWound |
| ClothTriangles.RestCross | Assets/Scripts/MyCloth.cs:144 | the cross product of a triangle's two edges from its first corner, taken at the initial positions; see FirstCross, SecondCross |
| ClothTriangles.FlattenCell | Assets/Scripts/MyCloth.cs:90-100 | a cell's two wind triangles, read corner by corner, are the cell's six buffer entries |
| ClothTriangles.FlattenRow | Assets/Scripts/MyCloth.cs:88-105 | the wind triangles of a row prefix, read corner by corner, are that prefix's buffer entries |
| ClothTriangles.FlattenRows | Assets/Scripts/MyCloth.cs:86-106 | the wind triangles of the first m rows, read corner by corner, are those rows' buffer entries |
| ClothTriangles.FlattenLength | Assets/Scripts/MyCloth.cs:11 | a triangle list holds three entries per triangle |
| ClothTriangles.FlattenAt | Assets/Scripts/MyCloth.cs:200-205 | entry 3t + r of the flattened list is corner r of triangle t |
| ClothTriangles.WindOrderMatchesIndexBuffer | Assets/Scripts/MyCloth.cs:86-104 | the wind pass visits exactly the buffer's triangles, in the buffer's order: visit t is the triangle of entries 3t, 3t+1, 3t+2 |
| ClothTriangles.WindOrderAtCell | Assets/Scripts/MyCloth.cs:90-100 | the two triangles of cell (x, y) are visits 2c and 2c + 1 with c = y·(X-1) + x, namely [i, i+X, i+1] and [i+1, i+X, i+X+1] |
| ClothTriangles.WindOrderLength | Assets/Scripts/MyCloth.cs:86-88 | the wind pass makes (Y-1)·(X-1)·2 visits |
| ClothTriangles.FirstCross | Assets/Scripts/MyCloth.cs:144 | at rest, the edge cross product of a cell's first triangle is (0, 0, -1) |
| ClothTriangles.SecondCross | Assets/Scripts/MyCloth.cs:144 | at rest, the edge cross product of a cell's second triangle is (0, 0, -1) |
| ClothTriangles.CellWellWound | Assets/Scripts/MyCloth.cs:90-100 | both triangles of a cell have three distinct in-range corners and the same orientation at rest (initial positions) |
| ClothTriangles.VisitWellWound | Assets/Scripts/MyCloth.cs:86-104 | every visit t is well wound at rest (initial positions) |
| ClothTriangles.WindTrianglesWellWound | Assets/Scripts/MyCloth.cs:86-106 | at rest (initial positions), every triangle the wind force receives is non-degenerate and consistently wound: normal (0, 0, -1), area 1/2 |
| Cloth.BuiltConstraintCount | Assets/Scripts/MyCloth.cs:174-191 | the 64 × 64 cloth has 12033 constraints |
| Cloth.BuiltWeightSums | Assets/Scripts/DistanceConstraint.cs:27 | in the 64 × 64 cloth no constraint has w1 + w2 == 0 |
| Cloth.BuiltPinnedSlots | Assets/Scripts/MyCloth.cs:163-170 | the 64 × 64 cloth pins exactly slots 4032 and 4095 |
| Cloth.BuiltIndexBuffer | Assets/Scripts/MyCloth.cs:11 | the 64 × 64 cloth's index buffer has 23814 entries, each a slot below 4096 |
| Cloth.MyCloth.constructor | Assets/Scripts/MyCloth.cs:10-17 | the arrays have the lengths the field initialisers give, and the constraint list starts empty |
| Cloth.MyCloth.InitVertices | Assets/Scripts/MyCloth.cs:155-192 | afterwards every slot i < X·Y holds position PositionAt(i) and the particle the pinning rule gives it, and the constraint list has AllConstraints appended |
| Cloth.MyCloth.InitParticleRow | Assets/Scripts/MyCloth.cs:159-171 | one row pass extends the initialised prefix from y·X to (y+1)·X slots, and slots from (y+1)·X on keep their values |
| Cloth.MyCloth.AddConstraints | Assets/Scripts/MyCloth.cs:174-191 | given initialised particles, appends exactly AllConstraints(X, Y) |
| Cloth.MyCloth.AddRowConstraints | Assets/Scripts/MyCloth.cs:176-190 | appends exactly the constraints of row y |
| Cloth.MyCloth.AddCellConstraints | Assets/Scripts/MyCloth.cs:178-189 | appends exactly the constraints of point (x, y), with rest lengths read from the particles |
| Cloth.MyCloth.InitIndices | Assets/Scripts/MyCloth.cs:194-208 | afterwards `triangles[..]` is exactly IndexBuffer(X, Y) |
| Cloth.MyCloth.InitRowIndices | Assets/Scripts/MyCloth.cs:198-206 | a row pass appends row y's entries to the filled prefix, leaves the prefix unchanged, and leaves every slot after row y's entries unchanged |
| Cloth.MyCloth.WriteCellIndices | Assets/Scripts/MyCloth.cs:200-205 | the six writes of a cell extend the filled prefix by the cell's entries; earlier slots and slots after the cell's six keep their values |
| Cloth.MyCloth.WindTriangles | Assets/Scripts/MyCloth.cs:86-106 | the sequence of (idx0, idx1, idx2) triples the wind loop computes is WindOrder(X, Y) |
| Cloth.MyCloth.CopyOutPositions | Assets/Scripts/MyCloth.cs:57-63 | afterwards `vertices[i] == particles[i].position` for every slot |

## Left out

- Force and integration arithmetic in `SimulateOneStep` (gravity, predicted and committed velocities and positions, `Time.deltaTime`): floating-point vector numerics. Only the wind loop's triangle indices are modelled.
- `CalcWindForce`: its float cross products, magnitudes, normalisation and `Mathf.Infinity` mass test are floating-point numerics. The model keeps only its arguments, through `WindTriangles`, and the cross product of its edges at rest, through `RestCross`.
- `DistanceConstraint.project`: a floating-point relaxation kernel. Only the constraint's endpoints, rest length and stiffness are modelled, together with the w1 + w2 == 0 condition it divides by.
- `Particle.UpdateVelocityTemp`: a float division by mass.
- `Start` beyond its calls of `InitVertices` and `InitIndices` (component lookup, material setup, and `SetVertices`/`SetTriangles` on the mesh), `Render`, and the mesh calls in `Update` (`SetVertices`, `RecalculateNormals`): calls into the Unity engine, which is not part of this model. `CopyOutPositions` models the copy-out loop of `Update` on its own, without the simulation step before it.
- `SliderController`: reads UI sliders and holds no logic to model.
- WindTrianglesWellWound: proves the orientation at the initial positions only, as do CellWellWound and VisitWellWound, because `CalcWindForce` takes its cross product from the current positions, which move with the float integration that is not modelled.
- Floats are modelled as exact reals. The 0.1f mass is the real 0.1, and `Mathf.Infinity` is the `Pinned` case of `Mass`. Positions hold integral values, so the real and float results agree there.
- `DistanceConstraint.constructor`: the model keeps the squared rest length, because a square root is out of reach. Its value (1 or 2) determines the rest length (1 or √2).
- Particles are values in the `particles` array. A constraint refers to its particles by slot instead of by object reference. The aliasing through which `project` updates the shared particle objects is therefore not modelled.
- The nested loops of `InitVertices` and `InitIndices` are split into methods. The statements and their order are unchanged.
  - The particle loop of `InitVertices` has one method per outer pass, `InitParticleRow`. Its inner loop stays inline.
  - The constraint loop is the method `AddConstraints`. It calls `AddRowConstraints` for each outer pass, which calls `AddCellConstraints` for each inner pass.
  - `InitIndices` calls `InitRowIndices` for each outer pass, which calls `WriteCellIndices` for each inner pass.
- Integer indices are unbounded. For 64 × 64 the largest value computed is below 2^15, so 32-bit `int` never overflows.
