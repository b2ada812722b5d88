/** Distance constraints between two particles, addressed by index. */
module Constraints {
  import opened Particles

  /** A constraint joins particles p1 and p2 of the particle array. The
      rest length is kept squared: it is fixed at construction from the two
      particles' positions and never changes. */
  datatype DistanceConstraint = DistanceConstraint(
    p1: nat,
    p2: nat,
    restLengthSq: real,
    stiffness: real)

  /** A constraint between particles p1 and p2, currently at pos1 and pos2,
      whose rest length is their present distance. */
  function NewConstraint(p1: nat, p2: nat, pos1: Vec3, pos2: Vec3, stiffness: real): (c: DistanceConstraint)
    ensures c.restLengthSq >= 0.0
  {
    DistanceConstraint(p1, p2, SquaredNorm(Sub(pos1, pos2)), stiffness)
  }

  /** The weight a particle gets in a relaxation step: 1 / mass, which is 0
      for the infinite-mass sentinel. */
  function InverseMass(m: Mass): (w: real)
    requires m.Free? ==> m.kg > 0.0
    ensures w >= 0.0
    ensures w == 0.0 <==> m.Pinned?
  {
    match m
    case Pinned => 0.0
    case Free(kg) => 1.0 / kg
  }

  /** The relaxation step divides by w1 + w2; that sum is zero exactly when
      both ends of the constraint are pinned. */
  lemma WeightSumZeroIffBothPinned(m1: Mass, m2: Mass)
    requires m1.Free? ==> m1.kg > 0.0
    requires m2.Free? ==> m2.kg > 0.0
    ensures InverseMass(m1) + InverseMass(m2) == 0.0 <==> m1.Pinned? && m2.Pinned?
  {
  }
}
