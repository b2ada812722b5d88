/** Particle state of the cloth: plain data, one value per grid point. */
module Particles {

  /** A 3-vector. Components are reals: every position the topology
      builder creates is integral, so the facts stated about them are exact. */
  datatype Vec3 = Vec3(x: real, y: real, z: real)

  const Zero: Vec3 := Vec3(0.0, 0.0, 0.0)

  function Sub(a: Vec3, b: Vec3): Vec3 {
    Vec3(a.x - b.x, a.y - b.y, a.z - b.z)
  }

  function Dot(a: Vec3, b: Vec3): real {
    a.x * b.x + a.y * b.y + a.z * b.z
  }

  function Cross(a: Vec3, b: Vec3): Vec3 {
    Vec3(a.y * b.z - a.z * b.y, a.z * b.x - a.x * b.z, a.x * b.y - a.y * b.x)
  }

  /** The squared Euclidean length of a vector. */
  function SquaredNorm(v: Vec3): real {
    Dot(v, v)
  }

  /** A particle's mass: the infinite-mass sentinel that pins it in place,
      or a finite mass in kilograms. */
  datatype Mass = Pinned | Free(kg: real)

  /** Mass, committed and predicted ("Temp") position and velocity. */
  datatype Particle = Particle(
    mass: Mass,
    position: Vec3,
    positionTemp: Vec3,
    velocity: Vec3,
    velocityTemp: Vec3)

  /** A freshly created particle: at rest, its predicted position equal
      to its position. */
  function NewParticle(position: Vec3, mass: Mass): (p: Particle)
    ensures p.velocity == Zero && p.velocityTemp == Zero
    ensures p.positionTemp == p.position
  {
    Particle(mass, position, position, Zero, Zero)
  }
}
