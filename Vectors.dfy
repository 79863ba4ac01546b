/// Values shared by every part of the model: integer positions, opaque
/// floating-point pairs, and the floating-point operations of the simulator,
/// which the model keeps abstract.
module Vectors {

  /// `long[] Position`: metres along X and Y, stored as whole numbers.
  /// Unbounded here: 64-bit overflow is not modelled.
  datatype Position = Position(x: int, y: int)

  /// A `double[2]`: velocity, acceleration or force along X and Y. The
  /// components are carried as `real`, but the only operations applied to
  /// them are the abstract ones of `Physics` (and negation, which is exact
  /// in IEEE-754).
  datatype FVec = FVec(x: real, y: real)

  /// `new double[] { 0, 0 }`
  const Zero: FVec := FVec(0.0, 0.0)

  /// Unary minus on both components, as in `forces[i, num, k] = -forces[num, i, k]`.
  function Neg(v: FVec): FVec
  {
    FVec(-v.x, -v.y)
  }

  /// Adds a displacement to a position (both axes, exact integer arithmetic).
  function Shift(p: Position, dx: int, dy: int): Position
  {
    Position(p.x + dx, p.y + dy)
  }

  /// The floating-point operations of the simulator, left uninterpreted.
  /// Every property proved in this project holds for every choice of them,
  /// except the two exhibits built on `Motion.LinearPhysics`.
  datatype Physics = Physics(
    /// `a * dX, a * dY` with `a = gm / (sqrt(r2) * r2)`, for a body at the
    /// first position pulled by a peer at the second position whose standard
    /// gravitational parameter is `gm`.
    pull: (Position, Position, real) -> FVec,
    /// Double addition, as in `acceleration[0] += ...`.
    plus: (real, real) -> real,
    /// `v + a * timeStep` for one axis.
    kick: (real, real, real) -> real,
    /// `(long)Math.Round(v * timeStep)` for one axis.
    roundStep: (real, real) -> int,
    /// `F * dX, F * dY` with `F = gMm / (sqrt(r2) * r2)`, for a body at the
    /// first position and a partner at the second.
    pairForce: (Position, Position, real) -> FVec,
    /// `(long)(timeStep * (v + timeStep * f / mass))` for one axis, with
    /// arguments `(v, f, mass, timeStep)`.
    slimStep: (real, real, real, real) -> int,
    /// `G * mass`.
    gravPar: real -> real,
    /// `G * mass_i * mass_j`.
    gravProduct: (real, real) -> real
  )

  /// Component-wise double addition through `phys.plus`.
  function Add(phys: Physics, u: FVec, v: FVec): FVec
  {
    FVec(phys.plus(u.x, v.x), phys.plus(u.y, v.y))
  }
}
