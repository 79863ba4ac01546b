/// The slim strategy of SolarSystem.cs on a snapshot value: the pairwise
/// force table that `CalculateForces` fills, the row sum and position update
/// of `UpdatePositions`, and one step of the strategy. Index `k` of a
/// snapshot stands for `objects[k]`, whose `Number` is `k`.
module Slim {
  import opened Vectors
  import opened Motion

  /// `forces[r, c]` as body `r < c` writes it: the pull of body `c` on body
  /// `r`, from their positions and the precomputed `G * m_r * m_c`.
  function Upper(phys: Physics, s: seq<Body>, r: nat, c: nat): FVec
    requires r < |s| && c < |s|
  {
    phys.pairForce(s[r].position, s[c].position, phys.gravProduct(s[r].mass, s[c].mass))
  }

  /// Cell `(r, c)` of the force table once every body has run
  /// `CalculateForces` on snapshot `s`: the body with the smaller index writes
  /// both cells of the pair, the second one negated; the diagonal keeps the
  /// zero it was allocated with.
  function PairForce(phys: Physics, s: seq<Body>, r: nat, c: nat): FVec
    requires r < |s| && c < |s|
  {
    if r < c then Upper(phys, s, r, c)
    else if c < r then Neg(Upper(phys, s, c, r))
    else Zero
  }

  /// Newton's third law as the table holds it: the force of `c` on `r` is
  /// minus the force of `r` on `c`, for every pair, the diagonal included.
  lemma NewtonThirdLaw(phys: Physics, s: seq<Body>, r: nat, c: nat)
    requires r < |s| && c < |s|
    ensures PairForce(phys, s, r, c) == Neg(PairForce(phys, s, c, r))
  {
    if r < c {
      var u := Upper(phys, s, r, c);
      assert Neg(Neg(u)) == u;
    } else if r == c {
      assert Neg(Zero) == Zero;
    }
  }

  /// `double[] force = new double[2]`, then `force[k] += row[i, k]` for every
  /// cell of the row, in column order.
  function Total(phys: Physics, row: seq<FVec>): FVec
  {
    if row == [] then Zero else Add(phys, Total(phys, row[..|row| - 1]), row[|row| - 1])
  }

  /// Row `k` of the force table of snapshot `s`.
  function ForceRow(phys: Physics, s: seq<Body>, k: nat): (row: seq<FVec>)
    requires k < |s|
    ensures |row| == |s|
  {
    seq(|s|, i requires 0 <= i < |s| => PairForce(phys, s, k, i))
  }

  /// The net force on body `k` as `UpdatePositions` sums it.
  function NetForce(phys: Physics, s: seq<Body>, k: nat): FVec
    requires k < |s|
  {
    Total(phys, ForceRow(phys, s, k))
  }

  /// The two position lines of `UpdatePositions`, corrected: each axis uses
  /// its own velocity component, `p[k] += (long)(dt * (v[k] + dt * f[k] / m))`.
  function SlimMove(phys: Physics, dt: real, p: Position, v: FVec, f: FVec, m: real): Position
  {
    Shift(p, phys.slimStep(v.x, f.x, m, dt), phys.slimStep(v.y, f.y, m, dt))
  }

  /// The two position lines of `UpdatePositions` as written: the Y line reads
  /// `Velocity[0]`, the X component of the velocity.
  function SlimMoveAsWritten(phys: Physics, dt: real, p: Position, v: FVec, f: FVec, m: real): Position
  {
    Shift(p, phys.slimStep(v.x, f.x, m, dt), phys.slimStep(v.x, f.y, m, dt))
  }

  /// Exchanges the X and Y axes.
  function SwapPosition(p: Position): Position
  {
    Position(p.y, p.x)
  }

  /// Exchanges the X and Y components.
  function SwapVector(v: FVec): FVec
  {
    FVec(v.y, v.x)
  }

  /// The corrected update treats the two axes alike: exchanging X and Y in
  /// every input exchanges them in the new position.
  lemma SlimMoveSymmetric(phys: Physics, dt: real, p: Position, v: FVec, f: FVec, m: real)
    ensures SlimMove(phys, dt, SwapPosition(p), SwapVector(v), SwapVector(f), m) ==
            SwapPosition(SlimMove(phys, dt, p, v, f, m))
  {
  }

  /// The update as written does not: a body at rest on X that moves along Y
  /// at 1 m/s with no force on it stays where it is for a one-second step,
  /// while the same body moving along X advances by one metre, in both axes.
  lemma SlimMoveAsWrittenAsymmetric()
    ensures SlimMoveAsWritten(LinearPhysics(), 1.0, Position(0, 0), FVec(0.0, 1.0), Zero, 1.0) == Position(0, 0)
    ensures SlimMoveAsWritten(LinearPhysics(), 1.0, Position(0, 0), FVec(1.0, 0.0), Zero, 1.0) == Position(1, 1)
    ensures SlimMove(LinearPhysics(), 1.0, Position(0, 0), FVec(0.0, 1.0), Zero, 1.0) == Position(0, 1)
  {
    var phys := LinearPhysics();
    assert phys.slimStep(0.0, 0.0, 1.0, 1.0) == 0;
    assert phys.slimStep(1.0, 0.0, 1.0, 1.0) == 1;
  }

  /// `UpdatePositions` of body `k` after the force table of `s` is complete,
  /// with the two position lines as written (the Y line reads the X velocity).
  /// Only the position changes: the velocity is read but never written.
  function SlimBody(phys: Physics, dt: real, s: seq<Body>, k: nat): (b: Body)
    requires k < |s|
    ensures b.velocity == s[k].velocity && b.acceleration == s[k].acceleration
    ensures b.mass == s[k].mass && b.stdGravPar == s[k].stdGravPar && b.peers == s[k].peers
  {
    s[k].(position := SlimMoveAsWritten(phys, dt, s[k].position, s[k].velocity, NetForce(phys, s, k), s[k].mass))
  }

  /// One step of the slim strategy: every body's forces, then every body's move.
  function SlimStep(phys: Physics, dt: real, s: seq<Body>): (r: seq<Body>)
    ensures |r| == |s|
  {
    seq(|s|, k requires 0 <= k < |s| => SlimBody(phys, dt, s, k))
  }

  /// Snapshot `t` once the bodies at the indices `done` have run
  /// `UpdatePositions` against the force table of `s`, and no other has.
  function SlimMoved(phys: Physics, dt: real, s: seq<Body>, done: seq<nat>): (r: seq<Body>)
    ensures |r| == |s|
    ensures forall k :: 0 <= k < |s| ==> r[k] == if k in done then SlimBody(phys, dt, s, k) else s[k]
  {
    seq(|s|, k requires 0 <= k < |s| => if k in done then SlimBody(phys, dt, s, k) else s[k])
  }

  /// Moving one more body, not moved before, extends the list of moved bodies.
  lemma SlimMovedNext(phys: Physics, dt: real, s: seq<Body>, done: seq<nat>, k: nat)
    requires k < |s|
    ensures SlimMoved(phys, dt, s, done)[k := SlimBody(phys, dt, s, k)] == SlimMoved(phys, dt, s, done + [k])
  {
  }

  /// Once every body has moved, in whatever order and whatever grouping, the
  /// result is one slim step.
  lemma SlimMovedAll(phys: Physics, dt: real, s: seq<Body>, done: seq<nat>)
    requires forall k: nat :: k < |s| ==> k in done
    ensures SlimMoved(phys, dt, s, done) == SlimStep(phys, dt, s)
  {
  }

  /// `count` slim steps.
  function SlimSteps(phys: Physics, dt: real, s: seq<Body>, count: nat): (r: seq<Body>)
    ensures |r| == |s|
    decreases count
  {
    if count == 0 then s else SlimSteps(phys, dt, SlimStep(phys, dt, s), count - 1)
  }

  /// Slim step `count + 1` is one slim step after slim step `count`.
  lemma {:induction false} SlimStepsNext(phys: Physics, dt: real, s: seq<Body>, count: nat)
    ensures SlimSteps(phys, dt, s, count + 1) == SlimStep(phys, dt, SlimSteps(phys, dt, s, count))
    decreases count
  {
    if count > 0 {
      SlimStepsNext(phys, dt, SlimStep(phys, dt, s), count - 1);
    }
  }

  /// However many slim steps run, no body's velocity, mass, `StdGravPar` or
  /// peer list changes: the strategy moves bodies with the velocity they
  /// started with.
  lemma {:induction false} SlimStepsKeepVelocity(phys: Physics, dt: real, s: seq<Body>, count: nat, k: nat)
    requires k < |s|
    ensures SlimSteps(phys, dt, s, count)[k].velocity == s[k].velocity
    ensures SlimSteps(phys, dt, s, count)[k].mass == s[k].mass
    ensures SlimSteps(phys, dt, s, count)[k].stdGravPar == s[k].stdGravPar
    ensures SlimSteps(phys, dt, s, count)[k].peers == s[k].peers
    decreases count
  {
    if count > 0 {
      var t := SlimStep(phys, dt, s);
      assert t[k] == SlimBody(phys, dt, s, k);
      SlimStepsKeepVelocity(phys, dt, t, count - 1, k);
    }
  }
}
