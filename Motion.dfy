/// What one simulation step of the classic strategies does to the whole set
/// of bodies, stated on a snapshot value: `CalculateAcceleration`,
/// `UpdateVelocity` and `UpdatePosition` of CelestialObject.cs, the serial
/// sweep of `CalculateStep`, and the two-phase step that the threaded
/// strategies run behind a barrier. Index `k` of a snapshot stands for
/// `objects[k]` of the solar system.
module Motion {
  import opened Vectors
  import opened Partition

  /// What one entry of `CalculatableObjects` contributes to the loop of
  /// `CalculateAcceleration`: where that peer is and its `StdGravPar`.
  datatype Source = Source(position: Position, gm: real)

  /// `acceleration = {0, 0}`, then one `acceleration[k] += a * dK` per peer,
  /// in list order, for a body at `self`.
  function Accumulate(phys: Physics, self: Position, srcs: seq<Source>): FVec
  {
    if srcs == [] then Zero
    else
      var last := srcs[|srcs| - 1];
      Add(phys, Accumulate(phys, self, srcs[..|srcs| - 1]), phys.pull(self, last.position, last.gm))
  }

  /// The accumulation over a concatenation continues the accumulation over
  /// its first part: the loop adds contributions strictly in list order.
  lemma {:induction false} AccumulateAppend(phys: Physics, self: Position, a: seq<Source>, b: seq<Source>)
    ensures Accumulate(phys, self, a + b) == AccumulateFrom(phys, self, Accumulate(phys, self, a), b)
  {
    if b != [] {
      var last := b[|b| - 1];
      assert (a + b)[..|a + b| - 1] == a + b[..|b| - 1];
      AccumulateAppend(phys, self, a, b[..|b| - 1]);
    } else {
      assert a + b == a;
    }
  }

  /// The same loop started from `acc` instead of zero.
  function AccumulateFrom(phys: Physics, self: Position, acc: FVec, srcs: seq<Source>): FVec
  {
    if srcs == [] then acc
    else
      var last := srcs[|srcs| - 1];
      Add(phys, AccumulateFrom(phys, self, acc, srcs[..|srcs| - 1]), phys.pull(self, last.position, last.gm))
  }

  /// The part of a body that a step reads or writes. `peers` holds the arena
  /// indices of its `CalculatableObjects`, in list order.
  datatype Body = Body(mass: real, stdGravPar: real, position: Position, velocity: FVec, acceleration: FVec, peers: seq<nat>)

  /// Every peer index names a body of the snapshot.
  predicate WellFormed(s: seq<Body>)
  {
    forall k :: 0 <= k < |s| ==> InRange(s[k].peers, |s|)
  }

  /// `t` agrees with `s` on everything a first phase reads of other bodies
  /// and never writes: positions, `StdGravPar`, masses and peer lists.
  predicate SameFrame(s: seq<Body>, t: seq<Body>)
  {
    |s| == |t| &&
    forall k :: 0 <= k < |s| ==>
      t[k].position == s[k].position && t[k].stdGravPar == s[k].stdGravPar &&
      t[k].mass == s[k].mass && t[k].peers == s[k].peers
  }

  /// The sources a body with peer list `peers` reads in snapshot `s`.
  function SourcesAt(s: seq<Body>, peers: seq<nat>): seq<Source>
    requires InRange(peers, |s|)
  {
    seq(|peers|, m requires 0 <= m < |peers| => Source(s[peers[m]].position, s[peers[m]].stdGravPar))
  }

  /// `CalculateAcceleration` of body `k` in snapshot `s`.
  function Acceleration(phys: Physics, s: seq<Body>, k: nat): FVec
    requires WellFormed(s) && k < |s|
  {
    Accumulate(phys, s[k].position, SourcesAt(s, s[k].peers))
  }

  /// `UpdateVelocity`: `Velocity[k] += acceleration[k] * timeStep` on both axes.
  function Kick(phys: Physics, v: FVec, a: FVec, dt: real): FVec
  {
    FVec(phys.kick(v.x, a.x, dt), phys.kick(v.y, a.y, dt))
  }

  /// `UpdatePosition`: `Position[k] += (long)Math.Round(Velocity[k] * timeStep)` on both axes.
  function Move(phys: Physics, p: Position, v: FVec, dt: real): Position
  {
    Shift(p, phys.roundStep(v.x, dt), phys.roundStep(v.y, dt))
  }

  /// `CalculateNewVelocity` applied to body `k` of snapshot `s`: it writes the
  /// body's acceleration and velocity and nothing that another body reads.
  function NewVelocity(phys: Physics, dt: real, s: seq<Body>, k: nat): (b: Body)
    requires WellFormed(s) && k < |s|
    ensures b.position == s[k].position && b.stdGravPar == s[k].stdGravPar
    ensures b.mass == s[k].mass && b.peers == s[k].peers
  {
    var acc := Acceleration(phys, s, k);
    s[k].(acceleration := acc, velocity := Kick(phys, s[k].velocity, acc, dt))
  }

  /// `UpdatePosition` applied to one body: it reads and writes that body only.
  function NewPosition(phys: Physics, dt: real, b: Body): (r: Body)
    ensures r.velocity == b.velocity && r.acceleration == b.acceleration
    ensures r.stdGravPar == b.stdGravPar && r.mass == b.mass && r.peers == b.peers
  {
    b.(position := Move(phys, b.position, b.velocity, dt))
  }

  /// `CalculateNewPosition` of body `k`: acceleration, velocity and position
  /// of that body, in this order, from the snapshot as it stands.
  function NewState(phys: Physics, dt: real, s: seq<Body>, k: nat): Body
    requires WellFormed(s) && k < |s|
  {
    NewPosition(phys, dt, NewVelocity(phys, dt, s, k))
  }

  // ---------------------------------------------------------------------
  // Sweeps: one body at a time, each call seeing what earlier calls wrote.
  // ---------------------------------------------------------------------

  /// `CalculateNewVelocity` on the bodies of `order`, one after another.
  /// No body moves during the sweep.
  function VelocitySweep(phys: Physics, dt: real, s: seq<Body>, order: seq<nat>): (r: seq<Body>)
    requires WellFormed(s) && InRange(order, |s|)
    ensures SameFrame(s, r) && WellFormed(r)
    decreases |order|
  {
    if order == [] then s
    else
      var p := VelocitySweep(phys, dt, s, order[..|order| - 1]);
      var k := order[|order| - 1];
      p[k := NewVelocity(phys, dt, p, k)]
  }

  /// `UpdatePosition` on the bodies of `order`, one after another.
  /// No velocity, acceleration or peer list changes.
  function PositionSweep(phys: Physics, dt: real, s: seq<Body>, order: seq<nat>): (r: seq<Body>)
    requires InRange(order, |s|)
    ensures |r| == |s|
    ensures forall k :: 0 <= k < |s| ==>
      r[k].velocity == s[k].velocity && r[k].acceleration == s[k].acceleration && r[k].peers == s[k].peers
    decreases |order|
  {
    if order == [] then s
    else
      var p := PositionSweep(phys, dt, s, order[..|order| - 1]);
      var k := order[|order| - 1];
      p[k := NewPosition(phys, dt, p[k])]
  }

  /// `CalculateNewPosition` on the bodies of `order`, one after another: the
  /// loop of `CalculateStep`.
  function SerialSweep(phys: Physics, dt: real, s: seq<Body>, order: seq<nat>): (r: seq<Body>)
    requires WellFormed(s) && InRange(order, |s|)
    ensures |r| == |s| && WellFormed(r)
    ensures forall k :: 0 <= k < |s| ==> r[k].peers == s[k].peers
    decreases |order|
  {
    if order == [] then s
    else
      var p := SerialSweep(phys, dt, s, order[..|order| - 1]);
      var k := order[|order| - 1];
      p[k := NewState(phys, dt, p, k)]
  }

  // ---------------------------------------------------------------------
  // Phases: every body computed from the same snapshot.
  // ---------------------------------------------------------------------

  /// Every body's `CalculateNewVelocity`, all reading the same positions.
  function VelocityPhase(phys: Physics, dt: real, s: seq<Body>): seq<Body>
    requires WellFormed(s)
  {
    seq(|s|, k requires 0 <= k < |s| => NewVelocity(phys, dt, s, k))
  }

  /// Every body's `UpdatePosition`.
  function PositionPhase(phys: Physics, dt: real, s: seq<Body>): seq<Body>
  {
    seq(|s|, k requires 0 <= k < |s| => NewPosition(phys, dt, s[k]))
  }

  /// One step of a two-phase strategy: all velocities, then all positions.
  function TwoPhaseStep(phys: Physics, dt: real, s: seq<Body>): (r: seq<Body>)
    requires WellFormed(s)
    ensures |r| == |s| && WellFormed(r)
    ensures forall k :: 0 <= k < |s| ==> r[k].peers == s[k].peers && r[k].mass == s[k].mass
  {
    var v := VelocityPhase(phys, dt, s);
    assert forall k :: 0 <= k < |s| ==> v[k].peers == s[k].peers;
    PositionPhase(phys, dt, v)
  }

  /// `count` two-phase steps.
  function Steps(phys: Physics, dt: real, s: seq<Body>, count: nat): (r: seq<Body>)
    requires WellFormed(s)
    ensures WellFormed(r)
    decreases count
  {
    if count == 0 then s else Steps(phys, dt, TwoPhaseStep(phys, dt, s), count - 1)
  }

  /// Step `count + 1` is one two-phase step after step `count`.
  lemma {:induction false} StepsNext(phys: Physics, dt: real, s: seq<Body>, count: nat)
    requires WellFormed(s)
    ensures Steps(phys, dt, s, count + 1) == TwoPhaseStep(phys, dt, Steps(phys, dt, s, count))
    decreases count
  {
    if count > 0 {
      StepsNext(phys, dt, TwoPhaseStep(phys, dt, s), count - 1);
    }
  }

  // ---------------------------------------------------------------------
  // Order independence of the two-phase step.
  // ---------------------------------------------------------------------

  /// A body's acceleration depends only on its own position and peer list
  /// and on its peers' positions and `StdGravPar`.
  lemma AccelerationFrame(phys: Physics, s: seq<Body>, t: seq<Body>, k: nat)
    requires WellFormed(s) && SameFrame(s, t) && k < |s|
    ensures WellFormed(t) && Acceleration(phys, s, k) == Acceleration(phys, t, k)
  {
    assert SourcesAt(s, s[k].peers) == SourcesAt(t, t[k].peers);
  }

  /// After a velocity sweep over distinct bodies, each body of the sweep
  /// holds exactly what `CalculateNewVelocity` computes from the starting
  /// snapshot, and every other body is untouched: a sweep never reads what
  /// it has already written.
  lemma {:induction false} VelocitySweepAt(phys: Physics, dt: real, s: seq<Body>, order: seq<nat>, k: nat)
    requires WellFormed(s) && InRange(order, |s|) && Distinct(order) && k < |s|
    ensures VelocitySweep(phys, dt, s, order)[k] == if k in order then NewVelocity(phys, dt, s, k) else s[k]
  {
    if order != [] {
      var pre := order[..|order| - 1];
      var last := order[|order| - 1];
      assert last !in pre;
      VelocitySweepAt(phys, dt, s, pre, k);
      VelocitySweepAt(phys, dt, s, pre, last);
      var p := VelocitySweep(phys, dt, s, pre);
      AccelerationFrame(phys, s, p, last);
      assert k in order <==> k in pre || k == last;
    }
  }

  /// The same for a position sweep.
  lemma {:induction false} PositionSweepAt(phys: Physics, dt: real, s: seq<Body>, order: seq<nat>, k: nat)
    requires InRange(order, |s|) && Distinct(order) && k < |s|
    ensures PositionSweep(phys, dt, s, order)[k] == if k in order then NewPosition(phys, dt, s[k]) else s[k]
  {
    if order != [] {
      var pre := order[..|order| - 1];
      var last := order[|order| - 1];
      assert last !in pre;
      PositionSweepAt(phys, dt, s, pre, k);
      PositionSweepAt(phys, dt, s, pre, last);
      assert k in order <==> k in pre || k == last;
    }
  }

  /// A first phase over any permutation of the bodies equals the phase
  /// computed from one snapshot.
  lemma VelocitySweepIsPhase(phys: Physics, dt: real, s: seq<Body>, order: seq<nat>)
    requires WellFormed(s) && IsPermutation(order, |s|)
    ensures InRange(order, |s|) && VelocitySweep(phys, dt, s, order) == VelocityPhase(phys, dt, s)
  {
    PermutationFacts(order, |s|);
    forall k | 0 <= k < |s|
      ensures VelocitySweep(phys, dt, s, order)[k] == VelocityPhase(phys, dt, s)[k]
    {
      VelocitySweepAt(phys, dt, s, order, k);
    }
  }

  /// A second phase over any permutation of the bodies equals the phase.
  lemma PositionSweepIsPhase(phys: Physics, dt: real, s: seq<Body>, order: seq<nat>)
    requires IsPermutation(order, |s|)
    ensures InRange(order, |s|) && PositionSweep(phys, dt, s, order) == PositionPhase(phys, dt, s)
  {
    PermutationFacts(order, |s|);
    forall k | 0 <= k < |s|
      ensures PositionSweep(phys, dt, s, order)[k] == PositionPhase(phys, dt, s)[k]
    {
      PositionSweepAt(phys, dt, s, order, k);
    }
  }

  /// A velocity sweep over `a + b` is the sweep over `a` continued over `b`:
  /// running the worker lists one after another composes their sweeps.
  lemma {:induction false} VelocitySweepAppend(phys: Physics, dt: real, s: seq<Body>, a: seq<nat>, b: seq<nat>)
    requires WellFormed(s) && InRange(a, |s|) && InRange(b, |s|)
    ensures InRange(a + b, |s|)
    ensures VelocitySweep(phys, dt, s, a + b) == VelocitySweep(phys, dt, VelocitySweep(phys, dt, s, a), b)
  {
    if b == [] {
      assert a + b == a;
    } else {
      var pre := b[..|b| - 1];
      assert (a + b)[..|a + b| - 1] == a + pre;
      VelocitySweepAppend(phys, dt, s, a, pre);
    }
  }

  /// The same for position sweeps.
  lemma {:induction false} PositionSweepAppend(phys: Physics, dt: real, s: seq<Body>, a: seq<nat>, b: seq<nat>)
    requires InRange(a, |s|) && InRange(b, |s|)
    ensures InRange(a + b, |s|)
    ensures PositionSweep(phys, dt, s, a + b) == PositionSweep(phys, dt, PositionSweep(phys, dt, s, a), b)
  {
    if b == [] {
      assert a + b == a;
    } else {
      var pre := b[..|b| - 1];
      assert (a + b)[..|a + b| - 1] == a + pre;
      PositionSweepAppend(phys, dt, s, a, pre);
    }
  }

  /// Thread safety of the two-phase step: whatever order the first phase
  /// visits the bodies in, and whatever order the second phase does, the
  /// result is the same `TwoPhaseStep`.
  lemma TwoPhaseOrderFree(phys: Physics, dt: real, s: seq<Body>, first: seq<nat>, second: seq<nat>)
    requires WellFormed(s) && IsPermutation(first, |s|) && IsPermutation(second, |s|)
    ensures InRange(first, |s|) && InRange(second, |s|)
    ensures PositionSweep(phys, dt, VelocitySweep(phys, dt, s, first), second) == TwoPhaseStep(phys, dt, s)
  {
    VelocitySweepIsPhase(phys, dt, s, first);
    PositionSweepIsPhase(phys, dt, VelocitySweep(phys, dt, s, first), second);
  }

  // ---------------------------------------------------------------------
  // The serial step depends on the order.
  // ---------------------------------------------------------------------

  /// A force law that pulls with the plain coordinate difference and exact
  /// arithmetic, used only to exhibit behaviour of the step.
  function LinearPhysics(): Physics
  {
    Physics(
      (p: Position, q: Position, gm: real) => FVec((q.x - p.x) as real * gm, (q.y - p.y) as real * gm),
      (a: real, b: real) => a + b,
      (v: real, a: real, dt: real) => v + a * dt,
      (v: real, dt: real) => (v * dt).Floor,
      (p: Position, q: Position, gmm: real) => FVec((q.x - p.x) as real * gmm, (q.y - p.y) as real * gmm),
      (v: real, f: real, m: real, dt: real) => (dt * v).Floor,
      (m: real) => m,
      (m1: real, m2: real) => m1 * m2)
  }

  /// Two resting bodies of unit mass and `StdGravPar` 0.5, ten metres apart,
  /// each the other's only peer.
  function TwoBodies(): (s: seq<Body>)
    ensures WellFormed(s)
  {
    [Body(1.0, 0.5, Position(0, 0), Zero, Zero, [1]), Body(1.0, 0.5, Position(10, 0), Zero, Zero, [0])]
  }

  /// `CalculateStep` gives different results for the two orders of two
  /// bodies: whichever body goes first has already moved towards the other
  /// when the other computes its acceleration. The bodies never meet, so no
  /// pull at distance zero is involved. The two-phase step has no such
  /// dependence (`TwoPhaseOrderFree`).
  lemma SerialStepDependsOnOrder()
    ensures SerialSweep(LinearPhysics(), 1.0, TwoBodies(), [0, 1])[0].position == Position(5, 0)
    ensures SerialSweep(LinearPhysics(), 1.0, TwoBodies(), [0, 1])[1].position == Position(7, 0)
    ensures SerialSweep(LinearPhysics(), 1.0, TwoBodies(), [1, 0])[1].position == Position(5, 0)
  {
    var phys, s := LinearPhysics(), TwoBodies();
    assert [0, 1][..1] == [0] && [1, 0][..1] == [1] && [0][..0] == [] && [1][..0] == [];
    var src0, src1 := Source(Position(0, 0), 0.5), Source(Position(10, 0), 0.5);
    assert [src0][..0] == [] && [src1][..0] == [];
    assert SourcesAt(s, s[0].peers) == [src1];
    assert phys.pull(Position(0, 0), Position(10, 0), 0.5) == FVec(5.0, 0.0);
    assert Add(phys, Zero, FVec(5.0, 0.0)) == FVec(5.0, 0.0);
    assert Accumulate(phys, Position(0, 0), [src1]) == FVec(5.0, 0.0);
    assert Acceleration(phys, s, 0) == FVec(5.0, 0.0);
    var a := SerialSweep(phys, 1.0, s, [0]);
    assert a[0].position == Position(5, 0);
    var moved0 := Source(Position(5, 0), 0.5);
    assert [moved0][..0] == [];
    assert SourcesAt(a, a[1].peers) == [moved0];
    assert phys.pull(Position(10, 0), Position(5, 0), 0.5) == FVec(-2.5, 0.0);
    assert Add(phys, Zero, FVec(-2.5, 0.0)) == FVec(-2.5, 0.0);
    assert Accumulate(phys, Position(10, 0), [moved0]) == FVec(-2.5, 0.0);
    assert Acceleration(phys, a, 1) == FVec(-2.5, 0.0);
    assert phys.roundStep(-2.5, 1.0) == -3;
    assert SourcesAt(s, s[1].peers) == [src0];
    assert phys.pull(Position(10, 0), Position(0, 0), 0.5) == FVec(-5.0, 0.0);
    assert Add(phys, Zero, FVec(-5.0, 0.0)) == FVec(-5.0, 0.0);
    assert Accumulate(phys, Position(10, 0), [src0]) == FVec(-5.0, 0.0);
    assert Acceleration(phys, s, 1) == FVec(-5.0, 0.0);
    var b := SerialSweep(phys, 1.0, s, [1]);
    assert b[1].position == Position(5, 0);
  }
}
