/// CelestialObject.cs: one body of the simulation, whose methods update its
/// own `Position`, `Velocity` and `acceleration` in place.
module CelestialObjects {
  import opened Vectors
  import opened Motion

  class CelestialObject {
    var name: string
    /// kg
    var mass: real
    /// `StdGravPar`, meant to be `G * Mass`; set only by the constructors.
    var stdGravPar: real
    /// Whether this body pulls on others.
    var isCalculatable: bool
    /// m
    var radius: int
    var position: Position
    var velocity: FVec
    var acceleration: FVec
    /// `Number`: the body's index, assigned by the slim strategy.
    var number: nat
    /// `CalculatableObjects`: the bodies this one is pulled by.
    var calculatableObjects: seq<CelestialObject>

    /// The parameterless constructor, used by the JSON deserializer. It
    /// computes `StdGravPar = G * Mass` while `Mass` still holds its default 0,
    /// so `stdGravPar` is `G * 0` whatever mass the body is given afterwards.
    /// A null `Name` and a null peer array are modelled as `""` and `[]`.
    constructor Default(phys: Physics)
      ensures mass == 0.0 && stdGravPar == phys.gravPar(0.0)
      ensures name == "" && !isCalculatable && radius == 0 && number == 0
      ensures position == Position(0, 0) && velocity == Zero && acceleration == Zero
      ensures calculatableObjects == []
    {
      name := "";
      mass := 0.0;
      isCalculatable := false;
      radius := 0;
      position := Position(0, 0);
      velocity := Zero;
      acceleration := Zero;
      number := 0;
      calculatableObjects := [];
      stdGravPar := phys.gravPar(0.0);
    }

    /// The constructor from a name, a mass and world coordinates.
    constructor (phys: Physics, name: string, mass: real, isCalculatable: bool, radius: int, position: Position, velocity: FVec)
      ensures this.name == name && this.mass == mass && this.isCalculatable == isCalculatable
      ensures this.radius == radius && this.position == position && this.velocity == velocity
      ensures stdGravPar == phys.gravPar(mass)
      ensures acceleration == Zero && number == 0 && calculatableObjects == []
    {
      this.name := name;
      this.mass := mass;
      this.isCalculatable := isCalculatable;
      this.radius := radius;
      this.position := position;
      this.velocity := velocity;
      acceleration := Zero;
      number := 0;
      calculatableObjects := [];
      stdGravPar := phys.gravPar(mass);
    }

    /// The constructor relative to a parent body: position and velocity are
    /// offsets from the parent's. The parent is only read.
    constructor Relative(phys: Physics, parent: CelestialObject, name: string, mass: real, isCalculatable: bool,
                         radius: int, position: Position, velocity: FVec)
      ensures this.position == Position(position.x + parent.position.x, position.y + parent.position.y)
      ensures this.velocity == FVec(phys.plus(velocity.x, parent.velocity.x), phys.plus(velocity.y, parent.velocity.y))
      ensures this.name == name && this.mass == mass && this.isCalculatable == isCalculatable
      ensures this.radius == radius && stdGravPar == phys.gravPar(mass)
      ensures acceleration == Zero && number == 0 && calculatableObjects == []
    {
      this.name := name;
      this.mass := mass;
      this.isCalculatable := isCalculatable;
      this.radius := radius;
      this.position := Position(position.x + parent.position.x, position.y + parent.position.y);
      this.velocity := FVec(phys.plus(velocity.x, parent.velocity.x), phys.plus(velocity.y, parent.velocity.y));
      acceleration := Zero;
      number := 0;
      calculatableObjects := [];
      stdGravPar := phys.gravPar(mass);
    }

    /// `CalculateNewPosition`: acceleration, velocity, then position, all on
    /// this body, for the serial and per-object strategies.
    method CalculateNewPosition(phys: Physics, timeStep: real)
      modifies this`acceleration, this`velocity, this`position
      ensures acceleration == old(Accumulate(phys, position, Sources(calculatableObjects)))
      ensures velocity == Kick(phys, old(velocity), acceleration, timeStep)
      ensures position == Move(phys, old(position), velocity, timeStep)
    {
      CalculateAcceleration(phys);
      ghost var srcs := Sources(calculatableObjects);
      UpdateVelocity(phys, timeStep);
      UpdatePosition(phys, timeStep);
      assert old(Sources(calculatableObjects)) == srcs;
    }

    /// `CalculateNewVelocity`: the first half of a two-phase step. It reads
    /// the peers' positions and writes only this body's acceleration and
    /// velocity, so no position anywhere changes.
    method CalculateNewVelocity(phys: Physics, timeStep: real)
      modifies this`acceleration, this`velocity
      ensures acceleration == old(Accumulate(phys, position, Sources(calculatableObjects)))
      ensures velocity == Kick(phys, old(velocity), acceleration, timeStep)
    {
      CalculateAcceleration(phys);
      ghost var srcs := Sources(calculatableObjects);
      UpdateVelocity(phys, timeStep);
      assert old(Sources(calculatableObjects)) == srcs;
    }

    /// `UpdatePosition`: the second half. It moves this body by its rounded
    /// displacement on each axis and writes nothing else.
    method UpdatePosition(phys: Physics, timeStep: real)
      modifies this`position
      ensures position == Move(phys, old(position), velocity, timeStep)
    {
      position := Position(position.x + phys.roundStep(velocity.x, timeStep),
                           position.y + phys.roundStep(velocity.y, timeStep));
    }

    /// `UpdateVelocity`: `Velocity[k] += acceleration[k] * timeStep`.
    method UpdateVelocity(phys: Physics, timeStep: real)
      modifies this`velocity
      ensures velocity == Kick(phys, old(velocity), acceleration, timeStep)
    {
      velocity := FVec(phys.kick(velocity.x, acceleration.x, timeStep),
                       phys.kick(velocity.y, acceleration.y, timeStep));
    }

    /// `CalculateAcceleration`: reset to zero, then one contribution per
    /// entry of `CalculatableObjects`, in list order. With no peers the
    /// acceleration is zero.
    method CalculateAcceleration(phys: Physics)
      modifies this`acceleration
      ensures acceleration == Accumulate(phys, position, Sources(calculatableObjects))
      ensures calculatableObjects == [] ==> acceleration == Zero
    {
      ghost var srcs := Sources(calculatableObjects);
      acceleration := Zero;
      for i := 0 to |calculatableObjects|
        invariant acceleration == Accumulate(phys, position, srcs[..i])
      {
        var obj := calculatableObjects[i];
        assert srcs[..i + 1][..i] == srcs[..i];
        acceleration := Add(phys, acceleration, phys.pull(position, obj.position, obj.stdGravPar));
      }
      assert srcs[..|srcs|] == srcs;
      assert Sources(calculatableObjects) == srcs;
    }
  }

  /// What the bodies of `objs` contribute: their positions and `StdGravPar`, in order.
  function Sources(objs: seq<CelestialObject>): (r: seq<Source>)
    reads objs`position, objs`stdGravPar
    ensures |r| == |objs|
    ensures forall m :: 0 <= m < |objs| ==> r[m] == Source(objs[m].position, objs[m].stdGravPar)
  {
    if objs == [] then []
    else Sources(objs[..|objs| - 1]) + [Source(objs[|objs| - 1].position, objs[|objs| - 1].stdGravPar)]
  }
}
