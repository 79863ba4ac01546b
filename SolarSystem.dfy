/// SolarSystem.cs: the set of bodies, the precomputed `G * m_i * m_j` table,
/// the pairwise force table of the slim strategy, the peer lists, and the
/// sequential meaning of the strategies that run a counted number of steps.
module Solar {
  import opened Vectors
  import opened Partition
  import opened Motion
  import opened Slim
  import opened CelestialObjects

  datatype Option<T> = None | Some(value: T)

  // ---------------------------------------------------------------------
  // The LINQ filters that build the peer lists.
  // ---------------------------------------------------------------------

  /// `objs.Skip(lo).Where(o => o.IsCalculatable && o != self)`, in array
  /// order. `AssignCalculatableObjects` filters from 0 with `self` the body
  /// itself; `AssignCalculatableObjectsSlim` skips `i + 1` bodies and has no
  /// self test, which is `self == null` here.
  function Pullers(objs: seq<CelestialObject>, lo: nat, self: CelestialObject?): seq<CelestialObject>
    reads objs`isCalculatable
  {
    if objs == [] then []
    else
      var j := |objs| - 1;
      Pullers(objs[..j], lo, self) + (if lo <= j && objs[j].isCalculatable && objs[j] != self then [objs[j]] else [])
  }

  /// The indices `j >= lo`, `j != self`, of the massive bodies, in increasing
  /// order: the same filter on indices.
  function Massive(flags: seq<bool>, lo: nat, self: nat): (r: seq<nat>)
    ensures InRange(r, |flags|)
  {
    if flags == [] then []
    else
      var j := |flags| - 1;
      Massive(flags[..j], lo, self) + (if lo <= j && flags[j] && j != self then [j] else [])
  }

  /// The bodies of `objs` at the indices `idx`, in that order.
  function Pick(objs: seq<CelestialObject>, idx: seq<nat>): (r: seq<CelestialObject>)
    requires InRange(idx, |objs|)
    ensures |r| == |idx| && forall m :: 0 <= m < |idx| ==> r[m] == objs[idx[m]]
  {
    seq(|idx|, m requires 0 <= m < |idx| => objs[idx[m]])
  }

  /// Strictly increasing, so in array order and without repetition.
  predicate Increasing(idx: seq<nat>)
  {
    forall i, j :: 0 <= i < j < |idx| ==> idx[i] < idx[j]
  }

  /// No body occurs twice in the array.
  predicate DistinctBodies(objs: seq<CelestialObject>)
  {
    forall i, j :: 0 <= i < j < |objs| ==> objs[i] != objs[j]
  }

  /// The index of every body of an array without repeated bodies.
  function IndexMap(objs: seq<CelestialObject>): (m: map<CelestialObject, nat>)
    requires DistinctBodies(objs)
    ensures forall k :: 0 <= k < |objs| ==> objs[k] in m && m[objs[k]] == k
  {
    map k | 0 <= k < |objs| :: objs[k] := k
  }

  /// `flags` holds the `IsCalculatable` of every body of `objs`.
  predicate FlagsOf(objs: seq<CelestialObject>, flags: seq<bool>)
    reads objs`isCalculatable
  {
    |flags| == |objs| && forall k :: 0 <= k < |objs| ==> flags[k] == objs[k].isCalculatable
  }

  /// The `IsCalculatable` flags of `objs`.
  ghost function Flags(objs: seq<CelestialObject>): (f: seq<bool>)
    reads objs`isCalculatable
    ensures FlagsOf(objs, f)
  {
    if objs == [] then [] else Flags(objs[..|objs| - 1]) + [objs[|objs| - 1].isCalculatable]
  }

  /// When, from `lo` on, a body is `self` exactly at index `me`, the
  /// reference filter keeps exactly the bodies at the indices `Massive` lists.
  lemma {:induction false} PullersAreMassive(objs: seq<CelestialObject>, flags: seq<bool>, lo: nat, self: CelestialObject?, me: nat)
    requires FlagsOf(objs, flags)
    requires forall k :: lo <= k < |objs| ==> (objs[k] != self <==> k != me)
    ensures InRange(Massive(flags, lo, me), |objs|)
    ensures Pullers(objs, lo, self) == Pick(objs, Massive(flags, lo, me))
  {
    if objs != [] {
      var j := |objs| - 1;
      var pre := objs[..j];
      PullersAreMassive(pre, flags[..j], lo, self, me);
      var idx := Massive(flags[..j], lo, me);
      assert Pick(pre, idx) == Pick(objs, idx);
    }
  }

  /// Index `j` is listed exactly when `j >= lo`, body `j` is massive and
  /// `j != self`.
  lemma {:induction false} MassiveMembers(flags: seq<bool>, lo: nat, self: nat)
    ensures forall j: nat :: j in Massive(flags, lo, self) <==> lo <= j < |flags| && flags[j] && j != self
  {
    if flags != [] {
      MassiveMembers(flags[..|flags| - 1], lo, self);
    }
  }

  /// The listed indices are in increasing order.
  lemma {:induction false} MassiveIncreasing(flags: seq<bool>, lo: nat, self: nat)
    ensures Increasing(Massive(flags, lo, self))
  {
    if flags != [] {
      MassiveIncreasing(flags[..|flags| - 1], lo, self);
    }
  }

  /// No index is listed from `lo` on when `lo` is past the last body.
  lemma {:induction false} MassiveNoneFrom(flags: seq<bool>, lo: nat, self: nat)
    requires |flags| <= lo
    ensures Massive(flags, lo, self) == []
  {
    if flags != [] {
      MassiveNoneFrom(flags[..|flags| - 1], lo, self);
    }
  }

  /// The peer indices `AssignCalculatableObjects` gives every body: the
  /// massive bodies other than itself.
  function FullLists(flags: seq<bool>): (ps: seq<seq<nat>>)
    ensures |ps| == |flags|
    ensures forall k :: 0 <= k < |flags| ==> ps[k] == Massive(flags, 0, k) && InRange(ps[k], |flags|)
  {
    seq(|flags|, k requires 0 <= k < |flags| => Massive(flags, 0, k))
  }

  /// The peer indices `AssignCalculatableObjectsSlim` gives every body: the
  /// massive bodies after it.
  function SlimLists(flags: seq<bool>): (ps: seq<seq<nat>>)
    ensures |ps| == |flags|
    ensures forall k :: 0 <= k < |flags| ==> ps[k] == Massive(flags, k + 1, k) && InRange(ps[k], |flags|)
  {
    seq(|flags|, k requires 0 <= k < |flags| => Massive(flags, k + 1, k))
  }

  /// Index of the first body named `name`, or `|objs|` if there is none.
  function FirstNamed(objs: seq<CelestialObject>, name: string): (k: nat)
    reads objs`name
    ensures k <= |objs|
    ensures forall j :: 0 <= j < k ==> objs[j].name != name
    ensures k < |objs| ==> objs[k].name == name
  {
    if objs == [] then 0
    else if objs[0].name == name then 0
    else 1 + FirstNamed(objs[1..], name)
  }

  /// The bodies of `objs` as a snapshot, with peer lists `peers`.
  ghost function Bodies(objs: seq<CelestialObject>, peers: seq<seq<nat>>): (r: seq<Body>)
    reads objs
    requires |peers| == |objs|
    ensures |r| == |objs|
  {
    seq(|objs|, k requires 0 <= k < |objs| reads objs =>
      Body(objs[k].mass, objs[k].stdGravPar, objs[k].position, objs[k].velocity, objs[k].acceleration, peers[k]))
  }

  /// Entry `k` of the snapshot is body `k` with peer list `peers[k]`.
  lemma BodiesAt(objs: seq<CelestialObject>, peers: seq<seq<nat>>)
    requires |peers| == |objs|
    ensures forall k :: 0 <= k < |objs| ==>
      Bodies(objs, peers)[k] == Body(objs[k].mass, objs[k].stdGravPar, objs[k].position, objs[k].velocity, objs[k].acceleration, peers[k])
  {
  }

  /// The indices `0 .. n-1` in order: the `foreach` over `objects`.
  function Iota(n: nat): (r: seq<nat>)
    ensures |r| == n && InRange(r, n)
    ensures forall j :: 0 <= j < n ==> r[j] == j
  {
    if n == 0 then [] else Iota(n - 1) + [n - 1]
  }

  /// A cell that `CalculateForces` of the body numbered `num` writes in an
  /// `n`-body table: `(num, i)` and `(i, num)` for `num < i < n`.
  predicate Written(num: nat, r: nat, c: nat, n: nat)
  {
    (r == num && num < c < n) || (c == num && num < r < n)
  }

  /// Two calls for different numbers write disjoint cells.
  lemma WrittenDisjoint(a: nat, b: nat, r: nat, c: nat, n: nat)
    requires Written(a, r, c, n) && Written(b, r, c, n)
    ensures a == b
  {
  }

  /// Every off-diagonal cell is written by exactly the call for the smaller
  /// of its two indices, and no call writes the diagonal.
  lemma WrittenBySmaller(num: nat, r: nat, c: nat, n: nat)
    requires r < n && c < n
    ensures Written(num, r, c, n) <==> r != c && num == if r < c then r else c
  {
  }

  /// Cell `(r, c)` once every body numbered in `done` has run
  /// `CalculateForces`: the smaller of the two indices is in `done`.
  predicate Settled(r: nat, c: nat, done: seq<nat>)
  {
    (r < c && r in done) || (c < r && c in done)
  }

  /// Snapshot `s` with its peer lists replaced by `peers`.
  function WithPeers(s: seq<Body>, peers: seq<seq<nat>>): (r: seq<Body>)
    requires |peers| == |s|
    ensures |r| == |s| && forall k :: 0 <= k < |s| ==> r[k] == s[k].(peers := peers[k])
  {
    seq(|s|, k requires 0 <= k < |s| => s[k].(peers := peers[k]))
  }

  /// The snapshot of the same bodies with other peer lists differs only in
  /// the peer lists.
  lemma {:induction false} BodiesWithPeers(objs: seq<CelestialObject>, peers: seq<seq<nat>>, other: seq<seq<nat>>)
    requires |peers| == |objs| && |other| == |objs|
    ensures Bodies(objs, other) == WithPeers(Bodies(objs, peers), other)
  {
    BodiesAt(objs, peers);
    BodiesAt(objs, other);
  }

  class SolarSystem {
    /// `TimeStep`, in seconds.
    var timeStep: real
    /// The bodies, in array order.
    var objects: seq<CelestialObject>
    /// `gMms[i, j] == G * m_i * m_j`.
    var gMms: array2<real>
    /// `forces[i, j]`: the force of body `j` on body `i`, written by the slim strategy.
    var forces: array2<FVec>
    /// The floating-point operations.
    const phys: Physics
    /// The indices in `objects` of each body's `CalculatableObjects`.
    ghost var peerIdx: seq<seq<nat>>
    /// The `IsCalculatable` flags the peer lists were built from.
    ghost var pulls: seq<bool>
    /// The index of every body in `objects`.
    ghost var indexOf: map<CelestialObject, nat>

    /// The tables are `n` by `n` and `gMms` matches the masses.
    ghost predicate Tables()
      reads this`objects, this`gMms, this`forces, objects`mass, gMms
    {
      var n := |objects|;
      gMms.Length0 == n && gMms.Length1 == n && forces.Length0 == n && forces.Length1 == n &&
      (forall i, j {:trigger gMms[i, j]} :: 0 <= i < n && 0 <= j < n ==> gMms[i, j] == phys.gravProduct(objects[i].mass, objects[j].mass))
    }

    /// The diagonal of the force table is zero: no body pulls itself, and
    /// `CalculateForces` never writes a diagonal cell.
    ghost predicate ZeroDiagonal()
      reads this`forces, forces
    {
      forall k :: 0 <= k < forces.Length0 && k < forces.Length1 ==> forces[k, k] == Zero
    }

    /// Every body's peer list holds bodies of the array, at the indices
    /// `peerIdx` names.
    ghost predicate PeersLinked()
      reads this`objects, this`peerIdx, objects`calculatableObjects
    {
      |peerIdx| == |objects| &&
      forall k {:trigger peerIdx[k]} :: 0 <= k < |objects| ==>
        InRange(peerIdx[k], |objects|) && objects[k].calculatableObjects == Pick(objects, peerIdx[k])
    }

    /// No body occurs twice: `indexOf` finds every body at its index.
    ghost predicate Indexed()
      reads this`objects, this`indexOf
    {
      forall k :: 0 <= k < |objects| ==> objects[k] in indexOf && indexOf[objects[k]] == k
    }

    /// What stepping the bodies one at a time relies on.
    ghost predicate Linked()
      reads this`objects, this`indexOf, this`peerIdx, objects`calculatableObjects
    {
      Indexed() && PeersLinked()
    }

    /// What moving the bodies one at a time against the force table relies
    /// on: no body occurs twice, every body has a peer list and the force
    /// table is `n` by `n`.
    ghost predicate Shaped()
      reads this`objects, this`indexOf, this`peerIdx, this`forces
    {
      Indexed() && |peerIdx| == |objects| && forces.Length0 == |objects| && forces.Length1 == |objects|
    }

    /// The class invariant: `Tables()` and `Linked()`.
    ghost predicate Valid()
      reads this`objects, this`gMms, this`forces, this`indexOf, this`peerIdx, objects`mass, objects`calculatableObjects, gMms
    {
      Tables() && Linked()
    }

    /// Every body's `Number` is its index, as `AssignCalculatableObjectsSlim` leaves it.
    ghost predicate Numbered()
      reads this`objects, objects`number
    {
      forall k :: 0 <= k < |objects| ==> objects[k].number == k
    }

    /// The state of every body, with its peer list as indices.
    ghost function Snapshot(): (s: seq<Body>)
      reads this`objects, this`peerIdx, objects
      requires |peerIdx| == |objects|
      ensures |s| == |objects|
    {
      Bodies(objects, peerIdx)
    }

    /// `CalculateContinuousStepsGMms`: `gMms[i, j] = G * m_i * m_j` for every
    /// ordered pair, in a fresh `n` by `n` table.
    static method CalculateContinuousStepsGMms(phys: Physics, objs: seq<CelestialObject>) returns (g: array2<real>)
      ensures fresh(g) && g.Length0 == |objs| && g.Length1 == |objs|
      ensures forall i, j :: 0 <= i < |objs| && 0 <= j < |objs| ==>
        g[i, j] == phys.gravProduct(objs[i].mass, objs[j].mass)
    {
      var count := |objs|;
      g := new real[count, count];
      for i := 0 to count
        invariant forall i', j :: 0 <= i' < i && 0 <= j < count ==> g[i', j] == phys.gravProduct(objs[i'].mass, objs[j].mass)
      {
        for j := 0 to count
          invariant forall i', j' :: 0 <= i' < i && 0 <= j' < count ==> g[i', j'] == phys.gravProduct(objs[i'].mass, objs[j'].mass)
          invariant forall j' :: 0 <= j' < j ==> g[i, j'] == phys.gravProduct(objs[i].mass, objs[j'].mass)
        {
          g[i, j] := phys.gravProduct(objs[i].mass, objs[j].mass);
        }
      }
    }

    /// `new double[n, n, 2]` as a table of force vectors: every cell zero.
    static method ZeroForces(n: nat) returns (f: array2<FVec>)
      ensures fresh(f) && f.Length0 == n && f.Length1 == n
      ensures forall r, c :: 0 <= r < n && 0 <= c < n ==> f[r, c] == Zero
    {
      f := new FVec[n, n]((i, j) => Zero);
    }

    /// `SelectObject`: the first body named `name`. The source calls
    /// `First`, which throws when no body has that name; here that is `None`.
    function SelectObject(name: string): (r: Option<CelestialObject>)
      reads this`objects, objects`name
      ensures r.None? <==> forall k :: 0 <= k < |objects| ==> objects[k].name != name
      ensures r.Some? ==>
        exists k :: 0 <= k < |objects| && objects[k] == r.value && objects[k].name == name &&
          forall j :: 0 <= j < k ==> objects[j].name != name
    {
      var k := FirstNamed(objects, name);
      if k < |objects| then Some(objects[k]) else None
    }

    /// `SolarSystem(CelestialObject[] obj, double timeStep)` and
    /// `SolarSystem(List<CelestialObject> obj, double timeStep)`: keeps the
    /// bodies, computes `gMms`, allocates a zero force table and builds every
    /// body's peer list.
    constructor (phys: Physics, obj: seq<CelestialObject>, timeStep: real)
      requires DistinctBodies(obj)
      modifies obj`calculatableObjects
      ensures objects == obj && this.phys == phys && this.timeStep == timeStep
      ensures ZeroDiagonal()
      ensures FullPeers()
      ensures Valid()
      ensures forall r, c :: 0 <= r < |obj| && 0 <= c < |obj| ==> forces[r, c] == Zero
    {
      this.phys := phys;
      // The tables start empty (null in the source); the constructor then does
      // what `Reset` does, with the bodies given instead of read from a file.
      objects, gMms, forces := [], new real[0, 0], new FVec[0, 0];
      peerIdx, pulls, indexOf := [], [], map[];
      new;
      Reset(obj, timeStep);
    }

    /// `Reset`: replaces the bodies and the time step and rebuilds every
    /// table. The bodies are given; reading them from a JSON file is not
    /// part of this model.
    method Reset(obj: seq<CelestialObject>, timeStep: real)
      requires DistinctBodies(obj)
      modifies this`timeStep, this`objects, this`gMms, this`forces, this`peerIdx, this`pulls, this`indexOf
      modifies obj`calculatableObjects
      ensures objects == obj && this.timeStep == timeStep
      ensures ZeroDiagonal()
      ensures FullPeers()
      ensures Valid()
      ensures forall r, c :: 0 <= r < |obj| && 0 <= c < |obj| ==> forces[r, c] == Zero
    {
      this.timeStep := timeStep;
      objects := obj;
      Rebuild();
    }

    /// The table-building part of `Reset`: `gMms`, a zero force table, the
    /// index map and every peer list, all for the current `objects`.
    method Rebuild()
      requires DistinctBodies(objects)
      modifies this`gMms, this`forces, this`peerIdx, this`pulls, this`indexOf, objects`calculatableObjects
      ensures ZeroDiagonal()
      ensures FullPeers()
      ensures Tables()
      ensures forall r, c :: 0 <= r < |objects| && 0 <= c < |objects| ==> forces[r, c] == Zero
      ensures Indexed()
      ensures PeersLinked()
    {
      NewTables();
      AssignCalculatableObjects();
    }

    /// `CalculateContinuousStepsGMms()`, `forces = new double[n, n, 2]` and
    /// the index map, for the current `objects`.
    method NewTables()
      requires DistinctBodies(objects)
      modifies this`gMms, this`forces, this`indexOf
      ensures fresh(forces)
      ensures Tables()
      ensures forall r, c :: 0 <= r < |objects| && 0 <= c < |objects| ==> forces[r, c] == Zero
      ensures ZeroDiagonal()
      ensures Indexed()
    {
      var g := CalculateContinuousStepsGMms(phys, objects);
      var f := ZeroForces(|objects|);
      gMms, forces := g, f;
      indexOf := IndexMap(objects);
    }

    /// `pulls` holds every body's `IsCalculatable`.
    ghost predicate Pulls()
      reads this`objects, this`pulls, objects`isCalculatable
    {
      FlagsOf(objects, pulls)
    }

    /// Every body's peers are the massive bodies other than itself.
    ghost predicate FullPeers()
      reads this`objects, this`pulls, this`peerIdx, objects`isCalculatable
    {
      Pulls() && peerIdx == FullLists(pulls)
    }

    /// Every body's peers are the massive bodies after it.
    ghost predicate SlimPeers()
      reads this`objects, this`pulls, this`peerIdx, objects`isCalculatable
    {
      Pulls() && peerIdx == SlimLists(pulls)
    }

    /// Under the full lists, body `k` pulls-from index `j` exactly when body
    /// `j` is massive and is not body `k`, and the list is in array order.
    lemma FullPeersMembers(k: nat)
      requires FullPeers() && k < |objects|
      ensures forall j: nat :: j in peerIdx[k] <==> j < |objects| && objects[j].isCalculatable && j != k
      ensures Increasing(peerIdx[k])
    {
      MassiveMembers(pulls, 0, k);
      MassiveIncreasing(pulls, 0, k);
    }

    /// Under the slim lists, body `k` lists index `j` exactly when `j` comes
    /// after `k` and body `j` is massive; the list is in array order, and
    /// the last body's list is empty.
    lemma SlimPeersMembers(k: nat)
      requires SlimPeers() && k < |objects|
      ensures forall j: nat :: j in peerIdx[k] <==> k < j < |objects| && objects[j].isCalculatable
      ensures Increasing(peerIdx[k])
      ensures k == |objects| - 1 ==> peerIdx[k] == []
    {
      MassiveMembers(pulls, k + 1, k);
      MassiveIncreasing(pulls, k + 1, k);
      if k == |objects| - 1 {
        MassiveNoneFrom(pulls, k + 1, k);
      }
    }

    /// `AssignCalculatableObjects`: body `i` gets
    /// `objects.Where(j => j.IsCalculatable && objects[i] != j)`.
    method AssignCalculatableObjects()
      requires DistinctBodies(objects)
      modifies this`peerIdx, this`pulls, objects`calculatableObjects
      ensures PeersLinked()
      ensures FullPeers()
    {
      pulls := Flags(objects);
      peerIdx := FullLists(pulls);
      LinkFull();
    }

    /// The loop of `AssignCalculatableObjects`: body `i` gets the massive
    /// bodies other than itself.
    method LinkFull()
      requires DistinctBodies(objects) && FlagsOf(objects, pulls)
      modifies objects`calculatableObjects
      ensures forall k :: 0 <= k < |objects| ==> objects[k].calculatableObjects == Pick(objects, FullLists(pulls)[k])
    {
      for i := 0 to |objects|
        invariant forall k :: 0 <= k < i ==> objects[k].calculatableObjects == Pick(objects, FullLists(pulls)[k])
      {
        assert forall k :: 0 <= k < |objects| ==> (objects[k] != objects[i] <==> k != i);
        PullersAreMassive(objects, pulls, 0, objects[i], i);
        objects[i].calculatableObjects := Pullers(objects, 0, objects[i]);
      }
    }

    /// `AssignCalculatableObjectsSlim`: body `i` gets `Number = i` and
    /// `objects.Skip(i + 1).Take(n - (i + 1)).Where(k => k.IsCalculatable)`;
    /// the `Take` keeps everything that `Skip` left.
    method AssignCalculatableObjectsSlim()
      requires DistinctBodies(objects)
      modifies this`peerIdx, this`pulls, objects`calculatableObjects, objects`number
      ensures PeersLinked()
      ensures Numbered()
      ensures SlimPeers()
    {
      pulls := Flags(objects);
      peerIdx := SlimLists(pulls);
      NumberSlim();
    }

    /// The loop of `AssignCalculatableObjectsSlim`: body `i` gets number `i`
    /// and the massive bodies after it as its list.
    method NumberSlim()
      requires DistinctBodies(objects) && FlagsOf(objects, pulls)
      modifies objects`calculatableObjects, objects`number
      ensures forall k :: 0 <= k < |objects| ==> objects[k].calculatableObjects == Pick(objects, SlimLists(pulls)[k])
      ensures Numbered()
    {
      for i := 0 to |objects|
        invariant forall k :: 0 <= k < i ==> objects[k].calculatableObjects == Pick(objects, SlimLists(pulls)[k])
        invariant forall k :: 0 <= k < i ==> objects[k].number == k
      {
        assert forall k :: 0 <= k < |objects| ==> (objects[k] != objects[i] <==> k != i);
        PullersAreMassive(objects, pulls, i + 1, null, i);
        objects[i].number := i;
        objects[i].calculatableObjects := Pullers(objects, i + 1, null);
      }
    }

    // -------------------------------------------------------------------
    // The classic strategies, one body at a time.
    // -------------------------------------------------------------------

    /// Entry `k` of the snapshot is the state of `objects[k]`.
    lemma SnapshotAt()
      requires |peerIdx| == |objects|
      ensures forall k :: 0 <= k < |objects| ==>
        Snapshot()[k] == Body(objects[k].mass, objects[k].stdGravPar, objects[k].position,
                              objects[k].velocity, objects[k].acceleration, peerIdx[k])
    {
      BodiesAt(objects, peerIdx);
    }

    /// A linked system's snapshot is well formed, and body `k`'s
    /// `CalculatableObjects` contribute exactly the sources its peer indices
    /// name in the snapshot.
    lemma SnapshotSources(k: nat)
      requires PeersLinked() && k < |objects|
      ensures WellFormed(Snapshot())
      ensures Sources(objects[k].calculatableObjects) == SourcesAt(Snapshot(), Snapshot()[k].peers)
    {
      SnapshotAt();
    }

    /// `objects[k].CalculateNewVelocity(TimeStep)`, on the snapshot: body `k`
    /// takes its new acceleration and velocity and nothing else changes.
    method VelocityAt(obj: CelestialObject, k: nat)
      requires Linked() && k < |objects| && obj == objects[k]
      modifies obj`acceleration, obj`velocity
      ensures Linked() && WellFormed(old(Snapshot()))
      ensures Snapshot() == old(Snapshot())[k := NewVelocity(phys, timeStep, old(Snapshot()), k)]
    {
      SnapshotAt();
      SnapshotSources(k);
      obj.CalculateNewVelocity(phys, timeStep);
      SnapshotAt();
      assert forall j :: 0 <= j < |objects| && j != k ==> objects[j] != obj;
    }

    /// `objects[k].UpdatePosition(TimeStep)`, on the snapshot.
    method PositionAt(obj: CelestialObject, k: nat)
      requires Linked() && k < |objects| && obj == objects[k]
      modifies obj`position
      ensures Linked()
      ensures Snapshot() == old(Snapshot())[k := NewPosition(phys, timeStep, old(Snapshot())[k])]
    {
      SnapshotAt();
      obj.UpdatePosition(phys, timeStep);
      SnapshotAt();
      assert forall j :: 0 <= j < |objects| && j != k ==> objects[j] != obj;
    }

    /// `objects[k].CalculateNewPosition(TimeStep)`, on the snapshot.
    method StateAt(obj: CelestialObject, k: nat)
      requires Linked() && k < |objects| && obj == objects[k]
      modifies obj`acceleration, obj`velocity, obj`position
      ensures Linked() && WellFormed(old(Snapshot()))
      ensures Snapshot() == old(Snapshot())[k := NewState(phys, timeStep, old(Snapshot()), k)]
    {
      SnapshotAt();
      SnapshotSources(k);
      obj.CalculateNewPosition(phys, timeStep);
      SnapshotAt();
      assert forall j :: 0 <= j < |objects| && j != k ==> objects[j] != obj;
    }

    /// A linked system's snapshot is well formed.
    lemma SnapshotWellFormed()
      requires PeersLinked()
      ensures WellFormed(Snapshot())
    {
      SnapshotAt();
    }

    /// `CalculateStep`: `CalculateNewPosition` on every body in array order,
    /// each body seeing the positions its predecessors already moved to.
    method CalculateStep()
      requires Valid()
      modifies objects`acceleration, objects`velocity, objects`position
      ensures WellFormed(old(Snapshot()))
      ensures Snapshot() == SerialSweep(phys, timeStep, old(Snapshot()), Iota(|objects|))
      ensures Valid()
    {
      SnapshotWellFormed();
      SerialPass();
    }

    /// The loop of `CalculateStep`, which needs only the peer lists.
    method SerialPass()
      requires Linked()
      modifies objects`acceleration, objects`velocity, objects`position
      ensures Snapshot() == SerialSweep(phys, timeStep, old(Snapshot()), Iota(|objects|))
      ensures Linked()
    {
      ghost var s0 := Snapshot();
      ghost var order := Iota(|objects|);
      for i := 0 to |objects|
        invariant Snapshot() == SerialSweep(phys, timeStep, s0, order[..i])
        invariant Linked()
      {
        assert order[..i + 1][..i] == order[..i];
        StateAt(objects[i], i);
      }
      assert order[..|objects|] == order;
    }

    /// One worker's first phase in `CalculateContinuousSteps`:
    /// `threadObjects[i].CalculateNewVelocity(TimeStep)` for the bodies at the
    /// indices `order`, one after another.
    method VelocityPass(order: seq<nat>)
      requires Linked() && InRange(order, |objects|)
      modifies objects`acceleration, objects`velocity
      ensures Linked() && WellFormed(old(Snapshot()))
      ensures Snapshot() == VelocitySweep(phys, timeStep, old(Snapshot()), order)
    {
      ghost var s0 := Snapshot();
      SnapshotWellFormed();
      for i := 0 to |order|
        invariant Snapshot() == VelocitySweep(phys, timeStep, s0, order[..i])
      {
        assert order[..i + 1][..i] == order[..i];
        VelocityAt(objects[order[i]], order[i]);
      }
      assert order[..|order|] == order;
    }

    /// One worker's second phase: `threadObjects[i].UpdatePosition(TimeStep)`.
    method PositionPass(order: seq<nat>)
      requires Linked() && InRange(order, |objects|)
      modifies objects`position
      ensures Linked()
      ensures Snapshot() == PositionSweep(phys, timeStep, old(Snapshot()), order)
    {
      ghost var s0 := Snapshot();
      for i := 0 to |order|
        invariant Snapshot() == PositionSweep(phys, timeStep, s0, order[..i])
      {
        assert order[..i + 1][..i] == order[..i];
        PositionAt(objects[order[i]], order[i]);
      }
      assert order[..|order|] == order;
    }

    /// All workers' first phases, worker 0 first: every body in the lists
    /// takes its new acceleration and velocity, in list order.
    method VelocityPhases(objPerThread: seq<seq<nat>>)
      requires Linked() && InRange(Flatten(objPerThread), |objects|)
      modifies objects`acceleration, objects`velocity
      ensures WellFormed(old(Snapshot()))
      ensures Snapshot() == VelocitySweep(phys, timeStep, old(Snapshot()), Flatten(objPerThread))
      ensures Linked()
    {
      ghost var s := Snapshot();
      SnapshotWellFormed();
      FlattenInRange(objPerThread, |objects|);
      for t := 0 to |objPerThread|
        invariant InRange(Flatten(objPerThread[..t]), |objects|)
        invariant Snapshot() == VelocitySweep(phys, timeStep, s, Flatten(objPerThread[..t]))
        invariant Linked()
      {
        FlattenPrefix(objPerThread, t);
        VelocitySweepAppend(phys, timeStep, s, Flatten(objPerThread[..t]), objPerThread[t]);
        VelocityPass(objPerThread[t]);
      }
      assert objPerThread[..|objPerThread|] == objPerThread;
    }

    /// All workers' second phases, worker 0 first: every body in the lists
    /// moves with its new velocity.
    method PositionPhases(objPerThread: seq<seq<nat>>)
      requires Linked() && InRange(Flatten(objPerThread), |objects|)
      modifies objects`position
      ensures Snapshot() == PositionSweep(phys, timeStep, old(Snapshot()), Flatten(objPerThread))
      ensures Linked()
    {
      ghost var v := Snapshot();
      FlattenInRange(objPerThread, |objects|);
      for t := 0 to |objPerThread|
        invariant InRange(Flatten(objPerThread[..t]), |objects|)
        invariant Snapshot() == PositionSweep(phys, timeStep, v, Flatten(objPerThread[..t]))
        invariant Linked()
      {
        FlattenPrefix(objPerThread, t);
        PositionSweepAppend(phys, timeStep, v, Flatten(objPerThread[..t]), objPerThread[t]);
        PositionPass(objPerThread[t]);
      }
      assert objPerThread[..|objPerThread|] == objPerThread;
    }

    /// All workers' first phases, then the second phases: one step of
    /// `CalculateContinuousSteps` with the barrier between the phases and
    /// every phase finished before the next begins.
    method TwoPhases(objPerThread: seq<seq<nat>>)
      requires Linked() && IsPermutation(Flatten(objPerThread), |objects|)
      modifies objects`acceleration, objects`velocity, objects`position
      ensures Linked() && WellFormed(old(Snapshot()))
      ensures Snapshot() == TwoPhaseStep(phys, timeStep, old(Snapshot()))
    {
      ghost var s := Snapshot();
      ghost var all := Flatten(objPerThread);
      PermutationFacts(all, |objects|);
      VelocityPhases(objPerThread);
      PositionPhases(objPerThread);
      TwoPhaseOrderFree(phys, timeStep, s, all, all);
    }

    /// `CalculateContinuousSteps(obj, barrier, steps)` run by every worker
    /// of `objPerThread`: `steps` two-phase steps. Whatever lists the workers
    /// get, as long as together they name every body once, the result is
    /// the two-phase step repeated.
    method CalculateContinuousSteps(objPerThread: seq<seq<nat>>, steps: nat)
      requires Linked() && IsPermutation(Flatten(objPerThread), |objects|)
      modifies objects`acceleration, objects`velocity, objects`position
      ensures Linked() && WellFormed(old(Snapshot()))
      ensures Snapshot() == Steps(phys, timeStep, old(Snapshot()), steps)
    {
      ghost var s0 := Snapshot();
      SnapshotWellFormed();
      for j: nat := 0 to steps
        invariant Snapshot() == Steps(phys, timeStep, s0, j)
        invariant Linked()
      {
        NextStep(objPerThread, s0, j);
      }
    }

    /// One pass of the workers' counted loop: step `j + 1` after step `j`.
    method NextStep(objPerThread: seq<seq<nat>>, ghost s0: seq<Body>, ghost j: nat)
      requires Linked() && IsPermutation(Flatten(objPerThread), |objects|)
      requires WellFormed(s0) && Snapshot() == Steps(phys, timeStep, s0, j)
      modifies objects`acceleration, objects`velocity, objects`position
      ensures Linked() && Snapshot() == Steps(phys, timeStep, s0, j + 1)
    {
      TwoPhases(objPerThread);
      StepsNext(phys, timeStep, s0, j);
    }

    /// `StartThreadsPerCoreCounted(steps)` with `procCount` processors: as
    /// many workers as processors but no more than bodies, round-robin
    /// lists, then every worker's counted loop until all have finished.
    method StartThreadsPerCoreCounted(procCount: int, steps: nat)
      requires Valid() && procCount >= 1
      modifies objects`acceleration, objects`velocity, objects`position
      ensures Valid() && WellFormed(old(Snapshot()))
      ensures Snapshot() == Steps(phys, timeStep, old(Snapshot()), steps)
    {
      var count := WorkerCount(procCount, |objects|);
      var objPerThread := DivideObjectsPerThreads(|objects|, count);
      DealPermutation(RoundRobin, count, |objects|);
      CalculateContinuousSteps(objPerThread, steps);
    }

    // -------------------------------------------------------------------
    // The slim strategy: a force table shared by all workers.
    // -------------------------------------------------------------------

    /// `indexOf` finds every body at its own index, so no body occurs twice.
    lemma IndexedDistinct()
      requires Indexed()
      ensures DistinctBodies(objects)
    {
    }

    /// `CalculateForces(obj)` for the body numbered `k`: for every body `i`
    /// after it, the pull of `i` on `obj` goes to `forces[k, i]` and its
    /// opposite to `forces[i, k]`; no other cell changes.
    method CalculateForces(obj: CelestialObject, ghost k: nat)
      requires Tables() && |peerIdx| == |objects| && ZeroDiagonal() && Numbered() && k < |objects| && obj == objects[k]
      modifies forces
      ensures ZeroDiagonal()
      ensures forall r, c :: 0 <= r < |objects| && 0 <= c < |objects| ==>
        forces[r, c] == if Written(k, r, c, |objects|) then PairForce(phys, Snapshot(), r, c) else old(forces[r, c])
    {
      var num := obj.number;
      SnapshotAt();
      for i := num + 1 to |objects|
        invariant forall r, c :: 0 <= r < |objects| && 0 <= c < |objects| ==>
          forces[r, c] == if Written(num, r, c, i) then PairForce(phys, Snapshot(), r, c) else old(forces[r, c])
      {
        forces[num, i] := phys.pairForce(obj.position, objects[i].position, gMms[obj.number, i]);
        forces[i, num] := Neg(forces[num, i]);
      }
    }

    /// `UpdatePositions(obj)` for the body numbered `k`, once row `k` of the
    /// force table holds the forces of snapshot `s` and the body is still
    /// where `s` has it: sums the row and moves the body, and nothing else.
    method UpdatePositions(obj: CelestialObject, ghost k: nat, ghost s: seq<Body>)
      requires Shaped() && Numbered() && k < |objects| && obj == objects[k]
      requires |s| == |objects| && Snapshot()[k] == s[k]
      requires forall c :: 0 <= c < |objects| ==> forces[k, c] == PairForce(phys, s, k, c)
      modifies obj`position
      ensures Snapshot() == old(Snapshot())[k := SlimBody(phys, timeStep, s, k)]
    {
      var num := obj.number;
      var force := Zero;
      ghost var row := ForceRow(phys, s, k);
      for i := 0 to |objects|
        invariant force == Total(phys, row[..i])
      {
        assert row[..i + 1][..i] == row[..i];
        force := Add(phys, force, forces[num, i]);
      }
      assert row[..|objects|] == row;
      SnapshotAt();
      obj.position := SlimMoveAsWritten(phys, timeStep, obj.position, obj.velocity, force, obj.mass);
      SnapshotAt();
      assert forall j :: 0 <= j < |objects| && j != k ==> objects[j] != obj;
    }

    /// One worker's first phase in `CalculateContinuousStepsSlim`:
    /// `CalculateForces` for the bodies at the indices `order`. Every cell
    /// whose smaller index is in `order` holds the force of the snapshot;
    /// every other cell keeps its value.
    method ForcesPass(order: seq<nat>)
      requires Tables() && |peerIdx| == |objects| && ZeroDiagonal() && Numbered() && InRange(order, |objects|)
      modifies forces
      ensures ZeroDiagonal()
      ensures forall r, c :: 0 <= r < |objects| && 0 <= c < |objects| ==>
        forces[r, c] == if Settled(r, c, order) then PairForce(phys, Snapshot(), r, c) else old(forces[r, c])
    {
      for i := 0 to |order|
        invariant ZeroDiagonal()
        invariant forall r, c :: 0 <= r < |objects| && 0 <= c < |objects| ==>
          forces[r, c] == if Settled(r, c, order[..i]) then PairForce(phys, Snapshot(), r, c) else old(forces[r, c])
      {
        assert order[..i + 1] == order[..i] + [order[i]];
        CalculateForces(objects[order[i]], order[i]);
      }
      assert order[..|order|] == order;
    }

    /// Every worker's first phase: once all bodies have run
    /// `CalculateForces`, the table holds the forces of the snapshot in every
    /// cell, whatever it held before.
    method ForcesPhase(objPerThread: seq<seq<nat>>)
      requires Tables() && |peerIdx| == |objects| && ZeroDiagonal() && Numbered() && IsPermutation(Flatten(objPerThread), |objects|)
      modifies forces
      ensures ZeroDiagonal()
      ensures forall r, c :: 0 <= r < |objects| && 0 <= c < |objects| ==> forces[r, c] == PairForce(phys, Snapshot(), r, c)
    {
      PermutationFacts(Flatten(objPerThread), |objects|);
      FlattenInRange(objPerThread, |objects|);
      for t := 0 to |objPerThread|
        invariant ZeroDiagonal()
        invariant forall r, c :: 0 <= r < |objects| && 0 <= c < |objects| && Settled(r, c, Flatten(objPerThread[..t])) ==>
          forces[r, c] == PairForce(phys, Snapshot(), r, c)
      {
        FlattenPrefix(objPerThread, t);
        ForcesPass(objPerThread[t]);
      }
      assert objPerThread[..|objPerThread|] == objPerThread;
    }

    /// One worker's second phase: `UpdatePositions` for the bodies at the
    /// indices `order`, none of which has moved yet.
    method MovesPass(order: seq<nat>, ghost s: seq<Body>, ghost done: seq<nat>)
      requires Shaped() && Numbered() && InRange(order, |objects|) && Distinct(done + order)
      requires |s| == |objects| && Snapshot() == SlimMoved(phys, timeStep, s, done)
      requires forall r, c :: 0 <= r < |objects| && 0 <= c < |objects| ==> forces[r, c] == PairForce(phys, s, r, c)
      modifies objects`position
      ensures Snapshot() == SlimMoved(phys, timeStep, s, done + order)
    {
      for i := 0 to |order|
        invariant Snapshot() == SlimMoved(phys, timeStep, s, done + order[..i])
      {
        var k := order[i];
        DistinctFresh(done + order, |done| + i);
        assert (done + order)[..|done| + i] == done + order[..i];
        assert done + order[..i + 1] == (done + order[..i]) + [k];
        SlimMovedNext(phys, timeStep, s, done + order[..i], k);
        UpdatePositions(objects[k], k, s);
      }
      assert order[..|order|] == order;
    }

    /// Every worker's second phase: every body moves once against the
    /// complete table of snapshot `s`.
    method MovesPhase(objPerThread: seq<seq<nat>>, ghost s: seq<Body>)
      requires Shaped() && Numbered() && IsPermutation(Flatten(objPerThread), |objects|)
      requires Snapshot() == s
      requires forall r, c :: 0 <= r < |objects| && 0 <= c < |objects| ==> forces[r, c] == PairForce(phys, s, r, c)
      modifies objects`position
      ensures Snapshot() == SlimStep(phys, timeStep, s)
    {
      ghost var all := Flatten(objPerThread);
      PermutationFacts(all, |objects|);
      FlattenInRange(objPerThread, |objects|);
      assert SlimMoved(phys, timeStep, s, []) == s;
      for t := 0 to |objPerThread|
        invariant Snapshot() == SlimMoved(phys, timeStep, s, Flatten(objPerThread[..t]))
      {
        ghost var done := Flatten(objPerThread[..t]);
        FlattenPrefix(objPerThread, t);
        FlattenIsPrefix(objPerThread, t + 1);
        DistinctPrefix(Flatten(objPerThread[..t + 1]), all);
        assert Distinct(done + objPerThread[t]) && InRange(objPerThread[t], |objects|);
        MovesPass(objPerThread[t], s, done);
      }
      assert objPerThread[..|objPerThread|] == objPerThread;
      SlimMovedAll(phys, timeStep, s, all);
    }

    /// One step of `CalculateContinuousStepsSlim`, with every phase finished
    /// before the next begins.
    method SlimStepOnce(objPerThread: seq<seq<nat>>)
      requires Valid() && ZeroDiagonal() && Numbered() && IsPermutation(Flatten(objPerThread), |objects|)
      modifies forces, objects`position
      ensures ZeroDiagonal() && Snapshot() == SlimStep(phys, timeStep, old(Snapshot()))
    {
      ForcesPhase(objPerThread);
      MovesPhase(objPerThread, Snapshot());
    }

    /// `CalculateContinuousStepsSlim(obj, barrier, steps)` run by every
    /// worker of `objPerThread`: `steps` slim steps.
    method CalculateContinuousStepsSlim(objPerThread: seq<seq<nat>>, steps: nat)
      requires Valid() && ZeroDiagonal() && Numbered() && IsPermutation(Flatten(objPerThread), |objects|)
      modifies forces, objects`position
      ensures Valid() && ZeroDiagonal() && Snapshot() == SlimSteps(phys, timeStep, old(Snapshot()), steps)
    {
      ghost var s0 := Snapshot();
      for j: nat := 0 to steps
        invariant ZeroDiagonal() && Snapshot() == SlimSteps(phys, timeStep, s0, j)
      {
        NextSlimStep(objPerThread, s0, j);
      }
    }

    /// One pass of the workers' counted slim loop: step `j + 1` after step `j`.
    method NextSlimStep(objPerThread: seq<seq<nat>>, ghost s0: seq<Body>, ghost j: nat)
      requires Valid() && ZeroDiagonal() && Numbered() && IsPermutation(Flatten(objPerThread), |objects|)
      requires Snapshot() == SlimSteps(phys, timeStep, s0, j)
      modifies forces, objects`position
      ensures ZeroDiagonal() && Snapshot() == SlimSteps(phys, timeStep, s0, j + 1)
    {
      SlimStepOnce(objPerThread);
      SlimStepsNext(phys, timeStep, s0, j);
    }

    /// `StartThreadsSlim(steps)` with `procCount` processors: zig-zag lists,
    /// the slim peer lists and numbers, then every worker's counted loop
    /// until all have finished. The bodies start from the snapshot they had,
    /// with the new peer lists.
    method StartThreadsSlim(procCount: int, steps: nat)
      requires Valid() && ZeroDiagonal() && procCount >= 1
      modifies this`peerIdx, this`pulls, objects`calculatableObjects, objects`number, forces, objects`position
      ensures Valid() && ZeroDiagonal() && Numbered() && SlimPeers()
      ensures Snapshot() == SlimSteps(phys, timeStep, WithPeers(old(Snapshot()), peerIdx), steps)
    {
      ghost var s0 := Snapshot();
      var count := WorkerCount(procCount, |objects|);
      var objPerThread := DivideObjectsPerThreadsSlim(|objects|, count);
      DealPermutation(ZigZag, count, |objects|);
      RunSlim(objPerThread, steps, s0);
    }

    /// The rest of `StartThreadsSlim` once the lists are dealt:
    /// `AssignCalculatableObjectsSlim`, then the workers' counted loops.
    method RunSlim(objPerThread: seq<seq<nat>>, steps: nat, ghost s0: seq<Body>)
      requires Valid() && ZeroDiagonal() && IsPermutation(Flatten(objPerThread), |objects|)
      requires Snapshot() == s0
      modifies this`peerIdx, this`pulls, objects`calculatableObjects, objects`number, forces, objects`position
      ensures Valid() && ZeroDiagonal() && Numbered() && SlimPeers()
      ensures Snapshot() == SlimSteps(phys, timeStep, WithPeers(s0, peerIdx), steps)
    {
      Renumber();
      CalculateContinuousStepsSlim(objPerThread, steps);
    }

    /// `AssignCalculatableObjectsSlim` on a valid system: it stays valid, and
    /// the bodies keep their state with the slim peer lists.
    method Renumber()
      requires Valid()
      modifies this`peerIdx, this`pulls, objects`calculatableObjects, objects`number
      ensures Valid() && Numbered() && SlimPeers()
      ensures Snapshot() == WithPeers(old(Snapshot()), peerIdx)
    {
      ghost var before := Snapshot();
      ghost var oldPeers := peerIdx;
      IndexedDistinct();
      AssignCalculatableObjectsSlim();
      assert Bodies(objects, oldPeers) == before;
      BodiesWithPeers(objects, oldPeers, peerIdx);
    }
  }
}
