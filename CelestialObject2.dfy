/// CelestialObject2.cs: a revision of `CalculateAcceleration` that takes the
/// candidate bodies as a parameter, skips bodies that do not pull and the
/// body itself, and gives up at the first peer it overlaps.
module CelestialObject2 {
  import opened Vectors
  import opened Motion
  import opened CelestialObjects

  /// What the guarded loop reads of one candidate body: its position and
  /// `StdGravPar`, its `IsCalculatable`, whether it is the body itself, and
  /// whether it overlaps the body.
  datatype Candidate = Candidate(position: Position, gm: real, pulls: bool, isSelf: bool, touches: bool)

  /// The candidates `objs` as seen by `self`.
  function Candidates(self: CelestialObject, objs: seq<CelestialObject>): (r: seq<Candidate>)
    reads self`position, self`radius, objs`position, objs`radius, objs`stdGravPar, objs`isCalculatable
    ensures |r| == |objs|
    ensures forall m :: 0 <= m < |objs| ==> r[m] == Candidate(objs[m].position, objs[m].stdGravPar,
      objs[m].isCalculatable, objs[m] == self, Overlap(self.position, self.radius, objs[m].position, objs[m].radius))
  {
    if objs == [] then []
    else
      var o := objs[|objs| - 1];
      Candidates(self, objs[..|objs| - 1]) +
        [Candidate(o.position, o.stdGravPar, o.isCalculatable, o == self, Overlap(self.position, self.radius, o.position, o.radius))]
  }

  /// `obj.IsCalculatable && obj != this`, applied in order.
  function Qualifying(cs: seq<Candidate>): (q: seq<Candidate>)
    ensures |q| <= |cs|
  {
    if cs == [] then []
    else
      var last := cs[|cs| - 1];
      Qualifying(cs[..|cs| - 1]) + (if last.pulls && !last.isSelf then [last] else [])
  }

  /// Index in `q` of the first candidate that overlaps the body, or `|q|` if
  /// there is none.
  function FirstTouch(q: seq<Candidate>): (c: nat)
    ensures c <= |q|
    ensures forall j :: 0 <= j < c ==> !q[j].touches
    ensures c < |q| ==> q[c].touches
  {
    if q == [] then 0
    else if q[0].touches then 0
    else 1 + FirstTouch(q[1..])
  }

  /// What a candidate contributes once it is accepted.
  function Contributions(q: seq<Candidate>): seq<Source>
  {
    seq(|q|, m requires 0 <= m < |q| => Source(q[m].position, q[m].gm))
  }

  /// What the guarded loop leaves in `acceleration` for a body at `p`: the
  /// sum over the qualifying candidates before the first one it overlaps.
  function GuardedAcceleration(phys: Physics, p: Position, cs: seq<Candidate>): FVec
  {
    var q := Qualifying(cs);
    Accumulate(phys, p, Contributions(q[..FirstTouch(q)]))
  }

  /// The guarded `CalculateAcceleration(objects)` of `self`: it resets the
  /// acceleration, adds one contribution per qualifying body in array order,
  /// and returns at once on the first qualifying body it overlaps. It writes
  /// only `self.acceleration`.
  method CalculateAcceleration(self: CelestialObject, phys: Physics, objects: seq<CelestialObject>)
    modifies self`acceleration
    ensures self.acceleration == GuardedAcceleration(phys, self.position, old(Candidates(self, objects)))
  {
    ghost var cs := Candidates(self, objects);
    self.acceleration := Zero;
    for i := 0 to |objects|
      invariant FirstTouch(Qualifying(cs[..i])) == |Qualifying(cs[..i])|
      invariant self.acceleration == Accumulate(phys, self.position, Contributions(Qualifying(cs[..i])))
    {
      var obj := objects[i];
      ghost var c := cs[i];
      assert c.pulls == obj.isCalculatable && c.isSelf == (obj == self);
      assert c.touches == Overlap(self.position, self.radius, obj.position, obj.radius);
      assert c.position == obj.position && c.gm == obj.stdGravPar;
      if obj.isCalculatable && obj != self {
        if Overlap(self.position, self.radius, obj.position, obj.radius) {
          StopsAtTouch(phys, self.position, cs, i);
          return;
        }
        GuardStep(phys, self.position, cs, i, self.acceleration);
        self.acceleration := Add(phys, self.acceleration, phys.pull(self.position, obj.position, obj.stdGravPar));
      } else {
        GuardStep(phys, self.position, cs, i, self.acceleration);
      }
    }
    NoTouchFullSum(phys, self.position, cs, |objects|);
  }

  /// The overlap test of the loop, `r2 <= (R1 + R2)^2`, for a body at `p`
  /// with radius `r` and a peer at `q` with radius `rq`: squared distance at
  /// most the squared sum of the radii, exact on the integer coordinates.
  predicate Overlap(p: Position, r: int, q: Position, rq: int)
  {
    var dX, dY := q.x - p.x, q.y - p.y;
    dX * dX + dY * dY <= (r + rq) * (r + rq)
  }

  /// One iteration of the guarded loop that does not return keeps both
  /// loop invariants.
  lemma GuardStep(phys: Physics, p: Position, cs: seq<Candidate>, i: nat, acc: FVec)
    requires i < |cs|
    requires FirstTouch(Qualifying(cs[..i])) == |Qualifying(cs[..i])|
    requires acc == Accumulate(phys, p, Contributions(Qualifying(cs[..i])))
    requires cs[i].pulls && !cs[i].isSelf ==> !cs[i].touches
    ensures FirstTouch(Qualifying(cs[..i + 1])) == |Qualifying(cs[..i + 1])|
    ensures var acc' := if cs[i].pulls && !cs[i].isSelf then Add(phys, acc, phys.pull(p, cs[i].position, cs[i].gm)) else acc;
      acc' == Accumulate(phys, p, Contributions(Qualifying(cs[..i + 1])))
  {
    QualifyingStep(cs, i);
    if cs[i].pulls && !cs[i].isSelf {
      NoTouchExtends(Qualifying(cs[..i]), cs[i]);
      AccumulateOneMore(phys, p, Qualifying(cs[..i]), cs[i]);
    } else {
      assert Qualifying(cs[..i]) + [] == Qualifying(cs[..i]);
    }
  }

  /// One more candidate: it is appended to the qualifying list exactly when it qualifies.
  lemma QualifyingStep(cs: seq<Candidate>, i: nat)
    requires i < |cs|
    ensures Qualifying(cs[..i + 1]) == Qualifying(cs[..i]) + (if cs[i].pulls && !cs[i].isSelf then [cs[i]] else [])
  {
    assert cs[..i + 1][..i] == cs[..i];
  }

  /// Appending a candidate that does not overlap keeps "no overlap so far".
  lemma NoTouchExtends(q: seq<Candidate>, c: Candidate)
    requires FirstTouch(q) == |q| && !c.touches
    ensures FirstTouch(q + [c]) == |q + [c]|
  {
    forall j | 0 <= j < |q + [c]|
      ensures !(q + [c])[j].touches
    {
      if j < |q| {
        assert (q + [c])[j] == q[j];
      }
    }
  }

  /// One more accepted candidate adds one more contribution.
  lemma AccumulateOneMore(phys: Physics, p: Position, q: seq<Candidate>, c: Candidate)
    ensures Accumulate(phys, p, Contributions(q + [c])) ==
      Add(phys, Accumulate(phys, p, Contributions(q)), phys.pull(p, c.position, c.gm))
  {
    assert Contributions(q + [c])[..|q|] == Contributions(q);
  }

  /// A candidate is kept exactly when it pulls and is not the body itself.
  lemma {:induction false} QualifyingMembers(cs: seq<Candidate>)
    ensures forall c :: c in Qualifying(cs) <==> c in cs && c.pulls && !c.isSelf
  {
    if cs != [] {
      QualifyingMembers(cs[..|cs| - 1]);
      assert cs == cs[..|cs| - 1] + [cs[|cs| - 1]];
    }
  }

  /// Filtering a concatenation filters each part.
  lemma {:induction false} QualifyingAppend(a: seq<Candidate>, b: seq<Candidate>)
    ensures Qualifying(a + b) == Qualifying(a) + Qualifying(b)
  {
    if b == [] {
      assert a + b == a;
    } else {
      assert (a + b)[..|a + b| - 1] == a + b[..|b| - 1];
      QualifyingAppend(a, b[..|b| - 1]);
    }
  }

  /// Candidate `i` qualifies and overlaps, and no qualifying candidate before
  /// it does: the guarded sum is the sum over the qualifying candidates before
  /// `i`, and nothing after `i` contributes.
  lemma StopsAtTouch(phys: Physics, p: Position, cs: seq<Candidate>, i: nat)
    requires i < |cs| && cs[i].pulls && !cs[i].isSelf && cs[i].touches
    requires FirstTouch(Qualifying(cs[..i])) == |Qualifying(cs[..i])|
    ensures GuardedAcceleration(phys, p, cs) == Accumulate(phys, p, Contributions(Qualifying(cs[..i])))
  {
    var before := Qualifying(cs[..i]);
    assert cs == cs[..i + 1] + cs[i + 1..];
    QualifyingAppend(cs[..i + 1], cs[i + 1..]);
    QualifyingStep(cs, i);
    var q := Qualifying(cs);
    assert q[..|before| + 1] == before + [cs[i]];
    forall j | 0 <= j < |before|
      ensures !q[j].touches
    {
      assert q[j] == before[j];
    }
    assert q[|before|] == cs[i];
    assert FirstTouch(q) == |before|;
    assert q[..|before|] == before;
  }

  /// No qualifying candidate overlaps: the result is the plain sum over every
  /// qualifying candidate, in order.
  lemma NoTouchFullSum(phys: Physics, p: Position, cs: seq<Candidate>, n: nat)
    requires n == |cs|
    requires FirstTouch(Qualifying(cs[..n])) == |Qualifying(cs[..n])|
    ensures GuardedAcceleration(phys, p, cs) == Accumulate(phys, p, Contributions(Qualifying(cs[..n])))
  {
    assert cs[..n] == cs;
    var q := Qualifying(cs);
    assert q[..|q|] == q;
  }

  /// Once a qualifying candidate overlaps, whatever follows it is ignored.
  lemma LaterCandidatesIgnored(phys: Physics, p: Position, cs: seq<Candidate>, rest: seq<Candidate>)
    requires FirstTouch(Qualifying(cs)) < |Qualifying(cs)|
    ensures GuardedAcceleration(phys, p, cs + rest) == GuardedAcceleration(phys, p, cs)
  {
    QualifyingAppend(cs, rest);
    var q, q2 := Qualifying(cs), Qualifying(cs + rest);
    var t := FirstTouch(q);
    assert q2[..|q|] == q;
    forall j | 0 <= j <= t
      ensures q2[j] == q[j]
    {
      assert q2[..|q|][j] == q2[j];
    }
    assert FirstTouch(q2) == t;
    assert q2[..t] == q[..t];
  }
}
