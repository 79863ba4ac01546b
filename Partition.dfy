/// How `SolarSystem` splits the body arena among worker threads
/// (SolarSystem.cs: `DivideObjectsPerThreads`, `DivideObjectsPerThreadsSlim`
/// and the worker count repeated in every `Start*` method). A worker's list
/// holds arena indices: index `j` stands for `objects[j]`.
module Partition {

  /// `int count = procCount <= objCount ? procCount : objCount;`
  /// The minimum of the two, so never more workers than bodies; with at least
  /// one processor it is zero exactly when there are no bodies.
  function WorkerCount(procCount: int, objCount: nat): (count: int)
    ensures count <= procCount && count <= objCount
    ensures count == procCount || count == objCount
    ensures procCount >= 1 ==> 0 <= count && (count == 0 <==> objCount == 0)
  {
    if procCount <= objCount then procCount else objCount
  }

  /// The two assignment rules.
  datatype Scheme = RoundRobin | ZigZag

  /// Worker of body `j` under the zig-zag walk 0, 1, ..., W-1, W-1, ..., 1, 0, 0, 1, ...
  function ZigZagThread(j: nat, count: nat): (t: nat)
    requires count > 0
    ensures t < count
  {
    var r := j % (2 * count);
    if r < count then r else 2 * count - 1 - r
  }

  /// Direction of the walk when body `j` is placed: +1 on the way up.
  function ZigZagStep(j: nat, count: nat): int
    requires count > 0
  {
    if j % (2 * count) < count then 1 else -1
  }

  /// The worker body `j` is given under `scheme` with `count` workers.
  function Assign(scheme: Scheme, count: nat, j: nat): (t: nat)
    requires count > 0
    ensures t < count
  {
    match scheme
    case RoundRobin => j % count
    case ZigZag => ZigZagThread(j, count)
  }

  /// The indices `j < n` that go to worker `t`, in increasing order: the list
  /// a partitioner builds for worker `t` from the first `n` bodies.
  function Dealt(scheme: Scheme, count: nat, t: int, n: nat): seq<nat>
    requires count > 0 || n == 0
  {
    if n == 0 then []
    else Dealt(scheme, count, t, n - 1) + (if Assign(scheme, count, n - 1) == t then [n - 1] else [])
  }

  /// All `count` worker lists for `n` bodies.
  function Deal(scheme: Scheme, count: nat, n: nat): seq<seq<nat>>
    requires count > 0 || n == 0
  {
    seq(count, t => Dealt(scheme, count, t, n))
  }

  /// Concatenation of the worker lists, worker 0 first.
  function Flatten(lists: seq<seq<nat>>): seq<nat>
  {
    if lists == [] then [] else Flatten(lists[..|lists| - 1]) + lists[|lists| - 1]
  }

  /// The arena indices `0 .. n-1`.
  function RangeSet(n: nat): (r: set<nat>)
    ensures forall j: nat :: j in r <==> j < n
  {
    if n == 0 then {} else RangeSet(n - 1) + {n - 1}
  }

  /// `order` names every index below `n` exactly once.
  ghost predicate IsPermutation(order: seq<nat>, n: nat)
  {
    multiset(order) == multiset(RangeSet(n))
  }

  /// Every entry of `order` is an index below `n`.
  predicate InRange(order: seq<nat>, n: nat)
  {
    forall m :: 0 <= m < |order| ==> order[m] < n
  }

  /// No index occurs twice in `order`.
  predicate Distinct(order: seq<nat>)
  {
    forall i, j :: 0 <= i < j < |order| ==> order[i] != order[j]
  }

  /// A permutation of `0 .. n-1` stays in range, repeats nothing and misses nothing.
  lemma PermutationFacts(order: seq<nat>, n: nat)
    requires IsPermutation(order, n)
    ensures InRange(order, n) && Distinct(order)
    ensures forall k: nat :: k < n ==> k in order
  {
    forall m | 0 <= m < |order|
      ensures order[m] < n
    {
      assert order[m] in multiset(order);
    }
    forall i, j | 0 <= i < j < |order|
      ensures order[i] != order[j]
    {
      if order[i] == order[j] {
        TwiceCounted(order, i, j);
        assert false;
      }
    }
    forall k: nat | k < n
      ensures k in order
    {
      assert k in multiset(RangeSet(n));
    }
  }

  /// An index at two positions is counted at least twice.
  lemma TwiceCounted(order: seq<nat>, i: nat, j: nat)
    requires i < j < |order| && order[i] == order[j]
    ensures multiset(order)[order[i]] >= 2
  {
    assert order == order[..j] + order[j..];
    assert order[i] in order[..j];
    assert order[j..][0] == order[j];
    assert multiset(order) == multiset(order[..j]) + multiset(order[j..]);
  }

  // ---------------------------------------------------------------------
  // The partitioners, as the source writes them.
  // ---------------------------------------------------------------------

  /// `DivideObjectsPerThreads`: body `i` is appended to list `i % count`.
  /// With no bodies `count` may be 0 (the source then allocates no list);
  /// with bodies, `i % count` needs `count > 0`.
  method DivideObjectsPerThreads(objCount: nat, count: int) returns (objPerThread: seq<seq<nat>>)
    requires 0 <= count && (objCount > 0 ==> count > 0)
    ensures objPerThread == Deal(RoundRobin, count, objCount)
    ensures forall i :: 0 <= i < objCount ==>
      i / count < |objPerThread[i % count]| && objPerThread[i % count][i / count] == i
    ensures forall t :: 0 <= t < count ==>
      |objPerThread[t]| == objCount / count + (if t < objCount % count then 1 else 0)
  {
    objPerThread := seq(count, _ => []);
    for i := 0 to objCount
      invariant |objPerThread| == count
      invariant forall t :: 0 <= t < count ==> objPerThread[t] == Dealt(RoundRobin, count, t, i)
    {
      var threadNumber := i % count;
      objPerThread := objPerThread[threadNumber := objPerThread[threadNumber] + [i]];
    }
    if objCount > 0 {
      RoundRobinPlacement(count, objCount);
    }
  }

  /// `DivideObjectsPerThreadsSlim`: the `thread`/`step` walk bounces between
  /// worker 0 and worker `count - 1`, staying on an end worker for two bodies.
  method DivideObjectsPerThreadsSlim(objCount: nat, count: int) returns (objPerThread: seq<seq<nat>>)
    requires 0 <= count && (objCount > 0 ==> count > 0)
    ensures objPerThread == Deal(ZigZag, count, objCount)
    ensures forall t :: 0 <= t < count ==>
      forall j: nat :: j in objPerThread[t] <==> j < objCount && ZigZagThread(j, count) == t
  {
    objPerThread := seq(count, _ => []);
    var thread := 0;
    var step := 1;
    for i := 0 to objCount
      invariant |objPerThread| == count
      invariant forall t :: 0 <= t < count ==> objPerThread[t] == Dealt(ZigZag, count, t, i)
      invariant count > 0 ==> thread == ZigZagThread(i, count) && step == ZigZagStep(i, count)
    {
      objPerThread := objPerThread[thread := objPerThread[thread] + [i]];
      ZigZagAdvance(i, count);
      if thread + step >= 0 && thread + step < count {
        thread := thread + step;
      } else {
        step := -step;
      }
    }
    forall t | 0 <= t < count
      ensures forall j: nat :: j in objPerThread[t] <==> j < objCount && ZigZagThread(j, count) == t
    {
      DealtMembers(ZigZag, count, t, objCount);
    }
  }

  // ---------------------------------------------------------------------
  // Properties of every partition built this way.
  // ---------------------------------------------------------------------

  /// A worker's list holds exactly the indices assigned to it.
  lemma {:induction false} DealtMembers(scheme: Scheme, count: nat, t: int, n: nat)
    requires count > 0 || n == 0
    ensures forall j: nat :: j in Dealt(scheme, count, t, n) <==> j < n && Assign(scheme, count, j) == t
  {
    if n > 0 {
      DealtMembers(scheme, count, t, n - 1);
    }
  }

  /// A worker's list keeps array order and holds no index twice.
  lemma {:induction false} DealtIncreasing(scheme: Scheme, count: nat, t: int, n: nat)
    requires count > 0 || n == 0
    ensures forall i, k :: 0 <= i < k < |Dealt(scheme, count, t, n)| ==>
      Dealt(scheme, count, t, n)[i] < Dealt(scheme, count, t, n)[k]
  {
    if n > 0 {
      DealtIncreasing(scheme, count, t, n - 1);
      DealtMembers(scheme, count, t, n - 1);
      var d := Dealt(scheme, count, t, n - 1);
      assert forall i :: 0 <= i < |d| ==> d[i] in d;
    }
  }

  /// Appending `x` to one list adds exactly one `x` to the concatenation.
  lemma {:induction false} FlattenAppend(lists: seq<seq<nat>>, t: nat, x: nat)
    requires t < |lists|
    ensures multiset(Flatten(lists[t := lists[t] + [x]])) == multiset(Flatten(lists)) + multiset{x}
  {
    var last := |lists| - 1;
    var updated := lists[t := lists[t] + [x]];
    assert updated[..last] == if t == last then lists[..last] else lists[..last][t := lists[t] + [x]];
    if t < last {
      FlattenAppend(lists[..last], t, x);
    }
  }

  /// The concatenation of the first `t + 1` lists is that of the first `t`
  /// followed by list `t`.
  lemma FlattenPrefix(lists: seq<seq<nat>>, t: nat)
    requires t < |lists|
    ensures Flatten(lists[..t + 1]) == Flatten(lists[..t]) + lists[t]
  {
    assert lists[..t + 1][..t] == lists[..t];
  }

  /// The concatenation of the first `t` lists begins the whole concatenation.
  lemma {:induction false} FlattenIsPrefix(lists: seq<seq<nat>>, t: nat)
    requires t <= |lists|
    ensures Flatten(lists[..t]) <= Flatten(lists)
    decreases |lists|
  {
    if t < |lists| {
      var last := |lists| - 1;
      assert lists[..last][..t] == lists[..t];
      FlattenIsPrefix(lists[..last], t);
      var a, b := Flatten(lists[..t]), Flatten(lists[..last]);
      assert a == b[..|a|];
      assert Flatten(lists)[..|b|] == b;
    } else {
      assert lists[..t] == lists;
    }
  }

  /// A beginning of a list without repetitions has none either.
  lemma DistinctPrefix(a: seq<nat>, b: seq<nat>)
    requires a <= b && Distinct(b)
    ensures Distinct(a)
  {
    assert forall m :: 0 <= m < |a| ==> a[m] == b[m];
  }

  /// In a list without repetitions, no entry occurs before its own position.
  lemma DistinctFresh(a: seq<nat>, m: nat)
    requires Distinct(a) && m < |a|
    ensures a[m] !in a[..m]
  {
    assert forall p :: 0 <= p < m ==> a[..m][p] == a[p];
  }

  /// When the concatenation stays below `n`, so does every list.
  lemma {:induction false} FlattenInRange(lists: seq<seq<nat>>, n: nat)
    requires InRange(Flatten(lists), n)
    ensures forall t :: 0 <= t < |lists| ==> InRange(lists[t], n)
  {
    if lists != [] {
      var last := |lists| - 1;
      var f := Flatten(lists[..last]);
      assert forall m :: 0 <= m < |f| ==> f[m] == Flatten(lists)[m];
      assert forall m :: 0 <= m < |lists[last]| ==> lists[last][m] == Flatten(lists)[|f| + m];
      FlattenInRange(lists[..last], n);
    }
  }

  /// Exact partition: the worker lists together name every body exactly once.
  lemma {:induction false} DealPermutation(scheme: Scheme, count: nat, n: nat)
    requires count > 0 || n == 0
    ensures IsPermutation(Flatten(Deal(scheme, count, n)), n)
  {
    if n == 0 {
      DealNone(scheme, count);
    } else {
      DealPermutation(scheme, count, n - 1);
      DealOneMore(scheme, count, n);
    }
  }

  /// With no bodies, every list is empty.
  lemma DealNone(scheme: Scheme, count: nat)
    ensures IsPermutation(Flatten(Deal(scheme, count, 0)), 0)
  {
    EmptyListsFlatten(Deal(scheme, count, 0));
  }

  /// Dealing body `n - 1` to its worker keeps the lists an exact partition.
  lemma DealOneMore(scheme: Scheme, count: nat, n: nat)
    requires count > 0 && n > 0 && IsPermutation(Flatten(Deal(scheme, count, n - 1)), n - 1)
    ensures IsPermutation(Flatten(Deal(scheme, count, n)), n)
  {
    var x: nat := n - 1;
    var t := Assign(scheme, count, x);
    var before := Deal(scheme, count, x);
    var after := before[t := before[t] + [x]];
    DealStep(scheme, count, x);
    assert Deal(scheme, count, n) == after;
    var flat := multiset(Flatten(before));
    assert flat == multiset(RangeSet(x));
    FlattenAppend(before, t, x);
    assert multiset(Flatten(after)) == flat + multiset{x};
    RangeSetStep(x);
    assert RangeSet(n) == RangeSet(x + 1);
  }

  lemma RangeSetStep(n: nat)
    ensures multiset(RangeSet(n + 1)) == multiset(RangeSet(n)) + multiset{n}
  {
    assert n !in RangeSet(n);
    assert RangeSet(n + 1) == RangeSet(n) + {n};
  }

  /// Dealing one more body appends it to its worker's list and to no other.
  lemma DealStep(scheme: Scheme, count: nat, n: nat)
    requires count > 0
    ensures var t := Assign(scheme, count, n);
      Deal(scheme, count, n + 1) == Deal(scheme, count, n)[t := Deal(scheme, count, n)[t] + [n]]
  {
    var t := Assign(scheme, count, n);
    var before := Deal(scheme, count, n);
    var after := Deal(scheme, count, n + 1);
    forall u | 0 <= u < count
      ensures after[u] == before[t := before[t] + [n]][u]
    {
      assert after[u] == Dealt(scheme, count, u, n + 1);
    }
  }

  lemma {:induction false} EmptyListsFlatten(lists: seq<seq<nat>>)
    requires forall t :: 0 <= t < |lists| ==> lists[t] == []
    ensures Flatten(lists) == []
  {
    if lists != [] {
      EmptyListsFlatten(lists[..|lists| - 1]);
    }
  }

  // ---------------------------------------------------------------------
  // Round robin.
  // ---------------------------------------------------------------------

  /// `d * m >= m` for positive `d` and `m`.
  lemma {:induction false} MulGrows(d: int, m: int)
    requires d >= 1 && m > 0
    ensures d * m >= m
  {
    if d > 1 {
      MulGrows(d - 1, m);
      assert d * m == (d - 1) * m + m;
    }
  }

  /// Quotient and remainder are determined by `n == q * m + r`, `0 <= r < m`.
  lemma DivModUnique(n: int, m: int, q: int, r: int)
    requires m > 0 && 0 <= r < m && n == q * m + r
    ensures n / m == q && n % m == r
  {
    var q', r' := n / m, n % m;
    assert n == q' * m + r';
    if q' > q {
      MulGrows(q' - q, m);
      assert false;
    } else if q' < q {
      MulGrows(q - q', m);
      assert false;
    }
  }

  lemma ModSucc(n: nat, m: nat)
    requires m > 0
    ensures (n + 1) % m == (if n % m == m - 1 then 0 else n % m + 1)
    ensures (n + 1) / m == (if n % m == m - 1 then n / m + 1 else n / m)
  {
    var q, r := n / m, n % m;
    if r == m - 1 {
      DivModUnique(n + 1, m, q + 1, 0);
    } else {
      DivModUnique(n + 1, m, q, r + 1);
    }
  }

  /// Round robin: body `j` sits at position `j / count` of list `j % count`,
  /// and list `t` holds `n / count` bodies, one more when `t < n % count`.
  lemma {:induction false} RoundRobinPlacement(count: nat, n: nat)
    requires count > 0
    ensures forall t :: 0 <= t < count ==>
      |Dealt(RoundRobin, count, t, n)| == n / count + (if t < n % count then 1 else 0)
    ensures forall j :: 0 <= j < n ==>
      0 <= j / count < |Dealt(RoundRobin, count, j % count, n)| && Dealt(RoundRobin, count, j % count, n)[j / count] == j
  {
    if n > 0 {
      var m := n - 1;
      RoundRobinPlacement(count, m);
      ModSucc(m, count);
    }
  }

  /// List sizes of a round-robin partition differ by at most one.
  lemma RoundRobinBalanced(count: nat, n: nat, t1: nat, t2: nat)
    requires count > 0 && t1 < count && t2 < count
    ensures |Dealt(RoundRobin, count, t1, n)| - |Dealt(RoundRobin, count, t2, n)| <= 1
  {
    RoundRobinPlacement(count, n);
  }

  // ---------------------------------------------------------------------
  // Zig-zag.
  // ---------------------------------------------------------------------

  /// One iteration of the `thread`/`step` update in `DivideObjectsPerThreadsSlim`
  /// moves from the closed form for body `j` to the closed form for `j + 1`.
  lemma ZigZagAdvance(j: nat, count: nat)
    requires count > 0
    ensures var t, s := ZigZagThread(j, count), ZigZagStep(j, count);
      if 0 <= t + s < count
      then ZigZagThread(j + 1, count) == t + s && ZigZagStep(j + 1, count) == s
      else ZigZagThread(j + 1, count) == t && ZigZagStep(j + 1, count) == -s
  {
    ModSucc(j, 2 * count);
  }

  /// Balance: inside a full block of `2 * count` bodies starting at a multiple
  /// `b` of `2 * count`, worker `t` gets exactly bodies `b + t` and
  /// `b + 2 * count - 1 - t`, whose indices sum to `2 * b + 2 * count - 1`
  /// for every worker; their numbers of higher-indexed peers therefore sum to
  /// the same value for every worker.
  lemma ZigZagBlock(count: nat, b: nat, t: nat)
    requires count > 0 && b % (2 * count) == 0 && t < count
    ensures ZigZagThread(b + t, count) == t
    ensures ZigZagThread(b + 2 * count - 1 - t, count) == t
    ensures forall j: nat :: b <= j < b + 2 * count && ZigZagThread(j, count) == t ==>
      j == b + t || j == b + 2 * count - 1 - t
  {
    var m := 2 * count;
    BlockOffset(b, m, t);
    BlockOffset(b, m, m - 1 - t);
    forall j: nat | b <= j < b + m && ZigZagThread(j, count) == t
      ensures j == b + t || j == b + m - 1 - t
    {
      BlockOffset(b, m, j - b);
    }
  }

  /// Inside a block starting at a multiple of `m`, the remainder is the offset.
  lemma BlockOffset(b: nat, m: nat, d: nat)
    requires m > 0 && b % m == 0 && d < m
    ensures (b + d) % m == d
  {
    assert b == (b / m) * m;
    DivModUnique(b + d, m, b / m, d);
  }

  /// The doc-comment example: with bodies of cost 3, 2, 1, 0 and two workers,
  /// worker 0 gets the bodies of cost 3 and 0, worker 1 those of cost 2 and 1.
  lemma ZigZagTwoWorkers()
    ensures Deal(ZigZag, 2, 4) == [[0, 3], [1, 2]]
  {
    assert ZigZagThread(0, 2) == 0 && ZigZagThread(1, 2) == 1;
    assert ZigZagThread(2, 2) == 1 && ZigZagThread(3, 2) == 0;
    assert Dealt(ZigZag, 2, 0, 4) == [0, 3];
    assert Dealt(ZigZag, 2, 1, 4) == [1, 2];
  }

  /// With one worker the zig-zag walk never leaves worker 0.
  lemma ZigZagSingleWorker(n: nat)
    ensures Deal(ZigZag, 1, n) == [seq(n, j => j)]
  {
    SingleWorkerList(n);
  }

  lemma {:induction false} SingleWorkerList(n: nat)
    ensures Dealt(ZigZag, 1, 0, n) == seq(n, j => j)
  {
    if n > 0 {
      SingleWorkerList(n - 1);
      assert ZigZagThread(n - 1, 1) == 0;
      assert seq(n, j => j) == seq(n - 1, j => j) + [n - 1];
    }
  }
}
