/** Day 8, part 1: connect the closest pairs of junction boxes, up to a limit, then
    multiply the sizes of the three largest circuits. */
module Day08Part1 {
  import opened Utils
  import opened Sorting
  import opened Day08Circuits

  /** How many pairs the connection loop takes: it stops once max_connections pairs
      have been taken, whether or not they merged anything. */
  function Taken(n: nat, maxConnections: int): (t: nat)
    ensures t <= n && (maxConnections <= 0 ==> t == 0)
    ensures maxConnections > 0 ==> t <= maxConnections && (t == n || t == maxConnections)
  {
    if maxConnections <= 0 then 0 else if maxConnections < n then maxConnections else n
  }

  /** create_circuits: an id per box, then the first Taken pairs in order. */
  function CircuitsAfter(positions: seq<Vector3>, pairs: seq<JunctionPair>, maxConnections: int): Checked<Circuits> {
    match ConnectAll(InitialCircuits(positions), |positions|, pairs[..Taken(|pairs|, maxConnections)])
    case Abort => Abort
    case Ok((c, _)) => Ok(c)
  }

  /** What create_circuits promises: every box keeps a circuit, and the ends of
      every pair taken share one. */
  lemma CircuitsAfterJoins(positions: seq<Vector3>, pairs: seq<JunctionPair>, maxConnections: int)
    ensures CircuitsAfter(positions, pairs, maxConnections).Ok? ==>
      var c := CircuitsAfter(positions, pairs, maxConnections).value;
      && c.Keys == InitialCircuits(positions).Keys
      && forall k :: 0 <= k < Taken(|pairs|, maxConnections) ==>
           pairs[k].first in c && pairs[k].second in c && Same(c, pairs[k].first, pairs[k].second)
  {
    var taken := pairs[..Taken(|pairs|, maxConnections)];
    var init := InitialCircuits(positions);
    var r := ConnectAll(init, |positions|, taken);
    if r.Ok? {
      var c := r.value.0;
      assert CircuitsAfter(positions, pairs, maxConnections) == Ok(c);
      InitialCircuitsIs(positions);
      ConnectAllKeeps(init, |positions|, taken);
      ConnectAllJoins(init, |positions|, taken);
      forall k | 0 <= k < |taken|
        ensures pairs[k].first in c && pairs[k].second in c && Same(c, pairs[k].first, pairs[k].second)
      {
        assert taken[k] == pairs[k];
      }
    }
  }

  /** create_circuits: the initial ids, then the capped connection loop. */
  method CreateCircuits(positions: seq<Vector3>, pairs: seq<JunctionPair>, maxConnections: int) returns (result: Checked<Circuits>)
    ensures result == CircuitsAfter(positions, pairs, maxConnections)
  {
    var circuits, count := InitCircuits(positions);
    ghost var init := circuits;
    var connections := 0;
    var k := 0;
    assert pairs[..0] == [];
    while k < |pairs|
      invariant k <= Taken(|pairs|, maxConnections) && connections == k
      invariant ConnectAll(init, |positions|, pairs[..k]) == Ok((circuits, count))
    {
      if connections >= maxConnections {
        break;
      }
      connections := connections + 1;
      ConnectAllStep(init, |positions|, pairs, k);
      var next := ConnectPair(circuits, count, pairs[k]);
      if next.Abort? {
        ConnectAllAbortStays(init, |positions|, pairs, k + 1, Taken(|pairs|, maxConnections));
        return Abort;
      }
      circuits, count := next.value.0, next.value.1;
      k := k + 1;
    }
    return Ok(circuits);
  }

  /** The boxes of circuit id among those in done. */
  function MembersIn(c: Circuits, id: nat, done: set<Vector3>): set<Vector3> {
    set p | p in done && p in c && c[p] == id
  }

  /** The number of boxes in circuit id. */
  function Size(c: Circuits, id: nat): nat {
    |MembersIn(c, id, c.Keys)|
  }

  /** std::ranges::find_if over circuit_sizes: the first entry for id, or the end. */
  function IndexOf(sizes: seq<(nat, nat)>, id: nat): (r: nat)
    ensures r <= |sizes| && (r < |sizes| ==> sizes[r].0 == id)
    ensures forall j :: 0 <= j < r ==> sizes[j].0 != id
    decreases |sizes|
  {
    if sizes == [] then 0
    else if sizes[0].0 == id then 0
    else 1 + IndexOf(sizes[1..], id)
  }

  /** One box of the tally: one more for its circuit's entry, or a new entry of 1. */
  function NextTally(sizes: seq<(nat, nat)>, id: nat): seq<(nat, nat)> {
    var r := IndexOf(sizes, id);
    if r == |sizes| then sizes + [(id, 1)] else sizes[r := (id, sizes[r].1 + 1)]
  }

  function SumSizes(sizes: seq<(nat, nat)>): nat {
    if sizes == [] then 0 else SumSizes(sizes[..|sizes| - 1]) + sizes[|sizes| - 1].1
  }

  lemma {:induction false} SumSizesBump(sizes: seq<(nat, nat)>, r: nat, id: nat)
    requires r < |sizes|
    ensures SumSizes(sizes[r := (id, sizes[r].1 + 1)]) == SumSizes(sizes) + 1
    decreases |sizes|
  {
    var n := |sizes| - 1;
    var s' := sizes[r := (id, sizes[r].1 + 1)];
    assert s'[..n] == if r < n then sizes[..n][r := (id, sizes[r].1 + 1)] else sizes[..n];
    if r < n {
      SumSizesBump(sizes[..n], r, id);
    }
  }

  /** No circuit has two entries. */
  predicate DistinctIds(sizes: seq<(nat, nat)>) {
    forall i, j :: 0 <= i < j < |sizes| ==> sizes[i].0 != sizes[j].0
  }

  /** The tally after the boxes in done: one entry per circuit met, each holding the
      number of its boxes met, the entries adding up to the boxes met. */
  ghost predicate TallyOf(c: Circuits, done: set<Vector3>, sizes: seq<(nat, nat)>) {
    && done <= c.Keys
    && DistinctIds(sizes)
    && (forall i :: 0 <= i < |sizes| ==> sizes[i].0 in Ids(c) && sizes[i].1 == |MembersIn(c, sizes[i].0, done)|)
    && (forall p :: p in done ==> IndexOf(sizes, c[p]) < |sizes|)
    && SumSizes(sizes) == |done|
  }

  lemma MembersInStep(c: Circuits, done: set<Vector3>, p: Vector3, id: nat)
    requires p in c && p !in done
    ensures |MembersIn(c, id, done + {p})| == |MembersIn(c, id, done)| + (if c[p] == id then 1 else 0)
  {
    if c[p] == id {
      assert MembersIn(c, id, done + {p}) == MembersIn(c, id, done) + {p};
    } else {
      assert MembersIn(c, id, done + {p}) == MembersIn(c, id, done);
    }
  }

  /** A circuit not in the tally has met no box yet. */
  lemma AbsentHasNone(c: Circuits, done: set<Vector3>, sizes: seq<(nat, nat)>, id: nat)
    requires TallyOf(c, done, sizes) && IndexOf(sizes, id) == |sizes|
    ensures MembersIn(c, id, done) == {}
  {
  }

  /** Counting one more box keeps one entry per circuit, each holding the number of
      its boxes met. */
  lemma TallyStepCounts(c: Circuits, done: set<Vector3>, sizes: seq<(nat, nat)>, p: Vector3)
    requires TallyOf(c, done, sizes) && p in c && p !in done
    ensures var s' := NextTally(sizes, c[p]);
      && DistinctIds(s')
      && forall i :: 0 <= i < |s'| ==> s'[i].0 in Ids(c) && s'[i].1 == |MembersIn(c, s'[i].0, done + {p})|
  {
    var id := c[p];
    var r := IndexOf(sizes, id);
    var s' := NextTally(sizes, id);
    if r == |sizes| {
      AbsentHasNone(c, done, sizes, id);
    }
    forall i | 0 <= i < |s'|
      ensures s'[i].0 in Ids(c) && s'[i].1 == |MembersIn(c, s'[i].0, done + {p})|
    {
      MembersInStep(c, done, p, s'[i].0);
    }
  }

  /** Counting one more box keeps every box met findable. */
  lemma TallyStepFound(c: Circuits, done: set<Vector3>, sizes: seq<(nat, nat)>, p: Vector3)
    requires TallyOf(c, done, sizes) && p in c && p !in done
    ensures var s' := NextTally(sizes, c[p]);
      forall q :: q in done + {p} ==> IndexOf(s', c[q]) < |s'|
  {
    var id := c[p];
    var r := IndexOf(sizes, id);
    var s' := NextTally(sizes, id);
    forall q | q in done + {p}
      ensures IndexOf(s', c[q]) < |s'|
    {
      if q != p {
        var j := IndexOf(sizes, c[q]);
        assert s'[j].0 == c[q];
      }
      assert s'[if r == |sizes| then |sizes| else r].0 == id;
    }
  }

  /** Counting one more box adds one to the total. */
  lemma TallyStepSum(c: Circuits, done: set<Vector3>, sizes: seq<(nat, nat)>, p: Vector3)
    requires TallyOf(c, done, sizes) && p in c && p !in done
    ensures SumSizes(NextTally(sizes, c[p])) == |done + {p}|
  {
    var id := c[p];
    var r := IndexOf(sizes, id);
    var s' := NextTally(sizes, id);
    if r == |sizes| {
      assert s'[..|s'| - 1] == sizes;
    } else {
      SumSizesBump(sizes, r, id);
    }
  }

  /** Counting one more box keeps the tally. */
  lemma TallyStep(c: Circuits, done: set<Vector3>, sizes: seq<(nat, nat)>, p: Vector3)
    requires TallyOf(c, done, sizes) && p in c && p !in done
    ensures TallyOf(c, done + {p}, NextTally(sizes, c[p]))
  {
    TallyStepCounts(c, done, sizes, p);
    TallyStepFound(c, done, sizes, p);
    TallyStepSum(c, done, sizes, p);
  }

  /** The finished tally: one entry per circuit, each holding its size, the sizes
      adding up to the number of boxes. */
  ghost predicate Tallied(c: Circuits, sizes: seq<(nat, nat)>) {
    && DistinctIds(sizes)
    && (set i | 0 <= i < |sizes| :: sizes[i].0) == Ids(c)
    && (forall i :: 0 <= i < |sizes| ==> sizes[i].1 == Size(c, sizes[i].0))
    && SumSizes(sizes) == |c.Keys|
  }

  lemma TallyDone(c: Circuits, done: set<Vector3>, sizes: seq<(nat, nat)>)
    requires TallyOf(c, done, sizes) && done == c.Keys
    ensures Tallied(c, sizes)
  {
    forall v | v in Ids(c)
      ensures v in set i | 0 <= i < |sizes| :: sizes[i].0
    {
      var p :| p in c && c[p] == v;
      var i := IndexOf(sizes, v);
      assert sizes[i].0 == v;
    }
  }

  /** One iteration of the tally, for box p: find_if for its circuit, then one more
      for that entry or a new entry of 1. */
  method CountBox(c: Circuits, ghost done: set<Vector3>, sizes: seq<(nat, nat)>, p: Vector3) returns (s': seq<(nat, nat)>)
    requires TallyOf(c, done, sizes) && p in c && p !in done
    ensures s' == NextTally(sizes, c[p])
    ensures TallyOf(c, done + {p}, s')
  {
    TallyStep(c, done, sizes, p);
    var id := c[p];
    var r := IndexOf(sizes, id);
    if r == |sizes| {
      s' := sizes + [(id, 1)];
    } else {
      s' := sizes[r := (id, sizes[r].1 + 1)];
    }
  }

  /** The size-tally loop of solve, over the map's values. */
  method TallySizes(c: Circuits) returns (sizes: seq<(nat, nat)>)
    ensures Tallied(c, sizes)
  {
    sizes := [];
    var todo := c.Keys;
    ghost var done: set<Vector3> := {};
    while todo != {}
      invariant todo <= c.Keys && done == c.Keys - todo
      invariant TallyOf(c, done, sizes)
      decreases todo
    {
      var p :| p in todo;
      sizes := CountBox(c, done, sizes, p);
      todo, done := todo - {p}, done + {p};
    }
    TallyDone(c, done, sizes);
  }

  /** Circuits a, b and d are three largest, in that order. */
  ghost predicate IsTopThree(c: Circuits, a: nat, b: nat, d: nat) {
    && a in Ids(c) && b in Ids(c) && d in Ids(c)
    && a != b && a != d && b != d
    && Size(c, a) >= Size(c, b) >= Size(c, d)
    && forall id :: id in Ids(c) && id != a && id != b && id != d ==> Size(c, id) <= Size(c, d)
  }

  function Product3(a: nat, b: nat, d: nat): nat {
    a * b * d
  }

  /** v is the product of the sizes of three largest circuits. */
  ghost predicate LargestThree(c: Circuits, v: nat) {
    exists a, b, d :: IsTopThree(c, a, b, d) && v == Product3(Size(c, a), Size(c, b), Size(c, d))
  }

  function Descending(e: (nat, nat)): int {
    -(e.1 as int)
  }

  /** A tally holding an entry twice holds that entry's circuit twice. */
  lemma TwoCopies(s: seq<(nat, nat)>, i: nat, j: nat)
    requires i < j < |s| && s[i] == s[j]
    ensures multiset(s)[s[i]] >= 2
  {
    assert s == s[..j] + [s[j]] + s[j + 1..];
    assert s[i] in s[..j];
  }

  lemma {:induction false} DistinctOnce(s: seq<(nat, nat)>, e: (nat, nat))
    requires DistinctIds(s)
    ensures multiset(s)[e] <= 1
    decreases |s|
  {
    if s != [] {
      var n := |s| - 1;
      assert s == s[..n] + [s[n]];
      DistinctOnce(s[..n], e);
      if s[n] == e {
        assert e !in s[..n];
      }
    }
  }

  /** Reordering a tally keeps one entry per circuit. */
  lemma PermutationDistinct(a: seq<(nat, nat)>, b: seq<(nat, nat)>)
    requires DistinctIds(a) && multiset(a) == multiset(b)
    ensures DistinctIds(b)
  {
    forall i, j | 0 <= i < j < |b|
      ensures b[i].0 != b[j].0
    {
      if b[i].0 == b[j].0 {
        assert b[i] in multiset(a) && b[j] in multiset(a);
        var x :| 0 <= x < |a| && a[x] == b[i];
        var y :| 0 <= y < |a| && a[y] == b[j];
        assert x == y;
        TwoCopies(b, i, j);
        DistinctOnce(a, b[i]);
      }
    }
  }

  /** Distinct ids number as many as the entries. */
  lemma {:induction false} IdsCount(s: seq<(nat, nat)>)
    requires DistinctIds(s)
    ensures |set i | 0 <= i < |s| :: s[i].0| == |s|
    decreases |s|
  {
    if s != [] {
      var n := |s| - 1;
      IdsCount(s[..n]);
      var prev := set i | 0 <= i < n :: s[..n][i].0;
      assert (set i | 0 <= i < |s| :: s[i].0) == prev + {s[n].0};
      assert s[n].0 !in prev;
    }
  }

  /** The first three entries of the tally sorted by decreasing size name three
      largest circuits. */
  lemma TopOfSorted(c: Circuits, sizes: seq<(nat, nat)>, sorted: seq<(nat, nat)>)
    requires Tallied(c, sizes) && |sorted| >= 3
    requires SortedByKey(sorted, Descending) && multiset(sorted) == multiset(sizes)
    ensures IsTopThree(c, sorted[0].0, sorted[1].0, sorted[2].0)
    ensures LargestThree(c, Product3(sorted[0].1, sorted[1].1, sorted[2].1))
  {
    PermutationDistinct(sizes, sorted);
    forall t | 0 <= t < |sorted|
      ensures sorted[t].0 in Ids(c) && sorted[t].1 == Size(c, sorted[t].0)
    {
      assert sorted[t] in multiset(sizes);
      var m :| 0 <= m < |sizes| && sizes[m] == sorted[t];
    }
    forall id | id in Ids(c) && id != sorted[0].0 && id != sorted[1].0 && id != sorted[2].0
      ensures Size(c, id) <= Size(c, sorted[2].0)
    {
      var m :| 0 <= m < |sizes| && sizes[m].0 == id;
      assert sizes[m] in multiset(sorted);
      var t :| 0 <= t < |sorted| && sorted[t] == sizes[m];
      assert Descending(sorted[2]) <= Descending(sorted[t]);
    }
    assert Descending(sorted[0]) <= Descending(sorted[1]) <= Descending(sorted[2]);
    assert IsTopThree(c, sorted[0].0, sorted[1].0, sorted[2].0);
  }

  /** Entries and circuits number the same. */
  lemma TalliedCount(c: Circuits, sizes: seq<(nat, nat)>)
    requires Tallied(c, sizes)
    ensures |sizes| == |Ids(c)|
  {
    IdsCount(sizes);
  }

  /** The end of solve: sort the tally by decreasing size and multiply the first
      three sizes; fewer than three circuits fail the assert. */
  method LargestProduct(c: Circuits) returns (result: Checked<nat>)
    ensures result.Ok? <==> |Ids(c)| >= 3
    ensures result.Ok? ==> LargestThree(c, result.value)
  {
    var sizes := TallySizes(c);
    TalliedCount(c, sizes);
    var sorted := SortByKey(sizes, Descending);
    if |sorted| < 3 {
      return Abort;
    }
    TopOfSorted(c, sizes, sorted);
    return Ok(Product3(sorted[0].1, sorted[1].1, sorted[2].1));
  }

  /** The boxes, pairs and circuits solve reads and builds, 1000 connections made. */
  function SolvedCircuits(data: string): Checked<Circuits> {
    match PositionsFrom(data, 0)
    case Abort => Abort
    case Ok(positions) =>
      match SortedPairs(positions)
      case Abort => Abort
      case Ok(pairs) => CircuitsAfter(positions, pairs, 1000)
  }

  /** solve: the product of the sizes of the three largest circuits after 1000
      connections. */
  method Solve(data: string) returns (result: Checked<nat>)
    ensures SolvedCircuits(data).Abort? ==> result.Abort?
    ensures SolvedCircuits(data).Ok? ==> (result.Ok? <==> |Ids(SolvedCircuits(data).value)| >= 3)
    ensures result.Ok? ==> SolvedCircuits(data).Ok? && LargestThree(SolvedCircuits(data).value, result.value)
  {
    var positions := ParsePositions(data);
    if positions.Abort? {
      return Abort;
    }
    var pairs := CreateSortedPairs(positions.value);
    if pairs.Abort? {
      return Abort;
    }
    var circuits := CreateCircuits(positions.value, pairs.value, 1000);
    if circuits.Abort? {
      return Abort;
    }
    result := LargestProduct(circuits.value);
  }
}
