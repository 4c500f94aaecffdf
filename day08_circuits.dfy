/** Day 8: the junction boxes both parts read, the pairs they sort by distance and
    the circuits they merge (day08-part1 and day08-part2 define these identically). */
module Day08Circuits {
  import opened Utils
  import opened Sorting

  /** Vector3u64: a junction box position, each coordinate a uint64_t. */
  datatype Vector3 = Vector3(x: nat, y: nat, z: nat)

  predicate Bounded(v: Vector3) {
    v.x < U64 && v.y < U64 && v.z < U64
  }

  /** uint64_t subtraction: a - b modulo 2^64. */
  function WrapSub(a: nat, b: nat): (r: nat)
    ensures r < U64
  {
    (a - b) % U64
  }

  /** operator-: coordinate-wise, each coordinate wrapping. */
  function Minus(a: Vector3, b: Vector3): (d: Vector3)
    ensures Bounded(d)
  {
    Vector3(WrapSub(a.x, b.x), WrapSub(a.y, b.y), WrapSub(a.z, b.z))
  }

  /** distance_sqrd: the squares of the coordinates of other - a, summed, in uint64_t
      arithmetic. Every product and sum wraps, which leaves the same residue modulo
      2^64 as wrapping once at the end. */
  function DistanceSqrd(a: Vector3, other: Vector3): (r: nat)
    ensures r < U64
  {
    var d := Minus(other, a);
    Wrap64(Square(d.x) + Square(d.y) + Square(d.z))
  }

  /** v * v, zero only for v == 0. */
  function Square(v: int): (r: nat)
    ensures r == 0 <==> v == 0
  {
    if v == 0 then 0
    else
      MulAtLeast(Abs(v), Abs(v));
      Abs(v) * Abs(v)
  }

  /** The exact squared Euclidean distance, zero only from a box to itself. */
  function SquaredDistance(a: Vector3, b: Vector3): (r: nat)
    ensures r == 0 <==> a == b
  {
    Square(a.x - b.x) + Square(a.y - b.y) + Square(a.z - b.z)
  }

  lemma ModAddMultipleInt(x: int, k: int, m: int)
    requires m > 0
    ensures (x + m * k) % m == x % m
  {
    assert x == m * (x / m) + x % m;
    assert x + m * k == m * (x / m + k) + x % m;
    DivUnique(x + m * k, m, x / m + k, x % m);
  }

  /** A factor may be reduced modulo m before multiplying. */
  lemma MulModLeft(x: int, y: int, m: int)
    requires m > 0
    ensures (x * y) % m == ((x % m) * y) % m
  {
    var q, r := x / m, x % m;
    assert x == m * q + r;
    assert x * y == r * y + m * (q * y) by {
      Distribute(y, m * q, r);
    }
    ModAddMultipleInt(r * y, q * y, m);
  }

  /** Squaring commutes with reduction modulo m. */
  lemma SquareMod(v: int, m: int)
    requires m > 0
    ensures Square(v % m) % m == Square(v) % m
  {
    var r := v % m;
    assert Square(v) == v * v;
    assert Square(r) == r * r;
    MulModLeft(v, v, m);
    MulModLeft(v, r, m);
    assert r * v == v * r;
  }

  /** A sum of three terms modulo m depends only on the terms' residues. */
  lemma SumMod(a: int, b: int, c: int, m: int)
    requires m > 0
    ensures (a % m + b % m + c % m) % m == (a + b + c) % m
  {
    var residues, quotients := a % m + b % m + c % m, a / m + b / m + c / m;
    assert a == m * (a / m) + a % m && b == m * (b / m) + b % m && c == m * (c / m) + c % m;
    Distribute(m, a / m, b / m);
    Distribute(m, a / m + b / m, c / m);
    assert residues + m * quotients == a + b + c;
    ModAddMultipleInt(residues, quotients, m);
  }

  /** Sums of terms with equal residues have equal residues. */
  lemma SumOfResidues(s1: int, s2: int, s3: int, t1: int, t2: int, t3: int, m: int)
    requires m > 0 && s1 % m == t1 % m && s2 % m == t2 % m && s3 % m == t3 % m
    ensures (s1 + s2 + s3) % m == (t1 + t2 + t3) % m
  {
    SumMod(s1, s2, s3, m);
    SumMod(t1, t2, t3, m);
  }

  /** distance_sqrd is the exact squared distance reduced modulo 2^64: the wrapped
      subtraction changes no residue. */
  lemma DistanceIsSquaredDistance(a: Vector3, b: Vector3)
    ensures DistanceSqrd(a, b) == SquaredDistance(a, b) % U64
  {
    var d := Minus(b, a);
    SquareMod(b.x - a.x, U64);
    SquareMod(b.y - a.y, U64);
    SquareMod(b.z - a.z, U64);
    assert Square(b.x - a.x) == Square(a.x - b.x);
    assert Square(b.y - a.y) == Square(a.y - b.y);
    assert Square(b.z - a.z) == Square(a.z - b.z);
    SumOfResidues(Square(d.x), Square(d.y), Square(d.z), Square(a.x - b.x), Square(a.y - b.y), Square(a.z - b.z), U64);
  }

  /** distance_sqrd is symmetric and zero from a box to itself, although each
      coordinate difference wraps. */
  lemma DistanceSymmetric(a: Vector3, b: Vector3)
    ensures DistanceSqrd(a, b) == DistanceSqrd(b, a)
    ensures DistanceSqrd(a, a) == 0
  {
    DistanceIsSquaredDistance(a, b);
    DistanceIsSquaredDistance(b, a);
    assert SquaredDistance(a, b) == SquaredDistance(b, a);
  }

  /** operator<: lexicographic on (x, y, z). */
  predicate Less(a: Vector3, b: Vector3) {
    if a.x != b.x then a.x < b.x
    else if a.y != b.y then a.y < b.y
    else a.z < b.z
  }

  /** operator< is a strict total order. */
  lemma LessIsStrictOrder(a: Vector3, b: Vector3, c: Vector3)
    ensures !Less(a, a)
    ensures Less(a, b) ==> !Less(b, a)
    ensures Less(a, b) && Less(b, c) ==> Less(a, c)
    ensures a != b ==> Less(a, b) || Less(b, a)
  {
  }

  /** The positions parse_positions reads from pos on: "x,y,z" lines, each
      coordinate a uint64_t. A separator other than the expected one, the text's
      NUL included, fails an assert. */
  function PositionsFrom(data: string, pos: nat): (r: Checked<seq<Vector3>>)
    ensures r.Ok? ==> forall i :: 0 <= i < |r.value| ==> Bounded(r.value[i])
    decreases |data| - pos
  {
    if pos >= |data| then Ok([])
    else
      var ex := DigitRunEnd(data, pos);
      if At(data, ex) != ',' then Abort
      else
        var ey := DigitRunEnd(data, ex + 1);
        if At(data, ey) != ',' then Abort
        else
          var ez := DigitRunEnd(data, ey + 1);
          if At(data, ez) != '\n' then Abort
          else
            var v := Vector3(Wrap64(NumberAt(data, pos, ex)), Wrap64(NumberAt(data, ex + 1, ey)), Wrap64(NumberAt(data, ey + 1, ez)));
            PrependTo([v], PositionsFrom(data, ez + 1))
  }

  /** parse_positions: one "x,y,z" line per iteration. */
  method ParsePositions(data: string) returns (result: Checked<seq<Vector3>>)
    ensures result == PositionsFrom(data, 0)
  {
    var positions: seq<Vector3> := [];
    var pos := 0;
    PrependToNothing(PositionsFrom(data, 0));
    while pos < |data|
      invariant pos <= |data|
      invariant PositionsFrom(data, 0) == PrependTo(positions, PositionsFrom(data, pos))
      decreases |data| - pos
    {
      var x, ex := ParseUint64(data, pos);
      if At(data, ex) != ',' {
        assert PositionsFrom(data, pos) == Abort;
        return Abort;
      }
      var y, ey := ParseUint64(data, ex + 1);
      if At(data, ey) != ',' {
        assert PositionsFrom(data, pos) == Abort;
        return Abort;
      }
      var z, ez := ParseUint64(data, ey + 1);
      if At(data, ez) != '\n' {
        assert PositionsFrom(data, pos) == Abort;
        return Abort;
      }
      assert PositionsFrom(data, pos) == PrependTo([Vector3(x, y, z)], PositionsFrom(data, ez + 1));
      PrependToTwice(positions, [Vector3(x, y, z)], PositionsFrom(data, ez + 1));
      positions := positions + [Vector3(x, y, z)];
      pos := ez + 1;
    }
    assert positions + [] == positions;
    return Ok(positions);
  }

  /** JunctionPair: two boxes and the squared distance between them. */
  datatype JunctionPair = JunctionPair(first: Vector3, second: Vector3, distanceSqrd: nat)

  /** The pair create_sorted_pairs records for boxes a and b: ends swapped when the
      second is before the first. */
  function MakePair(a: Vector3, b: Vector3): JunctionPair {
    var pair := JunctionPair(a, b, DistanceSqrd(a, b));
    if Less(pair.second, pair.first) then JunctionPair(b, a, pair.distanceSqrd) else pair
  }

  /** A recorded pair holds the two boxes, first not after second, and the distance
      between its own ends. */
  lemma MakePairIs(a: Vector3, b: Vector3)
    ensures var p := MakePair(a, b);
      && ((p.first == a && p.second == b) || (p.first == b && p.second == a))
      && !Less(p.second, p.first)
      && p.distanceSqrd == DistanceSqrd(p.first, p.second)
  {
    DistanceSymmetric(a, b);
    LessIsStrictOrder(a, b, a);
  }

  /** The pairs of box i with boxes i+1 .. hi-1, in the order the inner loop makes them. */
  function RowPairs(positions: seq<Vector3>, i: nat, hi: nat): (r: seq<JunctionPair>)
    requires i < hi <= |positions|
    ensures |r| == hi - i - 1
    decreases hi
  {
    if hi == i + 1 then []
    else RowPairs(positions, i, hi - 1) + [MakePair(positions[i], positions[hi - 1])]
  }

  /** The pairs the nested loops make for the first n values of i. */
  function AllPairs(positions: seq<Vector3>, n: nat): (r: seq<JunctionPair>)
    requires n <= |positions|
  {
    if n == 0 then [] else AllPairs(positions, n - 1) + RowPairs(positions, n - 1, |positions|)
  }

  /** The number of pairs in the first n rows of m boxes: row i holds m - i - 1. */
  function RowsCount(m: nat, n: nat): int {
    if n == 0 then 0 else RowsCount(m, n - 1) + (m - n)
  }

  lemma {:induction false} AllPairsCount(positions: seq<Vector3>, n: nat)
    requires n <= |positions|
    ensures |AllPairs(positions, n)| == RowsCount(|positions|, n)
  {
    if n > 0 {
      AllPairsCount(positions, n - 1);
    }
  }

  /** The first n rows of m boxes hold n(2m - n - 1)/2 pairs. */
  lemma {:induction false} RowsCountIs(m: nat, n: nat)
    ensures 2 * RowsCount(m, n) == n * (2 * m - n - 1)
  {
    if n > 0 {
      RowsCountIs(m, n - 1);
      assert (n - 1) * (2 * m - n) == n * (2 * m - n) - (2 * m - n);
      assert n * (2 * m - n) - n == n * (2 * m - n - 1);
    }
  }

  /** Element k of row i pairs box i with box i + 1 + k. */
  lemma {:induction false} RowPairsAt(positions: seq<Vector3>, i: nat, hi: nat, k: nat)
    requires i < hi <= |positions| && k < hi - i - 1
    ensures RowPairs(positions, i, hi)[k] == MakePair(positions[i], positions[i + 1 + k])
    decreases hi
  {
    if k < hi - i - 2 {
      RowPairsAt(positions, i, hi - 1, k);
    }
  }

  /** Every pair of boxes at indices i < j, i in the first n rows, is made. */
  lemma {:induction false} AllPairsHas(positions: seq<Vector3>, n: nat, i: nat, j: nat)
    requires i < n <= |positions| && i < j < |positions|
    ensures MakePair(positions[i], positions[j]) in AllPairs(positions, n)
  {
    if i < n - 1 {
      AllPairsHas(positions, n - 1, i, j);
    } else {
      RowPairsAt(positions, i, |positions|, j - i - 1);
      assert MakePair(positions[i], positions[j]) in RowPairs(positions, i, |positions|);
    }
  }

  /** Every pair made is the pair of the boxes at some indices i < j. */
  lemma {:induction false} AllPairsIndices(positions: seq<Vector3>, n: nat, k: nat) returns (i: nat, j: nat)
    requires n <= |positions| && k < |AllPairs(positions, n)|
    ensures i < n && i < j < |positions| && AllPairs(positions, n)[k] == MakePair(positions[i], positions[j])
  {
    var prev := AllPairs(positions, n - 1);
    if k < |prev| {
      i, j := AllPairsIndices(positions, n - 1, k);
    } else {
      i, j := n - 1, n + (k - |prev|);
      RowPairsAt(positions, n - 1, |positions|, k - |prev|);
    }
  }

  /** No box appears twice. */
  predicate Distinct(positions: seq<Vector3>) {
    forall i, j :: 0 <= i < j < |positions| ==> positions[i] != positions[j]
  }

  function DistanceOf(p: JunctionPair): int {
    p.distanceSqrd
  }

  /** create_sorted_pairs: every pair of boxes, sorted by distance; a box that
      appears twice fails the assert. */
  function SortedPairs(positions: seq<Vector3>): Checked<seq<JunctionPair>> {
    if Distinct(positions) then Ok(SortByKey(AllPairs(positions, |positions|), DistanceOf)) else Abort
  }

  /** What create_sorted_pairs promises: n(n-1)/2 pairs of distinct boxes, each with
      first not after second, sorted non-decreasing by distance, holding each pair of
      boxes once. */
  lemma SortedPairsProperties(positions: seq<Vector3>)
    ensures SortedPairs(positions).Ok? <==> Distinct(positions)
    ensures SortedPairs(positions).Ok? ==>
      var pairs := SortedPairs(positions).value;
      && 2 * |pairs| == |positions| * (|positions| - 1)
      && SortedByKey(pairs, DistanceOf)
      && (forall k :: 0 <= k < |pairs| ==> !Less(pairs[k].second, pairs[k].first) && pairs[k].first != pairs[k].second)
      && (forall i, j :: 0 <= i < j < |positions| ==> MakePair(positions[i], positions[j]) in pairs)
  {
    if Distinct(positions) {
      var all := AllPairs(positions, |positions|);
      var pairs := SortByKey(all, DistanceOf);
      AllPairsCount(positions, |positions|);
      RowsCountIs(|positions|, |positions|);
      assert multiset(pairs) == multiset(all);
      forall k | 0 <= k < |pairs|
        ensures !Less(pairs[k].second, pairs[k].first) && pairs[k].first != pairs[k].second
      {
        assert pairs[k] in multiset(all);
        var m :| 0 <= m < |all| && all[m] == pairs[k];
        var i, j := AllPairsIndices(positions, |positions|, m);
        MakePairIs(positions[i], positions[j]);
      }
      forall i, j | 0 <= i < j < |positions|
        ensures MakePair(positions[i], positions[j]) in pairs
      {
        AllPairsHas(positions, |positions|, i, j);
        assert MakePair(positions[i], positions[j]) in multiset(all);
      }
    }
  }

  /** The inner loop of create_sorted_pairs for box i: its pairs with every later
      box, failing the assert at a later copy of the same box. */
  method PairRow(positions: seq<Vector3>, i: nat) returns (result: Checked<seq<JunctionPair>>)
    requires i < |positions|
    ensures result.Ok? <==> forall b :: i < b < |positions| ==> positions[i] != positions[b]
    ensures result.Ok? ==> result.value == RowPairs(positions, i, |positions|)
  {
    var row: seq<JunctionPair> := [];
    for j := i + 1 to |positions|
      invariant row == RowPairs(positions, i, j)
      invariant forall b :: i < b < j ==> positions[i] != positions[b]
    {
      var first, second := positions[i], positions[j];
      if first == second {
        return Abort;
      }
      var pair := JunctionPair(first, second, DistanceSqrd(first, second));
      if Less(pair.second, pair.first) {
        pair := JunctionPair(pair.second, pair.first, pair.distanceSqrd);
      }
      assert pair == MakePair(first, second);
      row := row + [pair];
    }
    return Ok(row);
  }

  /** create_sorted_pairs: the rows for every i, then the sort. */
  method CreateSortedPairs(positions: seq<Vector3>) returns (result: Checked<seq<JunctionPair>>)
    ensures result == SortedPairs(positions)
  {
    var pairs: seq<JunctionPair> := [];
    for i := 0 to |positions|
      invariant pairs == AllPairs(positions, i)
      invariant forall a, b :: 0 <= a < i && a < b < |positions| ==> positions[a] != positions[b]
    {
      var row := PairRow(positions, i);
      if row.Abort? {
        return Abort;
      }
      pairs := pairs + row.value;
    }
    return Ok(SortByKey(pairs, DistanceOf));
  }

  /** The circuits map: each box's circuit id. */
  type Circuits = map<Vector3, nat>

  /** The first loop of create_circuits: box k gets id k (a box listed twice keeps
      its later index). */
  function InitialCircuits(positions: seq<Vector3>): Circuits {
    if positions == [] then map[]
    else
      var n := |positions| - 1;
      InitialCircuits(positions[..n])[positions[n] := n]
  }

  /** Initially every box has an id, every id is below the number of boxes, and with no
      box listed twice box k has id k. */
  lemma InitialCircuitsIs(positions: seq<Vector3>)
    ensures InitialCircuits(positions).Keys == set k | 0 <= k < |positions| :: positions[k]
    ensures IdsBelow(InitialCircuits(positions), |positions|)
    ensures Distinct(positions) ==> forall k :: 0 <= k < |positions| ==> InitialCircuits(positions)[positions[k]] == k
  {
    InitialKeys(positions);
    InitialIdsBelow(positions);
    if Distinct(positions) {
      InitialIdsAreIndices(positions);
    }
  }

  /** The boxes with an initial id are the boxes listed. */
  lemma {:induction false} InitialKeys(positions: seq<Vector3>)
    ensures InitialCircuits(positions).Keys == set k | 0 <= k < |positions| :: positions[k]
  {
    if positions != [] {
      var n := |positions| - 1;
      var prefix := positions[..n];
      InitialKeys(prefix);
      var c := InitialCircuits(positions);
      assert c.Keys == (set k | 0 <= k < n :: prefix[k]) + {positions[n]};
      forall p | p in c.Keys
        ensures p in set k | 0 <= k < |positions| :: positions[k]
      {
        if p != positions[n] {
          var k :| 0 <= k < n && prefix[k] == p;
          assert positions[k] == p;
        }
      }
      forall k | 0 <= k < |positions|
        ensures positions[k] in c.Keys
      {
        if k < n {
          assert prefix[k] == positions[k];
        }
      }
    }
  }

  /** Every initial id is below the number of boxes. */
  lemma {:induction false} InitialIdsBelow(positions: seq<Vector3>)
    ensures IdsBelow(InitialCircuits(positions), |positions|)
  {
    if positions != [] {
      InitialIdsBelow(positions[..|positions| - 1]);
    }
  }

  /** With no box listed twice, box k has id k. */
  lemma {:induction false} InitialIdsAreIndices(positions: seq<Vector3>)
    requires Distinct(positions)
    ensures forall k :: 0 <= k < |positions| ==>
      positions[k] in InitialCircuits(positions) && InitialCircuits(positions)[positions[k]] == k
  {
    if positions != [] {
      var n := |positions| - 1;
      var prefix := positions[..n];
      assert Distinct(prefix);
      InitialIdsAreIndices(prefix);
      var c := InitialCircuits(positions);
      forall k | 0 <= k < |positions|
        ensures positions[k] in c && c[positions[k]] == k
      {
        if k < n {
          assert prefix[k] == positions[k] != positions[n];
        }
      }
    }
  }

  /** Two boxes are in one circuit. */
  predicate Same(c: Circuits, a: Vector3, b: Vector3)
    requires a in c && b in c
  {
    c[a] == c[b]
  }

  /** Every id in the map is below count, so count is a fresh id. */
  ghost predicate IdsBelow(c: Circuits, count: nat) {
    forall p :: p in c ==> c[p] < count
  }

  /** Initially every box has an id of its own. */
  lemma InitialIdsDistinct(positions: seq<Vector3>, a: Vector3, b: Vector3)
    requires Distinct(positions)
    requires a in InitialCircuits(positions) && b in InitialCircuits(positions)
    ensures Same(InitialCircuits(positions), a, b) <==> a == b
  {
    var c := InitialCircuits(positions);
    InitialCircuitsIs(positions);
    var i :| 0 <= i < |positions| && positions[i] == a;
    var j :| 0 <= j < |positions| && positions[j] == b;
    assert c[a] == i && c[b] == j;
  }

  /** The first loop of create_circuits, the ids running from 0. */
  method InitCircuits(positions: seq<Vector3>) returns (circuits: Circuits, count: nat)
    ensures circuits == InitialCircuits(positions)
    ensures count == |positions| && IdsBelow(circuits, count)
  {
    circuits, count := map[], 0;
    for i := 0 to |positions|
      invariant circuits == InitialCircuits(positions[..i]) && count == i
    {
      assert positions[..i + 1][..i] == positions[..i];
      circuits := circuits[positions[i] := count];
      count := count + 1;
    }
    assert positions[..|positions|] == positions;
    InitialCircuitsIs(positions);
  }

  /** The relabelling: every box whose id is a or b gets newId. */
  function Merge(c: Circuits, a: nat, b: nat, newId: nat): Circuits {
    map p | p in c :: if c[p] == a || c[p] == b then newId else c[p]
  }

  /** After merging the circuits of boxes p and q under a fresh id, two boxes share a
      circuit exactly when they did before or each was in one of the two merged
      circuits; p and q now share the fresh id, and every box outside the two keeps
      its id. */
  lemma MergeJoins(c: Circuits, count: nat, p: Vector3, q: Vector3)
    requires p in c && q in c && IdsBelow(c, count)
    ensures var c' := Merge(c, c[p], c[q], count);
      && c'.Keys == c.Keys
      && c'[p] == count && c'[q] == count
      && IdsBelow(c', count + 1)
      && (forall r :: r in c && !Same(c, r, p) && !Same(c, r, q) ==> c'[r] == c[r])
      && (forall r, s :: r in c && s in c ==> (Same(c', r, s) <==> Same(c, r, s) || ((Same(c, r, p) || Same(c, r, q)) && (Same(c, s, p) || Same(c, s, q)))))
  {
  }

  /** The set of circuit ids in use. */
  function Ids(c: Circuits): set<nat> {
    c.Values
  }

  /** Merging two different circuits under a fresh id removes exactly one id. */
  lemma MergeCount(c: Circuits, count: nat, p: Vector3, q: Vector3)
    requires p in c && q in c && IdsBelow(c, count) && c[p] != c[q]
    ensures |Ids(Merge(c, c[p], c[q], count))| == |Ids(c)| - 1
  {
    var a, b := c[p], c[q];
    var c' := Merge(c, a, b, count);
    var rest := Ids(c) - {a, b};
    assert a in Ids(c) && b in Ids(c);
    assert Ids(c) == rest + {a, b};
    assert count !in Ids(c);
    forall v | v in Ids(c')
      ensures v in rest + {count}
    {
      var r :| r in c' && c'[r] == v;
    }
    forall v | v in rest + {count}
      ensures v in Ids(c')
    {
      if v == count {
        assert c'[p] == v;
      } else {
        var r :| r in c && c[r] == v;
        assert c'[r] == v;
      }
    }
    assert Ids(c') == rest + {count};
  }

  /** The relabelling loop over the map's values. */
  method Relabel(c: Circuits, a: nat, b: nat, newId: nat) returns (c': Circuits)
    ensures c' == Merge(c, a, b, newId)
  {
    c' := c;
    var todo := c.Keys;
    while todo != {}
      invariant todo <= c.Keys && c'.Keys == c.Keys
      invariant forall p :: p in todo ==> c'[p] == c[p]
      invariant forall p :: p in c && p !in todo ==> c'[p] == Merge(c, a, b, newId)[p]
      decreases todo
    {
      var p :| p in todo;
      if c'[p] == a || c'[p] == b {
        c' := c'[p := newId];
      }
      todo := todo - {p};
    }
  }

  /** One iteration of the connection loop on pair pr, with count the next fresh id:
      an end that is not a box fails the assert; ends already in one circuit change
      nothing; otherwise their circuits merge under the fresh id. */
  function Connect(c: Circuits, count: nat, pr: JunctionPair): (r: Checked<(Circuits, nat)>)
    ensures r.Ok? <==> pr.first in c && pr.second in c
    ensures r.Ok? ==> r.value.0.Keys == c.Keys && Same(r.value.0, pr.first, pr.second)
  {
    if pr.first !in c || pr.second !in c then Abort
    else if c[pr.first] == c[pr.second] then Ok((c, count))
    else Ok((Merge(c, c[pr.first], c[pr.second], count), count + 1))
  }

  /** The state after the connection loop has taken the given pairs in order. */
  function ConnectAll(c: Circuits, count: nat, pairs: seq<JunctionPair>): Checked<(Circuits, nat)>
    decreases |pairs|
  {
    if pairs == [] then Ok((c, count))
    else
      match ConnectAll(c, count, pairs[..|pairs| - 1])
      case Abort => Abort
      case Ok((c', count')) => Connect(c', count', pairs[|pairs| - 1])
  }

  /** One more pair. */
  lemma ConnectAllStep(c: Circuits, count: nat, pairs: seq<JunctionPair>, k: nat)
    requires k < |pairs|
    ensures ConnectAll(c, count, pairs[..k + 1])
      == match ConnectAll(c, count, pairs[..k])
         case Abort => Abort
         case Ok((c', count')) => Connect(c', count', pairs[k])
  {
    assert pairs[..k + 1][..k] == pairs[..k];
  }

  /** Once the loop has failed an assert, taking more pairs changes nothing. */
  lemma {:induction false} ConnectAllAbortStays(c: Circuits, count: nat, pairs: seq<JunctionPair>, k: nat, t: nat)
    requires k <= t <= |pairs| && ConnectAll(c, count, pairs[..k]).Abort?
    ensures ConnectAll(c, count, pairs[..t]).Abort?
    decreases t
  {
    if t > k {
      ConnectAllAbortStays(c, count, pairs, k, t - 1);
      ConnectAllAbortNext(c, count, pairs, t - 1);
    }
  }

  /** A failed loop stays failed with one more pair. */
  lemma ConnectAllAbortNext(c: Circuits, count: nat, pairs: seq<JunctionPair>, k: nat)
    requires k < |pairs| && ConnectAll(c, count, pairs[..k]).Abort?
    ensures ConnectAll(c, count, pairs[..k + 1]).Abort?
  {
    assert pairs[..k + 1][..k] == pairs[..k];
  }

  /** One iteration of the connection loop: the lookups, then the relabelling under
      the next fresh id when the ids differ. */
  method ConnectPair(circuits: Circuits, count: nat, pr: JunctionPair) returns (result: Checked<(Circuits, nat)>)
    ensures result == Connect(circuits, count, pr)
  {
    if pr.first !in circuits || pr.second !in circuits {
      return Abort;
    }
    var firstId, secondId := circuits[pr.first], circuits[pr.second];
    if firstId == secondId {
      return Ok((circuits, count));
    }
    var merged := Relabel(circuits, firstId, secondId, count);
    return Ok((merged, count + 1));
  }

  /** The merge step: an Ok step keeps the fresh-id bound and uses a fresh id
      exactly when it removes one. */
  lemma ConnectKeeps(c: Circuits, count: nat, pr: JunctionPair)
    requires IdsBelow(c, count)
    ensures Connect(c, count, pr).Ok? ==>
      var (c', count') := Connect(c, count, pr).value;
      && IdsBelow(c', count')
      && |Ids(c')| + count' == |Ids(c)| + count
  {
    if pr.first in c && pr.second in c && c[pr.first] != c[pr.second] {
      MergeJoins(c, count, pr.first, pr.second);
      MergeCount(c, count, pr.first, pr.second);
    }
  }

  /** A step never separates boxes already in one circuit. */
  lemma ConnectKeepsSame(c: Circuits, count: nat, pr: JunctionPair, r: Vector3, s: Vector3)
    requires r in c && s in c && Same(c, r, s)
    ensures Connect(c, count, pr).Ok? ==> Same(Connect(c, count, pr).value.0, r, s)
  {
  }

  /** Over many pairs: the boxes stay, every id in use stays below the next fresh id,
      and each merge removes exactly one id while using one fresh id. */
  lemma {:induction false} ConnectAllKeeps(c: Circuits, count: nat, pairs: seq<JunctionPair>)
    requires IdsBelow(c, count)
    ensures ConnectAll(c, count, pairs).Ok? ==>
      var (c', count') := ConnectAll(c, count, pairs).value;
      && c'.Keys == c.Keys
      && IdsBelow(c', count')
      && |Ids(c')| + count' == |Ids(c)| + count
    decreases |pairs|
  {
    if pairs != [] && ConnectAll(c, count, pairs).Ok? {
      var n := |pairs| - 1;
      ConnectAllKeeps(c, count, pairs[..n]);
      var (c1, count1) := ConnectAll(c, count, pairs[..n]).value;
      ConnectKeeps(c1, count1, pairs[n]);
    }
  }

  /** Over many pairs, the ends of every pair taken end in one circuit. */
  lemma {:induction false} ConnectAllJoins(c: Circuits, count: nat, pairs: seq<JunctionPair>)
    requires IdsBelow(c, count)
    ensures ConnectAll(c, count, pairs).Ok? ==>
      var c' := ConnectAll(c, count, pairs).value.0;
      forall k :: 0 <= k < |pairs| ==> pairs[k].first in c' && pairs[k].second in c' && Same(c', pairs[k].first, pairs[k].second)
    decreases |pairs|
  {
    if pairs != [] && ConnectAll(c, count, pairs).Ok? {
      var n := |pairs| - 1;
      ConnectAllJoins(c, count, pairs[..n]);
      ConnectAllKeeps(c, count, pairs[..n]);
      var r1 := ConnectAll(c, count, pairs[..n]);
      var c1 := r1.value.0;
      var step := Connect(c1, r1.value.1, pairs[n]);
      assert ConnectAll(c, count, pairs) == step;
      var c' := step.value.0;
      forall k | 0 <= k < |pairs|
        ensures pairs[k].first in c' && pairs[k].second in c' && Same(c', pairs[k].first, pairs[k].second)
      {
        if k < n {
          assert pairs[..n][k] == pairs[k];
          assert pairs[k].first in c1 && pairs[k].second in c1 && Same(c1, pairs[k].first, pairs[k].second);
          ConnectKeepsSame(c1, r1.value.1, pairs[n], pairs[k].first, pairs[k].second);
        }
      }
    }
  }
}
