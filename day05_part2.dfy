/** Day 5, part 2: how many distinct IDs the fresh ranges hold together, counted by a
    sweep over the ranges' ends in sorted order. */
module Day05Part2 {
  import opened Utils
  import opened Sorting
  import opened Day05Ranges

  datatype PointType = Start | End

  /** RangePoint: a range's start or end value, tagged with which of the two it is. */
  datatype RangePoint = RangePoint(kind: PointType, value: nat)

  /** RangePoint::operator< */
  predicate Less(a: RangePoint, b: RangePoint) {
    if a.value != b.value then a.value < b.value
    else a.kind == Start && b.kind == End
  }

  /** Where a point sits on a line that puts the start at value v on 2v and the end
      at v on 2v + 1. */
  function Key(q: RangePoint): int {
    2 * q.value + (if q.kind == Start then 0 else 1)
  }

  /** operator< compares keys, and points with equal keys are equal. */
  lemma LessIsKeyOrder(a: RangePoint, b: RangePoint)
    ensures Less(a, b) <==> Key(a) < Key(b)
    ensures Key(a) == Key(b) <==> a == b
  {
  }

  /** operator< is a strict weak order whose incomparable points are equal points. */
  lemma LessIsStrictWeakOrder(a: RangePoint, b: RangePoint, c: RangePoint)
    ensures !Less(a, a)
    ensures Less(a, b) && Less(b, c) ==> Less(a, c)
    ensures !Less(a, b) && !Less(b, a) ==> a == b
  {
    LessIsKeyOrder(a, b);
    LessIsKeyOrder(b, c);
    LessIsKeyOrder(a, c);
  }

  /** Ordered by key is ordered by operator<: no point is less than one before it. */
  lemma SortedByLess(p: seq<RangePoint>)
    ensures SortedByKey(p, Key) <==> forall i, j :: 0 <= i < j < |p| ==> !Less(p[j], p[i])
  {
    forall i, j | 0 <= i < j < |p|
      ensures Less(p[j], p[i]) <==> Key(p[j]) < Key(p[i])
    {
      LessIsKeyOrder(p[j], p[i]);
    }
  }

  /** The points solve collects: a start and an end for each range, in range order. */
  function PointsOf(ranges: seq<InclusiveRange>): (points: seq<RangePoint>)
    ensures |points| == 2 * |ranges|
  {
    if ranges == [] then []
    else
      var last := ranges[|ranges| - 1];
      PointsOf(ranges[..|ranges| - 1]) + [RangePoint(Start, last.start), RangePoint(End, last.end)]
  }

  /** Range k gives the points at 2k and 2k + 1: its start, then its end. */
  lemma {:induction false} PointsOfLayout(ranges: seq<InclusiveRange>)
    ensures forall k :: 0 <= k < |ranges| ==>
      PointsOf(ranges)[2 * k] == RangePoint(Start, ranges[k].start) && PointsOf(ranges)[2 * k + 1] == RangePoint(End, ranges[k].end)
    decreases |ranges|
  {
    if ranges != [] {
      var init := ranges[..|ranges| - 1];
      PointsOfLayout(init);
      forall k | 0 <= k < |init|
        ensures PointsOf(ranges)[2 * k] == RangePoint(Start, ranges[k].start)
        ensures PointsOf(ranges)[2 * k + 1] == RangePoint(End, ranges[k].end)
      {
        assert init[k] == ranges[k];
      }
    }
  }

  /** The loop of solve that fills points: one start and one end per range. */
  method CollectPoints(ranges: seq<InclusiveRange>) returns (points: seq<RangePoint>)
    ensures points == PointsOf(ranges)
  {
    points := [];
    for k := 0 to |ranges|
      invariant points == PointsOf(ranges[..k])
    {
      assert ranges[..k + 1][..k] == ranges[..k];
      points := points + [RangePoint(Start, ranges[k].start), RangePoint(End, ranges[k].end)];
    }
    assert ranges[..|ranges|] == ranges;
  }

  /** One pass of solve's sweep loop at point i, from the count and balance reached
      before it: a balance of zero at a value not seen before adds one for that value;
      a start opens a range and an end closes one, and closing more ranges than are
      open fails the assertion; while ranges stay open after a point that is not the
      last, the count takes in the values up to the next point. */
  function SweepStep(p: seq<RangePoint>, i: nat, count: nat, balance: int): Checked<(nat, int)>
    requires i < |p| && SortedByKey(p, Key)
  {
    var counted := if balance == 0 && (i == 0 || p[i - 1].value != p[i].value) then count + 1 else count;
    var balance' := if p[i].kind == Start then balance + 1 else balance - 1;
    if p[i].kind == End && balance' < 0 then Abort
    else if (p[i].kind == End && balance' <= 0) || i >= |p| - 1 then Ok((counted, balance'))
    else Ok((counted + (p[i + 1].value - p[i].value), balance'))
  }

  /** The sweep from point i on: the count once every point is passed, or Abort. */
  function SweepFrom(p: seq<RangePoint>, i: nat, count: nat, balance: int): Checked<nat>
    requires i <= |p| && SortedByKey(p, Key)
    decreases |p| - i
  {
    if i == |p| then Ok(count)
    else
      match SweepStep(p, i, count, balance)
      case Abort => Abort
      case Ok((count', balance')) => SweepFrom(p, i + 1, count', balance')
  }

  /** The loop of solve over the sorted points. */
  method Sweep(points: seq<RangePoint>) returns (result: Checked<nat>)
    requires SortedByKey(points, Key)
    ensures result == SweepFrom(points, 0, 0, 0)
  {
    var count: nat := 0;
    var balance: int := 0;
    for i := 0 to |points|
      invariant SweepFrom(points, i, count, balance) == SweepFrom(points, 0, 0, 0)
    {
      ghost var step := SweepStep(points, i, count, balance);
      assert SweepFrom(points, i, count, balance) == if step.Abort? then Abort else SweepFrom(points, i + 1, step.value.0, step.value.1);
      if balance == 0 && (i == 0 || points[i - 1].value != points[i].value) {
        count := count + 1;
      }
      var point := points[i];
      if point.kind == Start {
        balance := balance + 1;
      } else {
        balance := balance - 1;
        if balance < 0 {
          return Abort;
        }
        if balance <= 0 {
          continue;
        }
      }
      if i >= |points| - 1 {
        continue;
      }
      var next := points[i + 1];
      count := count + (next.value - point.value);
    }
    return Ok(count);
  }

  /** solve: parse the ranges, collect their points, sort them and sweep. For ranges
      whose starts do not exceed their ends, the answer is the number of IDs they hold
      together. */
  method Solve(data: string) returns (result: Checked<nat>)
    ensures result == match RangesFrom(data, 0)
      case Abort => Abort
      case Ok((ranges, _)) => SweepFrom(SortByKey(PointsOf(ranges), Key), 0, 0, 0)
    ensures RangesFrom(data, 0).Ok? && WellFormed(RangesFrom(data, 0).value.0) ==>
      result == Ok(|Union(RangesFrom(data, 0).value.0)|)
  {
    var parsed := ParseRanges(data, 0);
    if parsed.Abort? {
      return Abort;
    }
    var points := CollectPoints(parsed.value.0);
    var sorted := SortByKey(points, Key);
    result := Sweep(sorted);
    if WellFormed(parsed.value.0) {
      SweepCountsUnion(parsed.value.0, sorted);
    }
  }

  // The union the sweep counts.

  /** Every range has its start no later than its end. */
  predicate WellFormed(ranges: seq<InclusiveRange>) {
    forall k :: 0 <= k < |ranges| ==> ranges[k].start <= ranges[k].end
  }

  function MaxEnd(ranges: seq<InclusiveRange>): nat {
    if ranges == [] then 0
    else
      var m := MaxEnd(ranges[..|ranges| - 1]);
      if ranges[|ranges| - 1].end > m then ranges[|ranges| - 1].end else m
  }

  /** The IDs some range holds. */
  ghost function Union(ranges: seq<InclusiveRange>): set<nat> {
    set y: nat | y <= MaxEnd(ranges) && Covers(ranges, y)
  }

  lemma CoversLast(ranges: seq<InclusiveRange>, x: int)
    requires ranges != []
    ensures Covers(ranges, x) <==>
      Covers(ranges[..|ranges| - 1], x) || ranges[|ranges| - 1].start <= x <= ranges[|ranges| - 1].end
  {
    var init := ranges[..|ranges| - 1];
    if Covers(init, x) {
      var k :| 0 <= k < |init| && init[k].start <= x <= init[k].end;
      assert ranges[k] == init[k];
    }
    if Covers(ranges, x) && !(ranges[|ranges| - 1].start <= x <= ranges[|ranges| - 1].end) {
      var k :| 0 <= k < |ranges| && ranges[k].start <= x <= ranges[k].end;
      assert init[k] == ranges[k];
    }
  }

  lemma {:induction false} CoveredBelowMaxEnd(ranges: seq<InclusiveRange>, y: int)
    requires Covers(ranges, y)
    ensures y <= MaxEnd(ranges)
    decreases |ranges|
  {
    CoversLast(ranges, y);
    if Covers(ranges[..|ranges| - 1], y) {
      CoveredBelowMaxEnd(ranges[..|ranges| - 1], y);
    }
  }

  /** Union holds exactly the IDs some range holds. */
  lemma UnionIsCovered(ranges: seq<InclusiveRange>, y: nat)
    ensures y in Union(ranges) <==> Covers(ranges, y)
  {
    if Covers(ranges, y) {
      CoveredBelowMaxEnd(ranges, y);
    }
  }

  /** How many of the IDs below x some range holds. */
  ghost function CoveredBelow(ranges: seq<InclusiveRange>, x: nat): nat {
    if x == 0 then 0 else CoveredBelow(ranges, x - 1) + (if Covers(ranges, x - 1) then 1 else 0)
  }

  /** The IDs below x that some range holds. */
  ghost function CoveredSet(ranges: seq<InclusiveRange>, x: nat): set<nat> {
    set y: nat | y < x && Covers(ranges, y)
  }

  lemma {:induction false} CoveredBelowIsSize(ranges: seq<InclusiveRange>, x: nat)
    ensures CoveredBelow(ranges, x) == |CoveredSet(ranges, x)|
    decreases x
  {
    if x > 0 {
      CoveredBelowIsSize(ranges, x - 1);
      var before, after := CoveredSet(ranges, x - 1), CoveredSet(ranges, x);
      if Covers(ranges, x - 1) {
        assert x - 1 !in before;
        assert after == before + {x - 1};
        assert |after| == |before| + 1;
      } else {
        assert after == before;
      }
    }
  }

  lemma {:induction false} UncoveredGap(ranges: seq<InclusiveRange>, lo: nat, hi: nat)
    requires lo <= hi
    requires forall y: nat :: lo <= y < hi ==> !Covers(ranges, y)
    ensures CoveredBelow(ranges, hi) == CoveredBelow(ranges, lo)
    decreases hi
  {
    if hi > lo {
      UncoveredGap(ranges, lo, hi - 1);
    }
  }

  lemma {:induction false} CoveredGap(ranges: seq<InclusiveRange>, lo: nat, hi: nat)
    requires lo <= hi
    requires forall y: nat :: lo <= y < hi ==> Covers(ranges, y)
    ensures CoveredBelow(ranges, hi) == CoveredBelow(ranges, lo) + (hi - lo)
    decreases hi
  {
    if hi > lo {
      CoveredGap(ranges, lo, hi - 1);
    }
  }

  // Counting points and open ranges.

  predicate IsStart(q: RangePoint) {
    q.kind == Start
  }

  predicate IsEnd(q: RangePoint) {
    q.kind == End
  }

  /** Starts less ends: the number of ranges a prefix of the sorted points leaves open. */
  function Balance(q: seq<RangePoint>): int {
    CountIf(q, IsStart) - CountIf(q, IsEnd)
  }

  function StartBelow(k: int): RangePoint -> bool {
    (q: RangePoint) => q.kind == Start && Key(q) < k
  }

  function EndBelow(k: int): RangePoint -> bool {
    (q: RangePoint) => q.kind == End && Key(q) < k
  }

  function StartKeyBelow(k: int): InclusiveRange -> bool {
    (r: InclusiveRange) => 2 * r.start < k
  }

  function EndKeyBelow(k: int): InclusiveRange -> bool {
    (r: InclusiveRange) => 2 * r.end + 1 < k
  }

  /** Each range gives one start and one end, below a key exactly when its value is. */
  lemma {:induction false} PointsOfCounts(ranges: seq<InclusiveRange>, k: int)
    ensures CountIf(PointsOf(ranges), StartBelow(k)) == CountIf(ranges, StartKeyBelow(k))
    ensures CountIf(PointsOf(ranges), EndBelow(k)) == CountIf(ranges, EndKeyBelow(k))
    ensures CountIf(PointsOf(ranges), IsStart) == |ranges|
    ensures CountIf(PointsOf(ranges), IsEnd) == |ranges|
    decreases |ranges|
  {
    if ranges != [] {
      var init := ranges[..|ranges| - 1];
      var last := ranges[|ranges| - 1];
      PointsOfCounts(init, k);
      var start, end := RangePoint(Start, last.start), RangePoint(End, last.end);
      CountIfPair(PointsOf(init), start, end, StartBelow(k));
      CountIfPair(PointsOf(init), start, end, EndBelow(k));
      CountIfPair(PointsOf(init), start, end, IsStart);
      CountIfPair(PointsOf(init), start, end, IsEnd);
      assert init + [last] == ranges;
      CountIfAppend(init, [last], StartKeyBelow(k));
      CountIfAppend(init, [last], EndKeyBelow(k));
      assert ranges[..|ranges| - 1] == init;
    }
  }

  /** Every point's value is held by its own range and is at most the largest end. */
  lemma {:induction false} PointsOfCovered(ranges: seq<InclusiveRange>, q: RangePoint)
    requires WellFormed(ranges) && q in PointsOf(ranges)
    ensures Covers(ranges, q.value) && q.value <= MaxEnd(ranges)
    decreases |ranges|
  {
    var init := ranges[..|ranges| - 1];
    var last := ranges[|ranges| - 1];
    CoversLast(ranges, q.value);
    if q in PointsOf(init) {
      assert WellFormed(init) by {
        forall k | 0 <= k < |init|
          ensures init[k].start <= init[k].end
        {
          assert init[k] == ranges[k];
        }
      }
      PointsOfCovered(init, q);
    } else {
      assert last.start <= last.end;
    }
  }

  /** For ranges whose starts do not exceed their ends: the ranges that start at or
      before x less those that end before x are the ranges holding x. */
  lemma {:induction false} OpenRanges(ranges: seq<InclusiveRange>, x: nat)
    requires WellFormed(ranges)
    ensures CountIf(ranges, EndKeyBelow(2 * x + 1)) <= CountIf(ranges, StartKeyBelow(2 * x + 1))
    ensures CountIf(ranges, EndKeyBelow(2 * x + 1)) < CountIf(ranges, StartKeyBelow(2 * x + 1)) <==> Covers(ranges, x)
    decreases |ranges|
  {
    if ranges != [] {
      var init := ranges[..|ranges| - 1];
      assert WellFormed(init) by {
        forall k | 0 <= k < |init|
          ensures init[k].start <= init[k].end
        {
          assert init[k] == ranges[k];
        }
      }
      OpenRanges(init, x);
      CoversLast(ranges, x);
    }
  }

  /** The ranges that end before key k never outnumber those that start before it. */
  lemma EndsNotBeforeStarts(ranges: seq<InclusiveRange>, k: int)
    requires WellFormed(ranges)
    ensures CountIf(ranges, EndKeyBelow(k + 1)) <= CountIf(ranges, StartKeyBelow(k))
  {
    CountIfMono(ranges, EndKeyBelow(k + 1), StartKeyBelow(k));
  }

  /** p is solve's points after the sort: ordered by key, one start and one end for
      each range, and the ranges have their starts no later than their ends. */
  ghost predicate SortedPoints(ranges: seq<InclusiveRange>, p: seq<RangePoint>) {
    WellFormed(ranges) && SortedByKey(p, Key) && multiset(p) == multiset(PointsOf(ranges))
  }

  /** Below a key that no point from i on is below, the points of a sorted list all lie
      before i. */
  lemma PrefixBelow(p: seq<RangePoint>, i: nat, k: int)
    requires SortedByKey(p, Key) && i <= |p|
    requires i < |p| ==> Key(p[i]) >= k
    ensures CountIf(p[..i], StartBelow(k)) == CountIf(p, StartBelow(k))
    ensures CountIf(p[..i], EndBelow(k)) == CountIf(p, EndBelow(k))
  {
    var tail := p[i..];
    forall m | 0 <= m < |tail|
      ensures Key(tail[m]) >= k
    {
      assert tail[m] == p[i + m];
    }
    CountIfSplit(p, i, StartBelow(k));
    CountIfSplit(p, i, EndBelow(k));
    CountIfNone(tail, StartBelow(k));
    CountIfNone(tail, EndBelow(k));
  }

  /** Between the values of points i - 1 and i, an ID is held by some range exactly
      when the points before i leave a range open. */
  lemma OpenBetween(ranges: seq<InclusiveRange>, p: seq<RangePoint>, i: nat, x: nat)
    requires SortedPoints(ranges, p) && i <= |p|
    requires i > 0 ==> p[i - 1].value < x
    requires i < |p| ==> x < p[i].value
    ensures Balance(p[..i]) > 0 <==> Covers(ranges, x)
  {
    var k := 2 * x + 1;
    var prefix := p[..i];
    forall m | 0 <= m < |prefix|
      ensures Key(prefix[m]) < k
    {
      assert prefix[m] == p[m];
    }
    CountIfMono(prefix, IsStart, StartBelow(k));
    CountIfMono(prefix, StartBelow(k), IsStart);
    CountIfMono(prefix, IsEnd, EndBelow(k));
    CountIfMono(prefix, EndBelow(k), IsEnd);
    PrefixBelow(p, i, k);
    CountIfPermutation(p, PointsOf(ranges), StartBelow(k));
    CountIfPermutation(p, PointsOf(ranges), EndBelow(k));
    PointsOfCounts(ranges, k);
    OpenRanges(ranges, x);
  }

  /** For ranges whose starts do not exceed their ends, no prefix of the sorted points
      has more ends than starts, so the sweep's assertion holds. */
  lemma BalanceNonNegative(ranges: seq<InclusiveRange>, p: seq<RangePoint>, j: nat)
    requires SortedPoints(ranges, p) && j <= |p|
    ensures Balance(p[..j]) >= 0
  {
    if j > 0 {
      var k := Key(p[j - 1]);
      var prefix := p[..j];
      forall m | 0 <= m < |prefix|
        ensures Key(prefix[m]) <= k
      {
        assert prefix[m] == p[m];
      }
      CountIfMono(prefix, StartBelow(k), IsStart);
      CountIfMono(prefix, IsEnd, EndBelow(k + 1));
      PrefixBelow(p, j, k);
      CountIfSplit(p, j, EndBelow(k + 1));
      CountIfPermutation(p, PointsOf(ranges), StartBelow(k));
      CountIfPermutation(p, PointsOf(ranges), EndBelow(k + 1));
      PointsOfCounts(ranges, k);
      PointsOfCounts(ranges, k + 1);
      EndsNotBeforeStarts(ranges, k);
    }
  }

  /** All the points together leave no range open. */
  lemma BalanceOfAll(ranges: seq<InclusiveRange>, p: seq<RangePoint>)
    requires SortedPoints(ranges, p)
    ensures Balance(p) == 0
  {
    CountIfPermutation(p, PointsOf(ranges), IsStart);
    CountIfPermutation(p, PointsOf(ranges), IsEnd);
    PointsOfCounts(ranges, 0);
  }

  lemma BalanceStep(p: seq<RangePoint>, i: nat)
    requires i < |p|
    ensures Balance(p[..i + 1]) == Balance(p[..i]) + (if p[i].kind == Start then 1 else -1)
  {
    assert p[..i + 1][..i] == p[..i];
  }

  /** When the balance is zero at a value no earlier point has, some range holds that
      value and none holds an ID between the previous point's value and it: the value
      starts a new block of held IDs. */
  lemma NewBlock(ranges: seq<InclusiveRange>, p: seq<RangePoint>, i: nat)
    requires SortedPoints(ranges, p) && i < |p| && Balance(p[..i]) == 0
    ensures Covers(ranges, p[i].value)
    ensures forall x: nat :: (i == 0 || p[i - 1].value < x) && x < p[i].value ==> !Covers(ranges, x)
  {
    assert p[i] in multiset(PointsOf(ranges));
    PointsOfCovered(ranges, p[i]);
    forall x: nat | (i == 0 || p[i - 1].value < x) && x < p[i].value
      ensures !Covers(ranges, x)
    {
      OpenBetween(ranges, p, i, x);
    }
  }

  /** What the sweep has counted when it reaches point i with a given count and
      balance: the balance is that of the points before i; with none left open, the
      count is the held IDs up to the previous point's value; with some left open, the
      count already takes in the held IDs up to point i's value. */
  ghost predicate SweepInvariant(ranges: seq<InclusiveRange>, p: seq<RangePoint>, i: nat, count: nat, balance: int)
    requires i <= |p|
  {
    && balance == Balance(p[..i])
    && (i == 0 ==> count == 0)
    && (0 < i && balance == 0 ==> count == CoveredBelow(ranges, p[i - 1].value + 1))
    && (0 < i < |p| && balance > 0 ==> count == CoveredBelow(ranges, p[i].value + 1))
  }

  /** After the new-block check at point i the count takes in the held IDs up to point
      i's value. */
  lemma CountedStep(ranges: seq<InclusiveRange>, p: seq<RangePoint>, i: nat, count: nat, balance: int)
    requires SortedPoints(ranges, p) && i < |p| && SweepInvariant(ranges, p, i, count, balance)
    ensures balance >= 0
    ensures (if balance == 0 && (i == 0 || p[i - 1].value != p[i].value) then count + 1 else count)
      == CoveredBelow(ranges, p[i].value + 1)
  {
    BalanceNonNegative(ranges, p, i);
    if balance == 0 {
      if i == 0 || p[i - 1].value != p[i].value {
        NewBlock(ranges, p, i);
        var lo := if i == 0 then 0 else p[i - 1].value + 1;
        assert i > 0 ==> Key(p[i - 1]) <= Key(p[i]);
        UncoveredGap(ranges, lo, p[i].value);
      }
    }
  }

  /** With ranges open after point i, every ID from its value to the next point's is
      held. */
  lemma GapStep(ranges: seq<InclusiveRange>, p: seq<RangePoint>, i: nat)
    requires SortedPoints(ranges, p) && i + 1 < |p| && Balance(p[..i + 1]) > 0
    ensures p[i].value <= p[i + 1].value
    ensures CoveredBelow(ranges, p[i + 1].value + 1) == CoveredBelow(ranges, p[i].value + 1) + (p[i + 1].value - p[i].value)
  {
    assert Key(p[i]) <= Key(p[i + 1]);
    if p[i].value < p[i + 1].value {
      forall x: nat | p[i].value + 1 <= x < p[i + 1].value
        ensures Covers(ranges, x)
      {
        OpenBetween(ranges, p, i + 1, x);
      }
      CoveredGap(ranges, p[i].value + 1, p[i + 1].value);
      assert p[i + 1] in multiset(PointsOf(ranges));
      PointsOfCovered(ranges, p[i + 1]);
    }
  }

  /** The size of the union counted up to one past the largest end. */
  lemma UnionSize(ranges: seq<InclusiveRange>)
    ensures |Union(ranges)| == CoveredBelow(ranges, MaxEnd(ranges) + 1)
  {
    CoveredBelowIsSize(ranges, MaxEnd(ranges) + 1);
    assert Union(ranges) == CoveredSet(ranges, MaxEnd(ranges) + 1);
  }

  /** No ID after the last sorted point is held by any range. */
  lemma NothingAfterLast(ranges: seq<InclusiveRange>, p: seq<RangePoint>)
    requires SortedPoints(ranges, p) && |p| > 0
    ensures CoveredBelow(ranges, p[|p| - 1].value + 1) == CoveredBelow(ranges, MaxEnd(ranges) + 1)
  {
    assert p[..|p|] == p;
    BalanceOfAll(ranges, p);
    var last := p[|p| - 1];
    assert last in multiset(PointsOf(ranges));
    PointsOfCovered(ranges, last);
    forall y: nat | last.value + 1 <= y < MaxEnd(ranges) + 1
      ensures !Covers(ranges, y)
    {
      OpenBetween(ranges, p, |p|, y);
    }
    UncoveredGap(ranges, last.value + 1, MaxEnd(ranges) + 1);
  }

  /** Once all points are swept, the count is the size of the union. */
  lemma SweepEnd(ranges: seq<InclusiveRange>, p: seq<RangePoint>, count: nat, balance: int)
    requires SortedPoints(ranges, p) && SweepInvariant(ranges, p, |p|, count, balance)
    ensures count == CoveredBelow(ranges, MaxEnd(ranges) + 1)
  {
    if |p| == 0 {
      assert |multiset(PointsOf(ranges))| == 0;
      assert ranges == [];
      UncoveredGap(ranges, 0, MaxEnd(ranges) + 1);
    } else {
      assert p[..|p|] == p;
      BalanceOfAll(ranges, p);
      NothingAfterLast(ranges, p);
    }
  }

  /** A pass of the sweep keeps the invariant and never fails its assertion. */
  lemma SweepStepKeeps(ranges: seq<InclusiveRange>, p: seq<RangePoint>, i: nat, count: nat, balance: int)
    requires SortedPoints(ranges, p) && i < |p| && SweepInvariant(ranges, p, i, count, balance)
    ensures SweepStep(p, i, count, balance).Ok?
    ensures SweepInvariant(ranges, p, i + 1, SweepStep(p, i, count, balance).value.0, SweepStep(p, i, count, balance).value.1)
  {
    CountedStep(ranges, p, i, count, balance);
    BalanceStep(p, i);
    BalanceNonNegative(ranges, p, i + 1);
    var balance' := if p[i].kind == Start then balance + 1 else balance - 1;
    if !((p[i].kind == End && balance' <= 0) || i >= |p| - 1) {
      GapStep(ranges, p, i);
    }
  }

  lemma {:induction false} SweepCounts(ranges: seq<InclusiveRange>, p: seq<RangePoint>, i: nat, count: nat, balance: int)
    requires SortedPoints(ranges, p) && i <= |p| && SweepInvariant(ranges, p, i, count, balance)
    ensures SweepFrom(p, i, count, balance) == Ok(|Union(ranges)|)
    decreases |p| - i
  {
    if i == |p| {
      SweepEnd(ranges, p, count, balance);
      UnionSize(ranges);
    } else {
      SweepStepKeeps(ranges, p, i, count, balance);
      var next := SweepStep(p, i, count, balance).value;
      SweepCounts(ranges, p, i + 1, next.0, next.1);
    }
  }

  /** For ranges whose starts do not exceed their ends, sweeping any sorted list of
      their points counts the IDs they hold together. */
  lemma SweepCountsUnion(ranges: seq<InclusiveRange>, p: seq<RangePoint>)
    requires WellFormed(ranges) && SortedByKey(p, Key) && multiset(p) == multiset(PointsOf(ranges))
    ensures SweepFrom(p, 0, 0, 0) == Ok(|Union(ranges)|)
  {
    assert p[..0] == [];
    SweepCounts(ranges, p, 0, 0, 0);
  }
}
