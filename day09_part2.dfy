/** Day 9, part 2: walk the closed loop of red tiles, each corner joined to the next by
    a straight run of tiles, and take the largest rectangle over the tiles walked. */
module Day09Part2 {
  import opened Utils
  import opened Day09Tiles

  /** The steps between two tiles along rows and columns. */
  function Manhattan(a: Vector2, b: Vector2): nat {
    Abs(b.x - a.x) + Abs(b.y - a.y)
  }

  /** Two corners add_between accepts: on one row or one column, and not the same tile. */
  predicate Aligned(start: Vector2, end: Vector2) {
    (start.x == end.x || start.y == end.y) && start != end
  }

  /** The coordinate k unit steps from a toward the side d points to. */
  function Toward(a: int, d: int, k: nat): int {
    if d > 0 then a + k else a - k
  }

  /** The tiles add_between appends: from start, included, one unit step at a time
      along the one axis start and end differ on, up to end, excluded. Corners that
      are not aligned fail its first assert. */
  function Between(start: Vector2, end: Vector2): Checked<seq<Vector2>> {
    var dx, dy := end.x - start.x, end.y - start.y;
    if !((dx == 0 || dy == 0) && (dx != 0 || dy != 0)) then Abort
    else if dx != 0 then Ok(seq(Abs(dx), k requires 0 <= k < Abs(dx) => Vector2(Toward(start.x, dx, k), start.y)))
    else Ok(seq(Abs(dy), k requires 0 <= k < Abs(dy) => Vector2(start.x, Toward(start.y, dy, k))))
  }

  /** add_between succeeds exactly on aligned corners, and then appends one tile per
      step between them: the k-th tile is k steps from start and the rest of the way
      from end, it keeps the coordinate the corners share, the first one is start and
      end itself is never appended. */
  lemma BetweenIs(start: Vector2, end: Vector2)
    ensures Between(start, end).Ok? <==> Aligned(start, end)
    ensures Between(start, end).Ok? ==> var run := Between(start, end).value;
      && |run| == Manhattan(start, end)
      && run[0] == start
      && end !in run
      && forall k :: 0 <= k < |run| ==>
           && Manhattan(start, run[k]) == k
           && Manhattan(run[k], end) == |run| - k
           && (start.x == end.x ==> run[k].x == start.x)
           && (start.y == end.y ==> run[k].y == start.y)
  {
  }

  /** The add_between lambda: appends the run from start to end to result, or fails
      its assert. */
  method AddBetween(result: seq<Vector2>, start: Vector2, end: Vector2) returns (r: Checked<seq<Vector2>>)
    ensures r == PrependTo(result, Between(start, end))
  {
    var dx, dy := end.x - start.x, end.y - start.y;
    if !((dx == 0 || dy == 0) && (dx != 0 || dy != 0)) {
      return Abort;
    }
    var incX := if dx == 0 then 0 else if dx > 0 then 1 else -1;
    var incY := if dy == 0 then 0 else if dy > 0 then 1 else -1;
    assert (incX == 0 || incY == 0) && (incX != 0 || incY != 0);
    ghost var run := Between(start, end).value;
    var out := result;
    ghost var k: nat := 0;
    if incX != 0 {
      var x := start.x;
      while if incX > 0 then x < end.x else x > end.x
        invariant k <= Abs(dx) && x == Toward(start.x, dx, k)
        invariant out == result + run[..k]
        decreases Abs(dx) - k
      {
        assert run[..k + 1] == run[..k] + [Vector2(x, start.y)];
        out := out + [Vector2(x, start.y)];
        x := x + incX;
        k := k + 1;
      }
    } else {
      assert incY != 0;
      var y := start.y;
      while if incY > 0 then y < end.y else y > end.y
        invariant k <= Abs(dy) && y == Toward(start.y, dy, k)
        invariant out == result + run[..k]
        decreases Abs(dy) - k
      {
        assert run[..k + 1] == run[..k] + [Vector2(start.x, y)];
        out := out + [Vector2(start.x, y)];
        y := y + incY;
        k := k + 1;
      }
    }
    assert run[..k] == run;
    return Ok(out);
  }

  /** The corner after corner k around the loop: the last corner is followed by the
      first. */
  function Next(corners: seq<Vector2>, k: nat): Vector2
    requires k < |corners|
  {
    if k + 1 < |corners| then corners[k + 1] else corners[0]
  }

  /** The steps along the first m edges of the loop. */
  function LoopLength(corners: seq<Vector2>, m: nat): nat
    requires m <= |corners|
  {
    if m == 0 then 0 else LoopLength(corners, m - 1) + Manhattan(corners[m - 1], Next(corners, m - 1))
  }

  /** The tiles the loop of get_perimeter_positions has appended before corner i: the
      runs from corner k - 1 to corner k, for 0 < k < i. */
  function Path(corners: seq<Vector2>, i: nat): Checked<seq<Vector2>>
    requires 1 <= i <= |corners|
  {
    if i == 1 then Ok([])
    else
      match Path(corners, i - 1)
      case Abort => Abort
      case Ok(tiles) => PrependTo(tiles, Between(corners[i - 2], corners[i - 1]))
  }

  /** get_perimeter_positions: the runs between consecutive corners, then the run from
      the last corner back to the first. With no corner at all the source indexes the
      empty vector at size() - 1, which is undefined; the model fails there. */
  function Perimeter(corners: seq<Vector2>): Checked<seq<Vector2>> {
    if corners == [] then Abort
    else
      match Path(corners, |corners|)
      case Abort => Abort
      case Ok(tiles) => PrependTo(tiles, Between(corners[|corners| - 1], corners[0]))
  }

  /** Once a run fails its assert, the walk has failed. */
  lemma {:induction false} PathAbortStays(corners: seq<Vector2>, i: nat, j: nat)
    requires 1 <= i <= j <= |corners| && Path(corners, i).Abort?
    ensures Path(corners, j).Abort?
    decreases j
  {
    if j > i {
      PathAbortStays(corners, i, j - 1);
    }
  }

  /** The walk up to corner i succeeds exactly when every edge before it is aligned;
      it then holds one tile per step of those edges and passes every corner before
      corner i - 1. */
  lemma {:induction false} PathIs(corners: seq<Vector2>, i: nat)
    requires 1 <= i <= |corners|
    ensures Path(corners, i).Ok? <==> forall k :: 0 <= k < i - 1 ==> Aligned(corners[k], corners[k + 1])
    ensures Path(corners, i).Ok? ==> |Path(corners, i).value| == LoopLength(corners, i - 1)
    ensures Path(corners, i).Ok? ==> forall k :: 0 <= k < i - 1 ==> corners[k] in Path(corners, i).value
  {
    if i > 1 {
      PathIs(corners, i - 1);
      BetweenIs(corners[i - 2], corners[i - 1]);
      if Path(corners, i - 1).Ok? && Between(corners[i - 2], corners[i - 1]).Ok? {
        var tiles := Path(corners, i - 1).value;
        var run := Between(corners[i - 2], corners[i - 1]).value;
        assert Path(corners, i).value == tiles + run;
        assert run[0] == corners[i - 2];
      }
    }
  }

  /** get_perimeter_positions succeeds exactly when there is a corner and every edge of
      the closed loop is aligned; it then holds one tile per step around the loop and
      passes every corner. */
  lemma PerimeterIs(corners: seq<Vector2>)
    ensures Perimeter(corners).Ok? <==>
      corners != [] && forall k :: 0 <= k < |corners| ==> Aligned(corners[k], Next(corners, k))
    ensures Perimeter(corners).Ok? ==> |Perimeter(corners).value| == LoopLength(corners, |corners|)
    ensures Perimeter(corners).Ok? ==> forall k :: 0 <= k < |corners| ==> corners[k] in Perimeter(corners).value
  {
    if corners != [] {
      var n := |corners|;
      PathIs(corners, n);
      BetweenIs(corners[n - 1], corners[0]);
      if Path(corners, n).Ok? && Between(corners[n - 1], corners[0]).Ok? {
        var tiles := Path(corners, n).value;
        var run := Between(corners[n - 1], corners[0]).value;
        assert Perimeter(corners).value == tiles + run;
        assert run[0] == corners[n - 1];
      }
      assert Next(corners, n - 1) == corners[0];
    }
  }

  /** get_perimeter_positions: one add_between per edge of the loop. */
  method GetPerimeterPositions(corners: seq<Vector2>) returns (result: Checked<seq<Vector2>>)
    ensures result == Perimeter(corners)
  {
    if |corners| == 0 {
      return Abort;
    }
    var tiles: seq<Vector2> := [];
    for i := 1 to |corners|
      invariant Path(corners, i) == Ok(tiles)
    {
      var r := AddBetween(tiles, corners[i - 1], corners[i]);
      if r.Abort? {
        PathAbortStays(corners, i + 1, |corners|);
        return Abort;
      }
      tiles := r.value;
    }
    result := AddBetween(tiles, corners[|corners| - 1], corners[0]);
  }

  /** A rectangle no wider and no taller than another, against the same far corner,
      covers no more tiles. */
  lemma AreaMonotone(t: Vector2, s: Vector2, u: Vector2)
    requires Abs(u.x - t.x) <= Abs(u.x - s.x) && Abs(u.y - t.y) <= Abs(u.y - s.y)
    ensures RectArea(t, u) <= RectArea(s, u)
  {
    var w, w', h, h' := Abs(u.x - t.x) + 1, Abs(u.x - s.x) + 1, Abs(u.y - t.y) + 1, Abs(u.y - s.y) + 1;
    MulMonotone(w, h, h');
    MulMonotone(h', w, w');
    assert w * h' == h' * w && w' * h' == h' * w';
  }

  /** A tile on the run from start to end spans no larger rectangle with u than one of
      the run's two ends does. */
  lemma RunEndsBound(start: Vector2, end: Vector2, t: Vector2, u: Vector2) returns (e: Vector2)
    requires Between(start, end).Ok? && t in Between(start, end).value
    ensures (e == start || e == end) && RectArea(t, u) <= RectArea(e, u)
  {
    BetweenIs(start, end);
    var run := Between(start, end).value;
    var k :| 0 <= k < |run| && run[k] == t;
    assert Manhattan(start, t) + Manhattan(t, end) == Manhattan(start, end);
    if start.y == end.y {
      e := if Abs(u.x - t.x) <= Abs(u.x - start.x) then start else end;
    } else {
      e := if Abs(u.y - t.y) <= Abs(u.y - start.y) then start else end;
    }
    AreaMonotone(t, e, u);
  }

  /** Every tile of the walk up to corner i lies on the run of one of its edges. */
  lemma {:induction false} PathTileOnEdge(corners: seq<Vector2>, i: nat, idx: nat) returns (k: nat)
    requires 1 <= i <= |corners| && Path(corners, i).Ok? && idx < |Path(corners, i).value|
    ensures k + 1 < i && Between(corners[k], corners[k + 1]).Ok?
    ensures Path(corners, i).value[idx] in Between(corners[k], corners[k + 1]).value
  {
    var tiles := Path(corners, i - 1).value;
    var run := Between(corners[i - 2], corners[i - 1]).value;
    assert Path(corners, i).value == tiles + run;
    if idx < |tiles| {
      k := PathTileOnEdge(corners, i - 1, idx);
    } else {
      k := i - 2;
      assert Path(corners, i).value[idx] == run[idx - |tiles|];
    }
  }

  /** Every tile of the loop lies on the run of one of its edges. */
  lemma PerimeterTileOnEdge(corners: seq<Vector2>, idx: nat) returns (k: nat)
    requires Perimeter(corners).Ok? && idx < |Perimeter(corners).value|
    ensures k < |corners| && Between(corners[k], Next(corners, k)).Ok?
    ensures Perimeter(corners).value[idx] in Between(corners[k], Next(corners, k)).value
  {
    var n := |corners|;
    var tiles := Path(corners, n).value;
    var run := Between(corners[n - 1], corners[0]).value;
    assert Perimeter(corners).value == tiles + run;
    if idx < |tiles| {
      k := PathTileOnEdge(corners, n, idx);
    } else {
      k := n - 1;
      assert Perimeter(corners).value[idx] == run[idx - |tiles|];
    }
  }

  /** A tile of the loop spans no larger rectangle with u than some corner does. */
  lemma TileNearCorner(corners: seq<Vector2>, t: Vector2, u: Vector2) returns (c: nat)
    requires Perimeter(corners).Ok? && t in Perimeter(corners).value
    ensures c < |corners| && RectArea(t, u) <= RectArea(corners[c], u)
  {
    var idx :| 0 <= idx < |Perimeter(corners).value| && Perimeter(corners).value[idx] == t;
    var k := PerimeterTileOnEdge(corners, idx);
    var e := RunEndsBound(corners[k], Next(corners, k), t, u);
    c := if e == corners[k] then k else if k + 1 < |corners| then k + 1 else 0;
  }

  /** A loop whose first m edges are aligned is at least m steps long along them. */
  lemma {:induction false} LoopLengthAtLeast(corners: seq<Vector2>, m: nat)
    requires m <= |corners| && forall k :: 0 <= k < m ==> Aligned(corners[k], Next(corners, k))
    ensures LoopLength(corners, m) >= m
  {
    if m > 0 {
      LoopLengthAtLeast(corners, m - 1);
      assert Aligned(corners[m - 1], Next(corners, m - 1));
    }
  }

  /** A loop that walks without failing has two corners or more and two tiles or more. */
  lemma LoopHasTwo(corners: seq<Vector2>)
    requires Perimeter(corners).Ok?
    ensures |corners| >= 2 && |Perimeter(corners).value| >= 2
  {
    PerimeterIs(corners);
    LoopLengthAtLeast(corners, |corners|);
  }

  /** Every rectangle between tiles of the loop is at most the largest between corners. */
  lemma TilesBoundedByCorners(corners: seq<Vector2>, a: nat, b: nat)
    requires Perimeter(corners).Ok? && a < b < |Perimeter(corners).value|
    ensures RectArea(Perimeter(corners).value[a], Perimeter(corners).value[b]) <= LargestArea(corners)
  {
    var tiles := Perimeter(corners).value;
    LoopHasTwo(corners);
    LargestAreaIs(corners);
    var c1 := TileNearCorner(corners, tiles[a], tiles[b]);
    RectAreaSymmetric(corners[c1], tiles[b]);
    var c2 := TileNearCorner(corners, tiles[b], corners[c1]);
    RectAreaSymmetric(corners[c2], corners[c1]);
    if c2 < c1 {
      assert RectArea(corners[c2], corners[c1]) <= LargestArea(corners);
    } else if c1 < c2 {
      assert RectArea(corners[c1], corners[c2]) <= LargestArea(corners);
    } else {
      assert RectArea(corners[0], corners[1]) <= LargestArea(corners);
    }
  }

  /** Every rectangle between two corners is at most the largest between tiles of the
      loop. */
  lemma CornersBoundedByTiles(corners: seq<Vector2>, a: nat, b: nat)
    requires Perimeter(corners).Ok? && a < b < |corners|
    ensures RectArea(corners[a], corners[b]) <= LargestArea(Perimeter(corners).value)
  {
    var tiles := Perimeter(corners).value;
    LoopHasTwo(corners);
    PerimeterIs(corners);
    LargestAreaIs(tiles);
    var i :| 0 <= i < |tiles| && tiles[i] == corners[a];
    var j :| 0 <= j < |tiles| && tiles[j] == corners[b];
    RectAreaSymmetric(corners[a], corners[b]);
    if i < j {
      assert RectArea(tiles[i], tiles[j]) <= LargestArea(tiles);
    } else if j < i {
      assert RectArea(tiles[j], tiles[i]) <= LargestArea(tiles);
    } else {
      assert RectArea(tiles[0], tiles[1]) <= LargestArea(tiles);
    }
  }

  /** Walking the loop adds nothing: along a straight run the rectangle against any
      fixed tile only grows toward one end, so the largest rectangle over the tiles of
      the loop is the largest over its corners alone, the answer of part 1. */
  lemma LoopAnswerIsCornerAnswer(corners: seq<Vector2>)
    requires Perimeter(corners).Ok?
    ensures LargestArea(Perimeter(corners).value) == LargestArea(corners)
  {
    var tiles := Perimeter(corners).value;
    LoopHasTwo(corners);
    LargestAreaIs(tiles);
    LargestAreaIs(corners);
    var a, b :| 0 <= a < b < |tiles| && LargestArea(tiles) == RectArea(tiles[a], tiles[b]);
    TilesBoundedByCorners(corners, a, b);
    var c, d :| 0 <= c < d < |corners| && LargestArea(corners) == RectArea(corners[c], corners[d]);
    CornersBoundedByTiles(corners, c, d);
  }

  /** The answer solve computes from the text, or a failed assert. */
  function Answer(data: string): Checked<nat> {
    match PositionsFrom(data, 0)
    case Abort => Abort
    case Ok(corners) =>
      match Perimeter(corners)
      case Abort => Abort
      case Ok(tiles) => Ok(LargestArea(tiles))
  }

  /** solve: the largest rectangle over every pair of tiles on the loop; every such
      pair's rectangle is at most the answer, and some pair attains it. */
  method Solve(data: string) returns (result: Checked<nat>)
    ensures result == Answer(data)
    ensures result.Ok? ==> PositionsFrom(data, 0).Ok? && Perimeter(PositionsFrom(data, 0).value).Ok?
    ensures result.Ok? ==> var tiles := Perimeter(PositionsFrom(data, 0).value).value;
      && (forall a, b :: 0 <= a < b < |tiles| ==> RectArea(tiles[a], tiles[b]) <= result.value)
      && (|tiles| >= 2 ==> exists a, b :: 0 <= a < b < |tiles| && result.value == RectArea(tiles[a], tiles[b]))
    ensures result.Ok? ==> result.value == LargestArea(PositionsFrom(data, 0).value)
  {
    var positions := ParsePositions(data);
    if positions.Abort? {
      return Abort;
    }
    var perimeter := GetPerimeterPositions(positions.value);
    if perimeter.Abort? {
      return Abort;
    }
    var maxArea := MaxArea(perimeter.value);
    LargestAreaIs(perimeter.value);
    LoopAnswerIsCornerAnswer(positions.value);
    return Ok(maxArea);
  }
}
