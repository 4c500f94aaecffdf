/** Day 9: the red tiles both parts read, rect_area, and the largest rectangle over
    pairs that both solve functions compute (day09-part1 and day09-part2 define these
    identically). */
module Day09Tiles {
  import opened Utils

  /** 2^63: int64_t holds -2^63 .. 2^63 - 1. */
  const I64: nat := 0x8000_0000_0000_0000

  /** Vector2i64: a tile position. */
  datatype Vector2 = Vector2(x: int, y: int)

  /** The int64_t a uint64_t converts to: values from 2^63 on wrap to negatives. */
  function ToInt64(v: nat): (r: int)
    requires v < U64
    ensures -(I64 as int) <= r < I64
    ensures (r - v) % U64 == 0
    ensures v < I64 ==> r == v
  {
    if v < I64 then v else v - U64
  }

  /** The tiles parse_positions reads from pos on: "x,y" lines, each coordinate read
      as a uint64_t and stored as an int64_t. A separator other than the expected one,
      the text's NUL included, fails an assert. */
  function PositionsFrom(data: string, pos: nat): Checked<seq<Vector2>>
    decreases |data| - pos
  {
    if pos >= |data| then Ok([])
    else
      var ex := DigitRunEnd(data, pos);
      if At(data, ex) != ',' then Abort
      else
        var ey := DigitRunEnd(data, ex + 1);
        if At(data, ey) != '\n' then Abort
        else
          var v := Vector2(ToInt64(Wrap64(NumberAt(data, pos, ex))), ToInt64(Wrap64(NumberAt(data, ex + 1, ey))));
          PrependTo([v], PositionsFrom(data, ey + 1))
  }

  /** parse_positions: one "x,y" line per iteration. */
  method ParsePositions(data: string) returns (result: Checked<seq<Vector2>>)
    ensures result == PositionsFrom(data, 0)
  {
    var positions: seq<Vector2> := [];
    var pos := 0;
    PrependToNothing(PositionsFrom(data, 0));
    while pos < |data|
      invariant pos <= |data|
      invariant PositionsFrom(data, 0) == PrependTo(positions, PositionsFrom(data, pos))
      decreases |data| - pos
    {
      var x, ex := ParseUint64(data, pos);
      if At(data, ex) != ',' {
        assert PositionsFrom(data, pos) == Abort;
        return Abort;
      }
      var y, ey := ParseUint64(data, ex + 1);
      if At(data, ey) != '\n' {
        assert PositionsFrom(data, pos) == Abort;
        return Abort;
      }
      var v := Vector2(ToInt64(x), ToInt64(y));
      assert PositionsFrom(data, pos) == PrependTo([v], PositionsFrom(data, ey + 1));
      PrependToTwice(positions, [v], PositionsFrom(data, ey + 1));
      positions := positions + [v];
      pos := ey + 1;
    }
    assert positions + [] == positions;
    return Ok(positions);
  }

  /** rect_area: the tiles of the rectangle with opposite corners a and b, both
      corners' rows and columns included. */
  function RectArea(a: Vector2, b: Vector2): (r: nat)
    ensures r >= 1
  {
    MulAtLeast(Abs(b.y - a.y) + 1, Abs(b.x - a.x) + 1);
    (Abs(b.x - a.x) + 1) * (Abs(b.y - a.y) + 1)
  }

  /** The rectangle does not depend on which corner comes first, and a single tile
      covers one tile. */
  lemma RectAreaSymmetric(a: Vector2, b: Vector2)
    ensures RectArea(a, b) == RectArea(b, a)
    ensures RectArea(a, a) == 1
  {
    assert Abs(b.x - a.x) == Abs(a.x - b.x) && Abs(b.y - a.y) == Abs(a.y - b.y);
  }

  function MaxOf(a: nat, b: nat): nat {
    if a < b then b else a
  }

  /** The largest rectangle with tile i as one corner and a tile j, i < j < hi, as the
      other; 0 when there is none. */
  function RowMax(tiles: seq<Vector2>, i: nat, hi: nat): nat
    requires i < hi <= |tiles|
    decreases hi
  {
    if hi == i + 1 then 0 else MaxOf(RowMax(tiles, i, hi - 1), RectArea(tiles[i], tiles[hi - 1]))
  }

  /** The largest rectangle over the pairs i < j whose first tile is among the first n;
      0 when there is none. */
  function PairsMax(tiles: seq<Vector2>, n: nat): nat
    requires n <= |tiles|
  {
    if n == 0 then 0 else MaxOf(PairsMax(tiles, n - 1), RowMax(tiles, n - 1, |tiles|))
  }

  /** The largest rectangle over all pairs of tiles. */
  function LargestArea(tiles: seq<Vector2>): nat {
    PairsMax(tiles, |tiles|)
  }

  /** RowMax bounds every rectangle of its row and is one of them, or 0 for an empty
      row. */
  lemma {:induction false} RowMaxIs(tiles: seq<Vector2>, i: nat, hi: nat) returns (j: nat)
    requires i < hi <= |tiles|
    ensures forall k :: i < k < hi ==> RectArea(tiles[i], tiles[k]) <= RowMax(tiles, i, hi)
    ensures hi == i + 1 ==> RowMax(tiles, i, hi) == 0
    ensures hi > i + 1 ==> i < j < hi && RowMax(tiles, i, hi) == RectArea(tiles[i], tiles[j])
    decreases hi
  {
    j := 0;
    if hi > i + 1 {
      var j' := RowMaxIs(tiles, i, hi - 1);
      if hi == i + 2 || RowMax(tiles, i, hi - 1) < RectArea(tiles[i], tiles[hi - 1]) {
        j := hi - 1;
      } else {
        j := j';
      }
    }
  }

  /** PairsMax bounds every rectangle it ranges over and is one of them, or 0 when it
      ranges over none. */
  lemma {:induction false} PairsMaxIs(tiles: seq<Vector2>, n: nat) returns (i: nat, j: nat)
    requires n <= |tiles|
    ensures forall a, b :: 0 <= a < n && a < b < |tiles| ==> RectArea(tiles[a], tiles[b]) <= PairsMax(tiles, n)
    ensures PairsMax(tiles, n) == 0 || (i < n && i < j < |tiles| && PairsMax(tiles, n) == RectArea(tiles[i], tiles[j]))
  {
    i, j := 0, 0;
    if n > 0 {
      var i', j' := PairsMaxIs(tiles, n - 1);
      var r := RowMaxIs(tiles, n - 1, |tiles|);
      var prev, row := PairsMax(tiles, n - 1), RowMax(tiles, n - 1, |tiles|);
      assert PairsMax(tiles, n) == MaxOf(prev, row);
      forall a, b | 0 <= a < n && a < b < |tiles|
        ensures RectArea(tiles[a], tiles[b]) <= PairsMax(tiles, n)
      {
        if a < n - 1 {
          assert RectArea(tiles[a], tiles[b]) <= prev;
        } else {
          assert RectArea(tiles[a], tiles[b]) <= row;
        }
      }
      if prev < row {
        i, j := n - 1, r;
      } else {
        i, j := i', j';
      }
    }
  }

  /** The answer of solve: at least as large as the rectangle of every pair of tiles,
      and the rectangle of one of them when there are two tiles or more; 0 otherwise. */
  lemma LargestAreaIs(tiles: seq<Vector2>)
    ensures forall a, b :: 0 <= a < b < |tiles| ==> RectArea(tiles[a], tiles[b]) <= LargestArea(tiles)
    ensures |tiles| >= 2 ==> exists a, b :: 0 <= a < b < |tiles| && LargestArea(tiles) == RectArea(tiles[a], tiles[b])
    ensures |tiles| < 2 ==> LargestArea(tiles) == 0
  {
    var i, j := PairsMaxIs(tiles, |tiles|);
    if |tiles| >= 2 {
      assert RectArea(tiles[0], tiles[1]) <= LargestArea(tiles);
      assert LargestArea(tiles) == RectArea(tiles[i], tiles[j]);
    } else if |tiles| == 1 {
      assert PairsMax(tiles, 0) == 0;
    }
  }

  /** The inner loop of solve: the rectangles with tile i as the first corner. */
  method MaxInRow(tiles: seq<Vector2>, i: nat, maxArea: nat) returns (m: nat)
    requires i < |tiles|
    ensures m == MaxOf(maxArea, RowMax(tiles, i, |tiles|))
  {
    m := maxArea;
    for j := i + 1 to |tiles|
      invariant m == MaxOf(maxArea, RowMax(tiles, i, j))
    {
      var area := RectArea(tiles[i], tiles[j]);
      m := MaxOf(m, area);
    }
  }

  /** solve's double loop: std::max of the rectangle of every pair i < j, from 0. */
  method MaxArea(tiles: seq<Vector2>) returns (maxArea: nat)
    ensures maxArea == LargestArea(tiles)
  {
    maxArea := 0;
    for i := 0 to |tiles|
      invariant maxArea == PairsMax(tiles, i)
    {
      maxArea := MaxInRow(tiles, i, maxArea);
    }
  }
}
