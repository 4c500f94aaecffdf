/** Day 4, part 1: how many rolls of paper have fewer than four rolls among the
    eight cells around them. */
module Day04Part1 {
  import opened Utils
  import opened Day04Grid

  /** How many of the first n stored cells are accessible rolls. */
  function AccessibleCount(g: Grid, n: nat): (c: nat)
    requires Valid(g) && n <= |g.data|
    ensures c <= n
  {
    if n == 0 then 0 else AccessibleCount(g, n - 1) + (if AccessibleAt(g, n - 1) then 1 else 0)
  }

  /** Only rolls are candidates, so no more cells are counted than there are rolls. */
  lemma {:induction false} AccessibleAtMostRolls(g: Grid, n: nat)
    requires Valid(g) && n <= |g.data|
    ensures AccessibleCount(g, n) <= Rolls(g.data[..n])
  {
    if n > 0 {
      AccessibleAtMostRolls(g, n - 1);
      assert g.data[..n][..n - 1] == g.data[..n - 1];
      if AccessibleAt(g, n - 1) {
        RowMajor(g.width, g.height, n - 1);
        AtIsRowMajor(g, n - 1);
      }
    }
  }

  /** count_accessible: every cell, row by row, is counted when it is a roll with
      fewer than four roll neighbours. */
  method CountAccessible(g: Grid) returns (count: nat)
    requires Valid(g)
    ensures count == AccessibleCount(g, |g.data|)
  {
    count := 0;
    var y := 0;
    while y < g.height
      invariant 0 <= y <= g.height
      invariant count == AccessibleCount(g, g.width * y)
    {
      var x := 0;
      MulMonotone(g.width, y, g.height);
      while x < g.width
        invariant 0 <= x <= g.width
        invariant g.width * y + x <= |g.data|
        invariant count == AccessibleCount(g, g.width * y + x)
      {
        IndexOf(g, x, y);
        NextIndex(g.width, x, y);
        if CellAt(g, x, y) == Roll {
          var neighborCount := CountNeighbors(g, x, y);
          if neighborCount < 4 {
            count := count + 1;
          }
        }
        x := x + 1;
      }
      NextIndex(g.width, x, y);
      y := y + 1;
    }
  }

  /** solve: parse the grid, then count its accessible rolls. */
  method Solve(data: string) returns (result: Checked<nat>)
    ensures result == match ParsedGrid(data)
      case Abort => Abort
      case Ok(g) => Ok(AccessibleCount(g, |g.data|))
  {
    var grid := ParseGrid(data);
    if grid.Abort? {
      return Abort;
    }
    var count := CountAccessible(grid.value);
    return Ok(count);
  }
}
