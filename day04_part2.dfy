/** Day 4, part 2: accessible rolls are removed pass after pass, each pass reading
    only the grid the previous one left, until a pass removes nothing; the answer is
    the number of rolls removed in all. */
module Day04Part2 {
  import opened Utils
  import opened Day04Grid

  /** accessible: the C++ asserts that pos is an in-bounds roll, then counts its roll
      neighbours; the roll is accessible when there are fewer than four. */
  method Accessible(g: Grid, x: int, y: int) returns (accessible: bool)
    requires Valid(g) && InBounds(g, x, y) && CellAt(g, x, y) == Roll
    ensures accessible <==> AccessibleCell(g, x, y)
  {
    var neighborCount := CountNeighbors(g, x, y);
    if neighborCount >= 4 {
      return false;
    }
    return true;
  }

  /** What a pass writes for stored cell i: an empty cell stays empty, a roll is kept
      exactly when it is not accessible. */
  function NextState(g: Grid, i: int): State
    requires Valid(g) && 0 <= i < |g.data|
  {
    if g.data[i] == Roll && !AccessibleAt(g, i) then Roll else Empty
  }

  /** The first n cells a pass writes, each computed from the input grid alone. */
  function ErodedCells(g: Grid, n: nat): (r: seq<State>)
    requires Valid(g) && n <= |g.data|
    ensures |r| == n
  {
    if n == 0 then [] else ErodedCells(g, n - 1) + [NextState(g, n - 1)]
  }

  /** The grid one pass leaves: same size, every cell replaced by NextState. */
  function Erode(g: Grid): (r: Grid)
    requires Valid(g)
    ensures Valid(r) && r.width == g.width && r.height == g.height
  {
    Grid(g.width, g.height, ErodedCells(g, |g.data|))
  }

  /** How many of the first n cells are accessible rolls. */
  function RemovedAmong(g: Grid, n: nat): nat
    requires Valid(g) && n <= |g.data|
  {
    if n == 0 then 0 else RemovedAmong(g, n - 1) + (if g.data[n - 1] == Roll && AccessibleAt(g, n - 1) then 1 else 0)
  }

  /** A pass turns exactly the accessible rolls into empty cells: the rolls it keeps
      and the rolls it removes make up the rolls it was given. */
  lemma {:induction false} ErodedRolls(g: Grid, n: nat)
    requires Valid(g) && n <= |g.data|
    ensures Rolls(ErodedCells(g, n)) + RemovedAmong(g, n) == Rolls(g.data[..n])
    decreases n
  {
    if n > 0 {
      ErodedRolls(g, n - 1);
      assert g.data[..n][..n - 1] == g.data[..n - 1];
      assert ErodedCells(g, n)[..n - 1] == ErodedCells(g, n - 1);
    }
  }

  /** A pass that removes nothing leaves the grid as it was. */
  lemma {:induction false} NothingRemovedIsFixed(g: Grid, n: nat)
    requires Valid(g) && n <= |g.data| && RemovedAmong(g, n) == 0
    ensures ErodedCells(g, n) == g.data[..n]
    decreases n
  {
    if n > 0 {
      NothingRemovedIsFixed(g, n - 1);
      assert g.data[..n] == g.data[..n - 1] + [g.data[n - 1]];
    }
  }

  /** A pass that removes some roll changes the grid. */
  lemma {:induction false} SomethingRemovedChanges(g: Grid, n: nat)
    requires Valid(g) && n <= |g.data| && RemovedAmong(g, n) > 0
    ensures Rolls(ErodedCells(g, n)) < Rolls(g.data[..n])
  {
    ErodedRolls(g, n);
  }

  /** remove_accessible_rolls: the output takes the input's size, its cells are
      cleared and written row by row from the input grid alone, and the number of
      rolls removed is returned. */
  method RemoveAccessibleRolls(g: Grid) returns (output: Grid, removed: nat)
    requires Valid(g)
    ensures output == Erode(g)
    ensures removed == RemovedAmong(g, |g.data|)
    ensures removed == Rolls(g.data) - Rolls(output.data)
  {
    var cells: seq<State> := [];
    removed := 0;
    var y := 0;
    while y < g.height
      invariant 0 <= y <= g.height
      invariant cells == ErodedCells(g, g.width * y)
      invariant removed == RemovedAmong(g, g.width * y)
    {
      var x := 0;
      MulMonotone(g.width, y, g.height);
      while x < g.width
        invariant 0 <= x <= g.width
        invariant g.width * y + x <= |g.data|
        invariant cells == ErodedCells(g, g.width * y + x)
        invariant removed == RemovedAmong(g, g.width * y + x)
      {
        IndexOf(g, x, y);
        NextIndex(g.width, x, y);
        if CellAt(g, x, y) == Empty {
          cells := cells + [Empty];
        } else {
          var accessible := Accessible(g, x, y);
          if accessible {
            cells := cells + [Empty];
            removed := removed + 1;
          } else {
            cells := cells + [Roll];
          }
        }
        x := x + 1;
      }
      NextIndex(g.width, x, y);
      y := y + 1;
    }
    output := Grid(g.width, g.height, cells);
    ErodedRolls(g, |g.data|);
    assert g.data[..|g.data|] == g.data;
  }

  /** The grid the passes settle on: pass after pass until one removes nothing. The
      roll count drops on every pass that removes something, so this ends. */
  function Settle(g: Grid): (r: Grid)
    requires Valid(g)
    ensures Valid(r) && r.width == g.width && r.height == g.height
    decreases Rolls(g.data)
  {
    if RemovedAmong(g, |g.data|) == 0 then g
    else
      SomethingRemovedChanges(g, |g.data|);
      assert g.data[..|g.data|] == g.data;
      Settle(Erode(g))
  }

  /** The grid settled on is a fixed point: one more pass removes nothing and leaves
      it unchanged. */
  lemma {:induction false} SettleIsFixed(g: Grid)
    requires Valid(g)
    ensures RemovedAmong(Settle(g), |Settle(g).data|) == 0
    ensures Erode(Settle(g)) == Settle(g)
    decreases Rolls(g.data)
  {
    if RemovedAmong(g, |g.data|) == 0 {
      NothingRemovedIsFixed(g, |g.data|);
      assert g.data[..|g.data|] == g.data;
    } else {
      SomethingRemovedChanges(g, |g.data|);
      assert g.data[..|g.data|] == g.data;
      SettleIsFixed(Erode(g));
    }
  }

  /** The rolls that all the passes remove together: the settled grid never has more
      rolls than the start. */
  lemma {:induction false} SettleRolls(g: Grid)
    requires Valid(g)
    ensures Rolls(Settle(g).data) <= Rolls(g.data)
    decreases Rolls(g.data)
  {
    if RemovedAmong(g, |g.data|) > 0 {
      SomethingRemovedChanges(g, |g.data|);
      assert g.data[..|g.data|] == g.data;
      SettleRolls(Erode(g));
    }
  }

  /** solve: passes swap the two grids until a pass removes nothing; the total
      removed is the starting roll count less the settled one. */
  method Solve(data: string) returns (result: Checked<nat>)
    ensures result == match ParsedGrid(data)
      case Abort => Abort
      case Ok(g) => Ok(Rolls(g.data) - Rolls(Settle(g).data))
  {
    var parsed := ParseGrid(data);
    if parsed.Abort? {
      return Abort;
    }
    ghost var start := parsed.value;
    var grid := parsed.value;
    var totalRemoved := 0;
    SettleRolls(start);
    while true
      invariant Valid(grid) && Settle(grid) == Settle(start)
      invariant Rolls(grid.data) <= Rolls(start.data)
      invariant totalRemoved == Rolls(start.data) - Rolls(grid.data)
      decreases Rolls(grid.data)
    {
      var output, removed := RemoveAccessibleRolls(grid);
      if removed == 0 {
        break;
      }
      totalRemoved := totalRemoved + removed;
      grid := output;
    }
    return Ok(totalRemoved);
  }
}
