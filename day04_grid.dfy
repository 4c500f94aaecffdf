/** Day 4: the grid of paper rolls both parts read (the Grid struct, parse_grid and
    the neighbour count that day04-part1 and day04-part2 each define identically). */
module Day04Grid {
  import opened Utils

  datatype State = Empty | Roll

  /** Grid: size.x columns, size.y rows, cells stored row after row. */
  datatype Grid = Grid(width: int, height: int, data: seq<State>)

  /** A grid as parse_grid builds it: a positive width and width * height cells. */
  predicate Valid(g: Grid) {
    g.width >= 1 && g.height >= 0 && |g.data| == g.width * g.height
  }

  /** Grid::in_bounds */
  predicate InBounds(g: Grid, x: int, y: int) {
    0 <= x < g.width && 0 <= y < g.height
  }

  /** An in-bounds cell's index x + width * y lies inside the cell store. */
  lemma CellIndex(w: int, h: int, x: int, y: int)
    requires 0 <= x < w && 0 <= y < h
    ensures 0 <= x + w * y < w * h
  {
    MulMonotone(w, y, h - 1);
    Distribute(w, h - 1, 1);
  }

  /** Grid::at: the cell at column x of row y, data[x + width * y]. */
  function CellAt(g: Grid, x: int, y: int): State
    requires Valid(g) && InBounds(g, x, y)
  {
    CellIndex(g.width, g.height, x, y);
    g.data[x + g.width * y]
  }

  /** Cell i of the store is column i % width of row i / width. */
  lemma RowMajor(w: int, h: int, i: int)
    requires w >= 1 && 0 <= i < w * h
    ensures 0 <= i % w < w && 0 <= i / w < h
    ensures i % w + w * (i / w) == i
  {
    DivBelow(i, w, h);
  }

  /** at() and the row-major store agree: every cell is reached by exactly one
      in-bounds position, and every in-bounds position reaches its cell. */
  lemma AtIsRowMajor(g: Grid, i: int)
    requires Valid(g) && 0 <= i < |g.data|
    ensures InBounds(g, i % g.width, i / g.width)
    ensures CellAt(g, i % g.width, i / g.width) == g.data[i]
    ensures forall x, y :: InBounds(g, x, y) && x + g.width * y == i ==> x == i % g.width && y == i / g.width
  {
    RowMajor(g.width, g.height, i);
    forall x, y | InBounds(g, x, y) && x + g.width * y == i
      ensures x == i % g.width && y == i / g.width
    {
      DivUnique(i, g.width, y, x);
    }
  }

  /** The cells parse_grid collects from data[..n]: '.' is empty, '@' a roll, a line
      break is skipped and any other character fails the switch's assertion. */
  function CellsOf(data: string, n: nat): Checked<seq<State>>
    requires n <= |data|
  {
    if n == 0 then Ok([])
    else
      match CellsOf(data, n - 1)
      case Abort => Abort
      case Ok(cells) =>
        if data[n - 1] == '\n' then Ok(cells)
        else if data[n - 1] == '.' then Ok(cells + [Empty])
        else if data[n - 1] == '@' then Ok(cells + [Roll])
        else Abort
  }

  /** Index of the first line break at or after pos, or |data| when there is none. */
  function FirstNewline(data: string, pos: nat): (w: nat)
    requires pos <= |data|
    ensures pos <= w <= |data|
    ensures w < |data| ==> data[w] == '\n'
    ensures forall j :: pos <= j < w ==> data[j] != '\n'
    decreases |data| - pos
  {
    if pos == |data| || data[pos] == '\n' then pos else FirstNewline(data, pos + 1)
  }

  /** What parse_grid returns: the width is the index of the first line break; no
      line break, a width of 0 (a remainder by zero) or a cell count that is not a
      multiple of the width stops the program. */
  function ParsedGrid(data: string): (r: Checked<Grid>)
    ensures r.Ok? ==> Valid(r.value)
    ensures r.Ok? ==> r.value.width < |data| && data[r.value.width] == '\n'
    ensures r.Ok? ==> forall j :: 0 <= j < r.value.width ==> data[j] != '\n'
  {
    match CellsOf(data, |data|)
    case Abort => Abort
    case Ok(cells) =>
      var w := FirstNewline(data, 0);
      if w == |data| || w == 0 || |cells| % w != 0 then Abort
      else
        DivUnique(|cells|, w, |cells| / w, 0);
        Ok(Grid(w, |cells| / w, cells))
  }

  /** Once a character fails, the rest of the text cannot undo it. */
  lemma {:induction false} CellsOfAborts(data: string, n: nat, m: nat)
    requires n <= m <= |data| && CellsOf(data, n) == Abort
    ensures CellsOf(data, m) == Abort
    decreases m
  {
    if m > n {
      CellsOfAborts(data, n, m - 1);
    }
  }

  /** Every character other than '.', '@' and a line break makes parse_grid fail;
      otherwise each '.' or '@' gives exactly one cell. */
  lemma {:induction false} CellsOfCounts(data: string, n: nat)
    requires n <= |data|
    ensures CellsOf(data, n).Ok? <==> forall j :: 0 <= j < n ==> data[j] in ".@\n"
    ensures CellsOf(data, n).Ok? ==> |CellsOf(data, n).value| == n - NewlineCount(data, n)
    decreases n
  {
    if n > 0 {
      CellsOfCounts(data, n - 1);
    }
  }

  function NewlineCount(data: string, n: nat): (c: nat)
    requires n <= |data|
    ensures c <= n
  {
    if n == 0 then 0 else NewlineCount(data, n - 1) + (if data[n - 1] == '\n' then 1 else 0)
  }

  /** parse_grid */
  method ParseGrid(data: string) returns (result: Checked<Grid>)
    ensures result == ParsedGrid(data)
  {
    var width: Option<int> := None;
    var cells: seq<State> := [];
    var pos := 0;
    while pos < |data|
      invariant 0 <= pos <= |data|
      invariant CellsOf(data, pos) == Ok(cells)
      invariant width.None? ==> FirstNewline(data, pos) == FirstNewline(data, 0)
      invariant width.Some? ==> width.value == FirstNewline(data, 0) < pos
    {
      if data[pos] == '\n' {
        if width.None? {
          width := Some(pos);
        }
      } else if data[pos] == '.' {
        cells := cells + [Empty];
      } else if data[pos] == '@' {
        cells := cells + [Roll];
      } else {
        CellsOfAborts(data, pos + 1, |data|);
        return Abort;
      }
      pos := pos + 1;
    }
    if width.None? || width.value == 0 || |cells| % width.value != 0 {
      return Abort;
    }
    return Ok(Grid(width.value, |cells| / width.value, cells));
  }

  /** The eight offsets around a cell, in the order the solvers list them. */
  const Offsets: seq<(int, int)> := [(-1, -1), (-1, 0), (-1, 1), (0, -1), (0, 1), (1, -1), (1, 0), (1, 1)]

  /** The offsets are the eight distinct neighbours of the Moore neighbourhood: every
      step of at most one in each direction except staying put, each listed once. */
  lemma OffsetsAreMoore()
    ensures |Offsets| == 8
    ensures forall dx, dy :: (dx, dy) in Offsets <==> -1 <= dx <= 1 && -1 <= dy <= 1 && (dx, dy) != (0, 0)
    ensures forall a, b :: 0 <= a < b < |Offsets| ==> Offsets[a] != Offsets[b]
  {
  }

  /** Whether (x, y) is an in-bounds roll. */
  predicate IsRoll(g: Grid, x: int, y: int)
    requires Valid(g)
  {
    InBounds(g, x, y) && CellAt(g, x, y) == Roll
  }

  /** How many of the first k offsets around (x, y) lead to an in-bounds roll. */
  function NeighborsAmong(g: Grid, x: int, y: int, k: nat): (n: nat)
    requires Valid(g) && k <= |Offsets|
    ensures n <= k
  {
    if k == 0 then 0
    else NeighborsAmong(g, x, y, k - 1) + (if IsRoll(g, x + Offsets[k - 1].0, y + Offsets[k - 1].1) then 1 else 0)
  }

  /** The roll neighbours of (x, y) among the eight around it. */
  function NeighborCount(g: Grid, x: int, y: int): (n: nat)
    requires Valid(g)
    ensures n <= 8
  {
    NeighborsAmong(g, x, y, 8)
  }

  /** The loop over the offsets both solvers run: only in-bounds roll neighbours are
      counted, so the uint8_t counter stays at most 8. */
  method CountNeighbors(g: Grid, x: int, y: int) returns (count: nat)
    requires Valid(g)
    ensures count == NeighborCount(g, x, y)
  {
    count := 0;
    for k := 0 to 8
      invariant count == NeighborsAmong(g, x, y, k)
    {
      var neighbor := (x + Offsets[k].0, y + Offsets[k].1);
      if InBounds(g, neighbor.0, neighbor.1) && CellAt(g, neighbor.0, neighbor.1) == Roll {
        count := count + 1;
      }
    }
  }

  /** A roll at (x, y) that fewer than four rolls surround: the forklifts can reach it. */
  predicate AccessibleCell(g: Grid, x: int, y: int)
    requires Valid(g) && InBounds(g, x, y)
  {
    CellAt(g, x, y) == Roll && NeighborCount(g, x, y) < 4
  }

  /** AccessibleCell for the cell stored at index i. */
  predicate AccessibleAt(g: Grid, i: int)
    requires Valid(g) && 0 <= i < |g.data|
  {
    RowMajor(g.width, g.height, i);
    AccessibleCell(g, i % g.width, i / g.width)
  }

  /** Number of rolls in a cell sequence. */
  function Rolls(cells: seq<State>): (n: nat)
    ensures n <= |cells|
  {
    if cells == [] then 0 else Rolls(cells[..|cells| - 1]) + (if cells[|cells| - 1] == Roll then 1 else 0)
  }

  /** The row-major index of (x, y) advances by one along a row and wraps to the
      next row after the last column. */
  lemma NextIndex(w: int, x: int, y: int)
    ensures w * y + x + 1 == w * y + (x + 1)
    ensures w * y + w == w * (y + 1)
  {
  }

  /** The loops' (x, y) is the cell at index w * y + x. */
  lemma IndexOf(g: Grid, x: int, y: int)
    requires Valid(g) && InBounds(g, x, y)
    ensures 0 <= g.width * y + x < |g.data|
    ensures (g.width * y + x) % g.width == x && (g.width * y + x) / g.width == y
    ensures CellAt(g, x, y) == g.data[g.width * y + x]
  {
    CellIndex(g.width, g.height, x, y);
    DivUnique(g.width * y + x, g.width, y, x);
  }
}
