/** Day 7, part 1: the beam enters at 'S' and runs down; a splitter below a beam
    sends beams to its left and right neighbours. solve marks the beams in place row
    by row and counts the splits. */
module Day07Part1 {
  import opened Utils
  import opened Day07Grid

  /** The grid with cell (x, y) set to s. */
  function SetCell(g: Grid, x: int, y: int, s: State): (r: Grid)
    requires Valid(g) && InBounds(g, x, y)
    ensures Valid(r) && r.width == g.width && r.height == g.height && r.startX == g.startX
  {
    Cell(g, x, y);
    g.(data := g.data[x + g.width * y := s])
  }

  /** Setting one cell changes no other cell. */
  lemma SetCellAt(g: Grid, x: int, y: int, s: State, x': int, y': int)
    requires Valid(g) && InBounds(g, x, y) && InBounds(g, x', y')
    ensures StateAt(SetCell(g, x, y, s), x', y') == if x' == x && y' == y then s else StateAt(g, x', y')
  {
    Cell(g, x, y);
    Cell(g, x', y');
    if x' + g.width * y' == x + g.width * y {
      IndexInjective(g.width, x, y, x', y');
    }
  }

  lemma IndexInjective(w: int, x: int, y: int, x': int, y': int)
    requires 0 <= x < w && 0 <= x' < w && 0 <= y && 0 <= y' && x + w * y == x' + w * y'
    ensures x == x' && y == y'
  {
    if y < y' {
      MulMonotone(w, y + 1, y');
      Distribute(w, y, 1);
    } else if y' < y {
      MulMonotone(w, y' + 1, y);
      Distribute(w, y', 1);
    }
  }

  /** One iteration of solve's inner loop at (x, y), y >= 1: an empty cell below a
      beam becomes a beam; a splitter below a beam asserts both neighbours are in
      bounds and not splitters, makes them beams and counts a split; any other cell
      is left alone. */
  function Visit(g: Grid, x: int, y: int): (r: Checked<(Grid, bool)>)
    requires Valid(g) && InBounds(g, x, y) && y >= 1
    ensures r.Ok? ==> Valid(r.value.0) && r.value.0.width == g.width && r.value.0.height == g.height && r.value.0.startX == g.startX
  {
    var state := StateAt(g, x, y);
    var above := StateAt(g, x, y - 1);
    if state == Empty && above == Beam then Ok((SetCell(g, x, y, Beam), false))
    else if state == Splitter && above == Beam then
      if !InBounds(g, x - 1, y) || !InBounds(g, x + 1, y) then Abort
      else if StateAt(g, x - 1, y) == Splitter || StateAt(g, x + 1, y) == Splitter then Abort
      else Ok((SetCell(SetCell(g, x - 1, y, Beam), x + 1, y, Beam), true))
    else Ok((g, false))
  }

  /** solve's loops from (x, y) on, row after row, with count splits so far. */
  function RunFrom(g: Grid, x: int, y: int, count: nat): (r: Checked<(Grid, nat)>)
    requires Valid(g) && 1 <= y <= g.height && 0 <= x <= g.width
    decreases g.height - y, g.width - x
  {
    if y == g.height then Ok((g, count))
    else if x == g.width then RunFrom(g, 0, y + 1, count)
    else
      match Visit(g, x, y)
      case Abort => Abort
      case Ok((next, split)) => RunFrom(next, x + 1, y, if split then count + 1 else count)
  }

  /** The beams marked and the splits counted over the whole grid. */
  function Simulate(g: Grid): Checked<(Grid, nat)>
    requires Valid(g)
  {
    RunFrom(g, 0, 1, 0)
  }

  /** The two grids have the same shape. */
  predicate SameShape(g0: Grid, g: Grid) {
    Valid(g0) && Valid(g) && g.width == g0.width && g.height == g0.height && g.startX == g0.startX
  }

  /** How g may differ from the grid g0 solve started with: splitters are where
      they were, row 0 is as it was, and a cell that changed went from empty to
      beam. */
  ghost predicate Grown(g0: Grid, g: Grid)
    requires SameShape(g0, g)
  {
    forall x, y :: InBounds(g, x, y) ==>
      && (StateAt(g0, x, y) == Splitter <==> StateAt(g, x, y) == Splitter)
      && (StateAt(g, x, y) != StateAt(g0, x, y) ==> StateAt(g0, x, y) == Empty && StateAt(g, x, y) == Beam)
      && (y == 0 ==> StateAt(g, x, y) == StateAt(g0, x, y))
  }

  /** The beam rules at cell (x, y) below row 0: under a beam, a cell that was empty
      is a beam, and a splitter has its left and right neighbours in bounds and
      beams. */
  predicate Closed(g0: Grid, g: Grid, x: int, y: int)
    requires SameShape(g0, g) && InBounds(g, x, y) && y >= 1
  {
    StateAt(g, x, y - 1) == Beam ==>
      && (StateAt(g0, x, y) == Empty ==> StateAt(g, x, y) == Beam)
      && (StateAt(g0, x, y) == Splitter ==>
            1 <= x < g.width - 1 && StateAt(g, x - 1, y) == Beam && StateAt(g, x + 1, y) == Beam)
  }

  /** Cell (x, y) comes before cell (vx, vy) in solve's row by row order. */
  predicate Before(x: int, y: int, vx: int, vy: int) {
    y < vy || (y == vy && x < vx)
  }

  /** The splitters stored at positions lo up to (not including) hi. */
  function SplittersIn(s: seq<State>, lo: nat, hi: nat): nat
    requires lo <= hi <= |s|
    decreases hi - lo
  {
    if hi == lo then 0 else SplittersIn(s, lo, hi - 1) + (if s[hi - 1] == Splitter then 1 else 0)
  }

  /** The splitters below row 0. */
  function SplittersBelowTop(g: Grid): nat
    requires Valid(g)
  {
    MulMonotone(g.width, 1, g.height);
    SplittersIn(g.data, g.width, |g.data|)
  }

  /** What holds before solve visits (x, y): the grid has only grown, the splits
      counted are at most the splitters visited, and every visited cell obeys the
      beam rules. */
  ghost predicate RunState(g0: Grid, g: Grid, x: int, y: int, count: nat) {
    && SameShape(g0, g) && 1 <= y <= g.height && 0 <= x <= g.width && (y == g.height ==> x == 0)
    && Grown(g0, g)
    && g.width <= x + g.width * y <= |g0.data|
    && count <= SplittersIn(g0.data, g.width, x + g.width * y)
    && forall x', y' :: InBounds(g, x', y') && 1 <= y' && Before(x', y', x, y) ==> Closed(g0, g, x', y')
  }

  /** Every cell but (x, y) is as it was. */
  lemma SetCellOthers(g: Grid, x: int, y: int, s: State)
    requires Valid(g) && InBounds(g, x, y)
    ensures StateAt(SetCell(g, x, y, s), x, y) == s
    ensures forall x', y' :: InBounds(g, x', y') && (x' != x || y' != y) ==> StateAt(SetCell(g, x, y, s), x', y') == StateAt(g, x', y')
  {
    SetCellAt(g, x, y, s, x, y);
    forall x', y' | InBounds(g, x', y') && (x' != x || y' != y)
      ensures StateAt(SetCell(g, x, y, s), x', y') == StateAt(g, x', y')
    {
      SetCellAt(g, x, y, s, x', y');
    }
  }

  /** A visit writes only in its own row, and only beams. */
  ghost predicate Widened(g: Grid, g': Grid, y: int)
    requires SameShape(g, g')
  {
    forall x', y' :: InBounds(g, x', y') ==>
      && (StateAt(g, x', y') == Beam ==> StateAt(g', x', y') == Beam)
      && (StateAt(g', x', y') != StateAt(g, x', y') ==> y' == y && StateAt(g', x', y') == Beam)
  }

  /** Cells visited before row y keep obeying the beam rules when only row y
      changes, and only to beams: the cell above each lies outside row y. */
  lemma ClosedKeeps(g0: Grid, g: Grid, g': Grid, x: int, y: int)
    requires SameShape(g0, g) && SameShape(g, g') && Widened(g, g', y)
    requires forall x', y' :: InBounds(g, x', y') && 1 <= y' && Before(x', y', x, y) ==> Closed(g0, g, x', y')
    ensures forall x', y' :: InBounds(g, x', y') && 1 <= y' && Before(x', y', x, y) ==> Closed(g0, g', x', y')
  {
    forall x', y' | InBounds(g, x', y') && 1 <= y' && Before(x', y', x, y)
      ensures Closed(g0, g', x', y')
    {
      assert Closed(g0, g, x', y');
      assert StateAt(g', x', y' - 1) == StateAt(g, x', y' - 1);
      if StateAt(g0, x', y') == Splitter && StateAt(g, x', y' - 1) == Beam {
        assert StateAt(g, x' - 1, y') == Beam && StateAt(g, x' + 1, y') == Beam;
      }
    }
  }

  lemma SplittersStep(s: seq<State>, lo: nat, hi: nat)
    requires lo <= hi < |s|
    ensures SplittersIn(s, lo, hi + 1) == SplittersIn(s, lo, hi) + (if s[hi] == Splitter then 1 else 0)
  {
  }

  /** An empty cell under a beam becomes a beam. */
  lemma EmptyVisit(g0: Grid, g: Grid, x: int, y: int)
    requires SameShape(g0, g) && Grown(g0, g) && InBounds(g, x, y) && y >= 1
    requires StateAt(g, x, y) == Empty && StateAt(g, x, y - 1) == Beam
    ensures var next := SetCell(g, x, y, Beam);
      SameShape(g0, next) && Grown(g0, next) && Widened(g, next, y) && Closed(g0, next, x, y)
  {
    SetCellOthers(g, x, y, Beam);
  }

  /** A splitter under a beam makes beams of both its neighbours. */
  lemma SplitVisit(g0: Grid, g: Grid, x: int, y: int)
    requires SameShape(g0, g) && Grown(g0, g) && y >= 1 && 1 <= x < g.width - 1 && y < g.height
    requires StateAt(g, x, y) == Splitter && StateAt(g, x, y - 1) == Beam
    requires StateAt(g, x - 1, y) != Splitter && StateAt(g, x + 1, y) != Splitter
    ensures var next := SetCell(SetCell(g, x - 1, y, Beam), x + 1, y, Beam);
      SameShape(g0, next) && Grown(g0, next) && Widened(g, next, y) && Closed(g0, next, x, y)
    ensures StateAt(g0, x, y) == Splitter
  {
    var mid := SetCell(g, x - 1, y, Beam);
    SetCellOthers(g, x - 1, y, Beam);
    SetCellOthers(mid, x + 1, y, Beam);
  }

  /** Any other cell is left alone, and already obeys the beam rules. */
  lemma QuietVisit(g0: Grid, g: Grid, x: int, y: int)
    requires SameShape(g0, g) && Grown(g0, g) && InBounds(g, x, y) && y >= 1
    requires !(StateAt(g, x, y) == Empty && StateAt(g, x, y - 1) == Beam)
    requires !(StateAt(g, x, y) == Splitter && StateAt(g, x, y - 1) == Beam)
    ensures Widened(g, g, y) && Closed(g0, g, x, y)
  {
  }

  /** A visited cell that obeys the beam rules joins the cells visited before. */
  lemma ClosedExtend(g0: Grid, g: Grid, x: int, y: int)
    requires SameShape(g0, g) && InBounds(g, x, y) && y >= 1 && Closed(g0, g, x, y)
    requires forall x', y' :: InBounds(g, x', y') && 1 <= y' && Before(x', y', x, y) ==> Closed(g0, g, x', y')
    ensures forall x', y' :: InBounds(g, x', y') && 1 <= y' && Before(x', y', x + 1, y) ==> Closed(g0, g, x', y')
  {
  }

  /** A split happens only at a splitter, so the count stays within the splitters
      visited. */
  lemma CountStep(g0: Grid, i: nat, count: nat, split: bool)
    requires 0 <= g0.width <= i < |g0.data| && count <= SplittersIn(g0.data, g0.width, i)
    requires split ==> g0.data[i] == Splitter
    ensures (if split then count + 1 else count) <= SplittersIn(g0.data, g0.width, i + 1)
  {
    SplittersStep(g0.data, g0.width, i);
  }

  /** A visit keeps what holds before each visit, for the next cell. */
  lemma VisitKeeps(g0: Grid, g: Grid, x: int, y: int, count: nat)
    requires RunState(g0, g, x, y, count) && x < g.width && y < g.height
    requires Visit(g, x, y).Ok?
    ensures var (next, split) := Visit(g, x, y).value;
      RunState(g0, next, x + 1, y, if split then count + 1 else count)
  {
    var (next, split) := Visit(g, x, y).value;
    if StateAt(g, x, y) == Empty && StateAt(g, x, y - 1) == Beam {
      EmptyVisit(g0, g, x, y);
    } else if StateAt(g, x, y) == Splitter && StateAt(g, x, y - 1) == Beam {
      SplitVisit(g0, g, x, y);
    } else {
      QuietVisit(g0, g, x, y);
    }
    Cell(g0, x, y);
    CountStep(g0, x + g0.width * y, count, split);
    ClosedKeeps(g0, g, next, x, y);
    ClosedExtend(g0, next, x, y);
  }

  /** The end of a row: the next visit is the start of the next row. */
  lemma RowKeeps(g0: Grid, g: Grid, y: int, count: nat)
    requires RunState(g0, g, g.width, y, count) && y < g.height
    ensures RunState(g0, g, 0, y + 1, count)
  {
    Distribute(g.width, y, 1);
    MulMonotone(g.width, y + 1, g.height);
  }

  /** What holds before a visit still holds when the loops end. */
  lemma {:induction false} RunKeeps(g0: Grid, g: Grid, x: int, y: int, count: nat)
    requires RunState(g0, g, x, y, count)
    ensures var r := RunFrom(g, x, y, count);
      r.Ok? ==> RunState(g0, r.value.0, 0, g.height, r.value.1)
    decreases g.height - y, g.width - x
  {
    if y < g.height {
      if x == g.width {
        RowKeeps(g0, g, y, count);
        RunKeeps(g0, g, 0, y + 1, count);
      } else if Visit(g, x, y).Ok? {
        var (next, split) := Visit(g, x, y).value;
        VisitKeeps(g0, g, x, y, count);
        RunKeeps(g0, next, x + 1, y, if split then count + 1 else count);
      }
    }
  }

  /** What solve leaves behind: splitters and row 0 are untouched, a cell only ever
      went from empty to beam, every cell below row 0 obeys the beam rules, and the
      splits number at most the splitters below row 0. */
  lemma SimulateProperties(g0: Grid)
    requires Valid(g0)
    ensures var r := Simulate(g0);
      r.Ok? ==>
        && SameShape(g0, r.value.0) && Grown(g0, r.value.0)
        && (forall x, y :: InBounds(g0, x, y) && 1 <= y ==> Closed(g0, r.value.0, x, y))
        && r.value.1 <= SplittersIn(g0.data, g0.width, |g0.data|)
  {
    assert g0.width * 1 == g0.width;
    MulMonotone(g0.width, 1, g0.height);
    RunKeeps(g0, g0, 0, 1, 0);
  }

  /** One iteration of solve's inner loop, on the cells in place. */
  method VisitCell(cells: array<State>, width: int, height: int, startX: nat, x: int, y: int) returns (result: Checked<bool>)
    requires Valid(Grid(width, height, startX, cells[..])) && 0 <= x < width && 1 <= y < height
    modifies cells
    ensures match Visit(Grid(width, height, startX, old(cells[..])), x, y)
      case Abort => result == Abort
      case Ok((next, split)) => result == Ok(split) && cells[..] == next.data
  {
    ghost var g := Grid(width, height, startX, cells[..]);
    Cell(g, x, y);
    Cell(g, x, y - 1);
    var state := cells[x + width * y];
    var above := cells[x + width * (y - 1)];
    if state == Empty && above == Beam {
      cells[x + width * y] := Beam;
      assert cells[..] == SetCell(g, x, y, Beam).data;
      return Ok(false);
    }
    if state == Splitter && above == Beam {
      if !(0 <= x - 1 < width && 0 <= x + 1 < width) {
        return Abort;
      }
      Cell(g, x - 1, y);
      Cell(g, x + 1, y);
      if cells[x - 1 + width * y] == Splitter || cells[x + 1 + width * y] == Splitter {
        return Abort;
      }
      cells[x - 1 + width * y] := Beam;
      cells[x + 1 + width * y] := Beam;
      assert cells[..] == SetCell(SetCell(g, x - 1, y, Beam), x + 1, y, Beam).data;
      return Ok(true);
    }
    return Ok(false);
  }

  /** solve's loops on the cells in place; the grid is a fixed-size buffer. */
  method Propagate(cells: array<State>, width: int, height: int, startX: nat) returns (result: Checked<nat>)
    requires Valid(Grid(width, height, startX, cells[..]))
    modifies cells
    ensures result == match Simulate(Grid(width, height, startX, old(cells[..])))
      case Abort => Abort
      case Ok((_, n)) => Ok(n)
    ensures result.Ok? ==> Simulate(Grid(width, height, startX, old(cells[..]))) == Ok((Grid(width, height, startX, cells[..]), result.value))
  {
    ghost var g0 := Grid(width, height, startX, cells[..]);
    var splitCount := 0;
    var y := 1;
    while y < height
      invariant 1 <= y <= height && Valid(Grid(width, height, startX, cells[..]))
      invariant RunFrom(Grid(width, height, startX, cells[..]), 0, y, splitCount) == Simulate(g0)
      decreases height - y
    {
      var x := 0;
      while x < width
        invariant 0 <= x <= width && Valid(Grid(width, height, startX, cells[..]))
        invariant RunFrom(Grid(width, height, startX, cells[..]), x, y, splitCount) == Simulate(g0)
        decreases width - x
      {
        var split := VisitCell(cells, width, height, startX, x, y);
        if split.Abort? {
          return Abort;
        }
        if split.value {
          splitCount := splitCount + 1;
        }
        x := x + 1;
      }
      y := y + 1;
    }
    return Ok(splitCount);
  }

  /** solve: parse the grid with the 'S' cell as a beam, then mark the beams and
      count the splits. */
  method Solve(data: string) returns (result: Checked<nat>)
    ensures result == match ParsedGrid(data, Beam)
      case Abort => Abort
      case Ok(g) => (match Simulate(g) case Abort => Abort case Ok((_, n)) => Ok(n))
    ensures result.Ok? ==> ParsedGrid(data, Beam).Ok? && result.value <= SplittersBelowTop(ParsedGrid(data, Beam).value)
  {
    var parsed := ParseGrid(data, Beam);
    if parsed.Abort? {
      return Abort;
    }
    var g := parsed.value;
    var cells := new State[|g.data|](i requires 0 <= i < |g.data| => g.data[i]);
    assert cells[..] == g.data;
    result := Propagate(cells, g.width, g.height, g.startX);
    SimulateProperties(g);
  }
}
