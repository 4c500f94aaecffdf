/** Day 7: the tachyon manifold both parts read. One 'S' in the first row marks where
    the beam enters, '^' is a splitter and '.' an empty cell. day07-part1 stores the
    'S' cell as a beam and day07-part2 as an empty cell; the parse is otherwise the
    same. */
module Day07Grid {
  import opened Utils

  datatype State = Empty | Splitter | Beam

  /** Grid: size.x columns, size.y rows, the start column (its row is 0) and the
      cells row after row. */
  datatype Grid = Grid(width: int, height: int, startX: nat, data: seq<State>)

  predicate Valid(g: Grid) {
    g.width >= 1 && g.height >= 1 && |g.data| == g.width * g.height && g.startX < g.width
  }

  predicate InBounds(g: Grid, x: int, y: int) {
    0 <= x < g.width && 0 <= y < g.height
  }

  /** Cell (x, y) of a valid grid is stored at x + width * y. */
  lemma Cell(g: Grid, x: int, y: int)
    requires Valid(g) && InBounds(g, x, y)
    ensures 0 <= x + g.width * y < |g.data|
  {
    MulMonotone(g.width, y, g.height - 1);
    Distribute(g.width, g.height - 1, 1);
  }

  function StateAt(g: Grid, x: int, y: int): State
    requires Valid(g) && InBounds(g, x, y)
  {
    Cell(g, x, y);
    g.data[x + g.width * y]
  }

  /** The cell one character becomes; 'S' becomes startAs. */
  function CellOf(c: char, startAs: State): State {
    if c == '^' then Splitter else if c == 'S' then startAs else Empty
  }

  /** The cells of the text from pos on: one per character, line breaks dropped. */
  function CellsFrom(data: string, pos: nat, startAs: State): seq<State>
    requires pos <= |data|
    decreases |data| - pos
  {
    if pos == |data| then []
    else (if data[pos] == '\n' then [] else [CellOf(data[pos], startAs)]) + CellsFrom(data, pos + 1, startAs)
  }

  /** parse_grid's variables: the cells so far, the start's position once read and
      the width once the first line break has set it. */
  datatype ParseVars = ParseVars(cells: seq<State>, start: Option<nat>, width: Option<int>)

  /** What holds before character pos is read: before the first line break every
      character has given a cell; the start, once set, is a cell stored as startAs
      and lies in the first line. */
  predicate ParseState(pos: nat, v: ParseVars, startAs: State) {
    && (v.width.None? ==> |v.cells| == pos)
    && (v.width.Some? ==> 0 <= v.width.value <= |v.cells|)
    && (v.start.Some? ==>
          && v.start.value < |v.cells| && v.cells[v.start.value] == startAs
          && (v.width.Some? ==> v.start.value < v.width.value))
  }

  /** One iteration of parse_grid's loop, on character pos: the first line break
      sets the width to its position and every later one asserts the cells fill
      whole rows; '.', '^' and 'S' each give a cell, 'S' only once and only before
      the first line break; any other character fails the assertion. */
  function Step(data: string, pos: nat, v: ParseVars, startAs: State): Checked<ParseVars>
    requires pos < |data|
  {
    var c := data[pos];
    if c == '\n' then
      if v.width.None? then Ok(v.(width := Some(pos)))
      else if v.width.value == 0 || |v.cells| % v.width.value != 0 then Abort
      else Ok(v)
    else if c == '.' then Ok(v.(cells := v.cells + [Empty]))
    else if c == 'S' then
      if v.start.Some? || v.width.Some? then Abort
      else Ok(ParseVars(v.cells + [startAs], Some(pos), v.width))
    else if c == '^' then Ok(v.(cells := v.cells + [Splitter]))
    else Abort
  }

  lemma StepKeeps(data: string, pos: nat, v: ParseVars, startAs: State)
    requires pos < |data| && ParseState(pos, v, startAs)
    ensures Step(data, pos, v, startAs).Ok? ==> ParseState(pos + 1, Step(data, pos, v, startAs).value, startAs)
  {
  }

  /** The end of parse_grid: a start and a width are asserted, and the cells must
      fill whole rows. */
  function Finish(data: string, v: ParseVars, startAs: State): (r: Checked<Grid>)
    requires ParseState(|data|, v, startAs)
    ensures r.Ok? ==> Valid(r.value) && r.value.data == v.cells && r.value.data[r.value.startX] == startAs
    ensures r.Ok? ==> v.start.Some? && v.width.Some? && r.value.startX == v.start.value && r.value.width == v.width.value
  {
    if v.start.None? || v.width.None? || v.width.value == 0 || |v.cells| % v.width.value != 0 then Abort
    else
      DivUnique(|v.cells|, v.width.value, |v.cells| / v.width.value, 0);
      Ok(Grid(v.width.value, |v.cells| / v.width.value, v.start.value, v.cells))
  }

  /** parse_grid's loop from pos on. */
  function GridFrom(data: string, pos: nat, v: ParseVars, startAs: State): (r: Checked<Grid>)
    requires pos <= |data| && ParseState(pos, v, startAs)
    ensures r.Ok? ==> Valid(r.value) && r.value.data[r.value.startX] == startAs
    decreases |data| - pos
  {
    if pos == |data| then Finish(data, v, startAs)
    else
      match Step(data, pos, v, startAs)
      case Abort => Abort
      case Ok(next) =>
        StepKeeps(data, pos, v, startAs);
        GridFrom(data, pos + 1, next, startAs)
  }

  /** parse_grid, the 'S' cell stored as startAs. */
  function ParsedGrid(data: string, startAs: State): (r: Checked<Grid>)
    ensures r.Ok? ==> Valid(r.value) && r.value.data[r.value.startX] == startAs
  {
    GridFrom(data, 0, ParseVars([], None, None), startAs)
  }

  /** A step adds the cell of its character, nothing for a line break. */
  lemma StepCells(data: string, pos: nat, v: ParseVars, startAs: State)
    requires pos < |data| && Step(data, pos, v, startAs).Ok?
    ensures Step(data, pos, v, startAs).value.cells == v.cells + (if data[pos] == '\n' then [] else [CellOf(data[pos], startAs)])
  {
  }

  /** The grid holds exactly the cells of the characters read. */
  lemma {:induction false} GridCells(data: string, pos: nat, v: ParseVars, startAs: State)
    requires pos <= |data| && ParseState(pos, v, startAs)
    ensures var r := GridFrom(data, pos, v, startAs);
      r.Ok? ==> r.value.data == v.cells + CellsFrom(data, pos, startAs)
    decreases |data| - pos
  {
    var r := GridFrom(data, pos, v, startAs);
    if r.Ok? {
      if pos == |data| {
        assert v.cells + [] == v.cells;
      } else {
        var next := Step(data, pos, v, startAs).value;
        assert r == GridFrom(data, pos + 1, next, startAs);
        StepKeeps(data, pos, v, startAs);
        GridCells(data, pos + 1, next, startAs);
        var head := if data[pos] == '\n' then [] else [CellOf(data[pos], startAs)];
        StepCells(data, pos, v, startAs);
        SeqAssoc(v.cells, head, CellsFrom(data, pos + 1, startAs));
      }
    }
  }

  /** What the characters before pos say about the variables: the width, once set,
      is the position of the first line break; the start, once set, is the one 'S'
      read so far, and before it is set there is none. */
  predicate TextState(data: string, pos: nat, v: ParseVars) {
    && pos <= |data|
    && (v.width.None? ==> forall j :: 0 <= j < pos ==> data[j] != '\n')
    && (v.width.Some? ==>
          && 0 <= v.width.value < pos && data[v.width.value] == '\n'
          && forall j :: 0 <= j < v.width.value ==> data[j] != '\n')
    && (v.start.Some? ==>
          && v.start.value < pos && data[v.start.value] == 'S'
          && forall j :: 0 <= j < pos && j != v.start.value ==> data[j] != 'S')
    && (v.start.None? ==> forall j :: 0 <= j < pos ==> data[j] != 'S')
  }

  lemma TextStep(data: string, pos: nat, v: ParseVars, startAs: State)
    requires pos < |data| && TextState(data, pos, v)
    ensures Step(data, pos, v, startAs).Ok? ==> TextState(data, pos + 1, Step(data, pos, v, startAs).value)
  {
  }

  /** What the parse promises of the text behind the grid it returns: the text has
      exactly one 'S', at the start column, so in the first line; the width is the
      length of the first line. */
  predicate FromText(data: string, g: Grid) {
    && g.startX < |data| && data[g.startX] == 'S'
    && (forall j :: 0 <= j < |data| && j != g.startX ==> data[j] != 'S')
    && 0 <= g.width < |data| && data[g.width] == '\n'
    && (forall j :: 0 <= j < g.width ==> data[j] != '\n')
  }

  lemma {:induction false} GridText(data: string, pos: nat, v: ParseVars, startAs: State)
    requires ParseState(pos, v, startAs) && TextState(data, pos, v)
    ensures var r := GridFrom(data, pos, v, startAs);
      r.Ok? ==> FromText(data, r.value)
    decreases |data| - pos
  {
    if pos < |data| && Step(data, pos, v, startAs).Ok? {
      var next := Step(data, pos, v, startAs).value;
      StepKeeps(data, pos, v, startAs);
      TextStep(data, pos, v, startAs);
      GridText(data, pos + 1, next, startAs);
    }
  }

  /** The grid parse_grid returns: one cell per character but the line breaks, the
      'S' cell stored as startAs; the one 'S' of the text sits in the first line, at
      the start column. */
  lemma ParsedGridIs(data: string, startAs: State)
    ensures var r := ParsedGrid(data, startAs);
      r.Ok? ==> FromText(data, r.value) && r.value.data == CellsFrom(data, 0, startAs)
  {
    GridText(data, 0, ParseVars([], None, None), startAs);
    GridCells(data, 0, ParseVars([], None, None), startAs);
    assert [] + CellsFrom(data, 0, startAs) == CellsFrom(data, 0, startAs);
  }

  /** parse_grid */
  method ParseGrid(data: string, startAs: State) returns (result: Checked<Grid>)
    ensures result == ParsedGrid(data, startAs)
  {
    var cells: seq<State> := [];
    var start: Option<nat> := None;
    var width: Option<int> := None;
    for pos := 0 to |data|
      invariant ParseState(pos, ParseVars(cells, start, width), startAs)
      invariant GridFrom(data, pos, ParseVars(cells, start, width), startAs) == ParsedGrid(data, startAs)
    {
      StepKeeps(data, pos, ParseVars(cells, start, width), startAs);
      var c := data[pos];
      if c == '\n' {
        if width.None? {
          width := Some(pos);
        } else if width.value == 0 || |cells| % width.value != 0 {
          return Abort;
        }
      } else if c == '.' {
        cells := cells + [Empty];
      } else if c == 'S' {
        if start.Some? || width.Some? {
          return Abort;
        }
        start := Some(pos);
        cells := cells + [startAs];
      } else if c == '^' {
        cells := cells + [Splitter];
      } else {
        return Abort;
      }
    }
    result := Finish(data, ParseVars(cells, start, width), startAs);
  }
}
