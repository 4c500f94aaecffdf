/** Day 6: what both parts share. The numbers sit in a grid stored row after row
    (day06-part1 keeps values, day06-part2 one optional digit per character), and
    each operator adds or multiplies. */
module Day06Sheet {
  import opened Utils

  /** Grid: size.x columns, size.y rows, cells stored row after row. */
  datatype Grid<T> = Grid(width: int, height: int, data: seq<T>)

  predicate Valid<T>(g: Grid<T>) {
    g.width >= 1 && g.height >= 0 && |g.data| == g.width * g.height
  }

  /** The end of the parse: without a line break there is no width, and the cells
      must fill whole rows (a zero width is a remainder by zero). */
  function Finish<T>(cells: seq<T>, width: Option<int>, pos: nat): (r: Checked<(Grid<T>, nat)>)
    requires width.Some? ==> width.value <= |cells|
    ensures r.Ok? ==> Valid(r.value.0) && r.value.0.height >= 1
    ensures r.Ok? ==> r.value.0.data == cells && r.value.1 == pos
    ensures r.Ok? <==> width.Some? && width.value > 0 && |cells| % width.value == 0
  {
    if width.None? || width.value <= 0 || |cells| % width.value != 0 then Abort
    else
      DivUnique(|cells|, width.value, |cells| / width.value, 0);
      Ok((Grid(width.value, |cells| / width.value, cells), pos))
  }

  /** Cell (x, y) of a valid grid is stored at x + width * y. */
  lemma Cell<T>(g: Grid<T>, x: nat, y: nat)
    requires Valid(g) && x < g.width && y < g.height
    ensures x + g.width * y < |g.data|
  {
    MulMonotone(g.width, y, g.height - 1);
    Distribute(g.width, g.height - 1, 1);
  }

  /** A column of x at or past the width runs the read of the last row past the
      stored cells. */
  lemma PastLastRow<T>(g: Grid<T>, x: int)
    requires Valid(g) && g.height >= 1 && x >= g.width
    ensures x + g.width * (g.height - 1) >= |g.data|
  {
    Distribute(g.width, g.height - 1, 1);
  }

  datatype OpType = Add | Multiply

  /** The start value of a fold: 0 for an add, 1 for a multiply. */
  function Identity(op: OpType): nat {
    if op == Add then 0 else 1
  }

  function Apply(op: OpType, a: nat, b: nat): nat {
    if op == Add then a + b else a * b
  }
}
