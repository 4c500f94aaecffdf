/** Day 6, part 1: rows of numbers above a line of operators; each operator adds or
    multiplies the numbers of its column, and the answer is the sum of the column
    results. */
module Day06Part1 {
  import opened Utils
  import opened Day06Sheet

  /** The first position at or after pos that is not a space; the text's NUL stops it. */
  function SpacesEnd(data: string, pos: nat): (r: nat)
    requires pos <= |data|
    ensures pos <= r <= |data|
    ensures forall j :: pos <= j < r ==> data[j] == ' '
    ensures At(data, r) != ' '
    decreases |data| - pos
  {
    if pos < |data| && data[pos] == ' ' then SpacesEnd(data, pos + 1) else pos
  }

  /** Skipping again from where a skip stopped does not move. */
  lemma SpacesEndIdempotent(data: string, pos: nat)
    requires pos <= |data|
    ensures SpacesEnd(data, SpacesEnd(data, pos)) == SpacesEnd(data, pos)
  {
  }

  /** skip_spaces */
  method SkipSpaces(data: string, pos: nat) returns (next: nat)
    requires pos <= |data|
    ensures next == SpacesEnd(data, pos)
  {
    next := pos;
    while next < |data| && data[next] == ' '
      invariant pos <= next <= |data|
      invariant SpacesEnd(data, next) == SpacesEnd(data, pos)
    {
      next := next + 1;
    }
  }

  /** parse_numbers' loop from pos, with the values read so far and the width once the
      first line break has fixed it: spaces are skipped; an operator ends the numbers;
      the first line break sets the width to the values read so far and every later one
      asserts they fill whole rows; anything else is read as a uint64_t. A character that
      is none of these gives no digits and leaves pos where it is, so the loop would
      never end. */
  function NumbersFrom(data: string, pos: nat, numbers: seq<nat>, width: Option<int>): (r: Checked<(Grid<nat>, nat)>)
    requires pos <= |data| && (width.Some? ==> width.value <= |numbers|)
    ensures r.Ok? ==> Valid(r.value.0) && r.value.0.height >= 1 && r.value.1 <= |data|
    decreases |data| - pos
  {
    if pos == |data| then Finish(numbers, width, pos)
    else
      var p := SpacesEnd(data, pos);
      var c := At(data, p);
      if c == '*' || c == '+' then Finish(numbers, width, p)
      else if c == '\n' then
        if width.None? then NumbersFrom(data, p + 1, numbers, Some(|numbers|))
        else if width.value == 0 || |numbers| % width.value != 0 then Abort
        else NumbersFrom(data, p + 1, numbers, width)
      else
        var e := DigitRunEnd(data, p);
        if e == p && p < |data| then Abort
        else NumbersFrom(data, e, numbers + [Wrap64(NumberAt(data, p, e))], width)
  }

  /** Until the first line break, the width is unset; the line break sets it to the
      number of values on the first line. */
  lemma FirstLineSetsWidth(data: string, pos: nat, numbers: seq<nat>)
    requires pos < |data| && At(data, SpacesEnd(data, pos)) == '\n'
    ensures NumbersFrom(data, pos, numbers, None) == NumbersFrom(data, SpacesEnd(data, pos) + 1, numbers, Some(|numbers|))
  {
  }

  /** parse_numbers */
  method ParseNumbers(data: string, start: nat) returns (result: Checked<(Grid<nat>, nat)>)
    requires start <= |data|
    ensures result == NumbersFrom(data, start, [], None)
  {
    var numbers: seq<nat> := [];
    var width: Option<int> := None;
    var pos := start;
    while pos < |data|
      invariant pos <= |data| && (width.Some? ==> width.value <= |numbers|)
      invariant NumbersFrom(data, pos, numbers, width) == NumbersFrom(data, start, [], None)
      decreases |data| - pos
    {
      pos := SkipSpaces(data, pos);
      if At(data, pos) == '*' || At(data, pos) == '+' {
        break;
      }
      if At(data, pos) == '\n' {
        if width.None? {
          width := Some(|numbers|);
        } else if width.value == 0 || |numbers| % width.value != 0 {
          return Abort;
        }
        pos := pos + 1;
        continue;
      }
      SpacesEndIdempotent(data, pos);
      pos := SkipSpaces(data, pos);
      var value, next := ParseUint64(data, pos);
      if next == pos && pos < |data| {
        return Abort;
      }
      numbers := numbers + [value];
      pos := next;
    }
    result := Finish(numbers, width, pos);
  }

  /** The operators solve's loop reads from pos: spaces are skipped, a line break or
      the end of the text ends the list, and any other character (the NUL after
      trailing spaces included) fails the switch's assertion. */
  function OpsFrom(data: string, pos: nat): Checked<seq<OpType>>
    decreases |data| + 1 - pos
  {
    if pos >= |data| then Ok([])
    else
      var p := SpacesEnd(data, pos);
      var c := At(data, p);
      if c == '\n' then Ok([])
      else if c != '*' && c != '+' then Abort
      else
        match OpsFrom(data, p + 1)
        case Abort => Abort
        case Ok(rest) => Ok([if c == '*' then Multiply else Add] + rest)
  }

  /** Column x's first n numbers folded with op, from the op's start value. */
  function ColumnFold(g: Grid<nat>, x: nat, op: OpType, n: nat): nat
    requires Valid(g) && x < g.width && n <= g.height
  {
    if n == 0 then Identity(op)
    else
      Cell(g, x, n - 1);
      Apply(op, ColumnFold(g, x, op, n - 1), g.data[x + g.width * (n - 1)])
  }

  /** Column x, top to bottom. */
  function Column(g: Grid<nat>, x: nat, n: nat): (c: seq<nat>)
    requires Valid(g) && x < g.width && n <= g.height
    ensures |c| == n
  {
    if n == 0 then []
    else
      Cell(g, x, n - 1);
      Column(g, x, n - 1) + [g.data[x + g.width * (n - 1)]]
  }

  /** An add column is the sum of its numbers and a multiply column their product. */
  lemma {:induction false} ColumnFoldIsSumOrProduct(g: Grid<nat>, x: nat, op: OpType, n: nat)
    requires Valid(g) && x < g.width && n <= g.height
    ensures ColumnFold(g, x, op, n) == if op == Add then Sum(Column(g, x, n)) else Product(Column(g, x, n))
    decreases n
  {
    if n > 0 {
      ColumnFoldIsSumOrProduct(g, x, op, n - 1);
      assert Column(g, x, n)[..n - 1] == Column(g, x, n - 1);
    }
  }

  /** The inner loop of solve: column x folded with op over every row. */
  method FoldColumn(g: Grid<nat>, x: nat, op: OpType) returns (result: nat)
    requires Valid(g) && x < g.width
    ensures result == ColumnFold(g, x, op, g.height)
  {
    result := if op == Add then 0 else 1;
    for y := 0 to g.height
      invariant result == ColumnFold(g, x, op, y)
    {
      Cell(g, x, y);
      var value := g.data[x + g.width * y];
      if op == Add {
        result := result + value;
      } else {
        result := result * value;
      }
    }
  }

  /** The sum of the column results, operator k folding column k. */
  function Total(g: Grid<nat>, ops: seq<OpType>): nat
    requires Valid(g) && |ops| <= g.width
  {
    if ops == [] then 0
    else Total(g, ops[..|ops| - 1]) + ColumnFold(g, |ops| - 1, ops[|ops| - 1], g.height)
  }

  lemma TotalStep(g: Grid<nat>, done: seq<OpType>, op: OpType)
    requires Valid(g) && |done| < g.width
    ensures Total(g, done + [op]) == Total(g, done) + ColumnFold(g, |done|, op, g.height)
  {
    assert (done + [op])[..|done|] == done;
  }

  /** One step of the operator read: from the first non-space character. */
  lemma OpsFirst(data: string, pos: nat)
    requires pos < |data|
    ensures var p := SpacesEnd(data, pos);
      OpsFrom(data, pos) == if At(data, p) == '\n' then Ok([])
        else if At(data, p) == '*' then PrependTo([Multiply], OpsFrom(data, p + 1))
        else if At(data, p) == '+' then PrependTo([Add], OpsFrom(data, p + 1))
        else Abort
  {
  }

  /** What solve answers for the numbers g and the operator read r: operator k folds
      column k; more operators than columns make the last row's read run past the
      numbers. */
  function Answer(g: Grid<nat>, r: Checked<seq<OpType>>): Checked<nat>
    requires Valid(g)
  {
    match r
    case Abort => Abort
    case Ok(ops) => if |ops| > g.width then Abort else Ok(Total(g, ops))
  }

  /** The loop of solve over the operator line. */
  method FoldOperators(data: string, numbers: Grid<nat>, start: nat) returns (result: Checked<nat>)
    requires Valid(numbers) && numbers.height >= 1
    ensures result == Answer(numbers, OpsFrom(data, start))
  {
    var pos := start;
    var colCount := 0;
    var total := 0;
    ghost var done: seq<OpType> := [];
    PrependToNothing(OpsFrom(data, start));
    while pos < |data|
      invariant colCount == |done| && colCount <= numbers.width
      invariant total == Total(numbers, done)
      invariant OpsFrom(data, start) == PrependTo(done, OpsFrom(data, pos))
      decreases |data| + 1 - pos
    {
      OpsFirst(data, pos);
      pos := SkipSpaces(data, pos);
      var op: Option<OpType> := None;
      if At(data, pos) == '*' {
        op := Some(Multiply);
      } else if At(data, pos) == '+' {
        op := Some(Add);
      } else if At(data, pos) != '\n' {
        return Abort;
      }
      if op.None? {
        assert done + [] == done;
        break;
      }
      PrependToTwice(done, [op.value], OpsFrom(data, pos + 1));
      if colCount >= numbers.width {
        return Abort;
      }
      var columnResult := FoldColumn(numbers, colCount, op.value);
      TotalStep(numbers, done, op.value);
      total := total + columnResult;
      colCount := colCount + 1;
      done := done + [op.value];
      pos := pos + 1;
    }
    if pos >= |data| {
      assert done + [] == done;
    }
    return Ok(total);
  }

  /** solve: parse the numbers, then fold one column per operator and sum. */
  method Solve(data: string) returns (result: Checked<nat>)
    ensures result == match NumbersFrom(data, 0, [], None)
      case Abort => Abort
      case Ok(parsed) => Answer(parsed.0, OpsFrom(data, parsed.1))
  {
    var parsed := ParseNumbers(data, 0);
    if parsed.Abort? {
      return Abort;
    }
    result := FoldOperators(data, parsed.value.0, parsed.value.1);
  }
}
