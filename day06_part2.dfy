/** Day 6, part 2: the same worksheet read in columns. Each character column holds
    one number, its digits read top to bottom; an operator starts a block of columns
    that it adds or multiplies, and the answer is the sum of the block results. */
module Day06Part2 {
  import opened Utils
  import opened Day06Sheet

  /** push_digit: the number with one more decimal digit on the right. */
  function PushDigit(num: nat, digit: nat): nat {
    num * 10 + digit
  }

  /** Every stored digit is a decimal digit. */
  predicate DigitCells(cells: seq<Option<nat>>) {
    forall i :: 0 <= i < |cells| ==> cells[i].Some? ==> cells[i].value < 10
  }

  /** The cell one worksheet character becomes: a space is an empty cell, anything
      else its digit. */
  function CellOf(c: char): Option<nat> {
    if c == ' ' then None else Some(DigitValue(c))
  }

  /** The cells of a stretch of the worksheet: one per character, line breaks
      dropped. */
  function CellsOf(s: string): seq<Option<nat>> {
    if s == [] then []
    else (if s[0] == '\n' then [] else [CellOf(s[0])]) + CellsOf(s[1..])
  }

  /** parse_digits' loop from pos, with the cells read so far and the width once the
      first line break has fixed it: an operator or the end of the text ends the
      grid; the first line break sets the width to the cells read so far and every
      later one asserts they fill whole rows; a space is an empty cell, a digit its
      value, and anything else fails the digit assertion. */
  function DigitsFrom(data: string, pos: nat, digits: seq<Option<nat>>, width: Option<int>): (r: Checked<(Grid<Option<nat>>, nat)>)
    requires pos <= |data| && (width.Some? ==> width.value <= |digits|) && DigitCells(digits)
    ensures r.Ok? ==> Valid(r.value.0) && r.value.0.height >= 1 && DigitCells(r.value.0.data)
    ensures r.Ok? ==> pos <= r.value.1 <= |data| && (r.value.1 < |data| ==> data[r.value.1] in {'+', '*'})
    decreases |data| - pos
  {
    if pos == |data| || data[pos] == '*' || data[pos] == '+' then Finish(digits, width, pos)
    else if data[pos] == '\n' then
      if width.None? then DigitsFrom(data, pos + 1, digits, Some(|digits|))
      else if width.value == 0 || |digits| % width.value != 0 then Abort
      else DigitsFrom(data, pos + 1, digits, width)
    else if data[pos] == ' ' then DigitsFrom(data, pos + 1, digits + [None], width)
    else if !IsDigit(data[pos]) then Abort
    else DigitsFrom(data, pos + 1, digits + [Some(DigitValue(data[pos]))], width)
  }

  /** The grid holds exactly the cells of the characters read: spaces are the empty
      cells, digits their values, line breaks only end rows. */
  lemma {:induction false} DigitsAreCells(data: string, pos: nat, digits: seq<Option<nat>>, width: Option<int>)
    requires pos <= |data| && (width.Some? ==> width.value <= |digits|) && DigitCells(digits)
    ensures var r := DigitsFrom(data, pos, digits, width);
      r.Ok? ==> r.value.0.data == digits + CellsOf(data[pos..r.value.1])
    decreases |data| - pos
  {
    var r := DigitsFrom(data, pos, digits, width);
    if r.Ok? {
      var stop := r.value.1;
      if pos == |data| || data[pos] == '*' || data[pos] == '+' {
        assert stop == pos;
        assert digits + CellsOf([]) == digits;
      } else {
        assert data[pos..stop][0] == data[pos] && data[pos..stop][1..] == data[pos + 1..stop];
        if data[pos] == '\n' {
          DigitsAreCells(data, pos + 1, digits, if width.None? then Some(|digits|) else width);
        } else {
          var cell := CellOf(data[pos]);
          DigitsAreCells(data, pos + 1, digits + [cell], width);
          SeqAssoc(digits, [cell], CellsOf(data[pos + 1..stop]));
        }
      }
    }
  }

  /** parse_digits */
  method ParseDigits(data: string, start: nat) returns (result: Checked<(Grid<Option<nat>>, nat)>)
    requires start <= |data|
    ensures result == DigitsFrom(data, start, [], None)
  {
    var digits: seq<Option<nat>> := [];
    var width: Option<int> := None;
    var pos := start;
    while pos < |data|
      invariant pos <= |data| && (width.Some? ==> width.value <= |digits|) && DigitCells(digits)
      invariant DigitsFrom(data, pos, digits, width) == DigitsFrom(data, start, [], None)
      decreases |data| - pos
    {
      if data[pos] == '*' || data[pos] == '+' {
        break;
      }
      if data[pos] == '\n' {
        if width.None? {
          width := Some(|digits|);
        } else if width.value == 0 || |digits| % width.value != 0 {
          return Abort;
        }
      } else if data[pos] == ' ' {
        digits := digits + [None];
      } else {
        if !IsDigit(data[pos]) {
          return Abort;
        }
        digits := digits + [Some(DigitValue(data[pos]))];
      }
      pos := pos + 1;
    }
    result := Finish(digits, width, pos);
  }

  /** An operator and its block of columns: the loop of solve folds column start
      down to column end + 1. */
  datatype Op = Op(kind: OpType, start: int, end: int)

  predicate IsOpChar(c: char) {
    c == '+' || c == '*'
  }

  function OpChar(kind: OpType): char {
    if kind == Add then '+' else '*'
  }

  /** No operator in columns lo up to (not including) hi, columns counted from pos0. */
  predicate NoOpBetween(data: string, pos0: nat, lo: int, hi: int) {
    forall j :: pos0 + lo <= j < pos0 + hi && 0 <= j < |data| ==> !IsOpChar(data[j])
  }

  /** What parse_ops gives each operator it reads at column c (counted from where the
      read begins): its end is c - 1; its start is two columns before the next
      operator or one before a line break, with no other operator in between. */
  predicate Placed(data: string, pos0: nat, o: Op) {
    && o.end >= -1 && o.start >= o.end - 1
    && pos0 + o.end + 1 < |data| && data[pos0 + o.end + 1] == OpChar(o.kind)
    && NoOpBetween(data, pos0, o.end + 2, o.start + 2)
    && ((pos0 + o.start + 2 < |data| && IsOpChar(data[pos0 + o.start + 2]))
        || (pos0 + o.start + 1 < |data| && data[pos0 + o.start + 1] == '\n'))
  }

  /** What holds at each step of parse_ops' loop: count is pos - pos0; the pending
      operator sits at column end + 1 with no operator after it so far. */
  predicate OpsState(data: string, pos0: nat, pos: nat, op: Option<Op>, ops: seq<Op>) {
    && pos0 <= pos <= |data|
    && (op.Some? ==>
          && op.value.end >= -1 && op.value.end + 1 < pos - pos0
          && data[pos0 + op.value.end + 1] == OpChar(op.value.kind)
          && NoOpBetween(data, pos0, op.value.end + 2, pos - pos0))
    && forall k :: 0 <= k < |ops| ==> Placed(data, pos0, ops[k])
  }

  /** parse_ops' loop from pos, with the pending operator and the operators pushed so
      far: a line break pushes the pending operator with its start one column back;
      an operator pushes the pending one with its start two columns back and becomes
      pending itself; any character but a space fails the assertion. */
  function OpsLoop(data: string, pos0: nat, pos: nat, op: Option<Op>, ops: seq<Op>): (r: Checked<seq<Op>>)
    requires OpsState(data, pos0, pos, op, ops)
    ensures r.Ok? ==> forall k :: 0 <= k < |r.value| ==> Placed(data, pos0, r.value[k])
    decreases |data| - pos
  {
    if pos == |data| then Ok(ops)
    else
      var count := pos - pos0;
      var c := data[pos];
      if c == '\n' then
        if op.Some? then
          var o := op.value.(start := count - 1);
          OpsLoop(data, pos0, pos + 1, Some(o), ops + [o])
        else OpsLoop(data, pos0, pos + 1, op, ops)
      else if IsOpChar(c) then
        var pushed := if op.Some? then ops + [op.value.(start := count - 2)] else ops;
        OpsLoop(data, pos0, pos + 1, Some(Op(if c == '+' then Add else Multiply, count - 1, count - 1)), pushed)
      else if c != ' ' then Abort
      else OpsLoop(data, pos0, pos + 1, op, ops)
  }

  /** The operators parse_ops reads from pos0 on. */
  function ParsedOps(data: string, pos0: nat): (r: Checked<seq<Op>>)
    requires pos0 <= |data|
    ensures r.Ok? ==> forall k :: 0 <= k < |r.value| ==> Placed(data, pos0, r.value[k])
  {
    OpsLoop(data, pos0, pos0, None, [])
  }

  /** parse_ops */
  method ParseOps(data: string, pos0: nat) returns (result: Checked<seq<Op>>)
    requires pos0 <= |data|
    ensures result == ParsedOps(data, pos0)
  {
    var ops: seq<Op> := [];
    var op: Option<Op> := None;
    var count := 0;
    var pos := pos0;
    while pos < |data|
      invariant count == pos - pos0 && OpsState(data, pos0, pos, op, ops)
      invariant OpsLoop(data, pos0, pos, op, ops) == ParsedOps(data, pos0)
      decreases |data| - pos
    {
      var c := data[pos];
      if c == '\n' {
        if op.Some? {
          op := Some(op.value.(start := count - 1));
          ops := ops + [op.value];
        }
      } else if c == '+' || c == '*' {
        if op.Some? {
          op := Some(op.value.(start := count - 2));
          ops := ops + [op.value];
        }
        var kind := if c == '+' then Add else Multiply;
        op := Some(Op(kind, count - 1, count - 1));
      } else if c != ' ' {
        return Abort;
      }
      count := count + 1;
      pos := pos + 1;
    }
    return Ok(ops);
  }

  /** Column x over the first n rows, read top to bottom: every digit is pushed onto
      the number, empty cells are skipped. */
  function ColumnNumber(g: Grid<Option<nat>>, x: nat, n: nat): nat
    requires Valid(g) && x < g.width && n <= g.height
  {
    if n == 0 then 0
    else
      Cell(g, x, n - 1);
      var cell := g.data[x + g.width * (n - 1)];
      if cell.Some? then PushDigit(ColumnNumber(g, x, n - 1), cell.value) else ColumnNumber(g, x, n - 1)
  }

  /** The digits of column x over the first n rows, top to bottom, as text. */
  function ColumnText(g: Grid<Option<nat>>, x: nat, n: nat): (s: string)
    requires Valid(g) && x < g.width && n <= g.height && DigitCells(g.data)
    ensures AllDigits(s) && |s| <= n
  {
    if n == 0 then ""
    else
      Cell(g, x, n - 1);
      var cell := g.data[x + g.width * (n - 1)];
      if cell.Some? then ColumnText(g, x, n - 1) + [DigitChar(cell.value)] else ColumnText(g, x, n - 1)
  }

  /** A column's number is the decimal value of its digits read top to bottom. */
  lemma {:induction false} ColumnNumberIsDecimal(g: Grid<Option<nat>>, x: nat, n: nat)
    requires Valid(g) && x < g.width && n <= g.height && DigitCells(g.data)
    ensures ColumnNumber(g, x, n) == DecimalValue(ColumnText(g, x, n))
    decreases n
  {
    if n > 0 {
      ColumnNumberIsDecimal(g, x, n - 1);
      Cell(g, x, n - 1);
      var cell := g.data[x + g.width * (n - 1)];
      if cell.Some? {
        var s := ColumnText(g, x, n - 1) + [DigitChar(cell.value)];
        assert s[..|s| - 1] == ColumnText(g, x, n - 1);
        DigitRoundTrip(' ', cell.value);
      }
    }
  }

  /** The inner loop of solve: the number of column x. */
  method ReadColumn(g: Grid<Option<nat>>, x: nat) returns (num: nat)
    requires Valid(g) && x < g.width
    ensures num == ColumnNumber(g, x, g.height)
  {
    num := 0;
    for y := 0 to g.height
      invariant num == ColumnNumber(g, x, y)
    {
      Cell(g, x, y);
      var digit := g.data[x + g.width * y];
      if digit.Some? {
        num := PushDigit(num, digit.value);
      }
    }
  }

  /** The loop over a block from column x down to column end + 1, acc holding the
      result so far. */
  function BlockLoop(g: Grid<Option<nat>>, kind: OpType, x: int, end: int, acc: nat): nat
    requires Valid(g) && end >= -1 && (x > end ==> x < g.width)
    decreases x - end
  {
    if x <= end then acc
    else BlockLoop(g, kind, x - 1, end, Apply(kind, acc, ColumnNumber(g, x, g.height)))
  }

  /** The numbers of columns lo up to (not including) hi, left to right. */
  function Numbers(g: Grid<Option<nat>>, lo: nat, hi: int): (s: seq<nat>)
    requires Valid(g) && (lo < hi ==> hi <= g.width)
    ensures |s| == if hi <= lo then 0 else hi - lo
    decreases hi - lo
  {
    if hi <= lo then [] else Numbers(g, lo, hi - 1) + [ColumnNumber(g, hi - 1, g.height)]
  }

  /** The sum of the numbers for an add, their product for a multiply. */
  function Combine(kind: OpType, s: seq<nat>): nat {
    if kind == Add then Sum(s) else Product(s)
  }

  /** The loop over a block combines the block's column numbers with what it was
      given: the block's sum or product, whatever order it walks them in. */
  lemma {:induction false} BlockLoopCombines(g: Grid<Option<nat>>, kind: OpType, x: int, end: int, acc: nat)
    requires Valid(g) && end >= -1 && (x > end ==> x < g.width)
    ensures BlockLoop(g, kind, x, end, acc) == Apply(kind, acc, Combine(kind, Numbers(g, end + 1, x + 1)))
    decreases x - end
  {
    var s := Numbers(g, end + 1, x + 1);
    if x > end {
      var n := ColumnNumber(g, x, g.height);
      var rest := Numbers(g, end + 1, x);
      BlockLoopCombines(g, kind, x - 1, end, Apply(kind, acc, n));
      assert s == rest + [n] && s[..|s| - 1] == rest;
      if kind == Multiply {
        MulRearrange(acc, n, Product(rest));
      }
    }
  }

  lemma MulRearrange(a: nat, b: nat, c: nat)
    ensures (a * b) * c == a * (c * b)
  {
  }

  /** An operator's block lies inside the grid unless the loop never runs. */
  predicate InRange(g: Grid<Option<nat>>, o: Op) {
    o.end >= -1 && (o.start > o.end ==> o.start < g.width)
  }

  predicate AllInRange(g: Grid<Option<nat>>, ops: seq<Op>) {
    forall k :: 0 <= k < |ops| ==> InRange(g, ops[k])
  }

  /** What one operator adds to the total. */
  function OpResult(g: Grid<Option<nat>>, o: Op): nat
    requires Valid(g) && InRange(g, o)
  {
    BlockLoop(g, o.kind, o.start, o.end, Identity(o.kind))
  }

  /** An operator's result is the sum or product of the numbers of columns end + 1
      through start; a block with no columns gives the operator's start value. */
  lemma OpResultIsCombined(g: Grid<Option<nat>>, o: Op)
    requires Valid(g) && InRange(g, o)
    ensures OpResult(g, o) == Combine(o.kind, Numbers(g, o.end + 1, o.start + 1))
  {
    BlockLoopCombines(g, o.kind, o.start, o.end, Identity(o.kind));
  }

  /** The sum of the operator results. */
  function Total(g: Grid<Option<nat>>, ops: seq<Op>): nat
    requires Valid(g) && AllInRange(g, ops)
  {
    if ops == [] then 0 else Total(g, ops[..|ops| - 1]) + OpResult(g, ops[|ops| - 1])
  }

  /** The loop of solve over one operator: its start value, folded with the numbers
      of its columns from start down to end + 1. */
  method FoldBlock(g: Grid<Option<nat>>, o: Op) returns (result: nat)
    requires Valid(g) && InRange(g, o)
    ensures result == OpResult(g, o)
  {
    result := if o.kind == Add then 0 else 1;
    var x := o.start;
    while x > o.end
      invariant x > o.end ==> x < g.width
      invariant BlockLoop(g, o.kind, x, o.end, result) == OpResult(g, o)
      decreases x - o.end
    {
      var num := ReadColumn(g, x);
      if o.kind == Add {
        result := result + num;
      } else {
        result := result * num;
      }
      x := x - 1;
    }
  }

  /** What solve answers for the digits g and the operator read r: a block that
      reaches past the grid's width runs the read of the last row past the cells. */
  function Answer(g: Grid<Option<nat>>, r: Checked<seq<Op>>): Checked<nat>
    requires Valid(g)
  {
    match r
    case Abort => Abort
    case Ok(ops) => if AllInRange(g, ops) then Ok(Total(g, ops)) else Abort
  }

  /** The loop of solve over the operators: each operator's block result added to
      the total. */
  method SumBlocks(g: Grid<Option<nat>>, ops: seq<Op>) returns (result: Checked<nat>)
    requires Valid(g) && g.height >= 1
    requires forall k :: 0 <= k < |ops| ==> ops[k].end >= -1
    ensures result == Answer(g, Ok(ops))
  {
    var total := 0;
    for k := 0 to |ops|
      invariant AllInRange(g, ops[..k])
      invariant total == Total(g, ops[..k])
    {
      var o := ops[k];
      if o.start > o.end && o.start >= g.width {
        PastLastRow(g, o.start);
        return Abort;
      }
      var blockResult := FoldBlock(g, o);
      assert ops[..k + 1][..k] == ops[..k];
      total := total + blockResult;
    }
    assert ops[..|ops|] == ops;
    return Ok(total);
  }

  /** solve: parse the digits, read the operators, then add up every operator's
      block result. */
  method Solve(data: string) returns (result: Checked<nat>)
    ensures result == match DigitsFrom(data, 0, [], None)
      case Abort => Abort
      case Ok(parsed) => Answer(parsed.0, ParsedOps(data, parsed.1))
  {
    var parsed := ParseDigits(data, 0);
    if parsed.Abort? {
      return Abort;
    }
    var read := ParseOps(data, parsed.value.1);
    if read.Abort? {
      return Abort;
    }
    result := SumBlocks(parsed.value.0, read.value);
  }
}
