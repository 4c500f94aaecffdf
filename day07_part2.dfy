/** Day 7, part 2: a single particle takes either way at every splitter; the answer
    is the number of timelines, counted by a recursion memoised on the cell it
    starts from. */
module Day07Part2 {
  import opened Utils
  import opened Day07Grid

  /** The first row at or below y where column x holds a splitter. */
  function FirstSplitter(g: Grid, x: int, y: int): (r: Option<int>)
    requires Valid(g) && 0 <= x < g.width && 0 <= y <= g.height
    ensures r.Some? ==> y <= r.value < g.height && StateAt(g, x, r.value) == Splitter
    ensures forall y' :: y <= y' < (if r.Some? then r.value else g.height) ==> StateAt(g, x, y') != Splitter
    decreases g.height - y
  {
    if y == g.height then None
    else if StateAt(g, x, y) == Splitter then Some(y)
    else FirstSplitter(g, x, y + 1)
  }

  /** count_timelines without the memo: from an empty cell the particle falls to
      the first splitter below it, whose two neighbours must be in-bounds empty
      cells, and the timelines from both add up; with no splitter below there is
      one timeline. The first splitter lies strictly below the empty start, so the
      rows left to fall shrink. */
  function Timelines(g: Grid, x: int, y: int): (r: Checked<nat>)
    requires Valid(g) && InBounds(g, x, y) && StateAt(g, x, y) == Empty
    ensures r.Ok? ==> r.value >= 1
    decreases g.height - y
  {
    match FirstSplitter(g, x, y)
    case None => Ok(1)
    case Some(sy) =>
      if !InBounds(g, x - 1, sy) || !InBounds(g, x + 1, sy) then Abort
      else if StateAt(g, x - 1, sy) != Empty || StateAt(g, x + 1, sy) != Empty then Abort
      else
        match Timelines(g, x - 1, sy)
        case Abort => Abort
        case Ok(left) =>
          match Timelines(g, x + 1, sy)
          case Abort => Abort
          case Ok(right) => Ok(left + right)
  }

  /** Every memo entry is the count of timelines from its cell. */
  ghost predicate MemoValid(g: Grid, memos: map<(int, int), nat>)
    requires Valid(g)
  {
    forall k :: k in memos ==>
      InBounds(g, k.0, k.1) && StateAt(g, k.0, k.1) == Empty && Timelines(g, k.0, k.1) == Ok(memos[k])
  }

  /** Storing the count of a cell keeps the memo valid, and every other entry as
      it was. */
  lemma MemoInsert(g: Grid, memos: map<(int, int), nat>, x: int, y: int, count: nat)
    requires Valid(g) && MemoValid(g, memos) && InBounds(g, x, y) && StateAt(g, x, y) == Empty
    requires Timelines(g, x, y) == Ok(count)
    ensures MemoValid(g, memos[(x, y) := count])
    ensures forall k :: k in memos && k != (x, y) ==> memos[(x, y) := count][k] == memos[k]
  {
  }

  /** The loop of count_timelines: the column is scanned down from row y for a
      splitter. */
  method ScanColumn(g: Grid, x: int, y: int) returns (found: Option<int>)
    requires Valid(g) && InBounds(g, x, y)
    ensures found == FirstSplitter(g, x, y)
  {
    var row := y;
    while row < g.height
      invariant y <= row <= g.height
      invariant FirstSplitter(g, x, row) == FirstSplitter(g, x, y)
      decreases g.height - row
    {
      Cell(g, x, row);
      if g.data[x + g.width * row] == Splitter {
        return Some(row);
      }
      row := row + 1;
    }
    return None;
  }

  /** count_timelines: a memo hit is returned as it is; otherwise the column is
      scanned down for a splitter, both sides are counted and the sum is stored. */
  method CountTimelines(g: Grid, x: int, y: int, memos: map<(int, int), nat>) returns (result: Checked<nat>, memos': map<(int, int), nat>)
    requires Valid(g) && InBounds(g, x, y) && StateAt(g, x, y) == Empty && MemoValid(g, memos)
    ensures result == Timelines(g, x, y)
    ensures result.Ok? ==> MemoValid(g, memos') && (x, y) in memos' && memos'[(x, y)] == result.value
    ensures result.Ok? ==> forall k :: k in memos ==> k in memos' && memos'[k] == memos[k]
    ensures (x, y) in memos ==> memos' == memos
    decreases g.height - y
  {
    if (x, y) in memos {
      return Ok(memos[(x, y)]), memos;
    }
    var found := ScanColumn(g, x, y);
    if found.None? {
      MemoInsert(g, memos, x, y, 1);
      return Ok(1), memos[(x, y) := 1];
    }
    var row := found.value;
    if !(InBounds(g, x - 1, row) && InBounds(g, x + 1, row)) {
      return Abort, memos;
    }
    Cell(g, x - 1, row);
    Cell(g, x + 1, row);
    if g.data[x - 1 + g.width * row] != Empty || g.data[x + 1 + g.width * row] != Empty {
      return Abort, memos;
    }
    var left, afterLeft := CountTimelines(g, x - 1, row, memos);
    if left.Abort? {
      return Abort, afterLeft;
    }
    var right, afterRight := CountTimelines(g, x + 1, row, afterLeft);
    if right.Abort? {
      return Abort, afterRight;
    }
    var count := left.value + right.value;
    MemoInsert(g, afterRight, x, y, count);
    return Ok(count), afterRight[(x, y) := count];
  }

  /** solve: parse the grid with the 'S' cell as empty and count the timelines from
      it, with an empty memo. */
  method Solve(data: string) returns (result: Checked<nat>)
    ensures result == match ParsedGrid(data, Empty)
      case Abort => Abort
      case Ok(g) => Timelines(g, g.startX, 0)
    ensures result.Ok? ==> result.value >= 1
  {
    var parsed := ParseGrid(data, Empty);
    if parsed.Abort? {
      return Abort;
    }
    var g := parsed.value;
    var memos;
    result, memos := CountTimelines(g, g.startX, 0, map[]);
  }
}
