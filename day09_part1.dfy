/** Day 9, part 1: the largest rectangle with two red tiles as opposite corners. */
module Day09Part1 {
  import opened Utils
  import opened Day09Tiles

  /** The answer solve computes from the text, or a failed assert while parsing. */
  function Answer(data: string): Checked<nat> {
    match PositionsFrom(data, 0)
    case Abort => Abort
    case Ok(tiles) => Ok(LargestArea(tiles))
  }

  /** solve: the largest rectangle over every pair of red tiles, 0 with fewer than
      two; every pair's rectangle is at most the answer, and some pair attains it. */
  method Solve(data: string) returns (result: Checked<nat>)
    ensures result == Answer(data)
    ensures result.Ok? ==> PositionsFrom(data, 0).Ok?
    ensures result.Ok? ==> var tiles := PositionsFrom(data, 0).value;
      && (forall a, b :: 0 <= a < b < |tiles| ==> RectArea(tiles[a], tiles[b]) <= result.value)
      && (|tiles| >= 2 ==> exists a, b :: 0 <= a < b < |tiles| && result.value == RectArea(tiles[a], tiles[b]))
      && (|tiles| < 2 ==> result.value == 0)
  {
    var positions := ParsePositions(data);
    if positions.Abort? {
      return Abort;
    }
    var maxArea := MaxArea(positions.value);
    LargestAreaIs(positions.value);
    return Ok(maxArea);
  }
}
