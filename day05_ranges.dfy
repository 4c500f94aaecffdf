/** Day 5: the fresh-ingredient ID ranges both parts read (InclusiveRange and the
    parse_ranges loop that day05-part1 and day05-part2 each define identically). */
module Day05Ranges {
  import opened Utils

  datatype InclusiveRange = InclusiveRange(start: nat, end: nat)

  /** Whether some range holds x, ends included. */
  ghost predicate Covers(ranges: seq<InclusiveRange>, x: int) {
    exists i :: 0 <= i < |ranges| && ranges[i].start <= x <= ranges[i].end
  }

  /** The ranges parse_ranges reads from pos on and the position it stops at: it
      stops at a line that starts with a line break, or once past the text. A start
      whose digits run to the end of the text makes the `++pos` over the '-' step
      past the text's NUL, and the next read is undefined behaviour. */
  function RangesFrom(data: string, pos: nat): (r: Checked<(seq<InclusiveRange>, nat)>)
    ensures r.Ok? ==> pos <= r.value.1
    ensures r.Ok? ==> r.value.1 < |data| ==> data[r.value.1] == '\n'
    ensures r.Ok? ==> forall k :: 0 <= k < |r.value.0| ==> r.value.0[k].start < U64 && r.value.0[k].end < U64
    decreases |data| + 1 - pos
  {
    if pos >= |data| || data[pos] == '\n' then Ok(([], pos))
    else
      var e := DigitRunEnd(data, pos);
      if e == |data| then Abort
      else
        var next := DigitRunEnd(data, e + 1);
        var range := InclusiveRange(Wrap64(NumberAt(data, pos, e)), Wrap64(NumberAt(data, e + 1, next)));
        Prepend([range], RangesFrom(data, next + 1))
  }

  /** Ranges read earlier in front of the outcome of the rest of the parse. */
  function Prepend(done: seq<InclusiveRange>, r: Checked<(seq<InclusiveRange>, nat)>): (r': Checked<(seq<InclusiveRange>, nat)>)
    ensures r'.Ok? <==> r.Ok?
    ensures r'.Ok? ==> r'.value.0 == done + r.value.0 && r'.value.1 == r.value.1
  {
    match r
    case Abort => Abort
    case Ok((rest, stop)) => Ok((done + rest, stop))
  }

  lemma PrependTwice(a: seq<InclusiveRange>, b: seq<InclusiveRange>, r: Checked<(seq<InclusiveRange>, nat)>)
    ensures Prepend(a, Prepend(b, r)) == Prepend(a + b, r)
  {
    if r.Ok? {
      SeqAssoc(a, b, r.value.0);
    }
  }

  lemma PrependNothing(r: Checked<(seq<InclusiveRange>, nat)>)
    ensures Prepend([], r) == r
  {
    if r.Ok? {
      assert [] + r.value.0 == r.value.0;
    }
  }

  /** One line of the parse: its range, then the parse of the rest from the
      character after the line break. */
  lemma RangesFirst(data: string, pos: nat)
    requires pos < |data| && data[pos] != '\n'
    ensures var e := DigitRunEnd(data, pos);
      e < |data| ==>
        var next := DigitRunEnd(data, e + 1);
        RangesFrom(data, pos)
        == Prepend([InclusiveRange(Wrap64(NumberAt(data, pos, e)), Wrap64(NumberAt(data, e + 1, next)))], RangesFrom(data, next + 1))
    ensures DigitRunEnd(data, pos) == |data| ==> RangesFrom(data, pos) == Abort
  {
  }

  /** parse_ranges: one "start-end" line per iteration, each bound read as a
      uint64_t, until a blank line or the end of the text. */
  method ParseRanges(data: string, pos: nat) returns (result: Checked<(seq<InclusiveRange>, nat)>)
    ensures result == RangesFrom(data, pos)
  {
    var ranges: seq<InclusiveRange> := [];
    var cur := pos;
    PrependNothing(RangesFrom(data, pos));
    while cur < |data|
      invariant RangesFrom(data, pos) == Prepend(ranges, RangesFrom(data, cur))
      decreases |data| + 1 - cur
    {
      if data[cur] == '\n' {
        break;
      }
      var start, e := ParseUint64(data, cur);
      RangesFirst(data, cur);
      if e == |data| {
        return Abort;
      }
      var end, next := ParseUint64(data, e + 1);
      var range := InclusiveRange(start, end);
      PrependTwice(ranges, [range], RangesFrom(data, next + 1));
      ranges := ranges + [range];
      cur := next + 1;
    }
    assert ranges + [] == ranges;
    return Ok((ranges, cur));
  }
}
