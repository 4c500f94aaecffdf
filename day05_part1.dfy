/** Day 5, part 1: how many of the listed ingredient IDs fall in at least one of the
    fresh ranges. */
module Day05Part1 {
  import opened Utils
  import opened Day05Ranges

  /** id_valid: std::ranges::any_of over the ranges, ends included. */
  function IdValid(ranges: seq<InclusiveRange>, id: nat): (valid: bool)
    ensures valid <==> Covers(ranges, id)
  {
    if ranges == [] then false
    else
      var last := ranges[|ranges| - 1];
      assert forall i :: 0 <= i < |ranges| - 1 ==> ranges[..|ranges| - 1][i] == ranges[i];
      IdValid(ranges[..|ranges| - 1], id) || (id >= last.start && id <= last.end)
  }

  /** The answer does not depend on the order of the ranges. */
  lemma IdValidIgnoresOrder(a: seq<InclusiveRange>, b: seq<InclusiveRange>, id: nat)
    requires multiset(a) == multiset(b)
    ensures IdValid(a, id) == IdValid(b, id)
  {
    if Covers(a, id) {
      var i :| 0 <= i < |a| && a[i].start <= id <= a[i].end;
      assert a[i] in multiset(b);
      var j :| 0 <= j < |b| && b[j] == a[i];
    }
    if Covers(b, id) {
      var i :| 0 <= i < |b| && b[i].start <= id <= b[i].end;
      assert b[i] in multiset(a);
      var j :| 0 <= j < |a| && a[j] == b[i];
    }
  }

  /** The IDs solve reads from pos on, one per line, each as a uint64_t. */
  function Ids(data: string, pos: nat): seq<nat>
    decreases |data| + 1 - pos
  {
    if pos >= |data| then []
    else
      var e := DigitRunEnd(data, pos);
      [Wrap64(NumberAt(data, pos, e))] + Ids(data, e + 1)
  }

  lemma IdsFirst(data: string, pos: nat)
    requires pos < |data|
    ensures Ids(data, pos) == [Wrap64(NumberAt(data, pos, DigitRunEnd(data, pos)))] + Ids(data, DigitRunEnd(data, pos) + 1)
  {
  }

  /** How many of the ids some range holds. */
  function ValidCount(ranges: seq<InclusiveRange>, ids: seq<nat>): (n: nat)
    ensures n <= |ids|
  {
    if ids == [] then 0
    else ValidCount(ranges, ids[..|ids| - 1]) + (if IdValid(ranges, ids[|ids| - 1]) then 1 else 0)
  }

  lemma ValidCountStep(ranges: seq<InclusiveRange>, done: seq<nat>, id: nat)
    ensures ValidCount(ranges, done + [id]) == ValidCount(ranges, done) + (if IdValid(ranges, id) then 1 else 0)
  {
    assert (done + [id])[..|done|] == done;
  }

  /** The loop of solve after the blank line: one ID per line, each counted when
      some range holds it. */
  method CountValid(ranges: seq<InclusiveRange>, data: string, start: nat) returns (validCount: nat)
    ensures validCount == ValidCount(ranges, Ids(data, start))
  {
    var pos := start;
    validCount := 0;
    ghost var done: seq<nat> := [];
    while pos < |data|
      invariant done + Ids(data, pos) == Ids(data, start)
      invariant validCount == ValidCount(ranges, done)
      decreases |data| + 1 - pos
    {
      var id, next := ParseUint64(data, pos);
      IdsFirst(data, pos);
      SeqAssoc(done, [id], Ids(data, next + 1));
      ValidCountStep(ranges, done, id);
      if IdValid(ranges, id) {
        validCount := validCount + 1;
      }
      done := done + [id];
      pos := next + 1;
    }
    assert done + [] == done;
  }

  /** solve: parse the ranges, step over the blank line, then count the IDs that
      some range holds. */
  method Solve(data: string) returns (result: Checked<nat>)
    ensures result == match RangesFrom(data, 0)
      case Abort => Abort
      case Ok((ranges, stop)) => Ok(ValidCount(ranges, Ids(data, stop + 1)))
  {
    var parsed := ParseRanges(data, 0);
    if parsed.Abort? {
      return Abort;
    }
    var validCount := CountValid(parsed.value.0, data, parsed.value.1 + 1);
    return Ok(validCount);
  }
}
