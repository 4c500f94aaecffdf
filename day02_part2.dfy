/** Day 2, part 2: an ID is invalid when its decimal text is some digit string written
    at least twice (111, 6464, 121212); the answer sums the distinct invalid IDs of
    every input range. The ranges are read as in part 1. */
module Day02Part2 {
  import opened Utils
  import P1 = Day02Part1

  /** INT_MAX: invalid_id_sum counts its check values in an `int`. */
  const IntMax: nat := 0x7fff_ffff

  /** v written t times in a row: t blocks of NumDigits(v) digits, each spelling v. */
  function Repeated(v: nat, t: nat): nat {
    if t == 0 then 0 else Shift(Repeated(v, t - 1), NumDigits(v)) + v
  }

  /** t copies of s, one after the other. */
  function RepeatText(s: string, t: nat): string {
    if t == 0 then [] else RepeatText(s, t - 1) + s
  }

  lemma {:induction false} ShiftZero(k: nat)
    ensures Shift(0, k) == 0
  {
    if k > 0 {
      ShiftZero(k - 1);
    }
  }

  /** Repeating 0 gives 0, however often. */
  lemma {:induction false} RepeatedZero(t: nat)
    ensures Repeated(0, t) == 0
  {
    if t > 0 {
      RepeatedZero(t - 1);
      ShiftZero(NumDigits(0));
    }
  }

  /** For a positive v the text of Repeated(v, t) is t copies of the text of v. */
  lemma {:induction false} RepeatedText(v: nat, t: nat)
    requires v >= 1 && t >= 1
    ensures ToDecimal(Repeated(v, t)) == RepeatText(ToDecimal(v), t)
  {
    if t == 1 {
      ShiftZero(NumDigits(v));
      assert RepeatText(ToDecimal(v), 1) == [] + ToDecimal(v);
    } else {
      RepeatedText(v, t - 1);
      ConcatDecimal(Repeated(v, t - 1), v);
    }
  }

  /** So the repetition has t times as many digits as v. */
  lemma RepeatedDigits(v: nat, t: nat)
    requires v >= 1 && t >= 1
    ensures NumDigits(Repeated(v, t)) == t * NumDigits(v)
  {
    var r := Repeated(v, t);
    RepeatedText(v, t);
    RepeatTextLength(ToDecimal(v), t);
    ToDecimalLength(v);
    ToDecimalLength(r);
    assert NumDigits(r) == NumDigits(v) * t;
  }

  lemma {:induction false} ToDecimalLength(n: nat)
    ensures |ToDecimal(n)| == NumDigits(n)
  {
    if n >= 10 {
      ToDecimalLength(n / 10);
    }
  }

  lemma {:induction false} ShiftAdd(a: nat, b: nat, k: nat)
    ensures Shift(a + b, k) == Shift(a, k) + Shift(b, k)
  {
    if k > 0 {
      ShiftAdd(a, b, k - 1);
    }
  }

  lemma {:induction false} ShiftShift(a: nat, j: nat, k: nat)
    ensures Shift(Shift(a, j), k) == Shift(a, j + k)
  {
    if k > 0 {
      ShiftShift(a, j, k - 1);
    }
  }

  /** Adding the copies from the low end, as repeat_digits does: copy number t sits
      NumDigits(v) * t digits up. */
  lemma {:induction false} RepeatedTop(v: nat, t: nat)
    ensures Repeated(v, t + 1) == Repeated(v, t) + Shift(v, NumDigits(v) * t)
  {
    var d := NumDigits(v);
    if t == 0 {
      ShiftZero(d);
    } else {
      RepeatedTop(v, t - 1);
      ShiftAdd(Repeated(v, t - 1), Shift(v, d * (t - 1)), d);
      ShiftShift(v, d * (t - 1), d);
      assert d * (t - 1) + d == d * t;
    }
  }

  /** Wrapping both summands before adding changes nothing modulo 2^64. */
  lemma WrapAdd(a: nat, b: nat)
    ensures Wrap64(Wrap64(a) + Wrap64(b)) == Wrap64(a + b)
  {
    var qa, qb := a / U64, b / U64;
    assert a == U64 * qa + a % U64;
    assert b == U64 * qb + b % U64;
    assert a + b == (a % U64 + b % U64) + U64 * (qa + qb);
    ModAddMultiple(a % U64 + b % U64, qa + qb, U64);
  }

  /** One turn of repeat_digits' loop adds the next copy, modulo 2^64. */
  lemma RepeatStep(value: nat, i: nat, result: nat, power: nat)
    requires result == Wrap64(Repeated(value, i)) && power == Pow10(NumDigits(value) * i)
    ensures Wrap64(result + Wrap64(value * power)) == Wrap64(Repeated(value, i + 1))
  {
    ShiftIsProduct(value, NumDigits(value) * i);
    RepeatedTop(value, i);
    WrapAdd(Repeated(value, i), value * power);
  }

  /** repeat_digits(value, times): adds value * 10^(digits * i) for i below times in
      uint64_t arithmetic, that is, times copies of value modulo 2^64. ten_power's
      table bounds the highest shift. */
  method RepeatDigits(value: nat, times: nat) returns (result: nat)
    requires value < U64
    requires times >= 1 ==> NumDigits(value) * (times - 1) <= 19
    ensures result == Wrap64(Repeated(value, times))
  {
    var digits := CountDigits(value);
    result := 0;
    var i := 0;
    while i < times
      invariant i <= times
      invariant result == Wrap64(Repeated(value, i))
    {
      MulMonotone(digits, i, times - 1);
      var power := TenPower(digits * i);
      RepeatStep(value, i, result, power);
      result := Wrap64(result + Wrap64(value * power));
      i := i + 1;
    }
  }

  /** An invalid ID: a positive block written at least twice. A block with a leading
      zero cannot start an ID's text, so blocks are positive numbers. */
  ghost predicate Invalid(x: nat) {
    exists c: nat, t: nat :: 1 <= c && 2 <= t && Repeated(c, t) == x
  }

  /** The text of an invalid ID is a block written at least twice. */
  lemma InvalidText(c: nat, t: nat)
    requires 1 <= c && 2 <= t
    ensures ToDecimal(Repeated(c, t)) == RepeatText(ToDecimal(c), t)
  {
    RepeatedText(c, t);
  }

  /** Conversely, an ID whose text is a block written at least twice is invalid. */
  lemma TextInvalid(x: nat, b: string, t: nat)
    requires |b| >= 1 && t >= 2 && ToDecimal(x) == RepeatText(b, t)
    ensures Invalid(x)
  {
    var s := ToDecimal(x);
    RepeatTextPrefix(b, t);
    ToDecimalDigits(x);
    DecimalRoundTrip(x);
    assert forall i :: 0 <= i < |b| ==> b[i] == s[i];
    assert AllDigits(b);
    if x == 0 {
      assert |s| == 1;
      RepeatTextLength(b, t);
      MulAtLeast(|b|, t);
      assert false;
    }
    assert b[0] != '0';
    LeadingDigitPositive(b);
    var c := DecimalValue(b);
    CanonicalRoundTrip(b);
    RepeatedText(c, t);
    DecimalRoundTrip(Repeated(c, t));
    assert Repeated(c, t) == x;
  }

  lemma {:induction false} RepeatTextPrefix(b: string, t: nat)
    requires t >= 1
    ensures |RepeatText(b, t)| >= |b| && RepeatText(b, t)[..|b|] == b
  {
    if t > 1 {
      RepeatTextPrefix(b, t - 1);
      assert RepeatText(b, t)[..|b|] == RepeatText(b, t - 1)[..|b|];
    }
  }

  lemma {:induction false} RepeatTextLength(b: string, t: nat)
    ensures |RepeatText(b, t)| == |b| * t
  {
    if t > 0 {
      RepeatTextLength(b, t - 1);
    }
  }

  /** The invalid IDs of a range. */
  ghost function InvalidIds(range: P1.Range): set<nat> {
    set x: nat | range.start <= x <= range.end && Invalid(x)
  }

  /** The invalid IDs of a range that have as many digits as its start or its end. */
  ghost function EndLengthIds(range: P1.Range): set<nat> {
    set x | x in InvalidIds(range)
      && (NumDigits(x) == NumDigits(range.start) || NumDigits(x) == NumDigits(range.end))
  }

  /** Which repetition counts are tried for a check value: as written, only those that
      reach the digit count of the range's start or of its end; or every count whose
      length lies between the two. */
  datatype Search = EndLengths | AllLengths

  /** The repetition counts tried for a check value of cd digits, when the range's ends
      have sd and ed digits. */
  function Times(search: Search, sd: nat, ed: nat, cd: nat): set<nat>
    requires cd >= 1
  {
    match search
    case EndLengths =>
      (if sd % cd == 0 then {sd / cd} else {}) + (if ed % cd == 0 then {ed / cd} else {})
    case AllLengths => set t | 2 <= t <= ed && sd <= t * cd <= ed
  }

  /** Every count tried as written makes the repetition exactly as long as one of the
      range's ends. */
  lemma EndLengthsTimes(sd: nat, ed: nat, cd: nat, t: nat)
    requires cd >= 1 && t in Times(EndLengths, sd, ed, cd)
    ensures t * cd == sd || t * cd == ed
  {
  }

  /** What check_times inserts for check value c and the counts ts: counts below 2 are
      skipped, and a repetition (in uint64_t arithmetic) is kept when it lies in the
      range. */
  ghost function Hits(range: P1.Range, c: nat, ts: set<nat>): set<nat> {
    set t | t in ts && t >= 2 && range.start <= Wrap64(Repeated(c, t)) <= range.end
      :: Wrap64(Repeated(c, t))
  }

  /** invalid_ids after the check values 0 .. n-1. */
  ghost function Collected(range: P1.Range, search: Search, n: nat): set<nat> {
    if n == 0 then {}
    else
      var c := n - 1;
      Collected(range, search, c)
        + Hits(range, c, Times(search, NumDigits(range.start), NumDigits(range.end), NumDigits(c)))
  }

  /** check_end: check values have at most half the end's digits, rounded up. */
  function CheckLimit(range: P1.Range): nat {
    Pow10((NumDigits(range.end) + 1) / 2)
  }

  /** check_times: inserts the repetition of check if the count is at least 2 and the
      repetition lies in the range. */
  method CheckTimes(range: P1.Range, check: nat, times: nat, ids: set<nat>) returns (ids': set<nat>)
    requires check < U64
    requires times >= 2 ==> NumDigits(check) * (times - 1) <= 19
    ensures ids' == ids + Hits(range, check, {times})
    ensures times <= 1 ==> ids' == ids
    ensures forall v :: v in ids' && v !in ids ==> range.start <= v <= range.end
  {
    if times == 0 || times == 1 {
      assert Hits(range, check, {times}) == {};
      return ids;
    }
    var value := RepeatDigits(check, times);
    if value >= range.start && value <= range.end {
      assert Hits(range, check, {times}) == {value};
      ids' := ids + {value};
    } else {
      assert Hits(range, check, {times}) == {};
      ids' := ids;
    }
  }

  lemma HitsUnion(range: P1.Range, c: nat, a: set<nat>, b: set<nat>)
    ensures Hits(range, c, a + b) == Hits(range, c, a) + Hits(range, c, b)
  {
  }

  /** The counts invalid_id_sum's branches hand to check_times: the same set whether
      or not the start and the end have equally many digits. */
  lemma EndLengthsBranches(sd: nat, ed: nat, cd: nat)
    requires cd >= 1
    ensures sd == ed && sd % cd == 0 ==> Times(EndLengths, sd, ed, cd) == {sd / cd}
    ensures !(sd == ed && sd % cd == 0) ==>
      Times(EndLengths, sd, ed, cd)
        == (if sd % cd == 0 then {sd / cd} else {}) + (if ed % cd == 0 then {ed / cd} else {})
  {
  }

  /** A count that makes the repetition as long as a range end stays in ten_power's
      table. */
  lemma ExactCount(digits: nat, cd: nat)
    requires cd >= 1 && 1 <= digits <= 20 && digits % cd == 0
    ensures cd * (digits / cd - 1) <= 19
  {
    var t := digits / cd;
    assert digits == cd * t;
    assert cd * (t - 1) == digits - cd;
  }

  /** 10^((ed + 1) / 2) exceeds INT_MAX exactly when the end has 19 or more digits. */
  lemma CheckLimitFitsInt(range: P1.Range)
    requires range.end < U64
    ensures CheckLimit(range) > IntMax <==> NumDigits(range.end) >= 19
  {
    var ed := NumDigits(range.end);
    NumDigitsAtMost20(range.end);
    Pow10Table();
    if ed >= 19 {
      assert (ed + 1) / 2 == 10;
    } else {
      Pow10Monotone((ed + 1) / 2, 9);
    }
  }

  /** invalid_id_sum as written: for each check value below check_end, only the
      repetition counts that reach the start's or the end's digit count; the distinct
      hits are then summed. When check_end exceeds INT_MAX the `int` counter would
      overflow before the loop ends; the model stops there with Abort. */
  method InvalidIdSumEndLengths(range: P1.Range) returns (result: Checked<nat>)
    requires range.start < U64 && range.end < U64
    ensures result == if NumDigits(range.end) >= 19 then Abort else Ok(SetSum(EndLengthIds(range)))
  {
    var startDigits := CountDigits(range.start);
    var endDigits := CountDigits(range.end);
    var checkEnd := TenPower((endDigits + 1) / 2);
    CheckLimitFitsInt(range);
    if checkEnd > IntMax {
      return Abort;
    }
    var ids: set<nat> := {};
    var check := 0;
    while check < checkEnd
      invariant check <= checkEnd
      invariant ids == Collected(range, EndLengths, check)
    {
      ids := CheckEndLengths(range, check, startDigits, endDigits, ids);
      CollectedStep(range, EndLengths, check);
      check := check + 1;
    }
    var sum := SumIds(ids);
    FoundSum(range, EndLengths, ids);
    return Ok(sum);
  }

  /** The body of invalid_id_sum's loop for one check value, as written: its branches
      hand check_times the counts that reach the start's or the end's digit count. */
  method CheckEndLengths(range: P1.Range, check: nat, startDigits: nat, endDigits: nat, ids: set<nat>)
    returns (ids': set<nat>)
    requires check < IntMax && range.start < U64 && range.end < U64
    requires startDigits == NumDigits(range.start) && endDigits == NumDigits(range.end)
    ensures ids' == ids + Hits(range, check, Times(EndLengths, startDigits, endDigits, NumDigits(check)))
  {
    NumDigitsAtMost20(range.start);
    NumDigitsAtMost20(range.end);
    var checkDigits := CountDigits(check);
    EndLengthsBranches(startDigits, endDigits, checkDigits);
    ids' := ids;
    if startDigits == endDigits && startDigits % checkDigits == 0 {
      ExactCount(startDigits, checkDigits);
      ids' := CheckTimes(range, check, startDigits / checkDigits, ids');
    } else {
      if startDigits % checkDigits == 0 {
        ExactCount(startDigits, checkDigits);
        ids' := CheckTimes(range, check, startDigits / checkDigits, ids');
      }
      if endDigits % checkDigits == 0 {
        ExactCount(endDigits, checkDigits);
        ids' := CheckTimes(range, check, endDigits / checkDigits, ids');
      }
      HitsUnion(range, check, if startDigits % checkDigits == 0 then {startDigits / checkDigits} else {},
        if endDigits % checkDigits == 0 then {endDigits / checkDigits} else {});
    }
  }

  /** invalid_id_sum with every repetition count whose length lies between the
      start's and the end's digit counts: the sum of all the range's invalid IDs. */
  method InvalidIdSum(range: P1.Range) returns (result: Checked<nat>)
    requires range.start < U64 && range.end < U64
    ensures result == if NumDigits(range.end) >= 19 then Abort else Ok(SetSum(InvalidIds(range)))
  {
    var startDigits := CountDigits(range.start);
    var endDigits := CountDigits(range.end);
    var checkEnd := TenPower((endDigits + 1) / 2);
    CheckLimitFitsInt(range);
    if checkEnd > IntMax {
      return Abort;
    }
    var ids: set<nat> := {};
    var check := 0;
    while check < checkEnd
      invariant check <= checkEnd
      invariant ids == Collected(range, AllLengths, check)
    {
      NumDigitsBelow(check, (endDigits + 1) / 2);
      ids := CheckAllLengths(range, check, startDigits, endDigits, ids);
      CollectedStep(range, AllLengths, check);
      check := check + 1;
    }
    var sum := SumIds(ids);
    FoundSum(range, AllLengths, ids);
    return Ok(sum);
  }

  /** One check value with every count: count times is tried while its repetition,
      times * checkDigits digits long, fits in the end's digits, and kept when it is
      at least as long as the start. */
  method CheckAllLengths(range: P1.Range, check: nat, startDigits: nat, endDigits: nat, ids: set<nat>)
    returns (ids': set<nat>)
    requires check < IntMax && endDigits <= 18
    requires NumDigits(check) <= endDigits
    ensures ids' == ids + Hits(range, check, Times(AllLengths, startDigits, endDigits, NumDigits(check)))
  {
    var checkDigits := CountDigits(check);
    ids' := ids;
    var times := 2;
    var length := 2 * checkDigits;
    while length <= endDigits
      invariant times >= 2 && length == times * checkDigits && length <= endDigits + checkDigits
      invariant ids' == ids + Hits(range, check, Tried(startDigits, endDigits, checkDigits, times))
      decreases endDigits + checkDigits - length
    {
      TriedStep(range, check, startDigits, endDigits, checkDigits, times);
      if length >= startDigits {
        CountBound(checkDigits, times, length);
        ids' := CheckTimes(range, check, times, ids');
      }
      MulSucc(times, checkDigits);
      times := times + 1;
      length := length + checkDigits;
    }
    TriedAll(startDigits, endDigits, checkDigits, times);
  }

  /** The search after one more check value. */
  lemma CollectedStep(range: P1.Range, search: Search, c: nat)
    ensures Collected(range, search, c + 1) == Collected(range, search, c)
      + Hits(range, c, Times(search, NumDigits(range.start), NumDigits(range.end), NumDigits(c)))
  {
  }

  /** The counts the inner loop has tried before reaching n. */
  ghost function Tried(sd: nat, ed: nat, cd: nat, n: nat): set<nat>
    requires cd >= 1
  {
    set t | t in Times(AllLengths, sd, ed, cd) && t < n
  }

  /** One turn of the inner loop tries count n when its length reaches sd. */
  lemma TriedStep(range: P1.Range, c: nat, sd: nat, ed: nat, cd: nat, n: nat)
    requires cd >= 1 && 2 <= n && n * cd <= ed
    ensures Hits(range, c, Tried(sd, ed, cd, n + 1))
      == Hits(range, c, Tried(sd, ed, cd, n)) + if sd <= n * cd then Hits(range, c, {n}) else {}
  {
    MulAtLeast(n, cd);
    if sd <= n * cd {
      assert Tried(sd, ed, cd, n + 1) == Tried(sd, ed, cd, n) + {n};
      HitsUnion(range, c, Tried(sd, ed, cd, n), {n});
    } else {
      assert Tried(sd, ed, cd, n + 1) == Tried(sd, ed, cd, n);
    }
  }

  lemma MulSucc(a: nat, b: nat)
    ensures (a + 1) * b == a * b + b
  {
  }

  /** The highest shift of a repetition length digits long, length <= 18. */
  lemma CountBound(cd: nat, times: nat, length: nat)
    requires times >= 2 && length == times * cd && length <= 18
    ensures cd * (times - 1) <= 19
  {
    assert cd * (times - 1) == times * cd - cd;
  }

  /** Once the length passes ed every count has been tried. */
  lemma TriedAll(sd: nat, ed: nat, cd: nat, n: nat)
    requires cd >= 1 && n * cd > ed
    ensures Tried(sd, ed, cd, n) == Times(AllLengths, sd, ed, cd)
  {
    forall t | t in Times(AllLengths, sd, ed, cd)
      ensures t < n
    {
      if t >= n {
        MulMonotone(cd, n, t);
      }
    }
  }

  /** The fold over a finished search sums its target IDs. */
  lemma FoundSum(range: P1.Range, search: Search, ids: set<nat>)
    requires NumDigits(range.end) <= 18 && ids == Collected(range, search, CheckLimit(range))
    ensures SetSum(ids) == SetSum(Target(range, search))
  {
    FoundIsTarget(range, search);
    SetSumWithoutZero(ids);
  }

  /** The IDs a search should find. */
  ghost function Target(range: P1.Range, search: Search): set<nat> {
    match search
    case EndLengths => EndLengthIds(range)
    case AllLengths => InvalidIds(range)
  }

  /** Below 19 digits nothing wraps, and a search finds exactly its target IDs (and
      possibly 0, the repetition of the check value 0, which adds nothing). */
  lemma FoundIsTarget(range: P1.Range, search: Search)
    requires NumDigits(range.end) <= 18
    ensures Collected(range, search, CheckLimit(range)) - {0} == Target(range, search)
  {
    var found := Collected(range, search, CheckLimit(range));
    forall x | x in found - {0}
      ensures x in Target(range, search)
    {
      CollectedSound(range, search, CheckLimit(range), x);
    }
    forall x | x in Target(range, search)
      ensures x in found - {0}
    {
      var c: nat, t: nat :| 1 <= c && 2 <= t && Repeated(c, t) == x;
      TargetFound(range, search, c, t);
    }
  }

  /** A value below 19 digits is its own uint64_t value. */
  lemma NoWrap(x: nat)
    requires NumDigits(x) <= 19
    ensures Wrap64(x) == x
  {
    NumDigitsBounds(x);
    Pow10Monotone(NumDigits(x), 19);
    Pow10Table();
  }

  /** Everything a search inserts, other than 0, is one of its target IDs. */
  lemma {:induction false} CollectedSound(range: P1.Range, search: Search, n: nat, x: nat)
    requires NumDigits(range.end) <= 18
    requires x in Collected(range, search, n) && x != 0
    ensures x in Target(range, search)
  {
    var c := n - 1;
    var sd, ed, cd := NumDigits(range.start), NumDigits(range.end), NumDigits(c);
    if x in Collected(range, search, c) {
      CollectedSound(range, search, c, x);
    } else {
      var t :| t in Times(search, sd, ed, cd) && t >= 2 && range.start <= Wrap64(Repeated(c, t)) <= range.end
        && x == Wrap64(Repeated(c, t));
      if c == 0 {
        RepeatedZero(t);
        assert false;
      }
      HitSound(range, search, c, t);
    }
  }

  /** A hit of block c repeated t times is a target ID. */
  lemma HitSound(range: P1.Range, search: Search, c: nat, t: nat)
    requires NumDigits(range.end) <= 18 && c >= 1 && t >= 2
    requires t in Times(search, NumDigits(range.start), NumDigits(range.end), NumDigits(c))
    requires range.start <= Wrap64(Repeated(c, t)) <= range.end
    ensures Wrap64(Repeated(c, t)) in Target(range, search)
  {
    var sd, ed, cd := NumDigits(range.start), NumDigits(range.end), NumDigits(c);
    NumDigitsMonotone(range.start, range.end);
    assert t * cd <= ed by {
      if search == EndLengths {
        EndLengthsTimes(sd, ed, cd, t);
      }
    }
    RepeatedDigits(c, t);
    NoWrap(Repeated(c, t));
    var x := Repeated(c, t);
    assert Wrap64(x) == x;
    assert x in InvalidIds(range);
    if search == EndLengths {
      EndLengthsTimes(sd, ed, cd, t);
      assert x in EndLengthIds(range);
    }
  }

  /** Every target ID is inserted: its block is below check_end and its repetition
      count is tried. */
  lemma TargetFound(range: P1.Range, search: Search, c: nat, t: nat)
    requires NumDigits(range.end) <= 18
    requires 1 <= c && 2 <= t && Repeated(c, t) in Target(range, search)
    ensures Repeated(c, t) in Collected(range, search, CheckLimit(range))
  {
    var x := Repeated(c, t);
    var sd, ed, cd := NumDigits(range.start), NumDigits(range.end), NumDigits(c);
    assert range.start <= x <= range.end;
    assert search == EndLengths ==> NumDigits(x) == sd || NumDigits(x) == ed;
    RepeatedDigits(c, t);
    NumDigitsMonotone(range.start, x);
    NumDigitsMonotone(x, range.end);
    NoWrap(x);
    BlockBelowLimit(c, t, ed);
    TriedCount(search, sd, ed, cd, t);
    CollectedComplete(range, search, CheckLimit(range), c, t);
  }

  /** A block repeated at least twice within ed digits is below check_end. */
  lemma BlockBelowLimit(c: nat, t: nat, ed: nat)
    requires 2 <= t && t * NumDigits(c) <= ed
    ensures c < Pow10((ed + 1) / 2)
  {
    var cd := NumDigits(c);
    MulMonotone(cd, 2, t);
    NumDigitsBounds(c);
    Pow10Monotone(cd, (ed + 1) / 2);
  }

  /** The count t of a repetition t * cd digits long, which lies between sd and ed
      digits (as written: equals one of them), is tried. */
  lemma TriedCount(search: Search, sd: nat, ed: nat, cd: nat, t: nat)
    requires cd >= 1 && 2 <= t && sd <= t * cd <= ed
    requires search == EndLengths ==> t * cd == sd || t * cd == ed
    ensures t in Times(search, sd, ed, cd)
  {
    MulAtLeast(t, cd);
    if search == EndLengths {
      MulDivCancel(t, cd);
      ModOfMultiple(t, cd);
      assert cd * t == t * cd;
    }
  }

  lemma {:induction false} CollectedComplete(range: P1.Range, search: Search, n: nat, c: nat, t: nat)
    requires c < n && 2 <= t
    requires t in Times(search, NumDigits(range.start), NumDigits(range.end), NumDigits(c))
    requires range.start <= Wrap64(Repeated(c, t)) <= range.end
    ensures Wrap64(Repeated(c, t)) in Collected(range, search, n)
  {
    if c < n - 1 {
      CollectedComplete(range, search, n - 1, c, t);
    }
  }

  /** Pick and SetSum: the fold over the unordered set, in some fixed order. */
  ghost function Pick(s: set<nat>): (x: nat)
    requires s != {}
    ensures x in s
  {
    var x :| x in s; x
  }

  ghost function SetSum(s: set<nat>): nat {
    if s == {} then 0 else var x := Pick(s); x + SetSum(s - {x})
  }

  /** The sum does not depend on the order: any element can be taken out first. */
  lemma {:induction false} SetSumRemove(s: set<nat>, y: nat)
    requires y in s
    ensures SetSum(s) == y + SetSum(s - {y})
    decreases |s|
  {
    var x := Pick(s);
    if x != y {
      SetSumRemove(s - {x}, y);
      SetSumRemove(s - {y}, x);
      assert s - {x} - {y} == s - {y} - {x};
    }
  }

  lemma SetSumWithoutZero(s: set<nat>)
    ensures SetSum(s) == SetSum(s - {0})
  {
    if 0 in s {
      SetSumRemove(s, 0);
    } else {
      assert s - {0} == s;
    }
  }

  lemma {:induction false} SetSumMonotone(a: set<nat>, b: set<nat>)
    requires a <= b
    ensures SetSum(a) <= SetSum(b)
    decreases |b|
  {
    if a != {} {
      var y := Pick(a);
      SetSumRemove(a, y);
      SetSumRemove(b, y);
      SetSumMonotone(a - {y}, b - {y});
    }
  }

  /** The fold_left over invalid_ids: each distinct ID is added once. */
  method SumIds(ids: set<nat>) returns (sum: nat)
    ensures sum == SetSum(ids)
  {
    sum := 0;
    var rest := ids;
    while rest != {}
      invariant sum + SetSum(rest) == SetSum(ids)
      decreases |rest|
    {
      var x :| x in rest;
      SetSumRemove(rest, x);
      sum := sum + x;
      rest := rest - {x};
    }
  }

  /** 11 lies in 5-1000000 and is 1 written twice, but it has two digits, while the
      start has one and the end seven: the search as written never tries it, and its
      sum falls short by at least 11. */
  lemma MissedLength()
    ensures var range := P1.Range(5, 1000000);
      && 11 in InvalidIds(range) && 11 !in EndLengthIds(range)
      && SetSum(EndLengthIds(range)) + 11 <= SetSum(InvalidIds(range))
  {
    var range := P1.Range(5, 1000000);
    ShiftZero(1);
    assert Repeated(1, 2) == 11;
    assert Invalid(11);
    Pow10Table();
    NumDigitsUnique(1000000, 7);
    NumDigitsUnique(11, 2);
    var all, ends := InvalidIds(range), EndLengthIds(range);
    assert 11 in all && 11 !in ends;
    SetSumRemove(all, 11);
    SetSumMonotone(ends, all - {11});
  }

  /** Whether a range makes invalid_id_sum overflow its int check_end: its end has
      19 or more digits. */
  ghost predicate Overflows(range: P1.Range) {
    NumDigits(range.end) >= 19
  }

  /** Whether any of the ranges overflows. */
  ghost predicate AnyOverflows(ranges: seq<P1.Range>) {
    ranges != [] && (AnyOverflows(ranges[..|ranges| - 1]) || Overflows(ranges[|ranges| - 1]))
  }

  /** The sum over the ranges of their invalid IDs. */
  ghost function TotalOf(ranges: seq<P1.Range>): nat {
    if ranges == [] then 0
    else TotalOf(ranges[..|ranges| - 1]) + SetSum(InvalidIds(ranges[|ranges| - 1]))
  }

  lemma {:induction false} AnyOverflowsExtend(a: seq<P1.Range>, b: seq<P1.Range>)
    requires AnyOverflows(a)
    ensures AnyOverflows(a + b)
    decreases |b|
  {
    if b == [] {
      assert a + b == a;
    } else {
      AnyOverflowsExtend(a, b[..|b| - 1]);
      assert (a + b)[..|a + b| - 1] == a + b[..|b| - 1];
    }
  }

  /** One range of solve's loop: the range read moves from the ranges left to the
      ranges done; an overflowing range makes the whole input overflow, any other
      adds its sum. */
  lemma SolveStep(all: seq<P1.Range>, done: seq<P1.Range>, range: P1.Range, rest: seq<P1.Range>)
    requires done + ([range] + rest) == all
    ensures (done + [range]) + rest == all
    ensures AnyOverflows(done + [range]) == (AnyOverflows(done) || Overflows(range))
    ensures Overflows(range) ==> AnyOverflows(all)
    ensures TotalOf(done + [range]) == TotalOf(done) + SetSum(InvalidIds(range))
  {
    SeqAssoc(done, [range], rest);
    assert (done + [range])[..|done|] == done;
    if Overflows(range) {
      AnyOverflowsExtend(done + [range], rest);
    }
  }

  /** solve: the invalid-ID sums of the ranges, added in input order; a range whose
      end has 19 digits, like a parse that runs off the text, is undefined
      behaviour. */
  method Solve(data: string) returns (result: Checked<nat>)
    ensures result == if P1.Aborts(data, 0) || AnyOverflows(P1.Ranges(data, 0)) then Abort
      else Ok(TotalOf(P1.Ranges(data, 0)))
  {
    var sum: nat := 0;
    var pos: nat := 0;
    ghost var done: seq<P1.Range> := [];
    while pos < |data|
      invariant done + P1.Ranges(data, pos) == P1.Ranges(data, 0)
      invariant P1.Aborts(data, pos) == P1.Aborts(data, 0)
      invariant !AnyOverflows(done) && sum == TotalOf(done)
      decreases |data| + 1 - pos
    {
      var parsed, next := P1.ParseRange(data, pos);
      if parsed.Abort? {
        return Abort;
      }
      var range := parsed.value;
      var s := InvalidIdSum(range);
      SolveStep(P1.Ranges(data, 0), done, range, P1.Ranges(data, next + 1));
      if s.Abort? {
        return Abort;
      }
      sum := sum + s.value;
      done := done + [range];
      pos := next + 1;
    }
    assert done + [] == done;
    result := Ok(sum);
  }
}
