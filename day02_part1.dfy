/** Day 2, part 1: an ID is invalid when its decimal text is some digit string written
    twice (55, 6464, 123123); the answer sums the invalid IDs of every input range. */
module Day02Part1 {
  import opened Utils

  /** An inclusive range of IDs. */
  datatype Range = Range(start: nat, end: nat)

  /** The range written at pos and the cursor after it: the start, exactly one
      separator character, then the end. When the start's digits run to the end of
      the text, the cursor steps past the terminator and the next read is undefined. */
  function RangeAt(data: string, pos: nat): (r: Checked<(Range, nat)>)
    requires pos <= |data|
    ensures r.Ok? ==> pos < r.value.1 <= |data|
  {
    var e := DigitRunEnd(data, pos);
    if e == |data| then Abort
    else
      var next := DigitRunEnd(data, e + 1);
      Ok((Range(Wrap64(NumberAt(data, pos, e)), Wrap64(NumberAt(data, e + 1, next))), next))
  }

  /** The ranges solve reads from pos on; after each one the loop's `++pos` steps over
      the separator that follows it. A parse that runs off the end of the text ends
      the list. */
  function Ranges(data: string, pos: nat): seq<Range>
    decreases |data| + 1 - pos
  {
    if pos >= |data| then []
    else
      match RangeAt(data, pos)
      case Abort => []
      case Ok((range, next)) => [range] + Ranges(data, next + 1)
  }

  /** Whether solve, reading from pos on, reaches a parse that runs off the end of
      the text (undefined behaviour). */
  predicate Aborts(data: string, pos: nat)
    decreases |data| + 1 - pos
  {
    pos < |data| &&
    match RangeAt(data, pos)
    case Abort => true
    case Ok((_, next)) => Aborts(data, next + 1)
  }

  /** parse_range: reads the next range of the input, or runs off the end of the
      text. */
  method ParseRange(data: string, pos: nat) returns (range: Checked<Range>, next: nat)
    requires pos < |data|
    ensures range.Abort? ==> Aborts(data, pos) && Ranges(data, pos) == []
    ensures range.Ok? ==>
      && pos < next <= |data|
      && Ranges(data, pos) == [range.value] + Ranges(data, next + 1)
      && Aborts(data, pos) == Aborts(data, next + 1)
      && range.value.start < U64 && range.value.end < U64
  {
    var start;
    start, next := ParseUint64(data, pos);
    if next == |data| {
      assert RangeAt(data, pos) == Abort;
      RangesFirst(data, pos);
      return Abort, next;
    }
    next := next + 1;
    var end;
    end, next := ParseUint64(data, next);
    range := Ok(Range(start, end));
    assert RangeAt(data, pos) == Ok((range.value, next));
    RangesFirst(data, pos);
  }

  /** The first parse from pos decides the head of the ranges and whether solve aborts. */
  lemma RangesFirst(data: string, pos: nat)
    requires pos < |data|
    ensures RangeAt(data, pos).Abort? ==> Aborts(data, pos) && Ranges(data, pos) == []
    ensures RangeAt(data, pos).Ok? ==>
      var (range, next) := RangeAt(data, pos).value;
      && Ranges(data, pos) == [range] + Ranges(data, next + 1)
      && Aborts(data, pos) == Aborts(data, next + 1)
  {
  }

  /** The number whose decimal text is that of c written twice: c followed by
      NumDigits(c) more digits that spell c again. */
  function Doubled(c: nat): nat {
    Shift(c, NumDigits(c)) + c
  }

  lemma DoubledIsProduct(c: nat)
    ensures Doubled(c) == c * Pow10(NumDigits(c)) + c
  {
    ShiftIsProduct(c, NumDigits(c));
  }

  /** repeat_digits as written: value * ten_power(count_digits(value)) + value in
      uint64_t arithmetic, so the doubling wraps modulo 2^64 once it needs 20 digits
      past 2^64 - 1. */
  method RepeatDigitsU64(value: nat) returns (repeated: nat)
    requires value < U64 && NumDigits(value) <= 19
    ensures repeated == Doubled(value) % U64
  {
    var digits := CountDigits(value);
    var power := TenPower(digits);
    DoubledIsProduct(value);
    repeated := (value * power + value) % U64;
  }

  /** repeat_digits without the wrap-around: the doubling itself. */
  method RepeatDigits(value: nat) returns (repeated: nat)
    requires value < U64 && NumDigits(value) <= 19
    ensures repeated == Doubled(value)
  {
    var digits := CountDigits(value);
    var power := TenPower(digits);
    DoubledIsProduct(value);
    repeated := value * power + value;
  }

  /** With a 19-digit range end, check_range reaches 9999999999, whose doubling
      (twenty nines) wraps to 7766279631452241919: a value inside the range whose
      text is not any string written twice. */
  lemma DoublingWraps()
    ensures var range := Range(1, 9999999999999999999);
      CheckStart(range) <= 9999999999 <= CheckEnd(range)
      && Doubled(9999999999) > range.end
      && range.start <= Doubled(9999999999) % U64 <= range.end
      && forall c: nat :: Doubled(c) != Doubled(9999999999) % U64
  {
    var range := Range(1, 9999999999999999999);
    Pow10Table();
    NumDigitsUnique(range.end, 19);
    NumDigitsUnique(9999999999, 10);
    DropDigitsIsDiv(range.end, 9);
    DoubledIsProduct(9999999999);
    var wrapped := Doubled(9999999999) % U64;
    DivUnique(99999999999999999999, U64, 5, 7766279631452241919);
    NumDigitsUnique(wrapped, 19);
    forall c: nat
      ensures Doubled(c) != wrapped
    {
      if c >= 1 {
        DoubledDigits(c);
      }
    }
  }

  /** What a check contributes to invalid_id_sum as written: repeat_digits' wrapped
      doubling, when that lies in the range. */
  function WrappedTerm(range: Range, c: nat): nat {
    var d := Doubled(c) % U64;
    if range.start <= d <= range.end then d else 0
  }

  /** invalid_id_sum's uint64_t sum as written, over the checks lo .. n-1. */
  function WrappedSum(range: Range, lo: nat, n: nat): (r: nat)
    ensures r < U64
    decreases n
  {
    if n <= lo then 0 else (WrappedSum(range, lo, n - 1) + WrappedTerm(range, n - 1)) % U64
  }

  /** invalid_id_sum as written: every check of check_range adds its wrapped doubling
      when that lies in the range, and the sum wraps too. */
  method InvalidIdSumU64(range: Range) returns (sum: nat)
    requires range.start < U64 && range.end < U64
    ensures sum == WrappedSum(range, CheckStart(range), CheckEnd(range) + 1)
  {
    var lo, hi := CheckRange(range);
    CheckEndBelow(range);
    sum := 0;
    var check := lo;
    while check <= hi
      invariant lo <= check && (check <= hi + 1 || check == lo)
      invariant sum == WrappedSum(range, lo, check)
      decreases hi as int - check
    {
      NumDigitsMonotone(check, hi);
      var repeated := RepeatDigitsU64(check);
      WrappedSumStep(range, lo, check, repeated);
      if repeated >= range.start && repeated <= range.end {
        sum := (sum + repeated) % U64;
      }
      check := check + 1;
    }
  }

  lemma WrappedSumStep(range: Range, lo: nat, check: nat, repeated: nat)
    requires lo <= check && repeated == Doubled(check) % U64
    ensures WrappedSum(range, lo, check + 1) == if range.start <= repeated <= range.end
      then (WrappedSum(range, lo, check) + repeated) % U64 else WrappedSum(range, lo, check)
  {
  }

  /** For the range 1-9999999999999999999, check_range runs from 0 to 9999999999, and
      the last check contributes 7766279631452241919 to invalid_id_sum as written: the
      wrapped value that DoublingWraps shows is no doubling. */
  lemma WrappedSumAddsWrap(range: Range)
    requires range == Range(1, 9999999999999999999)
    ensures CheckStart(range) <= CheckEnd(range) == 9999999999
    ensures WrappedTerm(range, CheckEnd(range)) == 7766279631452241919
  {
    LastCheckWraps(range);
  }

  lemma LastCheckWraps(range: Range)
    requires range == Range(1, 9999999999999999999)
    ensures CheckStart(range) == 0 && CheckEnd(range) == 9999999999
    ensures Doubled(CheckEnd(range)) % U64 == 7766279631452241919
  {
    Pow10Table();
    NumDigitsUnique(1, 1);
    DropDigitsIsDiv(1, 1);
    NumDigitsUnique(range.end, 19);
    DropDigitsIsDiv(range.end, 9);
    NumDigitsUnique(9999999999, 10);
    DoubledIsProduct(9999999999);
    DivUnique(99999999999999999999, U64, 5, 7766279631452241919);
  }

  /** For a positive value, the decimal text of its doubling is the value's text
      written twice. */
  lemma DoubledText(c: nat)
    requires c >= 1
    ensures ToDecimal(Doubled(c)) == ToDecimal(c) + ToDecimal(c)
  {
    ConcatDecimal(c, c);
  }

  /** Conversely, a number whose text is some string twice is the doubling of that
      string's value, and that value is canonical (no leading zero). */
  lemma TwiceTextIsDoubled(n: nat, s: string)
    requires ToDecimal(n) == s + s
    ensures |s| >= 1 && AllDigits(s) && s[0] != '0'
    ensures n == Doubled(DecimalValue(s)) && DecimalValue(s) >= 1
  {
    var t := ToDecimal(n);
    DecimalRoundTrip(n);
    ToDecimalDigits(n);
    assert |s| >= 1;
    assert forall i :: 0 <= i < |s| ==> s[i] == t[i];
    assert NumDigits(0) == 1;
    assert n != 0;
    LeadingDigitPositive(s);
    var c := DecimalValue(s);
    CanonicalRoundTrip(s);
    DoubledText(c);
    DecimalRoundTrip(Doubled(c));
    assert ToDecimal(Doubled(c)) == t;
    DecimalRoundTrip(n);
  }

  /** Doubling is strictly increasing, so no ID is the doubling of two values. */
  lemma DoubledIncreasing(a: nat, b: nat)
    requires a < b
    ensures Doubled(a) < Doubled(b)
  {
    DoubledIsProduct(a);
    DoubledIsProduct(b);
    NumDigitsMonotone(a, b);
    Pow10Monotone(NumDigits(a), NumDigits(b));
    ProductIncreasing(a, b, Pow10(NumDigits(a)), Pow10(NumDigits(b)));
  }

  lemma ProductIncreasing(a: nat, b: nat, p: nat, q: nat)
    requires a < b && 1 <= p <= q
    ensures a * p + a < b * q + b
  {
    MulMonotone(a, p, q);
    MulMonotone(q, a, b);
  }

  /** What a value contributes to the sum: its doubling if that lies in the range. */
  function Term(range: Range, c: nat): nat {
    var d := Doubled(c);
    if range.start <= d <= range.end then d else 0
  }

  /** Reference sum: the doublings of 0 .. n-1 that fall in the range. */
  function RepeatedSum(range: Range, n: nat): nat {
    if n == 0 then 0 else RepeatedSum(range, n - 1) + Term(range, n - 1)
  }

  /** The invalid IDs of a range, summed: every doubling that lies in it (a doubling
      of c is at least c, so the values up to the range's end cover them all). */
  function RangeTotal(range: Range): nat {
    RepeatedSum(range, range.end + 1)
  }

  /** Half a digit count, rounded up (start of check_range) or down (its end). */
  function HalfUp(digits: nat): nat {
    (digits + (if digits % 2 != 0 then 1 else 0)) / 2
  }

  function HalfDown(digits: nat): nat {
    (digits - (if digits % 2 != 0 then 1 else 0)) / 2
  }

  /** check_range: the first half of the shortest even-length doubling not below
      start, and the first half of the longest even-length doubling not above end. */
  function CheckStart(range: Range): nat {
    DropDigits(range.start, HalfUp(NumDigits(range.start)))
  }

  function CheckEnd(range: Range): nat {
    DropDigits(range.end, HalfDown(NumDigits(range.end)))
  }

  /** The check_range computation of invalid_id_sum. */
  method CheckRange(range: Range) returns (lo: nat, hi: nat)
    requires range.start < U64 && range.end < U64
    ensures lo == CheckStart(range) && hi == CheckEnd(range)
  {
    var startDigits := CountDigits(range.start);
    var endDigits := CountDigits(range.end);
    var startHalf := (startDigits + (if startDigits % 2 != 0 then 1 else 0)) / 2;
    var endHalf := (endDigits - (if endDigits % 2 != 0 then 1 else 0)) / 2;
    assert startHalf == HalfUp(NumDigits(range.start)) && endHalf == HalfDown(NumDigits(range.end));
    var startPower := TenPower(startHalf);
    var endPower := TenPower(endHalf);
    DropDigitsIsDiv(range.start, startHalf);
    DropDigitsIsDiv(range.end, endHalf);
    lo, hi := range.start / startPower, range.end / endPower;
  }

  /** invalid_id_sum tries only check_range; it sums the same doublings as trying
      every value from 0 to the range's end. */
  method InvalidIdSum(range: Range) returns (sum: nat)
    requires range.start < U64 && range.end < U64
    ensures sum == RangeTotal(range)
  {
    var lo, hi := CheckRange(range);
    CheckEndBelow(range);
    BeforeWindow(range);
    sum := 0;
    var check := lo;
    while check <= hi
      invariant lo <= check && (check <= hi + 1 || check == lo)
      invariant sum == RepeatedSum(range, check)
      decreases hi as int - check
    {
      NumDigitsMonotone(check, hi);
      var repeated := RepeatDigits(check);
      RepeatedSumStep(range, check, repeated);
      if repeated >= range.start && repeated <= range.end {
        sum := sum + repeated;
      }
      check := check + 1;
    }
    AfterWindow(range, check);
  }

  lemma RepeatedSumStep(range: Range, check: nat, repeated: nat)
    requires repeated == Doubled(check)
    ensures RepeatedSum(range, check + 1)
      == RepeatedSum(range, check) + if range.start <= repeated <= range.end then repeated else 0
  {
  }

  /** No value below check_range contributes. */
  lemma BeforeWindow(range: Range)
    ensures RepeatedSum(range, CheckStart(range)) == 0
  {
    forall c: nat | c < CheckStart(range)
      ensures Term(range, c) == 0
    {
      if Term(range, c) != 0 {
        WindowComplete(range, c);
      }
    }
    SumFlat(range, 0, CheckStart(range));
  }

  /** Once past check_range, no further value contributes up to the range's end. */
  lemma AfterWindow(range: Range, check: nat)
    requires check > CheckEnd(range)
    ensures RepeatedSum(range, check) == RangeTotal(range)
  {
    if check <= range.end + 1 {
      forall c: nat | check <= c < range.end + 1
        ensures Term(range, c) == 0
      {
        if Term(range, c) != 0 {
          WindowComplete(range, c);
        }
      }
      SumFlat(range, check, range.end + 1);
    } else {
      SumFlat(range, range.end + 1, check);
    }
  }

  lemma {:induction false} SumFlat(range: Range, n: nat, m: nat)
    requires n <= m
    requires forall c :: n <= c < m ==> Term(range, c) == 0
    ensures RepeatedSum(range, n) == RepeatedSum(range, m)
    decreases m
  {
    if n < m {
      SumFlat(range, n, m - 1);
    }
  }

  /** check_range.end lies within the range's end and has at most 19 digits, so
      repeat_digits never leaves ten_power's table. */
  lemma CheckEndBelow(range: Range)
    requires range.end < U64
    ensures NumDigits(CheckEnd(range)) <= 19 && CheckEnd(range) <= range.end
  {
    NumDigitsAtMost20(range.end);
    DropDigitsCount(range.end, HalfDown(NumDigits(range.end)));
    DropDigitsIsDiv(range.end, HalfDown(NumDigits(range.end)));
  }

  /** Every value whose doubling lies in the range is inside check_range. */
  lemma WindowComplete(range: Range, c: nat)
    requires range.start <= Doubled(c) <= range.end
    ensures CheckStart(range) <= c <= CheckEnd(range)
  {
    if c == 0 {
      assert Doubled(0) == 0;
      DropDigitsAll(range.start, HalfUp(NumDigits(range.start)));
    } else {
      DoubledDigits(c);
      WindowLower(range, c, NumDigits(c), Doubled(c));
      WindowUpper(range, c, NumDigits(c), Doubled(c));
    }
  }

  /** The doubling of a k-digit value has 2k digits, and its first half is the value. */
  lemma DoubledDigits(c: nat)
    requires c >= 1
    ensures NumDigits(Doubled(c)) == 2 * NumDigits(c)
    ensures DropDigits(Doubled(c), NumDigits(c)) == c
  {
    DropShifted(c, NumDigits(c), c);
    DoubledText(c);
    DecimalRoundTrip(c);
    DecimalRoundTrip(Doubled(c));
  }

  lemma HalfSplit(n: nat)
    ensures HalfUp(n) + HalfDown(n) == n
    ensures HalfDown(n) <= HalfUp(n) <= HalfDown(n) + 1
  {
  }

  lemma WindowLower(range: Range, c: nat, k: nat, d: nat)
    requires c >= 1 && k == NumDigits(c) && NumDigits(d) == 2 * k
    requires DropDigits(d, k) == c && range.start <= d
    ensures CheckStart(range) <= c
  {
    var sd := NumDigits(range.start);
    var a := HalfUp(sd);
    NumDigitsMonotone(range.start, d);
    HalfSplit(sd);
    if a == k {
      DropDigitsMonotone(range.start, d, k);
    } else if a >= sd {
      DropDigitsAll(range.start, a);
    } else {
      DropDigitsCount(range.start, a);
      NumDigitsLess(DropDigits(range.start, a), c);
    }
  }

  lemma WindowUpper(range: Range, c: nat, k: nat, d: nat)
    requires c >= 1 && k == NumDigits(c) && NumDigits(d) == 2 * k
    requires DropDigits(d, k) == c && d <= range.end
    ensures c <= CheckEnd(range)
  {
    var ed := NumDigits(range.end);
    var b := HalfDown(ed);
    NumDigitsMonotone(d, range.end);
    HalfSplit(ed);
    if b == k {
      DropDigitsMonotone(d, range.end, k);
    } else {
      DropDigitsCount(range.end, b);
      NumDigitsLess(c, DropDigits(range.end, b));
    }
  }

  /** Total over a list of ranges, in input order. */
  function TotalOf(ranges: seq<Range>): nat {
    if ranges == [] then 0 else TotalOf(ranges[..|ranges| - 1]) + RangeTotal(ranges[|ranges| - 1])
  }

  lemma TotalOfStep(done: seq<Range>, range: Range)
    ensures TotalOf(done + [range]) == TotalOf(done) + RangeTotal(range)
  {
    assert (done + [range])[..|done|] == done;
  }

  /** solve: the invalid-ID sums of the ranges, added in input order. */
  method Solve(data: string) returns (result: Checked<nat>)
    ensures result == if Aborts(data, 0) then Abort else Ok(TotalOf(Ranges(data, 0)))
  {
    var sum: nat := 0;
    var pos: nat := 0;
    ghost var done: seq<Range> := [];
    while pos < |data|
      invariant done + Ranges(data, pos) == Ranges(data, 0)
      invariant Aborts(data, pos) == Aborts(data, 0)
      invariant sum == TotalOf(done)
      decreases |data| + 1 - pos
    {
      var parsed, next := ParseRange(data, pos);
      if parsed.Abort? {
        return Abort;
      }
      var range := parsed.value;
      SeqAssoc(done, [range], Ranges(data, next + 1));
      var s := InvalidIdSum(range);
      TotalOfStep(done, range);
      sum := sum + s;
      done := done + [range];
      pos := next + 1;
    }
    assert done + [] == done;
    result := Ok(sum);
  }
}
