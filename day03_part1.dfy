/** Day 3, part 1: each input line is a bank of batteries, one digit each; the
    joltage of a bank is the largest two-digit number formed by two of its digits
    kept in order, and the answer is the sum over the banks. */
module Day03Part1 {
  import opened Utils

  /** The digit values of data[lo..hi], one battery per character. */
  function Digits(data: string, lo: nat, hi: nat): (r: seq<nat>)
    requires lo <= hi <= |data|
    ensures |r| == hi - lo
    decreases hi
  {
    if hi <= lo then [] else Digits(data, lo, hi - 1) + [DigitValue(data[hi - 1])]
  }

  /** Battery k of the run is the value of character lo + k, a digit value below 10. */
  lemma {:induction false} DigitsValues(data: string, lo: nat, hi: nat)
    requires lo <= hi <= |data|
    ensures forall k :: 0 <= k < hi - lo ==> Digits(data, lo, hi)[k] == DigitValue(data[lo + k])
    ensures AllBelowTen(Digits(data, lo, hi))
    decreases hi
  {
    if hi > lo {
      DigitsValues(data, lo, hi - 1);
    }
  }

  /** parse_battery_bank: the buffer is cleared, then the value of every digit of
      the run at pos is appended; pos is left on the first non-digit. */
  method ParseBatteryBank(data: string, pos: nat) returns (batteries: seq<nat>, next: nat)
    requires pos <= |data|
    ensures next == DigitRunEnd(data, pos)
    ensures batteries == Digits(data, pos, next)
  {
    batteries := [];
    next := pos;
    while IsDigit(At(data, next))
      invariant pos <= next <= |data|
      invariant DigitRunEnd(data, next) == DigitRunEnd(data, pos)
      invariant batteries == Digits(data, pos, next)
      decreases |data| - next
    {
      batteries := batteries + [DigitValue(data[next])];
      next := next + 1;
    }
  }

  /** combine_digits: the digits of first followed by the digits of second. */
  function CombineDigits(first: nat, second: nat): (r: nat)
    ensures r == first * Pow10(NumDigits(second)) + second
    ensures r >= second
  {
    ShiftIsProduct(first, NumDigits(second));
    Shift(first, NumDigits(second)) + second
  }

  /** Combining is concatenation of decimal texts when first has no leading zero,
      and it can be undone: dropping second's digits gives first back. */
  lemma CombineDigitsText(first: nat, second: nat)
    ensures first >= 1 ==> ToDecimal(CombineDigits(first, second)) == ToDecimal(first) + ToDecimal(second)
    ensures DropDigits(CombineDigits(first, second), NumDigits(second)) == first
  {
    if first >= 1 {
      ConcatDecimal(first, second);
    }
    DropShifted(first, NumDigits(second), second);
  }

  /** The index std::ranges::max_element finds. */
  function LeftmostMax(s: seq<nat>): (i: nat)
    requires |s| > 0
    ensures i < |s|
  {
    if |s| == 1 then 0
    else
      var j := LeftmostMax(s[..|s| - 1]);
      if s[|s| - 1] > s[j] then |s| - 1 else j
  }

  /** max_element finds the leftmost maximum: nothing is larger, and everything
      before it is smaller. */
  lemma {:induction false} LeftmostMaxIsMax(s: seq<nat>)
    requires |s| > 0
    ensures forall k :: 0 <= k < |s| ==> s[k] <= s[LeftmostMax(s)]
    ensures forall k :: 0 <= k < LeftmostMax(s) ==> s[k] < s[LeftmostMax(s)]
  {
    if |s| > 1 {
      LeftmostMaxIsMax(s[..|s| - 1]);
    }
  }

  /** calc_largest_joltage: the leftmost largest digit among the first
      size - count + 1 batteries, followed by the joltage of count - 1 batteries
      chosen from the strictly shorter rest after it. The C++ asserts count > 0, and
      a bank shorter than count makes its span empty or wrap around. */
  function LargestJoltage(batteries: seq<nat>, count: nat): nat
    requires 1 <= count <= |batteries|
    decreases count
  {
    var i := LeftmostMax(batteries[..|batteries| - count + 1]);
    if count == 1 then batteries[i]
    else CombineDigits(batteries[i], LargestJoltage(batteries[i + 1..], count - 1))
  }

  /** With one battery to choose the joltage is the bank's largest value. */
  lemma JoltageOfOne(batteries: seq<nat>)
    requires |batteries| >= 1
    ensures LargestJoltage(batteries, 1) in batteries
    ensures forall k :: 0 <= k < |batteries| ==> batteries[k] <= LargestJoltage(batteries, 1)
  {
    assert batteries[..|batteries|] == batteries;
    LeftmostMaxIsMax(batteries);
  }

  /** The joltage of a pair read as a two-digit number. */
  function PairJoltage(batteries: seq<nat>, i: nat, j: nat): nat
    requires i < j < |batteries|
  {
    10 * batteries[i] + batteries[j]
  }

  predicate AllBelowTen(batteries: seq<nat>) {
    forall k :: 0 <= k < |batteries| ==> batteries[k] < 10
  }

  /** A single digit is combined by one decimal shift. */
  lemma CombineDigit(first: nat, second: nat)
    requires second < 10
    ensures CombineDigits(first, second) == 10 * first + second
  {
    assert NumDigits(second) == 1;
    assert Shift(first, 1) == 10 * Shift(first, 0);
  }

  /** With two batteries the greedy choice is the leftmost largest of all but the
      last battery, then the largest battery after it. */
  lemma JoltageOfTwoUnfold(batteries: seq<nat>, i0: nat, j0: nat)
    requires |batteries| >= 2 && AllBelowTen(batteries)
    requires i0 == LeftmostMax(batteries[..|batteries| - 1])
    requires j0 == LeftmostMax(batteries[i0 + 1..])
    ensures i0 + 1 + j0 < |batteries|
    ensures LargestJoltage(batteries, 2) == PairJoltage(batteries, i0, i0 + 1 + j0)
  {
    var rest := batteries[i0 + 1..];
    assert rest[..|rest|] == rest;
    assert LargestJoltage(rest, 1) == rest[j0];
    assert rest[j0] == batteries[i0 + 1 + j0];
    CombineDigit(batteries[i0], rest[j0]);
  }

  /** With two batteries to choose, the greedy answer is the best pair: it is formed
      by some pair i < j, and no pair i < j does better. */
  lemma JoltageOfTwo(batteries: seq<nat>)
    requires |batteries| >= 2 && AllBelowTen(batteries)
    ensures exists i, j :: 0 <= i < j < |batteries| && LargestJoltage(batteries, 2) == PairJoltage(batteries, i, j)
    ensures forall i, j :: 0 <= i < j < |batteries| ==> PairJoltage(batteries, i, j) <= LargestJoltage(batteries, 2)
  {
    var i0 := LeftmostMax(batteries[..|batteries| - 1]);
    var j0 := LeftmostMax(batteries[i0 + 1..]);
    JoltageOfTwoUnfold(batteries, i0, j0);
    forall i, j | 0 <= i < j < |batteries|
      ensures PairJoltage(batteries, i, j) <= PairJoltage(batteries, i0, i0 + 1 + j0)
    {
      BestPairBound(batteries, i0, j0, i, j);
    }
  }

  lemma BestPairBound(batteries: seq<nat>, i0: nat, j0: nat, i: nat, j: nat)
    requires |batteries| >= 2 && AllBelowTen(batteries)
    requires i0 == LeftmostMax(batteries[..|batteries| - 1])
    requires j0 == LeftmostMax(batteries[i0 + 1..])
    requires i < j < |batteries|
    ensures i0 + 1 + j0 < |batteries|
    ensures PairJoltage(batteries, i, j) <= 10 * batteries[i0] + batteries[i0 + 1 + j0]
  {
    var n := |batteries|;
    LeftmostMaxIsMax(batteries[..n - 1]);
    LeftmostMaxIsMax(batteries[i0 + 1..]);
    assert batteries[i] == batteries[..n - 1][i];
    assert batteries[i0 + 1 + j0] == batteries[i0 + 1..][j0];
    if batteries[i] == batteries[i0] {
      assert i0 <= i;
      assert batteries[j] == batteries[i0 + 1..][j - i0 - 1];
    }
  }

  /** The banks solve reads from pos on: after each one the loop's `++pos` steps
      over the line break. */
  function Banks(data: string, pos: nat): seq<seq<nat>>
    decreases |data| + 1 - pos
  {
    if pos >= |data| then []
    else
      var e := DigitRunEnd(data, pos);
      [Digits(data, pos, e)] + Banks(data, e + 1)
  }

  /** Every bank read holds digit values only, so the best-pair property of
      JoltageOfTwo applies to each bank that is long enough. */
  lemma {:induction false} BanksAreDigits(data: string, pos: nat)
    ensures forall i :: 0 <= i < |Banks(data, pos)| ==> AllBelowTen(Banks(data, pos)[i])
    decreases |data| + 1 - pos
  {
    if pos < |data| {
      var e := DigitRunEnd(data, pos);
      DigitsValues(data, pos, e);
      BanksAreDigits(data, e + 1);
    }
  }

  /** Whether some bank has fewer than two batteries, where calc_largest_joltage's
      search span is empty or wraps around (undefined behaviour). */
  predicate AnyShort(banks: seq<seq<nat>>) {
    banks != [] && (AnyShort(banks[..|banks| - 1]) || |banks[|banks| - 1]| < 2)
  }

  /** The sum of the banks' two-battery joltages. */
  function TotalJoltage(banks: seq<seq<nat>>): nat
    requires !AnyShort(banks)
  {
    if banks == [] then 0
    else TotalJoltage(banks[..|banks| - 1]) + LargestJoltage(banks[|banks| - 1], 2)
  }

  lemma {:induction false} AnyShortExtend(a: seq<seq<nat>>, b: seq<seq<nat>>)
    requires AnyShort(a)
    ensures AnyShort(a + b)
    decreases |b|
  {
    if b == [] {
      assert a + b == a;
    } else {
      AnyShortExtend(a, b[..|b| - 1]);
      assert (a + b)[..|a + b| - 1] == a + b[..|b| - 1];
    }
  }

  /** One bank of solve's loop: it moves from the banks left to the banks done; a
      short bank makes the whole input short, any other adds its joltage. */
  lemma SolveStep(all: seq<seq<nat>>, done: seq<seq<nat>>, bank: seq<nat>, rest: seq<seq<nat>>)
    requires done + ([bank] + rest) == all && !AnyShort(done)
    ensures (done + [bank]) + rest == all
    ensures |bank| < 2 ==> AnyShort(all)
    ensures |bank| >= 2 ==> !AnyShort(done + [bank])
    ensures |bank| >= 2 ==> TotalJoltage(done + [bank]) == TotalJoltage(done) + LargestJoltage(bank, 2)
  {
    SeqAssoc(done, [bank], rest);
    assert (done + [bank])[..|done|] == done;
    if |bank| < 2 {
      AnyShortExtend(done + [bank], rest);
    }
  }

  /** solve: the sum of the banks' joltages; a bank with fewer than two batteries
      stops the program. */
  method Solve(data: string) returns (result: Checked<nat>)
    ensures result == if AnyShort(Banks(data, 0)) then Abort else Ok(TotalJoltage(Banks(data, 0)))
  {
    var sum: nat := 0;
    var pos: nat := 0;
    ghost var done: seq<seq<nat>> := [];
    while pos < |data|
      invariant done + Banks(data, pos) == Banks(data, 0)
      invariant !AnyShort(done) && sum == TotalJoltage(done)
      decreases |data| + 1 - pos
    {
      var batteries, next := ParseBatteryBank(data, pos);
      assert Banks(data, pos) == [batteries] + Banks(data, next + 1);
      SolveStep(Banks(data, 0), done, batteries, Banks(data, next + 1));
      if |batteries| < 2 {
        return Abort;
      }
      sum := sum + LargestJoltage(batteries, 2);
      done := done + [batteries];
      pos := next + 1;
    }
    assert done + [] == done;
    result := Ok(sum);
  }
}
