/** Day 1, part 2: the same dial, but every single click that brings it to 0 counts,
    not just the position a rotation ends on. */
module Day01Part2 {
  import opened Utils
  import Day01Part1

  /** A parsed line: direction (-1 for 'L', +1 otherwise) and number of clicks. */
  datatype Turn = Turn(sign: int, value: nat)

  /** parse_rotation: the letter gives the sign, the digits after it the click count. */
  method ParseTurn(data: string, pos: nat) returns (turn: Turn, next: nat)
    requires pos < |data|
    ensures next == Day01Part1.RotationEnd(data, pos)
    ensures turn.sign == (if data[pos] == 'L' then -1 else 1)
    ensures turn.value == NumberAt(data, pos + 1, next)
  {
    var sign := if data[pos] == 'L' then -1 else 1;
    var value;
    value, next := ParseUint(data, pos + 1);
    turn := Turn(sign, value);
  }

  function TurnAt(data: string, pos: nat): Turn
    requires pos < |data|
  {
    Turn(if data[pos] == 'L' then -1 else 1, NumberAt(data, pos + 1, Day01Part1.RotationEnd(data, pos)))
  }

  /** The turns solve reads from pos on, one per line. */
  function Turns(data: string, pos: nat): seq<Turn>
    decreases |data| + 1 - pos
  {
    if pos >= |data| then [] else [TurnAt(data, pos)] + Turns(data, Day01Part1.RotationEnd(data, pos) + 1)
  }

  /** to_zero_amount: clicks needed to reach 0 in the turn's direction (a full turn
      when the dial already shows 0). */
  function ToZero(dial: int, sign: int): int {
    if dial != 0 then (if sign < 0 then dial else 100 - dial) else 100
  }

  /** One rotation of solve: first the clicks up to the first 0 (or the whole turn if
      it is shorter), then the rest, which passes 0 once per full hundred. Yields the
      new dial and the increment of zero_count. */
  function Step(dial: int, turn: Turn): (r: (int, nat))
    ensures 0 <= r.0 < 100
    ensures r.0 == (dial + turn.sign * turn.value) % 100
  {
    var toZero := ToZero(dial, turn.sign);
    var init := if toZero < turn.value then toZero else turn.value;
    var first := MathMod(dial + turn.sign * init, 100);
    var remainder := turn.value - init;
    StepDial(dial, turn.sign, init, remainder);
    (MathMod(first + turn.sign * remainder, 100), (if first == 0 then 1 else 0) + remainder / 100)
  }

  lemma StepDial(dial: int, sign: int, init: int, remainder: int)
    ensures ((dial + sign * init) % 100 + sign * remainder) % 100 == (dial + sign * (init + remainder)) % 100
  {
    Day01Part1.ModAddLeft(dial + sign * init, sign * remainder);
    assert sign * (init + remainder) == sign * init + sign * remainder;
  }

  function DialAfter(turns: seq<Turn>): int {
    if turns == [] then Day01Part1.Start else Step(DialAfter(turns[..|turns| - 1]), turns[|turns| - 1]).0
  }

  function ZeroCount(turns: seq<Turn>): nat {
    if turns == [] then 0
    else ZeroCount(turns[..|turns| - 1]) + Step(DialAfter(turns[..|turns| - 1]), turns[|turns| - 1]).1
  }

  /** The body of solve's loop for one parsed turn: the two partial moves of the
      dial and the zero_count increment they produce. */
  method Rotate(dial: int, turn: Turn) returns (newDial: int, increment: nat)
    ensures (newDial, increment) == Step(dial, turn)
  {
    increment := 0;
    var toZero := ToZero(dial, turn.sign);
    var init := if toZero < turn.value then toZero else turn.value;
    newDial := MathMod(dial + turn.sign * init, 100);
    if newDial == 0 {
      increment := increment + 1;
    }
    var remainder := turn.value - init;
    newDial := MathMod(newDial + turn.sign * remainder, 100);
    increment := increment + remainder / 100;
  }

  /** One iteration of solve's loop reads the next turn of the input. */
  lemma TurnsStep(data: string, pos: nat, done: seq<Turn>, turn: Turn, next: nat)
    requires pos < |data| && done + Turns(data, pos) == Turns(data, 0)
    requires next == Day01Part1.RotationEnd(data, pos)
    requires turn.sign == (if data[pos] == 'L' then -1 else 1)
    requires turn.value == NumberAt(data, pos + 1, next)
    ensures (done + [turn]) + Turns(data, next + 1) == Turns(data, 0)
  {
    var rest := Turns(data, next + 1);
    assert Turns(data, pos) == [turn] + rest;
    SeqAssoc(done, [turn], rest);
  }

  lemma TurnStep(done: seq<Turn>, turn: Turn)
    ensures DialAfter(done + [turn]) == Step(DialAfter(done), turn).0
    ensures ZeroCount(done + [turn]) == ZeroCount(done) + Step(DialAfter(done), turn).1
  {
    assert (done + [turn])[..|done|] == done;
  }

  /** solve: the total zero_count over the turns of the input. */
  method Solve(data: string) returns (zeroCount: nat)
    ensures zeroCount == ZeroCount(Turns(data, 0))
  {
    zeroCount := 0;
    var dial := Day01Part1.Start;
    var pos := 0;
    ghost var done: seq<Turn> := [];
    while pos < |data|
      invariant done + Turns(data, pos) == Turns(data, 0)
      invariant dial == DialAfter(done) && zeroCount == ZeroCount(done)
      decreases |data| + 1 - pos
    {
      var turn, next := ParseTurn(data, pos);
      TurnsStep(data, pos, done, turn, next);
      TurnStep(done, turn);
      var increment;
      dial, increment := Rotate(dial, turn);
      zeroCount := zeroCount + increment;
      done := done + [turn];
      pos := next + 1;
    }
    assert done == Turns(data, 0);
  }

  /** Number of clicks k in 1..r after which the dial, turning from `dial` in
      direction `sign`, shows 0. */
  function ZeroClicks(dial: int, sign: int, r: nat): nat {
    if r == 0 then 0 else ZeroClicks(dial, sign, r - 1) + (if (dial + sign * r) % 100 == 0 then 1 else 0)
  }

  /** to_zero_amount is the first click that reaches 0. */
  lemma ToZeroIsFirstZero(dial: int, sign: int)
    requires 0 <= dial < 100 && (sign == -1 || sign == 1)
    ensures 1 <= ToZero(dial, sign) <= 100
    ensures (dial + sign * ToZero(dial, sign)) % 100 == 0
    ensures forall k :: 1 <= k < ToZero(dial, sign) ==> (dial + sign * k) % 100 != 0
  {
    var t := ToZero(dial, sign);
    assert dial + sign * t == 0 || dial + sign * t == 100 || dial + sign * t == -100;
    forall k | 1 <= k < t
      ensures (dial + sign * k) % 100 != 0
    {
      var x := dial + sign * k;
      if 0 < x < 100 {
        DivUnique(x, 100, 0, x);
      } else {
        assert -100 < x < 0;
        DivUnique(x, 100, -1, x + 100);
      }
    }
  }

  /** Past the first zero, the dial shows 0 again exactly every hundred clicks. */
  lemma ZeroAfterFirst(dial: int, sign: int, r: int)
    requires 0 <= dial < 100 && (sign == -1 || sign == 1)
    requires r >= ToZero(dial, sign)
    ensures (dial + sign * r) % 100 == 0 <==> (r - ToZero(dial, sign)) % 100 == 0
  {
    var t := ToZero(dial, sign);
    ToZeroIsFirstZero(dial, sign);
    var x := r - t;
    var q := (dial + sign * t) / 100;
    assert dial + sign * t == 100 * q;
    assert dial + sign * r == sign * x + 100 * q;
    Day01Part1.ModShift(sign * x, q);
    if sign == -1 {
      NegModZero(x);
    }
  }

  lemma NegModZero(x: int)
    ensures (-x) % 100 == 0 <==> x % 100 == 0
  {
    var q := x / 100;
    var r := x % 100;
    assert x == 100 * q + r;
    if r == 0 {
      DivUnique(-x, 100, -q, 0);
    } else {
      DivUnique(-x, 100, -q - 1, 100 - r);
    }
  }

  lemma DivStep(x: int)
    requires x >= 1
    ensures x / 100 == (x - 1) / 100 + (if x % 100 == 0 then 1 else 0)
  {
    var q := (x - 1) / 100;
    var r := (x - 1) % 100;
    assert x - 1 == 100 * q + r;
    if r == 99 {
      DivUnique(x, 100, q + 1, 0);
    } else {
      DivUnique(x, 100, q, r + 1);
    }
  }

  /** Closed form of the click count: none before the first zero, then one every
      hundred clicks. */
  lemma {:induction false} ZeroClicksClosedForm(dial: int, sign: int, r: nat)
    requires 0 <= dial < 100 && (sign == -1 || sign == 1)
    ensures var t := ToZero(dial, sign);
      ZeroClicks(dial, sign, r) == if r < t then 0 else 1 + (r - t) / 100
  {
    var t := ToZero(dial, sign);
    ToZeroIsFirstZero(dial, sign);
    if r > 0 {
      ZeroClicksClosedForm(dial, sign, r - 1);
      if r > t {
        ZeroAfterFirst(dial, sign, r);
        DivStep(r - t);
      } else if r == t {
        assert (r - t) / 100 == 0;
      }
    }
  }

  /** For a turn of at least one click, the increment of zero_count is the number of
      clicks of that turn that put the dial on 0. */
  lemma StepCountsZeroClicks(dial: int, turn: Turn)
    requires 0 <= dial < 100 && (turn.sign == -1 || turn.sign == 1)
    requires turn.value >= 1
    ensures Step(dial, turn).1 == ZeroClicks(dial, turn.sign, turn.value)
  {
    var t := ToZero(dial, turn.sign);
    ToZeroIsFirstZero(dial, turn.sign);
    ZeroClicksClosedForm(dial, turn.sign, turn.value);
    if turn.value < t {
      assert (dial + turn.sign * turn.value) % 100 != 0;
    }
  }

  /** A turn shorter than the distance to the first zero leaves zero_count unchanged,
      unless it has no clicks at all and starts on 0. */
  lemma ShortTurnCountsNothing(dial: int, turn: Turn)
    requires 0 <= dial < 100 && (turn.sign == -1 || turn.sign == 1)
    requires turn.value < ToZero(dial, turn.sign) && !(turn.value == 0 && dial == 0)
    ensures Step(dial, turn).1 == 0
  {
    ToZeroIsFirstZero(dial, turn.sign);
    if turn.value >= 1 {
      assert (dial + turn.sign * turn.value) % 100 != 0;
    }
  }

  /** A turn of zero clicks while the dial shows 0 still adds one to zero_count. */
  lemma ZeroTurnAtZeroCounts(sign: int)
    ensures Step(0, Turn(sign, 0)) == (0, 1)
  {
  }

  /** The dial of part 2 follows the same positions as part 1. */
  lemma {:induction false} DialMatchesPart1(turns: seq<Turn>)
    ensures DialAfter(turns) == Day01Part1.DialAfter(Signed(turns))
    ensures 0 <= DialAfter(turns) < 100
  {
    if turns != [] {
      var init := turns[..|turns| - 1];
      var last := turns[|turns| - 1];
      var signed := Signed(turns);
      assert signed == Signed(init) + [last.sign * last.value];
      assert signed[..|turns| - 1] == Signed(init);
      DialMatchesPart1(init);
      var before := DialAfter(init);
      calc {
        DialAfter(turns);
        (before + last.sign * last.value) % 100;
        MathMod(before + last.sign * last.value, 100);
        Day01Part1.DialAfter(signed);
      }
    }
  }

  /** The signed rotations a list of turns describes. */
  function Signed(turns: seq<Turn>): (s: seq<int>)
    ensures |s| == |turns|
  {
    if turns == [] then [] else Signed(turns[..|turns| - 1]) + [turns[|turns| - 1].sign * turns[|turns| - 1].value]
  }

  /** Every click of every turn that lands on 0, the dial before each turn taken
      from the part 1 positions. */
  function ClicksOnZero(turns: seq<Turn>): nat {
    if turns == [] then 0
    else
      var init := turns[..|turns| - 1];
      var last := turns[|turns| - 1];
      ClicksOnZero(init) + ZeroClicks(Day01Part1.DialAfter(Signed(init)), last.sign, last.value)
  }

  /** When no turn is empty, solve counts exactly the clicks that land on 0. */
  lemma {:induction false} ZeroCountIsClicksOnZero(turns: seq<Turn>)
    requires forall t :: t in turns ==> t.value >= 1 && (t.sign == -1 || t.sign == 1)
    ensures ZeroCount(turns) == ClicksOnZero(turns)
  {
    if turns != [] {
      var init := turns[..|turns| - 1];
      var last := turns[|turns| - 1];
      assert last in turns;
      ZeroCountIsClicksOnZero(init);
      DialMatchesPart1(init);
      StepCountsZeroClicks(DialAfter(init), last);
    }
  }
}
