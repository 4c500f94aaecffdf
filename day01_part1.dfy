/** Day 1, part 1: a dial of 100 positions starts at 50; each input line "L<n>" or
    "R<n>" turns it, and the answer is how many turns leave it on 0. */
module Day01Part1 {
  import opened Utils

  /** Where the number of the rotation at pos ends (parse_rotation skips the letter). */
  function RotationEnd(data: string, pos: nat): (e: nat)
    requires pos < |data|
    ensures pos + 1 <= e <= |data|
  {
    DigitRunEnd(data, pos + 1)
  }

  /** Signed amount of the rotation written at pos. */
  function Rotation(data: string, pos: nat): int
    requires pos < |data|
  {
    var magnitude: int := NumberAt(data, pos + 1, RotationEnd(data, pos));
    if data[pos] == 'L' then -magnitude else magnitude
  }

  /** parse_rotation: 'L' gives a left (non-positive) turn, any other letter a right
      (non-negative) one; the cursor ends on the first non-digit after the number. */
  method ParseRotation(data: string, pos: nat) returns (rotation: int, next: nat)
    requires pos < |data|
    ensures next == RotationEnd(data, pos)
    ensures rotation == Rotation(data, pos)
    ensures data[pos] == 'L' ==> rotation <= 0
    ensures data[pos] != 'L' ==> rotation >= 0
    ensures Abs(rotation) == NumberAt(data, pos + 1, next)
  {
    var sign: int := if data[pos] == 'L' then -1 else 1;
    var value;
    value, next := ParseUint(data, pos + 1);
    rotation := sign * value;
  }

  /** The rotations solve reads from pos on: after each one the loop's `++pos`
      steps over the line break. */
  function Rotations(data: string, pos: nat): seq<int>
    decreases |data| + 1 - pos
  {
    if pos >= |data| then [] else [Rotation(data, pos)] + Rotations(data, RotationEnd(data, pos) + 1)
  }

  const Start: int := 50

  /** Dial position after the given rotations, starting from 50. */
  function DialAfter(rotations: seq<int>): int {
    if rotations == [] then Start
    else MathMod(DialAfter(rotations[..|rotations| - 1]) + rotations[|rotations| - 1], 100)
  }

  /** Number of rotations after which the dial shows 0. */
  function ZeroLandings(rotations: seq<int>): nat {
    if rotations == [] then 0
    else ZeroLandings(rotations[..|rotations| - 1]) + (if DialAfter(rotations) == 0 then 1 else 0)
  }

  /** solve: the number of rotations of the input that end on 0. */
  method Solve(data: string) returns (zeroCount: nat)
    ensures zeroCount == ZeroLandings(Rotations(data, 0))
  {
    zeroCount := 0;
    var dial := Start;
    var pos := 0;
    ghost var done: seq<int> := [];
    while pos < |data|
      invariant done + Rotations(data, pos) == Rotations(data, 0)
      invariant dial == DialAfter(done) && zeroCount == ZeroLandings(done)
      decreases |data| + 1 - pos
    {
      var rotation, next := ParseRotation(data, pos);
      RotationsStep(data, pos, done, rotation, next);
      LandingStep(done, rotation, dial);
      dial := MathMod(dial + rotation, 100);
      if dial == 0 {
        zeroCount := zeroCount + 1;
      }
      done := done + [rotation];
      pos := next + 1;
    }
    assert done == Rotations(data, 0);
  }

  /** One iteration of solve's loop reads the next rotation of the input. */
  lemma RotationsStep(data: string, pos: nat, done: seq<int>, rotation: int, next: nat)
    requires pos < |data| && done + Rotations(data, pos) == Rotations(data, 0)
    requires rotation == Rotation(data, pos) && next == RotationEnd(data, pos)
    ensures (done + [rotation]) + Rotations(data, next + 1) == Rotations(data, 0)
  {
    var rest := Rotations(data, next + 1);
    assert Rotations(data, pos) == [rotation] + rest;
    SeqAssoc(done, [rotation], rest);
  }

  lemma LandingStep(done: seq<int>, rotation: int, dial: int)
    requires dial == DialAfter(done)
    ensures DialAfter(done + [rotation]) == MathMod(dial + rotation, 100)
    ensures ZeroLandings(done + [rotation])
      == ZeroLandings(done) + if DialAfter(done + [rotation]) == 0 then 1 else 0
  {
    assert (done + [rotation])[..|done|] == done;
  }

  function Sum(s: seq<int>): int {
    if s == [] then 0 else Sum(s[..|s| - 1]) + s[|s| - 1]
  }

  /** The dial always shows 50 plus the sum of the rotations so far, modulo 100. */
  lemma {:induction false} DialAfterIsSum(rotations: seq<int>)
    ensures DialAfter(rotations) == (Start + Sum(rotations)) % 100
    ensures 0 <= DialAfter(rotations) <= 99
  {
    if rotations != [] {
      var init := rotations[..|rotations| - 1];
      var last := rotations[|rotations| - 1];
      DialAfterIsSum(init);
      ModAddLeft(Start + Sum(init), last);
    }
  }

  lemma ModAddLeft(a: int, b: int)
    ensures (a % 100 + b) % 100 == (a + b) % 100
  {
    var q := a / 100;
    assert a == 100 * q + a % 100;
    assert a + b == (a % 100 + b) + 100 * q;
    ModShift(a % 100 + b, q);
  }

  lemma ModShift(x: int, q: int)
    ensures (x + 100 * q) % 100 == x % 100
  {
    var r := x % 100;
    assert x == 100 * (x / 100) + r;
    assert x + 100 * q == 100 * (x / 100 + q) + r;
    DivUnique(x + 100 * q, 100, x / 100 + q, r);
  }

  /** Reference count: how many of the first m prefix sums put the dial on 0,
      computed from the sums alone rather than from the running dial. */
  function ZeroPrefixCount(rotations: seq<int>, m: nat): (n: nat)
    requires m <= |rotations|
    ensures n <= m
  {
    if m == 0 then 0
    else ZeroPrefixCount(rotations, m - 1) + (if (Start + Sum(rotations[..m])) % 100 == 0 then 1 else 0)
  }

  /** zero_count counts exactly the prefixes whose sum, added to 50, is a multiple of
      100, so it never exceeds the number of rotations. */
  lemma {:induction false} ZeroLandingsCountsZeroPrefixes(rotations: seq<int>, m: nat)
    requires m <= |rotations|
    ensures ZeroLandings(rotations[..m]) == ZeroPrefixCount(rotations, m)
    ensures ZeroLandings(rotations[..m]) <= m
  {
    if m > 0 {
      ZeroLandingsCountsZeroPrefixes(rotations, m - 1);
      assert rotations[..m][..m - 1] == rotations[..m - 1];
      DialAfterIsSum(rotations[..m]);
    }
  }
}
