/** Digit and arithmetic helpers shared by every solver (include/utils.hpp). */
module Utils {

  /** 2^64, the modulus of the solvers' uint64_t arithmetic. */
  const U64: nat := 0x1_0000_0000_0000_0000

  /** A value reduced into uint64_t: what the solvers' 64-bit arithmetic keeps. */
  function Wrap64(n: nat): (r: nat)
    ensures r < U64
  {
    n % U64
  }

  /** Outcome of a step that can stop the program: a failed `assert`, or a read or
      division the C++ leaves undefined, ends the run with `Abort`. */
  datatype Checked<T> = Ok(value: T) | Abort

  /** std::optional */
  datatype Option<T> = None | Some(value: T)

  function Abs(x: int): nat {
    if x < 0 then -x else x
  }

  /** `data[i]`, where index `size()` reads the NUL that std::string keeps after its text. */
  function At(data: string, i: nat): char {
    if i < |data| then data[i] else '\0'
  }

  /** is_digit */
  predicate IsDigit(c: char) {
    '0' <= c <= '9'
  }

  /** Value of a digit character; other characters never reach it and count as 0. */
  function DigitValue(c: char): (d: nat)
    ensures d < 10
  {
    if IsDigit(c) then c as int - '0' as int else 0
  }

  function DigitChar(d: nat): (c: char)
    requires d < 10
    ensures IsDigit(c)
  {
    (d + '0' as int) as char
  }

  /** is_digit accepts exactly the ten decimal digit characters. */
  lemma DigitRoundTrip(c: char, d: nat)
    requires d < 10
    ensures DigitValue(DigitChar(d)) == d
    ensures IsDigit(c) ==> DigitChar(DigitValue(c)) == c
  {
  }

  predicate AllDigits(s: string) {
    forall i :: 0 <= i < |s| ==> IsDigit(s[i])
  }

  /** Value of a string of decimal digits, most significant first. */
  function DecimalValue(s: string): nat {
    if s == [] then 0 else 10 * DecimalValue(s[..|s| - 1]) + DigitValue(s[|s| - 1])
  }

  /** Value of the digits data[lo..hi], read in place. */
  function NumberAt(data: string, lo: nat, hi: nat): nat
    requires lo <= hi <= |data|
    decreases hi
  {
    if hi <= lo then 0 else 10 * NumberAt(data, lo, hi - 1) + DigitValue(data[hi - 1])
  }

  lemma {:induction false} NumberAtIsDecimal(data: string, lo: nat, hi: nat)
    requires lo <= hi <= |data|
    ensures NumberAt(data, lo, hi) == DecimalValue(data[lo..hi])
    decreases hi
  {
    if hi > lo {
      NumberAtIsDecimal(data, lo, hi - 1);
      assert data[lo..hi][..hi - lo - 1] == data[lo..hi - 1];
    }
  }

  function Pow10(e: nat): (r: nat)
    ensures r >= 1
  {
    if e == 0 then 1 else 10 * Pow10(e - 1)
  }

  /** Number of decimal digits of v; 0 is written with one digit. */
  function NumDigits(v: nat): (n: nat)
    ensures n >= 1
  {
    if v < 10 then 1 else 1 + NumDigits(v / 10)
  }

  /** Canonical decimal text of n: no leading zero unless n is 0. */
  function ToDecimal(n: nat): (s: string)
    ensures |s| >= 1
  {
    if n < 10 then [DigitChar(n)] else ToDecimal(n / 10) + [DigitChar(n % 10)]
  }

  /** The canonical text consists of digits only. */
  lemma {:induction false} ToDecimalDigits(n: nat)
    ensures AllDigits(ToDecimal(n))
  {
    if n >= 10 {
      ToDecimalDigits(n / 10);
    }
  }

  /** First index at or after pos that does not hold a digit. */
  function DigitRunEnd(data: string, pos: nat): (e: nat)
    requires pos <= |data|
    ensures pos <= e <= |data|
    ensures !IsDigit(At(data, e))
    decreases |data| - pos
  {
    if pos < |data| && IsDigit(data[pos]) then DigitRunEnd(data, pos + 1) else pos
  }

  /** parse_uint: scans the digit run at pos, leaves pos on the first non-digit and
      returns the run's decimal value (0, without moving, when there is no digit).
      The model reads the exact value; a uint64_t instantiation would wrap past 2^64. */
  method ParseUint(data: string, pos: nat) returns (value: nat, next: nat)
    requires pos <= |data|
    ensures next == DigitRunEnd(data, pos)
    ensures value == NumberAt(data, pos, next)
    ensures !IsDigit(At(data, pos)) ==> next == pos && value == 0
  {
    value, next := 0, pos;
    while IsDigit(At(data, next))
      invariant pos <= next <= |data|
      invariant DigitRunEnd(data, next) == DigitRunEnd(data, pos)
      invariant value == NumberAt(data, pos, next)
      decreases |data| - next
    {
      value := value * 10 + DigitValue(data[next]);
      next := next + 1;
    }
  }

  /** parse_uint<uint64_t>: the same scan, every step of the accumulation wrapping
      modulo 2^64, so the result is the run's value modulo 2^64. */
  method ParseUint64(data: string, pos: nat) returns (value: nat, next: nat)
    requires pos <= |data|
    ensures next == DigitRunEnd(data, pos)
    ensures value == Wrap64(NumberAt(data, pos, next))
  {
    value, next := 0, pos;
    while IsDigit(At(data, next))
      invariant pos <= next <= |data|
      invariant DigitRunEnd(data, next) == DigitRunEnd(data, pos)
      invariant value == NumberAt(data, pos, next) % U64
      decreases |data| - next
    {
      WrapStep(NumberAt(data, pos, next), DigitValue(data[next]));
      value := (value * 10 + DigitValue(data[next])) % U64;
      next := next + 1;
    }
  }

  /** Wrapping after every step of the accumulation equals wrapping once at the end. */
  lemma WrapStep(a: nat, d: nat)
    ensures ((a % U64) * 10 + d) % U64 == (a * 10 + d) % U64
  {
    var q := a / U64;
    assert a == U64 * q + a % U64;
    assert a * 10 + d == (a % U64) * 10 + d + U64 * (10 * q);
    ModAddMultiple((a % U64) * 10 + d, 10 * q, U64);
  }

  lemma ModAddMultiple(x: nat, k: nat, m: nat)
    requires m > 0
    ensures (x + m * k) % m == x % m
  {
    var r := x % m;
    assert x == m * (x / m) + r;
    assert x + m * k == m * (x / m + k) + r;
    DivUnique(x + m * k, m, x / m + k, r);
  }

  lemma {:induction false} DecimalRoundTrip(n: nat)
    ensures DecimalValue(ToDecimal(n)) == n
    ensures |ToDecimal(n)| == NumDigits(n)
    ensures ToDecimal(n)[0] != '0' || n == 0
  {
    if n >= 10 {
      DecimalRoundTrip(n / 10);
      var s := ToDecimal(n);
      assert s[..|s| - 1] == ToDecimal(n / 10);
      DigitRoundTrip('0', n % 10);
    } else {
      DigitRoundTrip('0', n);
    }
  }

  /** Reading back a canonical digit string gives the same string. */
  lemma {:induction false} CanonicalRoundTrip(s: string)
    requires AllDigits(s) && |s| >= 1 && (s[0] != '0' || |s| == 1)
    ensures ToDecimal(DecimalValue(s)) == s
  {
    var last := DigitValue(s[|s| - 1]);
    DigitRoundTrip(s[|s| - 1], last);
    if |s| > 1 {
      var init := s[..|s| - 1];
      CanonicalRoundTrip(init);
      LeadingDigitPositive(init);
      var v := DecimalValue(s);
      assert v == 10 * DecimalValue(init) + last;
      assert v / 10 == DecimalValue(init) && v % 10 == last;
      assert s == init + [s[|s| - 1]];
    } else {
      assert s == [s[0]];
    }
  }

  lemma {:induction false} LeadingDigitPositive(s: string)
    requires AllDigits(s) && |s| >= 1 && s[0] != '0'
    ensures DecimalValue(s) >= 1
  {
    if |s| > 1 {
      LeadingDigitPositive(s[..|s| - 1]);
    }
  }

  /** Parsing the decimal text of n, followed by anything that does not start with a
      digit, stops right after the text and yields n. */
  lemma ParseDecimalRoundTrip(n: nat, rest: string)
    requires rest == [] || !IsDigit(rest[0])
    ensures var data := ToDecimal(n) + rest;
      DigitRunEnd(data, 0) == NumDigits(n) && DecimalValue(data[..NumDigits(n)]) == n
  {
    var t := ToDecimal(n);
    var data := t + rest;
    DecimalRoundTrip(n);
    ToDecimalDigits(n);
    assert data[..|t|] == t;
    DigitRunEndIs(data, 0, |t|);
  }

  lemma {:induction false} DigitRunEndIs(data: string, pos: nat, e: nat)
    requires pos <= e <= |data|
    requires forall i :: pos <= i < e ==> IsDigit(data[i])
    requires !IsDigit(At(data, e))
    ensures DigitRunEnd(data, pos) == e
    decreases e - pos
  {
    if pos < e {
      DigitRunEndIs(data, pos + 1, e);
    }
  }

  /** The C++ `%`: truncating remainder, whose sign follows the dividend. */
  function TruncRem(a: int, d: int): (r: int)
    requires d != 0
    ensures Abs(r) < Abs(d)
    ensures a >= 0 ==> r >= 0
    ensures a < 0 ==> r <= 0
    ensures (a - r) % Abs(d) == 0
  {
    var m := Abs(d);
    RemOfNat(Abs(a), m);
    if a >= 0 then a % m else -((-a) % m)
  }

  lemma RemOfNat(a: int, m: int)
    requires a >= 0 && m > 0
    ensures 0 <= a % m < m
    ensures (a - a % m) % m == 0
    ensures (-a + a % m) % m == 0
  {
    var q: int := a / m;
    var r: int := a % m;
    assert a == m * q + r;
    assert a - r == m * q;
    assert -a + r == m * (-q);
    ModOfMultiple(q, m);
    ModOfMultiple(-q, m);
  }

  /** math_mod: the remainder moved into [0, |divisor|); this is the Euclidean
      remainder, congruent to the dividend. */
  function MathMod(a: int, d: int): (r: int)
    requires d != 0
    ensures 0 <= r < Abs(d)
    ensures r == a % d
    ensures (a - r) % Abs(d) == 0
  {
    var rem := TruncRem(a, d);
    var r := if rem < 0 then rem + Abs(d) else rem;
    EuclideanRem(a, d, rem, r);
    r
  }

  lemma EuclideanRem(a: int, d: int, rem: int, r: int)
    requires d != 0 && (a - rem) % Abs(d) == 0
    requires r == rem || r == rem + Abs(d)
    requires 0 <= r < Abs(d)
    ensures r == a % d && (a - r) % Abs(d) == 0
  {
    var m := Abs(d);
    var k := (a - rem) / m;
    assert a - rem == m * k + 0;
    var k' := if r == rem then k else k - 1;
    assert a - r == m * k' by {
      if r != rem {
        assert m * k' == m * k - m;
      }
    }
    ModOfMultiple(k', m);
    if d > 0 {
      DivUnique(a, d, k', r);
    } else {
      assert a == d * (-k') + r;
      DivUnique(a, d, -k', r);
    }
  }

  lemma ModOfMultiple(k: int, m: int)
    requires m > 0
    ensures (m * k) % m == 0
  {
    DivUnique(m * k, m, k, 0);
  }

  lemma MulAtLeast(d: int, k: int)
    requires d > 0 && k >= 1
    ensures d * k >= d
  {
    assert d * k == d + d * (k - 1);
  }

  lemma {:induction false} DivDiv(v: nat, a: nat, b: nat)
    requires a > 0 && b > 0
    ensures v / (a * b) == (v / a) / b
  {
    var q := v / a;
    var r := v % a;
    var q2 := q / b;
    var r2 := q % b;
    assert v == a * q + r;
    assert q == b * q2 + r2;
    var ab := a * b;
    assert a * q == ab * q2 + a * r2 by {
      Distribute(a, b * q2, r2);
      assert a * (b * q2) == (a * b) * q2;
    }
    assert a * r2 + r < ab by {
      assert r2 <= b - 1;
      MulMonotone(a, r2, b - 1);
      Distribute(a, b - 1, 1);
    }
    assert ab > 0;
    DivUnique(v, ab, q2, a * r2 + r);
  }

  lemma Distribute(a: int, x: int, y: int)
    ensures a * (x + y) == a * x + a * y
  {
  }

  lemma MulMonotone(a: nat, x: nat, y: nat)
    requires x <= y
    ensures a * x <= a * y
  {
    Distribute(a, x, y - x);
  }

  /** Division is determined by quotient and remainder (Dafny's `/` and `%` are Euclidean). */
  lemma DivUnique(v: int, d: int, q: int, r: int)
    requires d != 0 && 0 <= r < Abs(d) && v == d * q + r
    ensures v / d == q && v % d == r
  {
    var q', r' := v / d, v % d;
    assert v == d * q' + r';
    assert d * (q - q') == r' - r;
    var m := Abs(d);
    var k := if d > 0 then q - q' else q' - q;
    assert m * k == r' - r;
    if k > 0 {
      MulAtLeast(m, k);
      assert false;
    }
    if k < 0 {
      assert m * (-k) == r - r';
      MulAtLeast(m, -k);
      assert false;
    }
  }

  lemma {:induction false} NumDigitsDiv(v: nat, k: nat)
    requires v >= Pow10(k)
    ensures NumDigits(v) == k + NumDigits(v / Pow10(k))
  {
    if k > 0 {
      DivDiv(v, 10, Pow10(k - 1));
      assert v / 10 >= Pow10(k - 1);
      NumDigitsDiv(v / 10, k - 1);
    }
  }

  /** count_digits: the number of decimal digits of a 64-bit value, found by
      stripping 16, 8, 4 and 2 digits at a time. */
  method CountDigits(value: nat) returns (n: nat)
    requires value < U64
    ensures n == NumDigits(value)
    ensures 1 <= n <= 20
  {
    var v := value;
    n := 1;
    NumDigitsAtMost20(value);
    if v >= 10000000000000000 {
      StripDigits(value, n, v, 16, 10000000000000000);
      n := n + 16;
      v := v / 10000000000000000;
    }
    if v >= 100000000 {
      StripDigits(value, n, v, 8, 100000000);
      n := n + 8;
      v := v / 100000000;
    }
    if v >= 10000 {
      StripDigits(value, n, v, 4, 10000);
      n := n + 4;
      v := v / 10000;
    }
    if v >= 100 {
      StripDigits(value, n, v, 2, 100);
      n := n + 2;
      v := v / 100;
    }
    LastDigits(value, n, v);
    if v >= 10 {
      n := n + 1;
    }
  }

  /** One stage of count_digits: with n - 1 digits of value already counted and v
      the rest, removing the last k digits of v (p = 10^k) counts k more. */
  lemma StripDigits(value: nat, n: nat, v: nat, k: nat, p: nat)
    requires (k == 16 && p == 10000000000000000) || (k == 8 && p == 100000000)
      || (k == 4 && p == 10000) || (k == 2 && p == 100)
    requires NumDigits(value) == n - 1 + NumDigits(v) && v >= p
    requires k == 16 ==> v < U64
    requires k < 16 ==> v < p * p
    ensures NumDigits(value) == n + k - 1 + NumDigits(v / p)
    ensures v / p < p
  {
    Pow10Table();
    NumDigitsDiv(v, k);
    DivBelow(v, p, p);
  }

  /** The last stage of count_digits: a v below 100 has two digits from 10 on. */
  lemma LastDigits(value: nat, n: nat, v: nat)
    requires NumDigits(value) == n - 1 + NumDigits(v) && v < 100
    ensures NumDigits(value) == n + (if v >= 10 then 1 else 0)
  {
    if v >= 10 {
      DivBelow(v, 10, 10);
    }
  }

  lemma {:induction false} Pow10Add(a: nat, b: nat)
    ensures Pow10(a + b) == Pow10(a) * Pow10(b)
  {
    if b > 0 {
      Pow10Add(a, b - 1);
      assert Pow10(a + b) == 10 * Pow10(a + b - 1);
    }
  }

  lemma DivBelow(v: nat, p: nat, b: nat)
    requires p > 0 && v < p * b
    ensures v / p < b
  {
    var q := v / p;
    assert v == p * q + v % p;
    if q >= b {
      MulMonotone(p, b, q);
      assert false;
    }
  }

  lemma NumDigitsAtMost20(v: nat)
    requires v < U64
    ensures NumDigits(v) <= 20
  {
    Pow10Table();
    NumDigitsMonotone(v, U64 - 1);
    NumDigitsUnique(U64 - 1, 20);
  }

  lemma {:induction false} NumDigitsBounds(v: nat)
    ensures v < Pow10(NumDigits(v))
    ensures v > 0 ==> Pow10(NumDigits(v) - 1) <= v
  {
    if v >= 10 {
      NumDigitsBounds(v / 10);
    }
  }

  /** NumDigits(v) is the only n with 10^(n-1) <= v < 10^n (for v > 0). */
  lemma {:induction false} NumDigitsUnique(v: nat, n: nat)
    requires (v == 0 && n == 1) || (v > 0 && n >= 1 && Pow10(n - 1) <= v < Pow10(n))
    ensures NumDigits(v) == n
  {
    if v >= 10 {
      assert n >= 2;
      NumDigitsUnique(v / 10, n - 1);
    }
  }

  lemma {:induction false} Pow10Monotone(a: nat, b: nat)
    requires a <= b
    ensures Pow10(a) <= Pow10(b)
    decreases b
  {
    if a < b {
      Pow10Monotone(a, b - 1);
    }
  }

  lemma {:induction false} NumDigitsMonotone(a: nat, b: nat)
    requires a <= b
    ensures NumDigits(a) <= NumDigits(b)
  {
    if a >= 10 {
      NumDigitsMonotone(a / 10, b / 10);
    }
  }

  /** The powers of ten up to 10^20, one unfolding at a time. */
  lemma Pow10Table()
    ensures Pow10(0) == 1
    ensures Pow10(1) == 10
    ensures Pow10(2) == 100
    ensures Pow10(3) == 1000
    ensures Pow10(4) == 10000
    ensures Pow10(5) == 100000
    ensures Pow10(6) == 1000000
    ensures Pow10(7) == 10000000
    ensures Pow10(8) == 100000000
    ensures Pow10(9) == 1000000000
    ensures Pow10(10) == 10000000000
    ensures Pow10(11) == 100000000000
    ensures Pow10(12) == 1000000000000
    ensures Pow10(13) == 10000000000000
    ensures Pow10(14) == 100000000000000
    ensures Pow10(15) == 1000000000000000
    ensures Pow10(16) == 10000000000000000
    ensures Pow10(17) == 100000000000000000
    ensures Pow10(18) == 1000000000000000000
    ensures Pow10(19) == 10000000000000000000
    ensures Pow10(20) == 100000000000000000000
  {
    assert Pow10(1) == 10 * Pow10(0);
    assert Pow10(2) == 10 * Pow10(1);
    assert Pow10(3) == 10 * Pow10(2);
    assert Pow10(4) == 10 * Pow10(3);
    assert Pow10(5) == 10 * Pow10(4);
    assert Pow10(6) == 10 * Pow10(5);
    assert Pow10(7) == 10 * Pow10(6);
    assert Pow10(8) == 10 * Pow10(7);
    assert Pow10(9) == 10 * Pow10(8);
    assert Pow10(10) == 10 * Pow10(9);
    assert Pow10(11) == 10 * Pow10(10);
    assert Pow10(12) == 10 * Pow10(11);
    assert Pow10(13) == 10 * Pow10(12);
    assert Pow10(14) == 10 * Pow10(13);
    assert Pow10(15) == 10 * Pow10(14);
    assert Pow10(16) == 10 * Pow10(15);
    assert Pow10(17) == 10 * Pow10(16);
    assert Pow10(18) == 10 * Pow10(17);
    assert Pow10(19) == 10 * Pow10(18);
    assert Pow10(20) == 10 * Pow10(19);
  }

  /** ten_power: 10^e for the exponents 0..19 the switch lists; any other exponent
      fails the default branch's assertion. */
  function TenPower(e: int): (r: nat)
    requires 0 <= e <= 19
    ensures r == Pow10(e)
  {
    Pow10Table();
    if e == 19 then 10000000000000000000
    else if e == 18 then 1000000000000000000
    else if e == 17 then 100000000000000000
    else if e == 16 then 10000000000000000
    else if e == 15 then 1000000000000000
    else if e == 14 then 100000000000000
    else if e == 13 then 10000000000000
    else if e == 12 then 1000000000000
    else if e == 11 then 100000000000
    else if e == 10 then 10000000000
    else if e == 9 then 1000000000
    else if e == 8 then 100000000
    else if e == 7 then 10000000
    else if e == 6 then 1000000
    else if e == 5 then 100000
    else if e == 4 then 10000
    else if e == 3 then 1000
    else if e == 2 then 100
    else if e == 1 then 10
    else 1
  }

  /** Writing a in front of the digits of b: for a >= 1 the decimal text of
      a * 10^NumDigits(b) + b is the text of a followed by the text of b. */
  lemma ConcatDecimal(a: nat, b: nat)
    requires a >= 1
    ensures ToDecimal(Shift(a, NumDigits(b)) + b) == ToDecimal(a) + ToDecimal(b)
  {
    var s, t := ToDecimal(a), ToDecimal(b);
    DecimalRoundTrip(a);
    DecimalRoundTrip(b);
    ToDecimalDigits(a);
    ToDecimalDigits(b);
    DecimalValueAppend(s, t);
    AllDigitsAppend(s, t);
    CanonicalRoundTrip(s + t);
  }

  lemma AllDigitsAppend(s: string, t: string)
    requires AllDigits(s) && AllDigits(t)
    ensures AllDigits(s + t)
  {
    forall i | |s| <= i < |s + t|
      ensures IsDigit((s + t)[i])
    {
      assert (s + t)[i] == t[i - |s|];
    }
  }

  /** The value of a concatenation: the first part shifted by the second's length. */
  lemma {:induction false} DecimalValueAppend(s: string, t: string)
    ensures DecimalValue(s + t) == Shift(DecimalValue(s), |t|) + DecimalValue(t)
    decreases |t|
  {
    if t == [] {
      assert s + t == s;
    } else {
      var init := t[..|t| - 1];
      DecimalValueAppend(s, init);
      assert (s + t)[..|s + t| - 1] == s + init;
    }
  }

  /** Appending digit d to the text of a positive m. */
  lemma AppendDigit(m: nat, d: nat)
    requires m >= 1 && d < 10
    ensures ToDecimal(10 * m + d) == ToDecimal(m) + [DigitChar(d)]
  {
    DivUnique(10 * m + d, 10, m, d);
  }

  lemma DivMonotone(x: nat, y: nat, d: nat)
    requires x <= y && d > 0
    ensures x / d <= y / d
  {
    var qy := y / d;
    assert y == d * qy + y % d;
    Distribute(d, qy, 1);
    DivBelow(x, d, qy + 1);
  }

  lemma MulDivCancel(x: nat, d: nat)
    requires d > 0
    ensures (d * x) / d == x
  {
    DivUnique(d * x, d, x, 0);
  }

  /** A number below 10^n has at most n digits. */
  lemma NumDigitsBelow(v: nat, n: nat)
    requires n >= 1 && v < Pow10(n)
    ensures NumDigits(v) <= n
  {
    NumDigitsBounds(v);
    if NumDigits(v) > n {
      Pow10Monotone(n, NumDigits(v) - 1);
    }
  }

  /** Stated once so that a quotient by a power of ten is known to be a nat without
      the solver unfolding the power. */
  lemma DivNonNegative(x: nat, p: nat)
    requires p >= 1
    ensures x / p >= 0
  {
  }

  /** a followed by k zero digits: a * 10^k, written without a product. */
  function Shift(a: nat, k: nat): nat {
    if k == 0 then a else 10 * Shift(a, k - 1)
  }

  lemma {:induction false} ShiftIsProduct(a: nat, k: nat)
    ensures Shift(a, k) == a * Pow10(k)
  {
    if k > 0 {
      ShiftIsProduct(a, k - 1);
      assert a * Pow10(k) == 10 * (a * Pow10(k - 1));
    }
  }

  /** v without its last k digits: v / 10^k, written without a division by a power. */
  function DropDigits(v: nat, k: nat): nat {
    if k == 0 then v else DropDigits(v / 10, k - 1)
  }

  lemma {:induction false} DropDigitsIsDiv(v: nat, k: nat)
    ensures DropDigits(v, k) == v / Pow10(k)
    ensures DropDigits(v, k) <= v
  {
    if k > 0 {
      DropDigitsIsDiv(v / 10, k - 1);
      DivDiv(v, 10, Pow10(k - 1));
    }
  }

  lemma {:induction false} ShiftAtLeast(a: nat, k: nat)
    ensures Shift(a, k) >= a
  {
    if k > 0 {
      ShiftAtLeast(a, k - 1);
    }
  }

  /** Dropping k of a value's digits, short of all of them, leaves NumDigits(v) - k. */
  lemma {:induction false} DropDigitsCount(v: nat, k: nat)
    requires k < NumDigits(v)
    ensures NumDigits(DropDigits(v, k)) == NumDigits(v) - k
  {
    if k > 0 {
      DropDigitsCount(v / 10, k - 1);
    }
  }

  /** Dropping at least as many digits as v has leaves 0. */
  lemma {:induction false} DropDigitsAll(v: nat, k: nat)
    requires k >= NumDigits(v)
    ensures DropDigits(v, k) == 0
  {
    if v >= 10 {
      DropDigitsAll(v / 10, k - 1);
    } else if k > 1 {
      DropDigitsAll(0, k - 1);
    }
  }

  lemma {:induction false} DropDigitsMonotone(x: nat, y: nat, k: nat)
    requires x <= y
    ensures DropDigits(x, k) <= DropDigits(y, k)
  {
    if k > 0 {
      DivMonotone(x, y, 10);
      DropDigitsMonotone(x / 10, y / 10, k - 1);
    }
  }

  /** Dropping the k digits that were shifted in after a gives a back, when b fits
      in those k digits. */
  lemma {:induction false} DropShifted(a: nat, k: nat, b: nat)
    requires NumDigits(b) <= k
    ensures DropDigits(Shift(a, k) + b, k) == a
  {
    assert (10 * Shift(a, k - 1) + b) / 10 == Shift(a, k - 1) + b / 10;
    if k > 1 {
      DropShifted(a, k - 1, b / 10);
    }
  }

  /** Fewer digits means a smaller value. */
  lemma NumDigitsLess(x: nat, y: nat)
    requires NumDigits(x) < NumDigits(y)
    ensures x < y
  {
    if x >= y {
      NumDigitsMonotone(y, x);
    }
  }

  /** Regrouping a concatenation; the parse loops use it to move one parsed item
      from the unread rest onto what has been read. */
  lemma SeqAssoc<T>(a: seq<T>, b: seq<T>, c: seq<T>)
    ensures a + (b + c) == (a + b) + c
  {
  }

  function Sum(s: seq<nat>): nat {
    if s == [] then 0 else Sum(s[..|s| - 1]) + s[|s| - 1]
  }

  function Product(s: seq<nat>): nat {
    if s == [] then 1 else Product(s[..|s| - 1]) * s[|s| - 1]
  }

  /** Items read earlier in front of the outcome of the rest of a read. */
  function PrependTo<T>(done: seq<T>, r: Checked<seq<T>>): Checked<seq<T>> {
    match r
    case Abort => Abort
    case Ok(rest) => Ok(done + rest)
  }

  lemma PrependToTwice<T>(a: seq<T>, b: seq<T>, r: Checked<seq<T>>)
    ensures PrependTo(a, PrependTo(b, r)) == PrependTo(a + b, r)
  {
    if r.Ok? {
      SeqAssoc(a, b, r.value);
    }
  }

  lemma PrependToNothing<T>(r: Checked<seq<T>>)
    ensures PrependTo([], r) == r
  {
    if r.Ok? {
      assert [] + r.value == r.value;
    }
  }
}
