/** Exact decimal rendering of a ratio: truncation toward zero to six places, in canonical form. */
module Decimal {
  import opened Foundation
  import opened Arithmetic

  predicate Digits(s: string) {
    forall i :: 0 <= i < |s| ==> '0' <= s[i] <= '9'
  }

  function Digit(d: nat): (c: char)
    requires d < 10
    ensures '0' <= c <= '9'
  {
    '0' + d as char
  }

  /** The number a digit string denotes. */
  function Value(s: string): nat
    requires Digits(s)
  {
    if s == "" then 0 else 10 * Value(s[..|s| - 1]) + (s[|s| - 1] - '0') as nat
  }

  lemma ValueSnoc(s: string, d: nat)
    requires Digits(s) && d < 10
    ensures Digits(s + [Digit(d)]) && Value(s + [Digit(d)]) == 10 * Value(s) + d
  {
    assert (s + [Digit(d)])[..|s|] == s;
  }

  /** cpp_int to text. */
  function Print(n: nat): (s: string)
    ensures Digits(s) && s != "" && Value(s) == n
    ensures s[0] == '0' <==> n == 0
    ensures n == 0 ==> s == "0"
  {
    if n < 10 then
      ValueSnoc("", n);
      assert "" + [Digit(n)] == [Digit(n)];
      [Digit(n)]
    else
      ValueSnoc(Print(n / 10), n % 10);
      Print(n / 10) + [Digit(n % 10)]
  }

  // ---------------------------------------------------------------- reading a decimal back

  /** Position of the first dot, or the length. */
  function Dot(s: string): (k: nat)
    ensures k <= |s| && (forall i :: 0 <= i < k ==> s[i] != '.') && (k < |s| ==> s[k] == '.')
  {
    if s == "" || s[0] == '.' then 0 else 1 + Dot(s[1..])
  }

  /** An integer part and at most six decimals, in millionths. */
  ghost function Millionths(integer: nat, fraction: string): int
    requires Digits(fraction) && |fraction| <= 6
  {
    integer * Pow10(6) + Value(fraction) * Pow10(6 - |fraction|)
  }

  /** A magnitude with at most six decimals, in millionths. */
  ghost function Magnitude(s: string): Option<int> {
    var k := Dot(s);
    var fraction := if k < |s| then s[k + 1..] else "";
    if Digits(s[..k]) && k > 0 && Digits(fraction) && |fraction| <= 6
    then Some(Millionths(Value(s[..k]), fraction))
    else None
  }

  /** The number of millionths a decimal string denotes. */
  ghost function Meaning(s: string): Option<int> {
    if s != "" && s[0] == '-'
    then if Magnitude(s[1..]).Some? then Some(-Magnitude(s[1..]).value) else None
    else if Magnitude(s).Some? then Some(Magnitude(s).value) else None
  }

  /** No superfluous zero and no negative zero. */
  ghost predicate Canonical(s: string) {
    var t := if s != "" && s[0] == '-' then s[1..] else s;
    && t != "" && (Dot(t) > 1 ==> t[0] != '0')
    && (Dot(t) < |t| ==> Dot(t) + 1 < |t| && t[|t| - 1] != '0')
    && s != "-0"
  }

  ghost function FloorMillionths(n: nat, d: nat): int
    requires d > 0
  {
    n * Pow10(6) / d
  }

  /** The ratio in millionths, truncated toward zero. */
  ghost function TruncatedMillionths(a: int, d: nat): int
    requires d > 0
  {
    if a >= 0 then FloorMillionths(a, d) else -FloorMillionths(-a, d)
  }

  // ---------------------------------------------------------------- decimal_ratio

  function Text(integer: nat, fraction: string): string {
    Print(integer) + if fraction == "" then "" else "." + fraction
  }

  lemma {:induction false} DotAfter(a: string, b: string)
    requires Digits(a) && (b == "" || b[0] == '.')
    ensures Dot(a + b) == |a|
    decreases |a|
  {
    var s := a + b;
    if a != "" {
      assert s[0] == a[0] && s[1..] == a[1..] + b;
      DotAfter(a[1..], b);
    } else {
      assert s == b;
    }
  }

  lemma TextParts(integer: nat, fraction: string)
    requires Digits(fraction)
    ensures
      var t, k := Text(integer, fraction), |Print(integer)|;
      && Dot(t) == k <= |t| && t[..k] == Print(integer) && t[0] == Print(integer)[0]
      && (fraction == "" ==> t == Print(integer))
      && (fraction != "" ==> |t| == k + 1 + |fraction| && t[k + 1..] == fraction)
  {
    hide Print;
    var a, t := Print(integer), Text(integer, fraction);
    DotAfter(a, if fraction == "" then "" else "." + fraction);
    assert t[..|a|] == a;
    if fraction != "" {
      assert t[|a| + 1..] == fraction;
    } else {
      assert t == a;
    }
  }

  lemma TextMeans(integer: nat, fraction: string)
    requires Digits(fraction) && |fraction| <= 6 && (fraction == "" || fraction[|fraction| - 1] != '0')
    ensures Text(integer, fraction) != "" && Text(integer, fraction)[0] != '-'
    ensures Magnitude(Text(integer, fraction)) == Some(Millionths(integer, fraction))
    ensures Canonical(Text(integer, fraction))
    ensures Text(integer, fraction) == "0" ==> integer == 0 && fraction == ""
  {
    TextParts(integer, fraction);
    hide Value, Pow10, Text, Print, Dot, Millionths;
    var t := Text(integer, fraction);
    if fraction != "" {
      assert t[|t| - 1] == t[|Print(integer)| + 1..][|fraction| - 1];
    }
  }

  lemma NegativeMeans(t: string)
    requires t != "" && t[0] != '-' && t != "0" && Canonical(t) && Magnitude(t).Some?
    ensures Meaning("-" + t) == Some(-Magnitude(t).value) && Canonical("-" + t)
  {
    hide Magnitude;
    var s := "-" + t;
    assert s[1..] == t;
    assert ("-0")[1..] == "0";
  }

  // ---------------------------------------------------------------- long division

  /** After k digits: total is the quotient of n times ten to the k, and r the remainder. */
  ghost predicate Divided(n: nat, k: nat, total: nat, d: nat, r: nat) {
    r < d && n * Pow10(k) == total * d + r
  }

  /** The digits so far continue the integer part to the total. */
  ghost predicate Spelled(total: nat, integer: nat, fraction: string) {
    Digits(fraction) && total == integer * Pow10(|fraction|) + Value(fraction)
  }

  lemma DividedStart(n: nat, d: nat)
    requires d > 0
    ensures Divided(n, 0, n / d, d, n % d) && Spelled(n / d, n / d, "")
  {
  }

  lemma DividedStep(n: nat, k: nat, total: nat, d: nat, r: nat)
    requires Divided(n, k, total, d, r)
    ensures 0 <= r * 10 / d < 10
    ensures Divided(n, k + 1, 10 * total + r * 10 / d, d, r * 10 % d)
  {
    var q := r * 10 / d;
    Parts(r * 10, d);
    if q >= 10 {
      ProductOrder(10, q, d);
    }
    var p := Pow10(k);
    assert n * (10 * p) == 10 * (n * p);
    assert (10 * total + q) * d == 10 * (total * d) + q * d;
  }

  lemma SpelledStep(total: nat, integer: nat, fraction: string, next: nat)
    requires Spelled(total, integer, fraction) && next < 10
    ensures Spelled(10 * total + next, integer, fraction + [Digit(next)])
  {
    ValueSnoc(fraction, next);
    hide Value;
    assert integer * (10 * Pow10(|fraction|)) == 10 * (integer * Pow10(|fraction|));
  }

  lemma DividedEnd(n: nat, total: nat, d: nat, r: nat, integer: nat, fraction: string)
    requires Divided(n, |fraction|, total, d, r) && Spelled(total, integer, fraction)
    requires |fraction| == 6 || (|fraction| < 6 && r == 0)
    ensures FloorMillionths(n, d) == Millionths(integer, fraction)
  {
    hide Pow10, Value;
    var k := |fraction|;
    var p, q, v := Pow10(k), Pow10(6 - k), Value(fraction);
    if r == 0 {
      Pow10Add(k, 6 - k);
      ScaleOut(total, d, n, p, q);
      DivMod(n * Pow10(6), d, total * q, 0);
      Spread(integer, p, v, q);
    } else {
      PowZero();
      DivMod(n * Pow10(6), d, total, r);
    }
  }

  lemma ScaleOut(t: nat, d: nat, n: nat, p: nat, q: nat)
    requires n * p == t * d
    ensures n * (p * q) == t * q * d
  {
    assert n * (p * q) == (n * p) * q;
    assert t * q * d == (t * d) * q;
  }

  lemma Pow10Add(a: nat, b: nat)
    ensures Pow10(a + b) == Pow10(a) * Pow10(b)
  {
    if a > 0 {
      Pow10Add(a - 1, b);
    }
  }

  function Whole(n: nat, d: nat): nat
    requires d > 0
  {
    n / d
  }

  /** At most six digits of the remainder's expansion. */
  method Fraction(n: nat, d: nat) returns (fraction: string)
    requires d > 0
    ensures Digits(fraction) && |fraction| <= 6
    ensures FloorMillionths(n, d) == Millionths(Whole(n, d), fraction)
  {
    hide Divided, Spelled, Pow10, Value, Millionths, FloorMillionths;
    var remainder: nat := n % d;
    fraction := "";
    ghost var total: nat := n / d;
    DividedStart(n, d);
    while |fraction| < 6 && remainder != 0
      invariant |fraction| <= 6 && Digits(fraction)
      invariant Divided(n, |fraction|, total, d, remainder) && Spelled(total, n / d, fraction)
      decreases 6 - |fraction|
    {
      DividedStep(n, |fraction|, total, d, remainder);
      var next := remainder * 10 / d;
      SpelledStep(total, n / d, fraction, next);
      total := 10 * total + next;
      remainder := remainder * 10 % d;
      fraction := fraction + [Digit(next)];
    }
    DividedEnd(n, total, d, remainder, n / d, fraction);
  }

  lemma PowZero()
    ensures Pow10(0) == 1
  {
  }

  lemma Spread(a: nat, p: nat, v: nat, q: nat)
    ensures (a * p + v) * q == a * (p * q) + v * q
  {
  }

  lemma ZeroDropped(integer: nat, s: string)
    requires Digits(s) && 0 < |s| <= 6 && s[|s| - 1] == '0'
    ensures Millionths(integer, s) == Millionths(integer, s[..|s| - 1])
  {
    var v, p := Value(s[..|s| - 1]), Pow10(6 - |s|);
    assert Value(s) == 10 * v;
    assert Pow10(7 - |s|) == 10 * p;
    hide Value, Pow10;
    Regroup(v, p);
  }

  lemma Regroup(v: nat, p: nat)
    ensures 10 * v * p == v * (10 * p)
  {
  }

  method WithoutTrailingZeros(digits: string, ghost integer: nat) returns (s: string)
    requires Digits(digits) && |digits| <= 6
    ensures Digits(s) && |s| <= |digits| && (s == "" || s[|s| - 1] != '0')
    ensures Millionths(integer, s) == Millionths(integer, digits)
  {
    hide Value, Pow10, Millionths;
    s := digits;
    while s != "" && s[|s| - 1] == '0'
      invariant Digits(s) && |s| <= |digits| && Millionths(integer, s) == Millionths(integer, digits)
      decreases |s|
    {
      ZeroDropped(integer, s);
      s := s[..|s| - 1];
    }
  }

  /** The exact ratio truncated toward zero to millionths, in canonical decimal. */
  method DecimalRatio(numerator: int, denominator: nat) returns (r: Result<string, ()>)
    ensures r.Ok? <==> denominator != 0
    ensures r.Ok? ==> Meaning(r.value) == Some(TruncatedMillionths(numerator, denominator)) && Canonical(r.value)
  {
    hide Whole, Pow10, Magnitude, Canonical, Millionths, FloorMillionths, Value, Text;
    if denominator == 0 {
      return Err(());
    }
    var n := if numerator < 0 then -numerator else numerator;
    var digits := Fraction(n, denominator);
    var fraction := WithoutTrailingZeros(digits, Whole(n, denominator));
    var text := Text(Whole(n, denominator), fraction);
    TextMeans(Whole(n, denominator), fraction);
    if numerator < 0 && text != "0" {
      NegativeMeans(text);
      text := "-" + text;
    } else if numerator < 0 {
      ZeroMeans(Whole(n, denominator), fraction);
    }
    return Ok(text);
  }

  lemma ZeroMeans(integer: nat, fraction: string)
    requires integer == 0 && fraction == ""
    ensures Millionths(integer, fraction) == 0
  {
  }
}
