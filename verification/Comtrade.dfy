/** COMTRADE timestamps: exact rational times, half-even rounding, and the power-of-ten tick. */
module Comtrade {
  import opened Foundation
  import opened Arithmetic
  import opened Timebase

  const NANOSECONDS: nat := 1_000_000_000

  datatype Rational = Rational(num: int, den: int)

  ghost function Val(r: Rational): real
    requires r.den > 0
  {
    r.num as real / r.den as real
  }

  function Subtract(l: Rational, r: Rational): Rational {
    Rational(l.num * r.den - r.num * l.den, l.den * r.den)
  }

  /** Nearest integer to n/d, ties to even. */
  function HalfEven(n: nat, d: nat): nat
    requires d > 0
  {
    var quotient, doubled := n / d, n % d * 2;
    if doubled > d || (doubled == d && quotient % 2 != 0) then quotient + 1 else quotient
  }

  method RoundHalfEven(r: Rational) returns (result: Result<nat, Error>)
    ensures result.Ok? <==> r.den > 0 && r.num >= 0 && HalfEven(r.num, r.den) <= UINT64_MAX
    ensures result.Ok? ==> result.value == HalfEven(r.num, r.den)
  {
    if r.den <= 0 || r.num < 0 {
      return Err(TimestampOutOfRange);
    }
    var quotient := r.num / r.den;
    var doubled := r.num % r.den * 2;
    if doubled > r.den || (doubled == r.den && quotient % 2 != 0) {
      quotient := quotient + 1;
    }
    if quotient > UINT64_MAX {
      return Err(TimestampOutOfRange);
    }
    return Ok(quotient);
  }

  // ---------------------------------------------------------------- arithmetic of exact values

  lemma ProductPositive(a: int, b: int)
    requires a > 0 && b > 0
    ensures a * b > 0
  {
  }

  lemma DivTimes(x: real, y: real)
    requires y > 0.0
    ensures x / y * y == x
  {
  }

  lemma QuotientIs(x: real, y: real, v: real)
    requires y > 0.0 && v * y == x
    ensures x / y == v
  {
  }

  lemma ValSubtract(l: Rational, r: Rational)
    requires l.den > 0 && r.den > 0
    ensures Subtract(l, r).den > 0 && Val(Subtract(l, r)) == Val(l) - Val(r)
  {
    ProductPositive(l.den, r.den);
    var a, b, c, d := l.num as real, l.den as real, r.num as real, r.den as real;
    DivTimes(a, b);
    DivTimes(c, d);
    var x, y := a / b, c / d;
    assert (x - y) * (b * d) == (x * b) * d - (y * d) * b;
    QuotientIs(a * d - c * b, b * d, x - y);
    assert Subtract(l, r).num as real == a * d - c * b;
    assert Subtract(l, r).den as real == b * d;
  }

  lemma ValScale(r: Rational, t: nat)
    requires r.den > 0 && t > 0
    ensures r.den * t > 0 && Val(Rational(r.num, r.den * t)) == Val(r) / t as real
  {
    ProductPositive(r.den, t);
    var a, b, c := r.num as real, r.den as real, t as real;
    DivTimes(a, b);
    var x := a / b;
    DivTimes(x, c);
    assert x / c * (b * c) == (x / c * c) * b;
    QuotientIs(a, b * c, x / c);
    assert (r.den * t) as real == b * c;
  }

  /** Half-even rounding is within one half, and a tie goes to the even side. */
  lemma HalfEvenNearest(n: nat, d: nat)
    requires d > 0
    ensures var q, v := HalfEven(n, d) as real, Val(Rational(n, d));
            && q - 0.5 <= v <= q + 0.5
            && (v == q - 0.5 || v == q + 0.5 ==> HalfEven(n, d) % 2 == 0)
  {
    var v := Val(Rational(n, d));
    var q := n / d;
    assert n == q * d + n % d;
    DivTimes(n as real, d as real);
    assert v * d as real == q as real * d as real + (n % d) as real;
    assert (v - q as real) * d as real == (n % d) as real;
    FractionOf(v - q as real, n % d, d);
  }

  lemma ScaleSign(x: real, e: real)
    requires e > 0.0
    ensures x > 0.0 <==> x * e > 0.0
    ensures x == 0.0 <==> x * e == 0.0
  {
  }

  lemma ScaleOrder(x: real, y: real, e: real)
    requires e > 0.0
    ensures x < y <==> x * e < y * e
    ensures x == y <==> x * e == y * e
  {
    ScaleSign(y - x, e);
    assert (y - x) * e == y * e - x * e;
  }

  lemma Compare(x: real, y: real, e: real, p: real)
    requires e > 0.0 && x * e == p
    ensures x < y <==> p < y * e
    ensures x == y <==> p == y * e
  {
    ScaleOrder(x, y, e);
  }

  lemma NearScaled(q: real, v: real, t: real, exact: real)
    requires t > 0.0 && q - 0.5 <= v <= q + 0.5 && v * t == exact
    ensures q * t - t / 2.0 <= exact <= q * t + t / 2.0
  {
    Compare(v, q - 0.5, t, exact);
    Compare(v, q + 0.5, t, exact);
    assert (q - 0.5) * t == q * t - t / 2.0;
    assert (q + 0.5) * t == q * t + t / 2.0;
  }

  lemma FractionOf(f: real, rem: nat, d: nat)
    requires d > 0 && rem < d && f * d as real == rem as real
    ensures 0.0 <= f < 1.0
    ensures rem * 2 > d <==> f > 0.5
    ensures rem * 2 == d <==> f == 0.5
  {
    var e, p := d as real, rem as real;
    Compare(f, 0.0, e, p);
    Compare(f, 1.0, e, p);
    Compare(f, 0.5, e, p);
    TwiceAgainst(rem, d);
  }

  lemma TwiceAgainst(rem: nat, d: nat)
    ensures rem * 2 > d <==> rem as real > 0.5 * d as real
    ensures rem * 2 == d <==> rem as real == 0.5 * d as real
  {
    assert (rem * 2) as real == 2.0 * rem as real;
  }

  lemma HalfEvenMonotone(n: nat, d: nat, n': nat, d': nat)
    requires d > 0 && d' > 0 && Val(Rational(n, d)) <= Val(Rational(n', d'))
    ensures HalfEven(n, d) <= HalfEven(n', d')
  {
    hide Val;
    HalfEvenNearest(n, d);
    HalfEvenNearest(n', d');
    hide HalfEven;
  }

  lemma ValNonNegative(r: Rational)
    requires r.den > 0
    ensures r.num >= 0 <==> Val(r) >= 0.0
  {
    DivTimes(r.num as real, r.den as real);
    ScaleOrder(Val(r), 0.0, r.den as real);
  }

  // ---------------------------------------------------------------- frame times

  /** Nanoseconds of UTC at a source sequence, over the segment's exact acquisition rate. */
  function UtcForSequence(g: Segment, sequence: nat): Rational {
    Rational(g.correlationUtc * g.acquisition.num
             + (sequence - g.correlationSequence) * g.acquisition.den * NANOSECONDS, g.acquisition.num)
  }

  ghost predicate Correlated(s: Source) {
    forall i :: 0 <= i < |s.segments| ==> s.segments[i].correlationUtc != 0
  }

  ghost function FrameTime(s: Source, frame: nat): (r: Rational)
    requires ValidSource(s) && frame < s.frameCount
    ensures r.den > 0
  {
    var g := s.segments[SegmentIndex(s, frame)];
    assert SegmentOk(g);
    UtcForSequence(g, First(s, frame))
  }

  method UtcForFrame(s: Source, frame: nat) returns (r: Result<Rational, Error>)
    requires ValidSource(s) && frame < s.frameCount
    ensures r.Ok? <==> s.segments[SegmentIndex(s, frame)].correlationUtc != 0
    ensures r.Ok? ==> r.value == FrameTime(s, frame)
    ensures r.Err? ==> r.error == NotReady
  {
    hide SegmentRange;
    SegmentIndexExists(s, frame);
    var k := FindFrom(s.segments, frame, 0).value;
    var g := s.segments[k];
    assert SegmentOk(g);
    var sequence := SegmentRange(g, frame - g.firstFrame).0;
    if g.correlationUtc == 0 || g.acquisition.num == 0 || g.acquisition.den == 0 {
      return Err(NotReady);
    }
    return Ok(UtcForSequence(g, sequence));
  }

  lemma UtcGrows(g: Segment, a: nat, b: nat)
    requires SegmentOk(g) && a <= b
    ensures Val(UtcForSequence(g, a)) <= Val(UtcForSequence(g, b))
  {
    var x, y := UtcForSequence(g, a), UtcForSequence(g, b);
    hide UtcForSequence, DecimationOk;
    assert x.den == y.den == g.acquisition.num && x.num <= y.num by { UtcNumerators(g, a, b); }
    SameDenominator(x.num, y.num, x.den);
  }

  lemma UtcNumerators(g: Segment, a: nat, b: nat)
    requires a <= b
    ensures UtcForSequence(g, a).den == UtcForSequence(g, b).den == g.acquisition.num
    ensures UtcForSequence(g, a).num <= UtcForSequence(g, b).num
  {
    var k := g.acquisition.den * NANOSECONDS;
    ProductOrder(a - g.correlationSequence, b - g.correlationSequence, k);
    assert (a - g.correlationSequence) * g.acquisition.den * NANOSECONDS == (a - g.correlationSequence) * k;
    assert (b - g.correlationSequence) * g.acquisition.den * NANOSECONDS == (b - g.correlationSequence) * k;
  }

  lemma SameDenominator(a: int, b: int, d: int)
    requires d > 0 && a <= b
    ensures Val(Rational(a, d)) <= Val(Rational(b, d))
  {
    DivTimes(a as real, d as real);
    DivTimes(b as real, d as real);
    var x, y, e := a as real / d as real, b as real / d as real, d as real;
    ScaleOrder(y, x, e);
  }

  /** No step back in time where one segment hands over to the next. */
  ghost predicate BoundariesForward(s: Source)
    requires ValidSource(s)
  {
    forall i: nat :: 0 < i < |s.segments| ==> BoundaryForward(s, i)
  }

  ghost predicate BoundaryForward(s: Source, i: nat)
    requires ValidSource(s) && 0 < i < |s.segments|
  {
    var f := s.segments[i].firstFrame;
    && 0 < f < s.frameCount
    && Val(FrameTime(s, f - 1)) <= Val(FrameTime(s, f))
  }

  lemma BoundaryFrame(s: Source, i: nat)
    requires ValidSource(s) && 0 < i < |s.segments|
    ensures 0 < s.segments[i].firstFrame < s.frameCount
  {
    hide SegmentOk, FindFrom;
    NextSegmentHolds(s, i - 1);
    FirstLast(s, i, s.segments[i].firstFrame);
    FirstSegmentHolds(s);
    FirstFramesGrow(s.segments, |s.segments|, 0, i);
  }

  lemma AdjacentTimes(s: Source, f: nat)
    requires ValidSource(s) && BoundariesForward(s) && f + 1 < s.frameCount
    ensures Val(FrameTime(s, f)) <= Val(FrameTime(s, f + 1))
  {
    hide First, Last, SegmentRange, Val, UtcForSequence, DecimationOk, FindFrom;
    var i, j := SegmentIndex(s, f), SegmentIndex(s, f + 1);
    if i == j {
      RangesGrow(s, f, f + 1);
      assert SegmentOk(s.segments[i]);
      UtcGrows(s.segments[i], First(s, f), First(s, f + 1));
    } else {
      NextIndex(s, f, i, j);
      assert BoundaryForward(s, j);
    }
  }

  lemma NextIndex(s: Source, f: nat, i: nat, j: nat)
    requires ValidSource(s) && i < |s.segments| && j < |s.segments| && i != j
    requires Holds(s.segments[i], f) && Holds(s.segments[j], f + 1)
    ensures 0 < j && s.segments[j].firstFrame == f + 1
  {
    hide SegmentOk;
    if i < j {
      FirstFramesGrow(s.segments, |s.segments|, i, j);
    } else {
      FirstFramesGrow(s.segments, |s.segments|, j, i);
    }
  }

  /** Frame times never decrease over a source that passes the boundary checks. */
  lemma {:induction false} TimesGrow(s: Source, f: nat, g: nat)
    requires ValidSource(s) && BoundariesForward(s) && f <= g < s.frameCount
    ensures Val(FrameTime(s, f)) <= Val(FrameTime(s, g))
    decreases g - f
  {
    hide ValidSource, FrameTime, Val, BoundariesForward;
    if f < g {
      TimesGrow(s, f, g - 1);
      AdjacentTimes(s, g - 1);
    }
  }

  // ---------------------------------------------------------------- tick selection

  ghost function TicksAt(r: Rational, tick: nat): nat
    requires r.den > 0 && r.num >= 0 && tick > 0
  {
    ProductPositive(r.den, tick);
    HalfEven(r.num, r.den * tick)
  }

  lemma TicksShrink(r: Rational, a: nat, b: nat)
    requires r.den > 0 && r.num >= 0 && 0 < a <= b
    ensures TicksAt(r, b) <= TicksAt(r, a)
  {
    hide HalfEven;
    ValScale(r, a);
    ValScale(r, b);
    ValNonNegative(r);
    var v := Val(r);
    DivTimes(v, a as real);
    DivTimes(v, b as real);
    Shrinks(v, a as real, b as real);
    HalfEvenMonotone(r.num, r.den * b, r.num, r.den * a);
  }

  lemma Shrinks(v: real, a: real, b: real)
    requires v >= 0.0 && 0.0 < a <= b
    ensures v / b <= v / a
  {
    var x, y := v / a, v / b;
    DivTimes(v, a);
    DivTimes(v, b);
    ScaleOrder(x, 0.0, a);
    assert x * (b - a) >= 0.0;
    ScaleOrder(x, y, b);
  }

  /** Ten powers of ten always suffice once the nanosecond count itself is representable. */
  lemma TickTenFits(r: Rational)
    requires r.den > 0 && r.num >= 0 && TicksAt(r, 1) <= UINT64_MAX
    ensures TicksAt(r, Pow10(10)) <= UINT32_MAX
  {
    assert Pow10(10) == 10_000_000_000 by {
      assert Pow10(5) == 100_000;
      assert Pow10(10) == 100_000 * Pow10(5);
    }
    var t := Pow10(10);
    hide Pow10, HalfEven, Val;
    ValScale(r, 1);
    ValScale(r, t);
    HalfEvenNearest(r.num, r.den);
    HalfEvenNearest(r.num, r.den * t);
    assert r.den * 1 == r.den;
    assert Val(r) <= UINT64_MAX as real + 0.5;
  }

  ghost predicate LeastTick(r: Rational, tick: nat)
    requires r.den > 0 && r.num >= 0 && tick > 0
  {
    && TicksAt(r, tick) <= UINT32_MAX
    && exists k: nat :: tick == Pow10(k) && forall j: nat | j < k :: TicksAt(r, Pow10(j)) > UINT32_MAX
  }

  /** Chooses the least power of ten that fits. It fails exactly when the interval exceeds UINT64 nanoseconds. */
  method SelectTick(r: Rational) returns (result: Result<nat, Error>)
    requires r.den > 0 && r.num >= 0
    ensures result.Ok? <==> TicksAt(r, 1) <= UINT64_MAX
    ensures result.Ok? ==> result.value > 0 && LeastTick(r, result.value)
  {
    hide HalfEven;
    var tick := 1;
    ghost var k: nat := 0;
    assert r.den * 1 == r.den;
    while true
      invariant tick == Pow10(k) && k <= 10
      invariant forall j: nat | j < k :: TicksAt(r, Pow10(j)) > UINT32_MAX
      invariant k > 0 ==> TicksAt(r, 1) <= UINT64_MAX
      decreases 10 - k
    {
      ProductPositive(r.den, tick);
      var maximumTick := RoundHalfEven(Rational(r.num, r.den * tick));
      if maximumTick.Err? {
        TicksShrink(r, 1, tick);
        return Err(TimestampOutOfRange);
      }
      if maximumTick.value <= UINT32_MAX {
        TicksShrink(r, 1, tick);
        return Ok(tick);
      }
      TickTenFits(r);
      TickBound(k);
      if tick > 1_000_000_000_000 {
        assert false;
      }
      tick := tick * 10;
      k := k + 1;
    }
  }

  lemma TickBound(k: nat)
    requires k <= 10
    ensures Pow10(k) <= 1_000_000_000_000
  {
    Pow10Grows(k, 10);
    assert Pow10(5) == 100_000;
    assert Pow10(10) == 100_000 * Pow10(5);
  }

  lemma {:induction false} Pow10Grows(a: nat, b: nat)
    requires a <= b
    ensures Pow10(a) <= Pow10(b)
    decreases b - a
  {
    if a < b {
      Pow10Grows(a, b - 1);
    }
  }

  // ---------------------------------------------------------------- the conversion's timestamps

  ghost function Relative(s: Source, frame: nat): (r: Rational)
    requires ValidSource(s) && frame < s.frameCount
    ensures r.den > 0 && Val(r) == Val(FrameTime(s, frame)) - Val(FrameTime(s, 0))
  {
    ValSubtract(FrameTime(s, frame), FrameTime(s, 0));
    Subtract(FrameTime(s, frame), FrameTime(s, 0))
  }

  lemma RelativeGrows(s: Source, f: nat, g: nat)
    requires ValidSource(s) && BoundariesForward(s) && f <= g < s.frameCount
    ensures Relative(s, f).num >= 0 && Relative(s, g).num >= 0
    ensures Val(Relative(s, f)) <= Val(Relative(s, g))
  {
    hide ValidSource, FrameTime, Val, BoundariesForward;
    TimesGrow(s, 0, f);
    TimesGrow(s, f, g);
    ValNonNegative(Relative(s, f));
    ValNonNegative(Relative(s, g));
  }

  /** At any tick the frame timestamps are non-decreasing, so the last frame's bounds them all. */
  lemma TicksGrow(s: Source, tick: nat, f: nat, g: nat)
    requires ValidSource(s) && BoundariesForward(s) && f <= g < s.frameCount && tick > 0
    ensures Relative(s, f).num >= 0 && Relative(s, g).num >= 0
    ensures TicksAt(Relative(s, f), tick) <= TicksAt(Relative(s, g), tick)
  {
    hide ValidSource, FrameTime, BoundariesForward, Relative, HalfEven;
    RelativeGrows(s, f, g);
    var x, y := Relative(s, f), Relative(s, g);
    ValScale(x, tick);
    ValScale(y, tick);
    DivTimes(Val(x), tick as real);
    DivTimes(Val(y), tick as real);
    ScaleOrder(Val(y) / tick as real, Val(x) / tick as real, tick as real);
    HalfEvenMonotone(x.num, x.den * tick, y.num, y.den * tick);
  }

  /** A recorded timestamp is within half a tick of the exact time since the first frame. */
  lemma TicksNear(s: Source, tick: nat, f: nat)
    requires ValidSource(s) && BoundariesForward(s) && f < s.frameCount && tick > 0
    ensures Relative(s, f).num >= 0
    ensures var exact := Val(FrameTime(s, f)) - Val(FrameTime(s, 0));
            var recorded := TicksAt(Relative(s, f), tick) as real * tick as real;
            recorded - tick as real / 2.0 <= exact <= recorded + tick as real / 2.0
  {
    hide ValidSource, FrameTime, BoundariesForward, Relative, HalfEven, Val;
    RelativeGrows(s, f, f);
    var x, t := Relative(s, f), tick as real;
    ValScale(x, tick);
    HalfEvenNearest(x.num, x.den * tick);
    var q, v := TicksAt(x, tick) as real, Val(x) / t;
    DivTimes(Val(x), t);
    NearScaled(q, v, t, Val(x));
  }

  /** One handover: the later segment is correlated and starts no earlier than the frame before it. */
  method CheckBoundary(s: Source, i: nat) returns (error: Option<Error>)
    requires ValidSource(s) && 0 < i < |s.segments| && s.segments[i - 1].correlationUtc != 0
    ensures error.None? <==> s.segments[i].correlationUtc != 0 && BoundaryForward(s, i)
  {
    hide SegmentOk, FrameTime, FindFrom, Val;
    var frame := s.segments[i].firstFrame;
    BoundaryFrame(s, i);
    NextSegmentHolds(s, i - 1);
    FoundSegment(s, frame, 0, i);
    FoundSegment(s, frame - 1, 0, i - 1) by { PreviousHolds(s, i); }
    var here := UtcForFrame(s, frame);
    var before := UtcForFrame(s, frame - 1);
    if here.Err? || before.Err? {
      return Some(NotReady);
    }
    ValSubtract(here.value, before.value);
    ValNonNegative(Subtract(here.value, before.value));
    return if Subtract(here.value, before.value).num < 0 then Some(Discontinuity) else None;
  }

  lemma PreviousHolds(s: Source, i: nat)
    requires ValidSource(s) && 0 < i < |s.segments|
    ensures Holds(s.segments[i - 1], s.segments[i].firstFrame - 1)
  {
    NextSegmentHolds(s, i - 1);
    assert SegmentOk(s.segments[i - 1]);
  }

  /** start, maximum_relative and the boundary loop: accepts exactly forward, correlated timebases. */
  method CheckBoundaries(s: Source) returns (r: Result<Rational, Error>)
    requires ValidSource(s)
    ensures r.Ok? <==> Correlated(s) && BoundariesForward(s)
    ensures r.Ok? ==> r.value == Relative(s, s.frameCount - 1) && r.value.num >= 0
  {
    hide SegmentOk, FrameTime, FindFrom, Val;
    var start := UtcForFrame(s, 0);
    var end := UtcForFrame(s, s.frameCount - 1);
    if start.Err? || end.Err? {
      return Err(NotReady);
    }
    var maximum := Subtract(end.value, start.value);
    assert maximum == Relative(s, s.frameCount - 1);
    if maximum.num < 0 {
      if BoundariesForward(s) { RelativeGrows(s, s.frameCount - 1, s.frameCount - 1); }
      return Err(Discontinuity);
    }
    FirstSegmentHolds(s);
    FoundSegment(s, 0, 0, 0);
    for i := 1 to |s.segments|
      invariant forall j: nat :: j < i ==> s.segments[j].correlationUtc != 0
      invariant forall j: nat :: 0 < j < i ==> BoundaryForward(s, j)
    {
      var error := CheckBoundary(s, i);
      if error.Some? {
        return Err(error.value);
      }
    }
    return Ok(maximum);
  }

  // ---------------------------------------------------------------- what the times are

  /** Nanoseconds of UTC at a source sequence: the correlated instant plus the samples since, at the acquisition rate. */
  ghost function SequenceTime(g: Segment, sequence: nat): real
    requires g.acquisition.num > 0
  {
    g.correlationUtc as real
    + ((sequence - g.correlationSequence) * g.acquisition.den) as real * 1_000_000_000.0 / g.acquisition.num as real
  }

  lemma UtcIsSequenceTime(g: Segment, sequence: nat)
    requires g.acquisition.num > 0
    ensures Val(UtcForSequence(g, sequence)) == SequenceTime(g, sequence)
  {
    var n, u, x := g.acquisition.num as real, g.correlationUtc as real, ((sequence - g.correlationSequence) * g.acquisition.den) as real;
    var y := x * 1_000_000_000.0;
    DivTimes(y, n);
    NanosecondsOf((sequence - g.correlationSequence) * g.acquisition.den);
    assert (g.correlationUtc * g.acquisition.num) as real == u * n;
    assert UtcForSequence(g, sequence).num as real == u * n + y;
    assert (u + y / n) * n == u * n + y / n * n;
    QuotientIs(u * n + y, n, u + y / n);
  }

  lemma NanosecondsOf(samples: int)
    ensures (samples * NANOSECONDS) as real == samples as real * 1_000_000_000.0
  {
  }

  /** The correlated sequence has the correlated time, and b - a samples last (b - a) * den / num seconds of 10^9 ns. */
  lemma ElapsedExactly(g: Segment, a: nat, b: nat)
    requires g.acquisition.num > 0
    ensures Val(UtcForSequence(g, g.correlationSequence)) == g.correlationUtc as real
    ensures (Val(UtcForSequence(g, b)) - Val(UtcForSequence(g, a))) * g.acquisition.num as real
              == ((b - a) * g.acquisition.den) as real * 1_000_000_000.0
  {
    UtcIsSequenceTime(g, g.correlationSequence);
    UtcIsSequenceTime(g, a);
    UtcIsSequenceTime(g, b);
    hide UtcForSequence, Val;
    var n, u := g.acquisition.num as real, g.correlationUtc as real;
    var da, db := (a - g.correlationSequence) * g.acquisition.den, (b - g.correlationSequence) * g.acquisition.den;
    var x, y := da as real * 1_000_000_000.0, db as real * 1_000_000_000.0;
    DivTimes(x, n);
    DivTimes(y, n);
    assert db - da == (b - a) * g.acquisition.den;
    assert (db - da) as real == db as real - da as real;
    assert (u + y / n - (u + x / n)) * n == y / n * n - x / n * n;
    assert (g.correlationSequence - g.correlationSequence) * g.acquisition.den == 0;
  }

  /** The time of a frame is that of its first source sequence, in the segment that holds it. */
  ghost function ExactTime(s: Source, frame: nat): real
    requires ValidSource(s) && frame < s.frameCount
  {
    assert SegmentOk(s.segments[SegmentIndex(s, frame)]);
    SequenceTime(s.segments[SegmentIndex(s, frame)], First(s, frame))
  }

  /** The recorded field, in ticks, is within half a tick of the exact time since the first frame. */
  ghost predicate RecordsTime(s: Source, frame: nat, tick: nat, field: nat)
    requires ValidSource(s) && frame < s.frameCount
  {
    var exact := ExactTime(s, frame) - ExactTime(s, 0);
    field as real * tick as real - tick as real / 2.0 <= exact <= field as real * tick as real + tick as real / 2.0
  }

  lemma FrameTimeIsExact(s: Source, frame: nat)
    requires ValidSource(s) && frame < s.frameCount
    ensures Val(FrameTime(s, frame)) == ExactTime(s, frame)
  {
    var g := s.segments[SegmentIndex(s, frame)];
    assert SegmentOk(g);
    hide SegmentOk, First, Val, UtcForSequence, SequenceTime;
    UtcIsSequenceTime(g, First(s, frame));
  }

  lemma FieldsRecordTimes(s: Source, tick: nat, f: nat)
    requires ValidSource(s) && BoundariesForward(s) && f < s.frameCount && tick > 0
    ensures Relative(s, f).num >= 0 && RecordsTime(s, f, tick, TicksAt(Relative(s, f), tick))
  {
    hide ValidSource, FrameTime, BoundariesForward, Relative, TicksAt, ExactTime, Val;
    TicksNear(s, tick, f);
    FrameTimeIsExact(s, f);
    FrameTimeIsExact(s, 0);
  }

  ghost predicate TimestampsFit(s: Source) {
    && ValidSource(s) && Correlated(s) && BoundariesForward(s)
    && s.frameCount <= UINT32_MAX
    && Relative(s, s.frameCount - 1).num >= 0
    && TicksAt(Relative(s, s.frameCount - 1), 1) <= UINT64_MAX
  }

  /**
   * The tick and every record's timestamp field. The record loop's own timestamp exceptions
   * (a negative difference, a rounding overflow, a field above UINT32) are unreachable.
   */
  method Timestamps(s: Source) returns (r: Result<(nat, seq<nat>), Error>)
    ensures r.Ok? <==> TimestampsFit(s)
    ensures r.Ok? ==> r.value.0 > 0 && LeastTick(Relative(s, s.frameCount - 1), r.value.0)
    ensures r.Ok? ==> |r.value.1| == s.frameCount
    ensures r.Ok? ==> forall f: nat :: f < s.frameCount ==>
              Relative(s, f).num >= 0 && r.value.1[f] == TicksAt(Relative(s, f), r.value.0) <= UINT32_MAX
    ensures r.Ok? ==> forall f: nat :: f < s.frameCount ==> RecordsTime(s, f, r.value.0, r.value.1[f])
  {
    hide SegmentOk, FrameTime, FindFrom, Val, HalfEven, LeastTick, BoundariesForward, Abutting, RecordsTime;
    var valid := Validate(s);
    if valid.Err? {
      return Err(valid.error);
    }
    var maximum := CheckBoundaries(s);
    if maximum.Err? {
      return Err(maximum.error);
    }
    var tick := SelectTick(maximum.value);
    if tick.Err? {
      return Err(tick.error);
    }
    LeastTickFits(maximum.value, tick.value);
    var start := UtcForFrame(s, 0);
    var ticks: seq<nat> := [];
    for frame := 0 to s.frameCount
      invariant |ticks| == frame && frame <= UINT32_MAX
      invariant forall f: nat :: f < frame ==>
                  Relative(s, f).num >= 0 && ticks[f] == TicksAt(Relative(s, f), tick.value) <= UINT32_MAX
    {
      if frame + 1 > UINT32_MAX {
        return Err(SampleOutOfRange);
      }
      var here := UtcForFrame(s, frame);
      TicksGrow(s, tick.value, frame, s.frameCount - 1);
      var relative := Subtract(here.value, start.value);
      assert relative == Relative(s, frame);
      ProductPositive(relative.den, tick.value);
      var rounded := RoundHalfEven(Rational(relative.num, relative.den * tick.value));
      ticks := ticks + [rounded.value];
    }
    forall f: nat | f < s.frameCount ensures RecordsTime(s, f, tick.value, ticks[f]) {
      FieldsRecordTimes(s, tick.value, f);
    }
    return Ok((tick.value, ticks));
  }

  lemma LeastTickFits(r: Rational, tick: nat)
    requires r.den > 0 && r.num >= 0 && tick > 0 && LeastTick(r, tick)
    ensures TicksAt(r, tick) <= UINT32_MAX
  {
  }
}
