/** The timebase validator shared by every waveform converter, and the source-sequence range of each frame. */
module Timebase {
  import opened Foundation
  import opened Arithmetic

  datatype Rate = Rate(num: u64, den: u64)

  datatype Decimation = Undecimated | BoxcarMean | UnknownMethod

  datatype Segment = Segment(
    firstFrame: u64, frameCount: u64, firstSequence: u64, sequenceStep: u64, sourceFrames: u64,
    acquisition: Rate, persisted: Rate, divisor: u64, decimation: Decimation, gapBefore: bool,
    correlationUtc: u64, correlationSequence: u64)

  datatype Source = Source(frameCount: u64, segments: seq<Segment>, firstSequence: u64, lastSequence: u64)

  datatype Error = SourceInvalid | Discontinuity | NotReady | TimestampOutOfRange | SampleOutOfRange | InvalidOptions
                 | EventNotFound

  // ---------------------------------------------------------------- what a valid source is

  ghost predicate DecimationOk(g: Segment) {
    match g.decimation
    case Undecimated => g.divisor == 1 && g.sequenceStep == 1 && g.sourceFrames == g.frameCount
    case BoxcarMean =>
      && g.sequenceStep == g.divisor
      && (g.frameCount - 1) * g.divisor + 1 <= g.sourceFrames <= g.frameCount * g.divisor
    case UnknownMethod => false
  }

  ghost predicate SegmentOk(g: Segment) {
    && 0 < g.frameCount && 0 < g.sequenceStep && 0 < g.sourceFrames && 0 < g.divisor
    && 0 < g.acquisition.num && 0 < g.acquisition.den && 0 < g.persisted.num && 0 < g.persisted.den
    && !g.gapBefore
    && DecimationOk(g)
    && g.persisted.num * g.acquisition.den * g.divisor == g.acquisition.num * g.persisted.den
    && g.firstSequence + g.sourceFrames <= UINT64_MAX
    && g.firstFrame + g.frameCount <= UINT64_MAX
  }

  /** The first n segments are each sound and abut in frames and in source sequences. */
  ghost predicate Abutting(gs: seq<Segment>, n: nat)
    requires n <= |gs|
  {
    && (forall i :: 0 <= i < n ==> SegmentOk(gs[i]))
    && (n > 0 ==> gs[0].firstFrame == 0)
    && (forall i, j :: 0 <= i && j == i + 1 && j < n ==>
          && gs[j].firstFrame == gs[i].firstFrame + gs[i].frameCount
          && gs[j].firstSequence == gs[i].firstSequence + gs[i].sourceFrames)
  }

  ghost predicate ValidSource(s: Source) {
    && s.frameCount != 0 && s.segments != []
    && Abutting(s.segments, |s.segments|)
    && var last := s.segments[|s.segments| - 1];
    && s.frameCount == last.firstFrame + last.frameCount
    && s.firstSequence == s.segments[0].firstSequence
    && s.lastSequence == last.firstSequence + last.sourceFrames - 1
    && s.firstSequence <= s.lastSequence
  }

  /** The validator loop for one segment, given the running expectations (waveform_converter.cpp:148-204). */
  method CheckSegment(g: Segment, expectedFrame: u64, expectedSequence: Option<u64>) returns (r: Result<(u64, u64), Error>)
    ensures r.Ok? <==> SegmentOk(g) && g.firstFrame == expectedFrame &&
                       (expectedSequence.Some? ==> g.firstSequence == expectedSequence.value)
    ensures r.Ok? ==> r.value == (g.firstFrame + g.frameCount, g.firstSequence + g.sourceFrames)
  {
    if g.firstFrame != expectedFrame || g.frameCount == 0 || g.sequenceStep == 0 || g.sourceFrames == 0 ||
       g.acquisition.num == 0 || g.acquisition.den == 0 || g.persisted.num == 0 || g.persisted.den == 0 ||
       g.divisor == 0 {
      return Err(SourceInvalid);
    }
    if g.gapBefore {
      return Err(Discontinuity);
    }
    if expectedSequence.Some? && g.firstSequence != expectedSequence.value {
      return Err(Discontinuity);
    }
    if g.decimation == Undecimated {
      if g.divisor != 1 || g.sequenceStep != 1 || g.sourceFrames != g.frameCount {
        return Err(SourceInvalid);
      }
    } else if g.decimation == BoxcarMean {
      var minimum := (g.frameCount - 1) * g.divisor + 1;
      var maximum := g.frameCount * g.divisor;
      if g.sequenceStep != g.divisor || g.sourceFrames < minimum || g.sourceFrames > maximum {
        return Err(SourceInvalid);
      }
    } else {
      return Err(SourceInvalid);
    }
    if g.persisted.num * g.acquisition.den * g.divisor != g.acquisition.num * g.persisted.den {
      return Err(SourceInvalid);
    }
    var sequenceEnd: nat := g.firstSequence + g.sourceFrames;
    if sequenceEnd > UINT64_MAX {
      return Err(SourceInvalid);
    }
    if g.frameCount > UINT64_MAX - expectedFrame {
      return Err(SourceInvalid);
    }
    return Ok((expectedFrame + g.frameCount, sequenceEnd));
  }

  /** The validator accepts exactly the sources whose segments abut and cover the selection. */
  method Validate(s: Source) returns (r: Result<(), Error>)
    ensures r.Ok? <==> ValidSource(s)
  {
    hide SegmentOk;
    if s.frameCount == 0 || s.segments == [] {
      return Err(SourceInvalid);
    }
    var expectedFrame: u64 := 0;
    var expectedSequence: Option<u64> := None;
    for i := 0 to |s.segments|
      invariant Abutting(s.segments, i)
      invariant expectedFrame == if i == 0 then 0 else s.segments[i - 1].firstFrame + s.segments[i - 1].frameCount
      invariant expectedSequence.Some? <==> i > 0
      invariant i > 0 ==> expectedSequence.value == s.segments[i - 1].firstSequence + s.segments[i - 1].sourceFrames
    {
      var checked := CheckSegment(s.segments[i], expectedFrame, expectedSequence);
      if checked.Err? {
        return Err(checked.error);
      }
      expectedFrame, expectedSequence := checked.value.0, Some(checked.value.1);
    }
    if expectedFrame != s.frameCount {
      return Err(SourceInvalid);
    }
    if s.firstSequence != s.segments[0].firstSequence || expectedSequence.value == 0 ||
       s.lastSequence != expectedSequence.value - 1 || s.lastSequence < s.firstSequence {
      return Err(SourceInvalid);
    }
    return Ok(());
  }

  /** Frames of reduced quality; `lossy` marks a gap or transport loss. */
  datatype Quality = Quality(firstFrame: u64, frameCount: u64, lossy: bool)

  /** An event is asked for by a nonzero UUID, from the options or else from the metadata. */
  datatype Options = Options(maximumBytes: nat, batch: nat, eventScope: bool, selected: Option<nat>)

  datatype Metadata = Metadata(channels: nat, describedChannels: nat, qualities: seq<Quality>, events: seq<nat>, selected: Option<nat>)

  function Requested(o: Options, m: Metadata): Option<nat> {
    if o.selected.Some? then o.selected else m.selected
  }

  ghost predicate QualityOk(q: Quality, frames: nat) {
    0 < q.frameCount && q.firstFrame + q.frameCount <= frames && !q.lossy
  }

  ghost predicate Convertible(s: Source, m: Metadata, o: Options) {
    && 0 < o.maximumBytes && 0 < o.batch && 0 < m.channels == m.describedChannels && ValidSource(s)
    && (forall i :: 0 <= i < |m.qualities| ==> QualityOk(m.qualities[i], s.frameCount))
    && (o.eventScope ==> Requested(o, m).Some? && Requested(o, m).value != 0 && Requested(o, m).value in m.events)
  }

  /** The whole validator: options, geometry, timebase, quality intervals and the selected event. */
  method ValidateConversion(s: Source, m: Metadata, o: Options) returns (r: Result<(), Error>)
    ensures r.Ok? <==> Convertible(s, m, o)
  {
    hide ValidSource;
    if o.maximumBytes == 0 || o.batch == 0 {
      return Err(InvalidOptions);
    }
    if m.channels == 0 || m.channels != m.describedChannels {
      return Err(SourceInvalid);
    }
    var valid := Validate(s);
    if valid.Err? {
      return valid;
    }
    for i := 0 to |m.qualities|
      invariant forall k :: 0 <= k < i ==> QualityOk(m.qualities[k], s.frameCount)
    {
      var q := m.qualities[i];
      if q.frameCount == 0 || q.firstFrame > s.frameCount || q.frameCount > s.frameCount - q.firstFrame {
        return Err(SourceInvalid);
      }
      if q.lossy {
        return Err(Discontinuity);
      }
    }
    if o.eventScope {
      var requested := Requested(o, m);
      if requested.None? || requested.value == 0 {
        return Err(InvalidOptions);
      }
      if requested.value !in m.events {
        return Err(EventNotFound);
      }
    }
    return Ok(());
  }

  // ---------------------------------------------------------------- frames

  predicate Holds(g: Segment, frame: nat) {
    g.firstFrame <= frame < g.firstFrame + g.frameCount
  }

  /** std::find_if over the segments. */
  function FindFrom(gs: seq<Segment>, frame: nat, k: nat): (r: Option<nat>)
    requires k <= |gs|
    ensures r.Some? ==> k <= r.value < |gs| && Holds(gs[r.value], frame)
    decreases |gs| - k
  {
    if k == |gs| then None else if Holds(gs[k], frame) then Some(k) else FindFrom(gs, frame, k + 1)
  }

  lemma {:induction false} FirstFramesGrow(gs: seq<Segment>, n: nat, i: nat, j: nat)
    requires n <= |gs| && Abutting(gs, n) && i <= j < n
    ensures gs[i].firstFrame <= gs[j].firstFrame
    ensures i < j ==> gs[i].firstFrame + gs[i].frameCount <= gs[j].firstFrame
    decreases j - i
  {
    hide SegmentOk;
    if i < j {
      FirstFramesGrow(gs, n, i, j - 1);
      assert gs[j].firstFrame == gs[j - 1].firstFrame + gs[j - 1].frameCount;
    }
  }

  /** Each frame of a valid source lies in one segment, and it is the one the linear search returns. */
  lemma {:induction false} FoundSegment(s: Source, frame: nat, k: nat, i: nat)
    requires ValidSource(s) && k <= i < |s.segments| && Holds(s.segments[i], frame)
    ensures FindFrom(s.segments, frame, k) == Some(i)
    decreases i - k
  {
    hide SegmentOk;
    if k < i {
      FirstFramesGrow(s.segments, |s.segments|, k, i);
      FoundSegment(s, frame, k + 1, i);
    }
  }

  lemma {:induction false} SomeSegmentHolds(s: Source, frame: nat, n: nat) returns (i: nat)
    requires ValidSource(s) && 0 < n <= |s.segments|
    requires frame < s.segments[n - 1].firstFrame + s.segments[n - 1].frameCount
    ensures i < n && Holds(s.segments[i], frame)
  {
    hide SegmentOk;
    if s.segments[n - 1].firstFrame <= frame {
      i := n - 1;
    } else {
      i := SomeSegmentHolds(s, frame, n - 1);
    }
  }

  ghost function SegmentIndex(s: Source, frame: nat): (i: nat)
    requires ValidSource(s) && frame < s.frameCount
    ensures i < |s.segments| && Holds(s.segments[i], frame)
    ensures FindFrom(s.segments, frame, 0) == Some(i)
  {
    SegmentIndexExists(s, frame);
    FindFrom(s.segments, frame, 0).value
  }

  lemma SegmentIndexExists(s: Source, frame: nat)
    requires ValidSource(s) && frame < s.frameCount
    ensures FindFrom(s.segments, frame, 0).Some?
  {
    hide SegmentOk;
    var i := SomeSegmentHolds(s, frame, |s.segments|);
    FoundSegment(s, frame, 0, i);
  }

  function Smaller(a: int, b: int): int {
    if a < b then a else b
  }

  /** sequence_range_for_frame, for the local-th frame of its segment. */
  function SegmentRange(g: Segment, local: nat): (nat, int) {
    var first := g.firstSequence + local * g.sequenceStep;
    var segmentLast := g.firstSequence + g.sourceFrames - 1;
    (first, if local + 1 != g.frameCount then Smaller(first + g.sequenceStep - 1, segmentLast) else segmentLast)
  }

  method SequenceRange(s: Source, frame: nat) returns (r: Result<(nat, nat), Error>)
    ensures ValidSource(s) && frame < s.frameCount ==> r == Ok((First(s, frame), Last(s, frame)))
  {
    hide SegmentOk;
    var k := FindFrom(s.segments, frame, 0);
    if k.None? {
      if ValidSource(s) && frame < s.frameCount {
        SegmentIndexExists(s, frame);
      }
      return Err(SourceInvalid);
    }
    var range := SegmentRange(s.segments[k.value], frame - s.segments[k.value].firstFrame);
    if ValidSource(s) && frame < s.frameCount {
      RangeSound(s.segments[k.value], frame - s.segments[k.value].firstFrame);
    }
    if range.1 < range.0 || range.1 > UINT64_MAX {
      return Err(SourceInvalid);
    }
    return Ok(range);
  }

  ghost function First(s: Source, frame: nat): nat
    requires ValidSource(s) && frame < s.frameCount
  {
    var g := s.segments[SegmentIndex(s, frame)];
    SegmentRange(g, frame - g.firstFrame).0
  }

  ghost function Last(s: Source, frame: nat): int
    requires ValidSource(s) && frame < s.frameCount
  {
    var g := s.segments[SegmentIndex(s, frame)];
    SegmentRange(g, frame - g.firstFrame).1
  }

  lemma StepGeometry(g: Segment)
    requires SegmentOk(g)
    ensures (g.frameCount - 1) * g.sequenceStep + 1 <= g.sourceFrames <= g.frameCount * g.sequenceStep
  {
  }

  /** Within a segment every range is non-empty, all but the last are whole groups, and the last ends the segment. */
  lemma RangeSound(g: Segment, local: nat)
    requires SegmentOk(g) && local < g.frameCount
    ensures SegmentRange(g, local).0 <= SegmentRange(g, local).1 <= g.firstSequence + g.sourceFrames - 1 <= UINT64_MAX
    ensures local + 1 < g.frameCount ==> SegmentRange(g, local).1 + 1 == SegmentRange(g, local + 1).0
    ensures local + 1 == g.frameCount ==> SegmentRange(g, local).1 == g.firstSequence + g.sourceFrames - 1
  {
    StepGeometry(g);
    ProductOrder(local, g.frameCount - 1, g.sequenceStep);
    if local + 1 < g.frameCount {
      ProductOrder(local + 1, g.frameCount - 1, g.sequenceStep);
      assert (local + 1) * g.sequenceStep == local * g.sequenceStep + g.sequenceStep;
    }
  }

  lemma FirstLast(s: Source, i: nat, frame: nat)
    requires ValidSource(s) && i < |s.segments| && Holds(s.segments[i], frame)
    ensures frame < s.frameCount
    ensures First(s, frame) == SegmentRange(s.segments[i], frame - s.segments[i].firstFrame).0
    ensures Last(s, frame) == SegmentRange(s.segments[i], frame - s.segments[i].firstFrame).1
  {
    hide SegmentOk, SegmentRange;
    FirstFramesGrow(s.segments, |s.segments|, i, |s.segments| - 1);
    FoundSegment(s, frame, 0, i);
  }

  lemma FirstFrameFirst(s: Source)
    requires ValidSource(s) && 0 < s.frameCount
    ensures First(s, 0) == s.firstSequence
  {
    hide SegmentOk, First, Last;
    FirstSegmentHolds(s);
    FirstLast(s, 0, 0);
  }

  /** The ranges start at the first selected sequence, end at the last, and each begins where the previous ended. */
  lemma FrameRangesAbut(s: Source, frame: nat)
    requires ValidSource(s) && frame < s.frameCount
    ensures First(s, frame) <= Last(s, frame)
    ensures frame == 0 ==> First(s, frame) == s.firstSequence
    ensures frame + 1 < s.frameCount ==> First(s, frame + 1) == Last(s, frame) + 1
    ensures frame + 1 == s.frameCount ==> Last(s, frame) == s.lastSequence
  {
    hide SegmentOk, First, Last;
    var i := SegmentIndex(s, frame);
    var g := s.segments[i];
    var local := frame - g.firstFrame;
    RangeSound(g, local);
    FirstLast(s, i, frame);
    if frame == 0 {
      FirstFrameFirst(s);
    }
    hide SegmentRange;
    if local + 1 < g.frameCount {
      FirstLast(s, i, frame + 1);
      FirstFramesGrow(s.segments, |s.segments|, i, |s.segments| - 1);
    } else if i + 1 < |s.segments| {
      NextSegmentHolds(s, i);
      FirstLast(s, i + 1, frame + 1);
      FirstFramesGrow(s.segments, |s.segments|, i + 1, |s.segments| - 1);
    }
  }

  lemma FirstSegmentHolds(s: Source)
    requires ValidSource(s)
    ensures Holds(s.segments[0], 0)
  {
    assert SegmentOk(s.segments[0]);
  }

  lemma NextSegmentHolds(s: Source, i: nat)
    requires ValidSource(s) && i + 1 < |s.segments|
    ensures Holds(s.segments[i + 1], s.segments[i].firstFrame + s.segments[i].frameCount)
    ensures s.segments[i + 1].firstFrame == s.segments[i].firstFrame + s.segments[i].frameCount
    ensures s.segments[i + 1].firstSequence == s.segments[i].firstSequence + s.segments[i].sourceFrames
  {
    assert SegmentOk(s.segments[i + 1]);
    var j := i + 1;
    assert s.segments[j].firstFrame == s.segments[i].firstFrame + s.segments[i].frameCount;
  }

  lemma {:induction false} RangesGrow(s: Source, f: nat, g: nat)
    requires ValidSource(s) && f <= g < s.frameCount
    ensures First(s, f) <= First(s, g) && Last(s, f) <= Last(s, g)
    ensures f < g ==> Last(s, f) < First(s, g)
    decreases g - f
  {
    hide ValidSource, First, Last;
    FrameRangesAbut(s, g);
    if f < g {
      FrameRangesAbut(s, g - 1);
      RangesGrow(s, f, g - 1);
    }
  }

  lemma {:induction false} OwnerUpTo(s: Source, q: nat, n: nat) returns (f: nat)
    requires ValidSource(s) && 0 < n <= s.frameCount && s.firstSequence <= q <= Last(s, n - 1)
    ensures f < n && First(s, f) <= q <= Last(s, f)
  {
    hide ValidSource, First, Last;
    FrameRangesAbut(s, n - 1);
    if First(s, n - 1) <= q {
      f := n - 1;
    } else {
      FrameRangesAbut(s, n - 2);
      f := OwnerUpTo(s, q, n - 1);
    }
  }

  ghost predicate InFrame(s: Source, f: nat, q: nat)
    requires ValidSource(s) && f < s.frameCount
  {
    First(s, f) <= q <= Last(s, f)
  }

  /** Partition: every selected source sequence belongs to exactly one frame, and no frame reaches outside. */
  lemma FramesPartitionSequences(s: Source, q: nat)
    requires ValidSource(s)
    ensures s.firstSequence <= q <= s.lastSequence ==>
              exists f: nat :: f < s.frameCount && InFrame(s, f, q)
    ensures forall f: nat, g: nat | f < s.frameCount && g < s.frameCount :: InFrame(s, f, q) && InFrame(s, g, q) ==> f == g
    ensures forall f: nat | f < s.frameCount :: InFrame(s, f, q) ==> s.firstSequence <= q <= s.lastSequence
  {
    hide First, Last, SegmentOk;
    FrameRangesAbut(s, s.frameCount - 1);
    if s.firstSequence <= q <= s.lastSequence {
      var f := OwnerUpTo(s, q, s.frameCount);
      assert InFrame(s, f, q);
    }
    forall f: nat, g: nat | f < s.frameCount && g < s.frameCount && InFrame(s, f, q) && InFrame(s, g, q) ensures f == g {
      RangesGrow(s, if f < g then f else g, if f < g then g else f);
    }
    forall f: nat | f < s.frameCount && InFrame(s, f, q) ensures s.firstSequence <= q <= s.lastSequence {
      FrameRangesAbut(s, 0);
      RangesGrow(s, 0, f);
      RangesGrow(s, f, s.frameCount - 1);
    }
  }

  // ---------------------------------------------------------------- event status channels

  datatype Event = Event(start: u64, end: u64, endValid: bool)

  /** An event without a valid end is active to the end of the selection. */
  function ActiveEnd(e: Event, selectionLast: nat): nat {
    if e.endValid then e.end else selectionLast
  }

  ghost predicate InEvent(s: Source, e: Event, q: nat) {
    e.start <= q <= ActiveEnd(e, s.lastSequence)
  }

  ghost predicate Flagged(s: Source, e: Event, frame: nat)
    requires ValidSource(s) && frame < s.frameCount
  {
    First(s, frame) <= ActiveEnd(e, s.lastSequence) && e.start <= Last(s, frame)
  }

  /** The flagged frames of any event are one contiguous run. */
  lemma FlaggedRunContiguous(s: Source, e: Event, f: nat, g: nat, h: nat)
    requires ValidSource(s) && f <= g <= h < s.frameCount
    requires Flagged(s, e, f) && Flagged(s, e, h)
    ensures Flagged(s, e, g)
  {
    hide ValidSource, First, Last;
    RangesGrow(s, f, g);
    RangesGrow(s, g, h);
  }

  /**
   * A frame is flagged exactly when it shares a sequence with the event, unless the event ends before it starts and the
   * frame's group holds both its end and its start.
   */
  lemma FlaggedIffShared(s: Source, e: Event, f: nat)
    requires ValidSource(s) && f < s.frameCount
    ensures e.start <= ActiveEnd(e, s.lastSequence) ==>
              (Flagged(s, e, f) <==> exists q: nat :: InFrame(s, f, q) && InEvent(s, e, q))
    ensures (Flagged(s, e, f) <==> exists q: nat :: InFrame(s, f, q) && InEvent(s, e, q)) <==>
              !(ActiveEnd(e, s.lastSequence) < e.start
                && InFrame(s, f, ActiveEnd(e, s.lastSequence)) && InFrame(s, f, e.start))
  {
    hide ValidSource, First, Last;
    FrameRangesAbut(s, f);
    if Flagged(s, e, f) && e.start <= ActiveEnd(e, s.lastSequence) {
      var q: nat := if e.start <= First(s, f) then First(s, f) else e.start;
      assert InFrame(s, f, q) && InEvent(s, e, q);
    }
  }

  /** Some frame is flagged exactly when an event that is open, or does not end before it starts, meets the selection. */
  lemma FlaggedIffMeetsSelection(s: Source, e: Event)
    requires ValidSource(s) && (e.endValid ==> e.start <= e.end)
    ensures (exists f: nat :: f < s.frameCount && Flagged(s, e, f)) <==>
            e.start <= s.lastSequence && s.firstSequence <= ActiveEnd(e, s.lastSequence)
  {
    hide First, Last, SegmentOk;
    if e.start <= s.lastSequence && s.firstSequence <= ActiveEnd(e, s.lastSequence) {
      var q: nat := if e.start <= s.firstSequence then s.firstSequence else e.start;
      FramesPartitionSequences(s, q);
      var f: nat :| f < s.frameCount && InFrame(s, f, q);
      assert Flagged(s, e, f);
    }
    forall f: nat | f < s.frameCount && Flagged(s, e, f)
      ensures e.start <= s.lastSequence && s.firstSequence <= ActiveEnd(e, s.lastSequence)
    {
      FrameRangesAbut(s, f);
      FramesPartitionSequences(s, Last(s, f));
      assert InFrame(s, f, Last(s, f));
      assert InFrame(s, f, First(s, f));
      FramesPartitionSequences(s, First(s, f));
    }
  }

  /**
   * COMTRADE conversion itself does not reject an event that ends before it starts, and would flag a decimated frame for
   * it. The capture reader does reject such events (mncwf_v4.cpp:2349-2353), so no source it delivers contains one.
   */
  lemma ReversedEventCanBeFlagged() returns (s: Source, e: Event)
    ensures ValidSource(s) && e.endValid && e.end < e.start
    ensures Flagged(s, e, 0)
    ensures forall q: nat :: !InEvent(s, e, q)
  {
    var g := Segment(0, 1, 100, 10, 10, Rate(10, 1), Rate(1, 1), 10, BoxcarMean, false, 1, 100);
    s := Source(1, [g], 100, 109);
    e := Event(107, 103, true);
    assert SegmentOk(g);
    FirstLast(s, 0, 0);
  }

  /** A valid segment's persisted rate is its acquisition rate over the decimation, one frame for every step of sequences. */
  lemma RatesAgree(s: Source, i: nat)
    requires ValidSource(s) && i < |s.segments|
    ensures
      var g := s.segments[i];
      && g.persisted.den > 0 && g.acquisition.den > 0 && g.sequenceStep == g.divisor >= 1 && !g.gapBefore
      && (g.persisted.num * g.divisor) * g.acquisition.den == g.acquisition.num * g.persisted.den
      && (g.decimation == Undecimated ==> g.divisor == 1 && g.sourceFrames == g.frameCount) && g.decimation != UnknownMethod
  {
    var g := s.segments[i];
    assert SegmentOk(g);
    Regroup(g.persisted.num, g.acquisition.den, g.divisor);
    hide ValidSource;
  }

  lemma Regroup(a: nat, b: nat, c: nat)
    ensures a * b * c == (a * c) * b
  {
  }

  /** Open events last to the end of the selection, ended ones to their end. */
  lemma ActiveEndMeans(e: Event, selectionLast: nat)
    ensures e.endValid ==> ActiveEnd(e, selectionLast) == e.end
    ensures !e.endValid ==> ActiveEnd(e, selectionLast) == selectionLast
  {
  }
}
