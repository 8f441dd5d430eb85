/** Assembly of 42-chunk harmonic spectrum families over a wrapping uint32 sequence space. */
module Harmonic {
  import opened Foundation

  const CHANNELS: nat := 7
  const CHUNKS: nat := 6
  const RECORDS: nat := 42
  const MAX_ORDER: nat := 127
  const WRAP: nat := 0x1_0000_0000
  const HALF: nat := 0x8000_0000

  datatype Period = Basic | Cycles150 | Minutes10 | Hours2

  /** Every field that same_family compares. */
  datatype Provenance = Provenance(
    period: Period, sequence: u32, generation: u32, sampleRate: u32, sampleCount: u32, validMask: nat, status: u32,
    firstSample: nat, emitDrops: u32, resultDrops: u32, targetSample: nat, contributors: nat, overshoot: nat,
    aligned: bool, contaminated: bool, firstSource: u32, lastSource: u32, millihertz: u32, qualifiedMaxOrder: nat,
    nominalHertz: nat, cycles: nat, filterProfile: nat)

  datatype Point = Point(order: nat, magnitude: nat, angle: nat, magnitudeValid: bool, angleValid: bool)

  datatype Chunk = Chunk(family: Provenance, channel: nat, chunk: nat, firstOrder: nat, orderCount: nat, entries: seq<Point>)

  datatype Snapshot = Snapshot(family: Provenance, channels: seq<seq<Point>>)

  datatype Partial = Partial(snapshot: Snapshot, received: seq<bool>, count: nat)

  datatype State = State(partial: Option<Partial>, lastCompleted: Option<u32>)

  datatype Update = Update(incomplete: nat, completed: Option<Snapshot>)

  datatype Error = Stale | ProvenanceMismatch | DuplicateChunk

  // ---------------------------------------------------------------- geometry

  function OrdersPerRecord(p: Period): nat {
    if p == Basic then 24 else 23
  }

  function ExpectedOrderCount(chunk: nat, p: Period): int {
    var first := chunk * OrdersPerRecord(p) + 1;
    if OrdersPerRecord(p) < MAX_ORDER - first + 1 then OrdersPerRecord(p) else MAX_ORDER - first + 1
  }

  /** What decode_harmonic_record guarantees of a chunk's place in the family. */
  predicate Decoded(c: Chunk) {
    && c.channel < CHANNELS && c.chunk < CHUNKS
    && c.firstOrder == c.chunk * OrdersPerRecord(c.family.period) + 1
    && c.orderCount == ExpectedOrderCount(c.chunk, c.family.period)
    && |c.entries| == 24
  }

  function Index(c: Chunk): nat {
    c.channel * CHUNKS + c.chunk
  }

  predicate Covers(c: Chunk, order: nat) {
    c.firstOrder <= order < c.firstOrder + c.orderCount
  }

  /** In both geometries each order 1..127 lies in exactly one of the six chunks, and no chunk exceeds its entries. */
  lemma OrdersTile(p: Period, order: nat, c: Chunk)
    requires 1 <= order <= MAX_ORDER && Decoded(c) && c.family.period == p
    ensures 1 <= c.orderCount <= 24 && c.firstOrder + c.orderCount <= MAX_ORDER + 1
    ensures Covers(c, order) <==> c.chunk == (order - 1) / OrdersPerRecord(p)
    ensures (order - 1) / OrdersPerRecord(p) < CHUNKS
  {
  }

  lemma IndexInjective(c: Chunk, d: Chunk)
    requires Decoded(c) && Decoded(d)
    ensures Index(c) < RECORDS
    ensures Index(c) == Index(d) <==> c.channel == d.channel && c.chunk == d.chunk
  {
  }

  // ---------------------------------------------------------------- accept

  function Distance(from: u32, to: u32): (d: u32) {
    (to - from) % WRAP
  }

  predicate ForwardOf(candidate: u32, baseline: u32) {
    0 < Distance(baseline, candidate) < HALF
  }

  const BlankRow: seq<Point> := seq(MAX_ORDER, i requires 0 <= i => Point(i + 1, 0, 0, false, false))

  function SnapshotFrom(c: Chunk): Snapshot {
    Snapshot(c.family, seq(CHANNELS, _ => BlankRow))
  }

  function FreshPartial(c: Chunk): Partial {
    Partial(SnapshotFrom(c), seq(RECORDS, _ => false), 0)
  }

  ghost predicate Shaped(p: Partial) {
    && |p.received| == RECORDS && |p.snapshot.channels| == CHANNELS
    && forall i :: 0 <= i < CHANNELS ==> |p.snapshot.channels[i]| == MAX_ORDER
  }

  ghost predicate Valid(s: State) {
    s.partial.Some? ==> Shaped(s.partial.value)
  }

  /** The row with n entries written from zero-based position `from`. */
  function Written(row: seq<Point>, from: nat, entries: seq<Point>, n: nat): (r: seq<Point>)
    requires from + n <= |row| && n <= |entries|
    ensures |r| == |row|
  {
    seq(|row|, o requires 0 <= o < |row| => if from <= o < from + n then entries[o - from] else row[o])
  }

  function AddChunk(p: Partial, c: Chunk): (q: Partial)
    requires Shaped(p) && Decoded(c)
    ensures Shaped(q)
  {
    IndexInjective(c, c);
    OrdersTile(c.family.period, 1, c);
    var row := Written(p.snapshot.channels[c.channel], c.firstOrder - 1, c.entries, c.orderCount);
    Partial(p.snapshot.(channels := p.snapshot.channels[c.channel := row]), p.received[Index(c) := true], p.count + 1)
  }

  /** The partial family a chunk joins, with the incomplete families reported on the way, or the reason it is refused. */
  function Join(s: State, c: Chunk): (r: Result<(Partial, nat), Error>)
    requires Valid(s)
    ensures r.Ok? ==> Shaped(r.value.0)
  {
    if s.partial.Some? then
      var sequence := s.partial.value.snapshot.family.sequence;
      if c.family.sequence == sequence then Ok((s.partial.value, 0))
      else if !ForwardOf(c.family.sequence, sequence) then Err(Stale)
      else Ok((FreshPartial(c), Distance(sequence, c.family.sequence)))
    else if s.lastCompleted.Some? then
      if !ForwardOf(c.family.sequence, s.lastCompleted.value) then Err(Stale)
      else Ok((FreshPartial(c), Distance(s.lastCompleted.value, c.family.sequence) - 1))
    else Ok((FreshPartial(c), 0))
  }

  function Accept(s: State, c: Chunk): (r: Result<(State, Update), Error>)
    requires Valid(s) && Decoded(c)
    ensures r.Ok? ==> Valid(r.value.0)
  {
    var joined := Join(s, c);
    if joined.Err? then Err(joined.error)
    else
      var (p, incomplete) := joined.value;
      IndexInjective(c, c);
      if p.snapshot.family != c.family then Err(ProvenanceMismatch)
      else if p.received[Index(c)] then Err(DuplicateChunk)
      else
        var q := AddChunk(p, c);
        if q.count == RECORDS
        then Ok((State(None, Some(c.family.sequence)), Update(incomplete, Some(q.snapshot))))
        else Ok((State(Some(q), s.lastCompleted), Update(incomplete, None)))
  }

  class HarmonicFamilyAssembler {
    var partial: Option<Partial>
    var lastCompleted: Option<u32>

    ghost function Abstract(): State
      reads this
    {
      State(partial, lastCompleted)
    }

    constructor ()
      ensures Abstract() == State(None, None) && Valid(Abstract())
    {
      partial, lastCompleted := None, None;
    }

    method Reset()
      modifies this
      ensures Abstract() == State(None, None)
    {
      partial, lastCompleted := None, None;
    }

    /** A refused chunk changes nothing; an accepted one moves the state exactly as Accept says. */
    method AcceptChunk(c: Chunk) returns (r: Result<Update, Error>)
      requires Valid(Abstract()) && Decoded(c)
      modifies this
      ensures Valid(Abstract())
      ensures r.Ok? <==> Accept(old(Abstract()), c).Ok?
      ensures r.Ok? ==> (Abstract(), r.value) == Accept(old(Abstract()), c).value
      ensures r.Err? ==> r.error == Accept(old(Abstract()), c).error && Abstract() == old(Abstract())
    {
      var incomplete: nat := 0;
      var replaced := false;
      var current := partial;
      if current.Some? && c.family.sequence != current.value.snapshot.family.sequence {
        if !ForwardOf(c.family.sequence, current.value.snapshot.family.sequence) {
          return Err(Stale);
        }
        incomplete := Distance(current.value.snapshot.family.sequence, c.family.sequence);
        current, replaced := None, true;
      }
      if current.None? {
        if lastCompleted.Some? && !replaced {
          if !ForwardOf(c.family.sequence, lastCompleted.value) {
            return Err(Stale);
          }
          incomplete := incomplete + Distance(lastCompleted.value, c.family.sequence) - 1;
        }
        current := Some(FreshPartial(c));
      }
      if current.value.snapshot.family != c.family {
        return Err(ProvenanceMismatch);
      }
      IndexInjective(c, c);
      if current.value.received[Index(c)] {
        return Err(DuplicateChunk);
      }
      var row := WriteEntries(current.value.snapshot.channels[c.channel], c);
      var snapshot := current.value.snapshot.(channels := current.value.snapshot.channels[c.channel := row]);
      var updated := Partial(snapshot, current.value.received[Index(c) := true], current.value.count + 1);
      if updated.count == RECORDS {
        partial, lastCompleted := None, Some(c.family.sequence);
        return Ok(Update(incomplete, Some(snapshot)));
      }
      partial := Some(updated);
      return Ok(Update(incomplete, None));
    }

    static method WriteEntries(row: seq<Point>, c: Chunk) returns (r: seq<Point>)
      requires |row| == MAX_ORDER && Decoded(c)
      ensures c.firstOrder >= 1 && c.firstOrder - 1 + c.orderCount <= MAX_ORDER && c.orderCount <= |c.entries|
      ensures r == Written(row, c.firstOrder - 1, c.entries, c.orderCount)
    {
      OrdersTile(c.family.period, 1, c);
      r := row;
      for i := 0 to c.orderCount
        invariant r == Written(row, c.firstOrder - 1, c.entries, i)
      {
        r := r[c.firstOrder + i - 1 := c.entries[i]];
      }
    }
  }

  // ---------------------------------------------------------------- accounting over a run

  /** A run so far: the sequences of the families begun, in order, and the totals the updates reported. */
  datatype Run = Run(state: State, families: seq<u32>, incomplete: nat, completed: nat)

  ghost function Start(): Run {
    Run(State(None, None), [], 0, 0)
  }

  ghost predicate BeginsFamily(s: State, c: Chunk) {
    s.partial.None? || s.partial.value.snapshot.family.sequence != c.family.sequence
  }

  ghost function Step(r: Run, c: Chunk): Run
    requires Valid(r.state) && Decoded(c)
  {
    match Accept(r.state, c)
    case Err(_) => r
    case Ok((s, u)) =>
      Run(s, if BeginsFamily(r.state, c) then r.families + [c.family.sequence] else r.families,
          r.incomplete + u.incomplete, r.completed + if u.completed.Some? then 1 else 0)
  }

  /** Unwrapped distance from the first family to the latest: the sum of the forward steps between them. */
  ghost function Unwrapped(families: seq<u32>): nat {
    if |families| <= 1 then 0
    else Unwrapped(families[..|families| - 1]) + Distance(families[|families| - 2], families[|families| - 1])
  }

  /** Each family begun is strictly ahead of the one before it, by less than half the sequence space. */
  ghost predicate Advancing(families: seq<u32>) {
    forall i, j :: 0 <= i && j == i + 1 && j < |families| ==> ForwardOf(families[j], families[i])
  }

  ghost predicate Accounted(r: Run) {
    && Valid(r.state) && Advancing(r.families)
    && (r.families == [] <==> r.state == State(None, None))
    && (r.state.partial.Some? ==> r.families[|r.families| - 1] == r.state.partial.value.snapshot.family.sequence)
    && (r.state.partial.None? && r.families != [] ==> r.state.lastCompleted == Some(r.families[|r.families| - 1]))
    && r.incomplete + r.completed + (if r.state.partial.Some? then 1 else 0)
       == if r.families == [] then 0 else Unwrapped(r.families) + 1
  }

  lemma StepAccounted(r: Run, c: Chunk)
    requires Accounted(r) && Decoded(c)
    ensures Accounted(Step(r, c))
  {
    hide AddChunk, FreshPartial, Distance, Shaped;
    if Accept(r.state, c).Ok? && BeginsFamily(r.state, c) {
      var grown := r.families + [c.family.sequence];
      assert grown[..|grown| - 1] == r.families;
      FreshBegins(c);
      AddKeepsFamily(FreshPartial(c), c);
    } else if Accept(r.state, c).Ok? {
      AddKeepsFamily(r.state.partial.value, c);
    }
  }

  lemma FreshBegins(c: Chunk)
    ensures Shaped(FreshPartial(c)) && FreshPartial(c).snapshot.family == c.family && FreshPartial(c).count == 0
  {
  }

  lemma AddKeepsFamily(p: Partial, c: Chunk)
    requires Shaped(p) && Decoded(c)
    ensures AddChunk(p, c).snapshot.family == p.snapshot.family && AddChunk(p, c).count == p.count + 1
  {
  }

  ghost function Fold(r: Run, chunks: seq<Chunk>): (f: Run)
    requires Valid(r.state) && forall c :: c in chunks ==> Decoded(c)
    ensures Valid(f.state)
    decreases |chunks|
  {
    if chunks == [] then r else Step(Fold(r, chunks[..|chunks| - 1]), chunks[|chunks| - 1])
  }

  /**
   * Over every run of chunks, refused ones included and across uint32 wrap: incomplete families reported,
   * plus completed ones, plus one if a family is pending, is the unwrapped distance travelled plus one.
   */
  lemma {:induction false} FamiliesAccounted(chunks: seq<Chunk>)
    requires forall c :: c in chunks ==> Decoded(c)
    ensures Accounted(Fold(Start(), chunks))
    decreases |chunks|
  {
    hide Accept, Accounted;
    if chunks == [] {
      StartAccounted();
    } else {
      FamiliesAccounted(chunks[..|chunks| - 1]);
      StepAccounted(Fold(Start(), chunks[..|chunks| - 1]), chunks[|chunks| - 1]);
    }
  }

  lemma StartAccounted()
    ensures Accounted(Start())
  {
  }

  /** The unwrapped distance is the true one: it agrees with the raw sequence numbers modulo 2^32. */
  lemma {:induction false} UnwrappedCongruent(families: seq<u32>)
    requires families != []
    ensures Unwrapped(families) % WRAP == Distance(families[0], families[|families| - 1])
    decreases |families|
  {
    if |families| > 1 {
      var init := families[..|families| - 1];
      UnwrappedCongruent(init);
      var a, b, c := families[0], families[|families| - 2], families[|families| - 1];
      ModAdds(Unwrapped(init), (b - a) % WRAP, (c - b) % WRAP, a, b, c);
    }
  }

  lemma ModAdds(u: nat, x: nat, y: nat, a: u32, b: u32, c: u32)
    requires u % WRAP == x == (b - a) % WRAP && y == (c - b) % WRAP
    ensures (u + y) % WRAP == (c - a) % WRAP
  {
  }

  // ---------------------------------------------------------------- order independence

  /** The 42 chunks of one family in some arrival order. */
  ghost predicate WholeFamily(cs: seq<Chunk>, family: Provenance) {
    && |cs| == RECORDS
    && (forall i :: 0 <= i < |cs| ==> Decoded(cs[i]) && cs[i].family == family)
    && (forall i, j :: 0 <= i < j < |cs| ==> Index(cs[i]) != Index(cs[j]))
  }

  /** The sequence is acceptable to an assembler with no partial family. */
  /** A family of this sequence may begin: it is ahead of the partial family it replaces, or of the last completed one. */
  ghost predicate Acceptable(s: State, sequence: u32) {
    && Valid(s)
    && if s.partial.Some? then ForwardOf(sequence, s.partial.value.snapshot.family.sequence)
       else s.lastCompleted.Some? ==> ForwardOf(sequence, s.lastCompleted.value)
  }

  /** The snapshot after the first k chunks. */
  ghost function PartialAfter(cs: seq<Chunk>, k: nat): (p: Partial)
    requires 0 < |cs| && k <= |cs| && forall i :: 0 <= i < |cs| ==> Decoded(cs[i])
    ensures Shaped(p) && p.count == k && p.snapshot.family == cs[0].family
  {
    if k == 0 then FreshPartial(cs[0]) else AddChunk(PartialAfter(cs, k - 1), cs[k - 1])
  }

  lemma {:induction false} NotYetReceived(cs: seq<Chunk>, family: Provenance, k: nat, j: nat)
    requires WholeFamily(cs, family) && k <= j < RECORDS
    ensures Index(cs[j]) < RECORDS && !PartialAfter(cs, k).received[Index(cs[j])]
    decreases k
  {
    IndexInjective(cs[j], cs[j]);
    if k > 0 {
      NotYetReceived(cs, family, k - 1, j);
      IndexInjective(cs[k - 1], cs[j]);
    }
  }

  ghost function StateAfter(s: State, cs: seq<Chunk>, k: nat): State
    requires 0 < |cs| && k < |cs| && forall i :: 0 <= i < |cs| ==> Decoded(cs[i])
  {
    if k == 0 then s else State(Some(PartialAfter(cs, k)), s.lastCompleted)
  }

  lemma NotItself(sequence: u32)
    ensures !ForwardOf(sequence, sequence)
  {
  }

  /** Whatever the order, the first 41 chunks are taken silently and the 42nd completes the family. */
  lemma CompletesOnLast(s: State, cs: seq<Chunk>, family: Provenance, k: nat)
    requires WholeFamily(cs, family) && Acceptable(s, family.sequence) && k < RECORDS
    ensures Valid(StateAfter(s, cs, k))
    ensures
      var r := Accept(StateAfter(s, cs, k), cs[k]);
      && r.Ok?
      && (k + 1 < RECORDS ==> r.value.0 == StateAfter(s, cs, k + 1) && r.value.1.completed.None?)
      && (k + 1 == RECORDS ==> r.value.0 == State(None, Some(family.sequence))
                               && r.value.1.completed == Some(PartialAfter(cs, RECORDS).snapshot))
      && (k > 0 ==> r.value.1.incomplete == 0)
  {
    hide AddChunk, Distance, Shaped, ForwardOf;
    NotYetReceived(cs, family, k, k);
    if k == 0 {
      assert PartialAfter(cs, 0) == FreshPartial(cs[0]);
      if s.partial.Some? {
        NotItself(family.sequence);
      }
    }
    assert PartialAfter(cs, k + 1) == AddChunk(PartialAfter(cs, k), cs[k]);
  }

  /** Entries already written stay as written, since no later chunk of the family covers them. */
  lemma {:induction false} WrittenOnce(cs: seq<Chunk>, family: Provenance, k: nat, j: nat, order: nat)
    requires WholeFamily(cs, family) && j < k <= RECORDS && 1 <= order <= MAX_ORDER && Covers(cs[j], order)
    ensures order - cs[j].firstOrder < |cs[j].entries|
    ensures PartialAfter(cs, k).snapshot.channels[cs[j].channel][order - 1] == cs[j].entries[order - cs[j].firstOrder]
    decreases k
  {
    OrdersTile(family.period, order, cs[j]);
    OrdersTile(family.period, order, cs[k - 1]);
    if j < k - 1 {
      WrittenOnce(cs, family, k - 1, j, order);
      IndexInjective(cs[j], cs[k - 1]);
    }
  }

  ghost function Indices(cs: seq<Chunk>, n: nat): set<nat>
    requires n <= |cs|
  {
    set i | 0 <= i < n :: Index(cs[i])
  }

  lemma {:induction false} IndicesCount(cs: seq<Chunk>, family: Provenance, n: nat)
    requires WholeFamily(cs, family) && n <= RECORDS
    ensures |Indices(cs, n)| == n
    decreases n
  {
    if n > 0 {
      IndicesCount(cs, family, n - 1);
      assert Indices(cs, n) == Indices(cs, n - 1) + {Index(cs[n - 1])};
    }
  }

  ghost function Below(n: nat): (b: set<nat>)
    ensures |b| == n && forall i: nat :: i in b <==> i < n
  {
    if n == 0 then {} else Below(n - 1) + {n - 1}
  }

  /** Forty-two distinct chunks leave no place of the family empty. */
  lemma EveryPlaceFilled(cs: seq<Chunk>, family: Provenance, channel: nat, chunk: nat) returns (j: nat)
    requires WholeFamily(cs, family) && channel < CHANNELS && chunk < CHUNKS
    ensures j < RECORDS && cs[j].channel == channel && cs[j].chunk == chunk
  {
    hide Below;
    var all := Below(RECORDS);
    var here := Indices(cs, RECORDS);
    IndicesCount(cs, family, RECORDS);
    forall x | x in here ensures x in all {
      var i :| 0 <= i < RECORDS && Index(cs[i]) == x;
      IndexInjective(cs[i], cs[i]);
    }
    SubsetOfSameSize(here, all);
    assert channel * CHUNKS + chunk in all;
    var i :| 0 <= i < RECORDS && Index(cs[i]) == channel * CHUNKS + chunk;
    j := i;
  }

  lemma SubsetOfSameSize(a: set<nat>, b: set<nat>)
    requires a <= b && |a| == |b|
    ensures a == b
  {
    assert |b| == |a| + |b - a| by { assert b == a + (b - a); }
  }

  /** Every point of the completed snapshot is the entry of the one chunk that covers its channel and order. */
  lemma CompletedPoint(cs: seq<Chunk>, family: Provenance, channel: nat, order: nat) returns (j: nat)
    requires WholeFamily(cs, family) && channel < CHANNELS && 1 <= order <= MAX_ORDER
    ensures j < RECORDS && cs[j].channel == channel && Covers(cs[j], order)
    ensures order - cs[j].firstOrder < |cs[j].entries|
    ensures PartialAfter(cs, RECORDS).snapshot.channels[channel][order - 1] == cs[j].entries[order - cs[j].firstOrder]
  {
    hide PartialAfter;
    OrdersTile(family.period, order, cs[0]);
    j := EveryPlaceFilled(cs, family, channel, (order - 1) / OrdersPerRecord(family.period));
    OrdersTile(family.period, order, cs[j]);
    WrittenOnce(cs, family, RECORDS, j, order);
  }

  lemma SamePoint(cs: seq<Chunk>, ds: seq<Chunk>, family: Provenance, channel: nat, order: nat)
    requires WholeFamily(cs, family) && WholeFamily(ds, family) && channel < CHANNELS && 1 <= order <= MAX_ORDER
    requires forall c :: c in cs ==> c in ds
    ensures PartialAfter(cs, RECORDS).snapshot.channels[channel][order - 1]
            == PartialAfter(ds, RECORDS).snapshot.channels[channel][order - 1]
  {
    hide PartialAfter;
    var j := CompletedPoint(cs, family, channel, order);
    assert cs[j] in ds;
    var k :| 0 <= k < |ds| && ds[k] == cs[j];
    WrittenOnce(ds, family, RECORDS, k, order);
  }

  /** Two arrival orders of the same chunks yield the same snapshot. */
  lemma OrderIndependent(cs: seq<Chunk>, ds: seq<Chunk>, family: Provenance)
    requires WholeFamily(cs, family) && WholeFamily(ds, family)
    requires forall c :: c in cs ==> c in ds
    ensures PartialAfter(cs, RECORDS).snapshot == PartialAfter(ds, RECORDS).snapshot
  {
    hide PartialAfter;
    var a, b := PartialAfter(cs, RECORDS).snapshot, PartialAfter(ds, RECORDS).snapshot;
    forall channel: nat | channel < CHANNELS ensures a.channels[channel] == b.channels[channel] {
      forall o: nat | o < MAX_ORDER ensures a.channels[channel][o] == b.channels[channel][o] {
        SamePoint(cs, ds, family, channel, o + 1);
      }
    }
  }

  // ---------------------------------------------------------------- what is accepted

  /** Where the chunks begin: every 24 orders in the basic period, every 23 in the others; the last ones are short. */
  lemma ChunkPlaces(c: Chunk)
    requires Decoded(c)
    ensures c.channel <= 6 && c.chunk <= 5 && |c.entries| == 24
    ensures c.family.period == Basic ==> c.firstOrder == 24 * c.chunk + 1 && c.orderCount == (if c.chunk == 5 then 7 else 24)
    ensures c.family.period != Basic ==> c.firstOrder == 23 * c.chunk + 1 && c.orderCount == (if c.chunk == 5 then 12 else 23)
  {
  }

  /** Ahead means less than half the 32-bit sequence space ahead, modulo wrap-around. */
  lemma AheadMeans(candidate: u32, baseline: u32)
    ensures ForwardOf(candidate, baseline) <==>
              (if candidate >= baseline then 0 < candidate - baseline < 0x8000_0000
               else 0 < candidate + 0x1_0000_0000 - baseline < 0x8000_0000)
  {
    if candidate < baseline {
      assert (candidate - baseline) % 0x1_0000_0000 == candidate + 0x1_0000_0000 - baseline;
    }
  }

  /** A chunk is refused exactly when it is behind, belongs to another family under the same sequence, or came before. */
  lemma RefusedIff(s: State, c: Chunk)
    requires Valid(s) && Decoded(c)
    ensures Accept(s, c).Err? <==>
      match s.partial
      case Some(p) =>
        if c.family.sequence == p.snapshot.family.sequence
        then c.family != p.snapshot.family || p.received[6 * c.channel + c.chunk]
        else !ForwardOf(c.family.sequence, p.snapshot.family.sequence)
      case None => s.lastCompleted.Some? && !ForwardOf(c.family.sequence, s.lastCompleted.value)
  {
    hide AddChunk, ForwardOf, Distance;
    FreshBegins(c);
    IndexInjective(c, c);
    NothingReceived(c);
  }

  lemma NothingReceived(c: Chunk)
    requires Decoded(c)
    ensures Index(c) == 6 * c.channel + c.chunk < RECORDS && !FreshPartial(c).received[Index(c)]
  {
  }

  /** An accepted chunk of a family still pending is refused when it comes again, and so is one that differs in provenance. */
  lemma SecondTimeRefused(s: State, c: Chunk, d: Chunk)
    requires Valid(s) && Decoded(c) && Decoded(d) && Accept(s, c).Ok? && Accept(s, c).value.0.partial.Some?
    requires d.family.sequence == c.family.sequence
    requires (d.channel == c.channel && d.chunk == c.chunk) || d.family != c.family
    ensures Accept(Accept(s, c).value.0, d).Err?
  {
    hide ForwardOf, Distance, Written;
    FreshBegins(c);
    IndexInjective(c, d);
  }
}
