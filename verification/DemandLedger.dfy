/** Authoritative demand peaks: session peaks and current demands, filtered by reset baselines and profiles. */
module DemandLedger {
  import opened Foundation
  import opened LedgerCodec

  const PHASES: nat := 4
  const VALID: byte := 1

  type Four = f: seq<i64> | |f| == PHASES witness seq(4, _ => 0)
  type FourSamples = f: seq<u64> | |f| == PHASES witness seq(4, _ => 0)
  type Qualities = q: seq<byte> | |q| == 12 witness seq(12, _ => 0)

  datatype Averaging = FixedBlock | Sliding

  datatype Profile = Profile(averaging: Averaging, windowSeconds: u32, updateSeconds: u32)

  /** A demand interval or a ledger answer; all its readings share one calculation window and one timestamp. */
  datatype DemandValues = DemandValues(
    current: Four, importPeak: Four, exportPeak: Four, importSample: FourSamples, exportSample: FourSamples,
    qualities: Qualities, window: Window, sessionId: u64, lastSample: u64, anchor: u64, intervals: u32,
    sourceStatus: u32, profile: Profile, profileGeneration: u32, epoch: nat, aligned: bool, contaminated: bool,
    boundaryValid: bool, saturated: bool, incomplete: bool, measuredAt: int)

  /** One direction's session peaks, reset baseline, authoritative peaks and the samples they were reached at. */
  datatype Peaks = Peaks(raw: Four, baseline: Four, peak: Four, anchors: FourSamples)

  datatype DemandState = DemandState(
    epoch: nat, sessionId: u64, sequence: u32, generation: u32, profile: Profile, profileGeneration: u32,
    current: Four, imports: Peaks, exports: Peaks)

  /** The single row of demand_state_profiled, column by column. */
  datatype Row = Row(
    epoch: nat, sessionId: string, sequence: u32, generation: u32, current: seq<byte>,
    imports: PeakColumns, exports: PeakColumns, qualities: seq<byte>, lastSample: string, anchor: string,
    intervals: u32, sourceStatus: u32, flags: nat, samples: u32, rate: u32, updated: int, averaging: nat,
    windowSeconds: u32, updateSeconds: u32, profileGeneration: u32)

  datatype PeakColumns = PeakColumns(raw: seq<byte>, baseline: seq<byte>, peak: seq<byte>, anchors: seq<byte>)

  datatype Ledger = Ledger(state: DemandState, latest: Option<DemandValues>, row: Option<Row>, audit: map<string, nat>)

  datatype ResetRequest = ResetRequest(expectedEpoch: nat, key: string, actor: string, requestId: string, at: int)

  datatype Failure =
    InvalidProfile | NegativePeak | StaleSequence | DifferentContent | PeakRollback | IncompleteRequest | NoCheckpoint
    | EpochConflict | CorruptRow

  function Zero(): Four {
    seq(PHASES, _ => 0)
  }

  function NoSamples(): FourSamples {
    seq(PHASES, _ => 0)
  }

  function NoPeaks(): Peaks {
    Peaks(Zero(), Zero(), Zero(), NoSamples())
  }

  function EmptyState(): DemandState {
    DemandState(0, 0, 0, 0, Profile(Sliding, 0, 0), 0, Zero(), NoPeaks(), NoPeaks())
  }

  function Empty(audit: map<string, nat>): Ledger {
    Ledger(EmptyState(), None, None, audit)
  }

  // ---------------------------------------------------------------- persistence

  function Flags(v: DemandValues): nat {
    (if v.aligned then 1 else 0) + (if v.contaminated then 2 else 0) + (if v.boundaryValid then 4 else 0)
    + (if v.saturated then 8 else 0) + (if v.incomplete then 16 else 0)
  }

  lemma FlagsDecode(v: DemandValues)
    ensures Flags(v) % 2 == 1 <==> v.aligned
    ensures Flags(v) / 2 % 2 == 1 <==> v.contaminated
    ensures Flags(v) / 4 % 2 == 1 <==> v.boundaryValid
    ensures Flags(v) / 8 % 2 == 1 <==> v.saturated
    ensures Flags(v) / 16 % 2 == 1 <==> v.incomplete
  {
  }

  function Columns(p: Peaks): PeakColumns {
    PeakColumns(SignedBlob(p.raw), SignedBlob(p.baseline), SignedBlob(p.peak), Blob(p.anchors))
  }

  function FromColumns(c: PeakColumns): Option<Peaks> {
    var raw, baseline := SignedUnblob(c.raw, PHASES), SignedUnblob(c.baseline, PHASES);
    var peak, anchors := SignedUnblob(c.peak, PHASES), Unblob(c.anchors, PHASES);
    if raw.Err? || baseline.Err? || peak.Err? || anchors.Err? then None
    else Some(Peaks(raw.value, baseline.value, peak.value, anchors.value))
  }

  lemma ColumnsRoundTrip(p: Peaks)
    ensures FromColumns(Columns(p)) == Some(p)
  {
    hide SignedBlob, SignedUnblob, Blob, Unblob;
    SignedBlobRoundTrip(p.raw);
    SignedBlobRoundTrip(p.baseline);
    SignedBlobRoundTrip(p.peak);
    BlobRoundTrip(p.anchors);
  }

  function Persisted(v: DemandValues, s: DemandState, at: int): Row {
    Row(s.epoch, Hex64(s.sessionId), s.sequence, s.generation, SignedBlob(s.current), Columns(s.imports),
        Columns(s.exports), v.qualities, Hex64(v.lastSample), Hex64(v.anchor), v.intervals, v.sourceStatus, Flags(v),
        v.window.samples, SampleRate(v.window), at, if v.profile.averaging == FixedBlock then 0 else 1,
        v.profile.windowSeconds, v.profile.updateSeconds, v.profileGeneration)
  }

  function Loaded(row: Row): Option<(DemandState, DemandValues)> {
    var session, lastSample, anchor := ParseHex64(row.sessionId), ParseHex64(row.lastSample), ParseHex64(row.anchor);
    var current, imports, exports := SignedUnblob(row.current, PHASES), FromColumns(row.imports), FromColumns(row.exports);
    if session.Err? || lastSample.Err? || anchor.Err? || current.Err? || imports.None? || exports.None?
       || |row.qualities| != 12 || row.averaging > 1 then None
    else
      var profile := Profile(if row.averaging == 0 then FixedBlock else Sliding, row.windowSeconds, row.updateSeconds);
      Some((DemandState(row.epoch, session.value, row.sequence, row.generation, profile, row.profileGeneration,
                        current.value, imports.value, exports.value),
            DemandValues(current.value, imports.value.peak, exports.value.peak, imports.value.anchors,
                         exports.value.anchors, row.qualities, Rebuilt(row.samples, row.rate), session.value,
                         lastSample.value, anchor.value, row.intervals, row.sourceStatus, profile,
                         row.profileGeneration, row.epoch, row.flags % 2 == 1, row.flags / 2 % 2 == 1,
                         row.flags / 4 % 2 == 1, row.flags / 8 % 2 == 1, row.flags / 16 % 2 == 1, row.updated)))
  }

  // ---------------------------------------------------------------- ingest

  predicate SameInstance(l: Ledger, v: DemandValues) {
    && l.latest.Some? && v.sessionId == l.state.sessionId && v.profile == l.state.profile
    && v.profileGeneration == l.state.profileGeneration
  }

  predicate ProfileChanged(l: Ledger, v: DemandValues) {
    && l.latest.Some?
    && (v.profile != l.state.profile
        || (v.sessionId == l.state.sessionId && v.profileGeneration != l.state.profileGeneration))
  }

  /** A new profile starts from nothing; a new session only drops the baseline; otherwise all is kept. */
  function Opening(l: Ledger, v: DemandValues, p: Peaks): Peaks {
    if ProfileChanged(l, v) then NoPeaks()
    else if !SameInstance(l, v) then Peaks(p.raw, Zero(), p.peak, p.anchors)
    else p
  }

  function Magnitude(value: i64): i64 {
    if value == INT64_MIN then INT64_MAX else if value < 0 then -value else value
  }

  /** What a current demand offers as an import or export peak; zero when it offers nothing. */
  function Offered(value: i64, quality: byte, exporting: bool): (o: i64)
    ensures o >= 0
  {
    if quality != VALID then 0
    else if exporting then if value < 0 then Magnitude(value) else 0
    else if value > 0 then value else 0
  }

  function Larger(a: i64, b: i64): i64 {
    if b > a then b else a
  }

  /** A session peak counts only above the reset baseline. */
  function Above(peak: i64, baseline: i64): (r: i64) {
    if peak > baseline then peak else 0
  }

  function Raised(peak: i64, offered: i64, incoming: i64, baseline: i64): i64 {
    Larger(Larger(peak, offered), Above(incoming, baseline))
  }

  function RaisedAnchor(peak: i64, offered: i64, incoming: i64, baseline: i64, anchor: u64, lastSample: u64, sample: u64): u64 {
    if Above(incoming, baseline) > Larger(peak, offered) then sample else if offered > peak then lastSample else anchor
  }

  function RaisedPeaks(p: Peaks, v: DemandValues, incoming: Four, samples: FourSamples, exporting: bool): Peaks {
    Peaks(incoming, p.baseline,
          seq(PHASES, i requires 0 <= i < PHASES =>
            Raised(p.peak[i], Offered(v.current[i], v.qualities[i], exporting), incoming[i], p.baseline[i])),
          seq(PHASES, i requires 0 <= i < PHASES =>
            RaisedAnchor(p.peak[i], Offered(v.current[i], v.qualities[i], exporting), incoming[i], p.baseline[i],
                         p.anchors[i], v.lastSample, samples[i])))
  }

  ghost predicate NonNegative(f: Four) {
    forall i :: 0 <= i < PHASES ==> f[i] >= 0
  }

  ghost predicate AtLeast(a: Four, b: Four) {
    forall i :: 0 <= i < PHASES ==> a[i] >= b[i]
  }

  ghost predicate MagnitudeSaturates(v: DemandValues) {
    exists i :: 0 <= i < PHASES && v.qualities[i] == VALID && v.current[i] == INT64_MIN
  }

  predicate SameContent(s: DemandState, latest: DemandValues, v: DemandValues, generation: u32) {
    && v.current == s.current && v.importPeak == s.imports.raw && v.exportPeak == s.exports.raw
    && generation == s.generation && v.lastSample == latest.lastSample && v.anchor == latest.anchor
    && v.intervals == latest.intervals && v.sourceStatus == latest.sourceStatus && v.aligned == latest.aligned
    && v.contaminated == latest.contaminated && v.boundaryValid == latest.boundaryValid
    && v.incomplete == latest.incomplete && (v.saturated ==> latest.saturated)
    && v.qualities == latest.qualities && v.window == latest.window
  }

  /** An interval answered with the ledger's peaks. */
  function WithPeaks(v: DemandValues, imports: Peaks, exports: Peaks, epoch: nat, saturated: bool): DemandValues {
    DemandValues(v.current, imports.peak, exports.peak, imports.anchors, exports.anchors, v.qualities, v.window,
                 v.sessionId, v.lastSample, v.anchor, v.intervals, v.sourceStatus, v.profile, v.profileGeneration,
                 epoch, v.aligned, v.contaminated, v.boundaryValid, saturated, v.incomplete, v.measuredAt)
  }

  function Restamped(v: DemandValues, window: Window, at: int): DemandValues {
    DemandValues(v.current, v.importPeak, v.exportPeak, v.importSample, v.exportSample, v.qualities, window,
                 v.sessionId, v.lastSample, v.anchor, v.intervals, v.sourceStatus, v.profile, v.profileGeneration,
                 v.epoch, v.aligned, v.contaminated, v.boundaryValid, v.saturated, v.incomplete, at)
  }

  /** The row decodes to this state and answer, apart from the timestamp and (unless durable) the window. */
  ghost predicate Decodes(row: Row, s: DemandState, v: DemandValues) {
    Loaded(row) == Some((s, Restamped(v, Rebuilt(row.samples, row.rate), row.updated)))
  }

  /** The answer repeats what the state holds. */
  ghost predicate Agrees(v: DemandValues, s: DemandState) {
    && v.current == s.current && v.importPeak == s.imports.peak && v.exportPeak == s.exports.peak
    && v.importSample == s.imports.anchors && v.exportSample == s.exports.anchors
    && v.sessionId == s.sessionId && v.epoch == s.epoch && v.profile == s.profile
    && v.profileGeneration == s.profileGeneration
  }

  ghost predicate Sound(l: Ledger) {
    && (l.latest.Some? <==> l.row.Some?)
    && (l.latest.Some? ==> Agrees(l.latest.value, l.state) && Decodes(l.row.value, l.state, l.latest.value))
    && (l.latest.None? ==> l.state == EmptyState())
  }

  ghost predicate Acceptable(l: Ledger, v: DemandValues) {
    SameInstance(l, v) ==> AtLeast(v.importPeak, l.state.imports.raw) && AtLeast(v.exportPeak, l.state.exports.raw)
  }

  function NextState(l: Ledger, v: DemandValues, sequence: u32, generation: u32): DemandState {
    DemandState(if ProfileChanged(l, v) then l.state.epoch + 1 else l.state.epoch, v.sessionId, sequence, generation,
                v.profile, v.profileGeneration, v.current,
                RaisedPeaks(Opening(l, v, l.state.imports), v, v.importPeak, v.importSample, false),
                RaisedPeaks(Opening(l, v, l.state.exports), v, v.exportPeak, v.exportSample, true))
  }

  ghost function Ingested(l: Ledger, v: DemandValues, sequence: u32, generation: u32, at: int): Result<(Ledger, DemandValues), Failure> {
    if v.profileGeneration == 0 || v.profile.windowSeconds == 0 || v.profile.updateSeconds == 0 then Err(InvalidProfile)
    else if !NonNegative(v.importPeak) || !NonNegative(v.exportPeak) then Err(NegativePeak)
    else if SameInstance(l, v) && sequence < l.state.sequence then Err(StaleSequence)
    else if SameInstance(l, v) && sequence == l.state.sequence then
      if SameContent(l.state, l.latest.value, v, generation) then Ok((l, l.latest.value)) else Err(DifferentContent)
    else if !Acceptable(l, v) then Err(PeakRollback)
    else
      var next := NextState(l, v, sequence, generation);
      var result := WithPeaks(v, next.imports, next.exports, next.epoch, v.saturated || MagnitudeSaturates(v));
      Ok((Ledger(next, Some(result), Some(Persisted(result, next, at)), l.audit), result))
  }

  /** A reset clears the peaks and raises the baseline to the session's own peaks. */
  function ResetState(s: DemandState): DemandState {
    DemandState(s.epoch + 1, s.sessionId, s.sequence, s.generation, s.profile, s.profileGeneration, s.current,
                Peaks(s.imports.raw, s.imports.raw, Zero(), NoSamples()),
                Peaks(s.exports.raw, s.exports.raw, Zero(), NoSamples()))
  }

  ghost function WasReset(l: Ledger, q: ResetRequest): Result<(Ledger, nat, bool), Failure> {
    if q.key == "" || q.actor == "" || q.requestId == "" then Err(IncompleteRequest)
    else if q.key in l.audit then Ok((l, l.audit[q.key], true))
    else if l.latest.None? then Err(NoCheckpoint)
    else if q.expectedEpoch != l.state.epoch then Err(EpochConflict)
    else
      var next := ResetState(l.state);
      var result := WithPeaks(l.latest.value, next.imports, next.exports, next.epoch, l.latest.value.saturated);
      Ok((Ledger(next, Some(result), Some(Persisted(result, next, q.at)), l.audit[q.key := next.epoch]), next.epoch, false))
  }

  ghost function Reopened(l: Ledger): Option<Ledger> {
    if l.row.None? then Some(Empty(l.audit))
    else
      var loaded := Loaded(l.row.value);
      if loaded.None? then None
      else Some(Ledger(loaded.value.0, Some(loaded.value.1), l.row, l.audit))
  }

  class Store {
    var state: DemandState
    var latest: Option<DemandValues>
    var row: Option<Row>
    var audit: map<string, nat>

    ghost function Abstract(): Ledger
      reads this
    {
      Ledger(state, latest, row, audit)
    }

    constructor Open(row: Option<Row>, audit: map<string, nat>)
      requires row.Some? ==> Loaded(row.value).Some?
      ensures Reopened(Ledger(EmptyState(), None, row, audit)) == Some(Abstract())
    {
      this.row, this.audit := row, audit;
      if row.Some? {
        var (s, v) := Loaded(row.value).value;
        state, latest := s, Some(v);
      } else {
        state, latest := EmptyState(), None;
      }
    }

    static method HasNegative(f: Four) returns (found: bool)
      ensures found <==> !NonNegative(f)
    {
      for i := 0 to PHASES
        invariant forall k :: 0 <= k < i ==> f[k] >= 0
      {
        if f[i] < 0 {
          return true;
        }
      }
      return false;
    }

    static method HasRollback(a: Four, b: Four) returns (found: bool)
      ensures found <==> !AtLeast(a, b)
    {
      for i := 0 to PHASES
        invariant forall k :: 0 <= k < i ==> a[k] >= b[k]
      {
        if a[i] < b[i] {
          return true;
        }
      }
      return false;
    }

    /** One direction of the phase loop. */
    /** One phase of one side: the interval's own demand first, then the session peak. */
    static method RaisePhase(p: Peaks, i: nat, v: DemandValues, incoming: i64, sample: u64, exporting: bool)
      returns (value: i64, anchor: u64)
      requires i < PHASES && p.peak[i] >= 0 && p.baseline[i] >= 0
      ensures value == Raised(p.peak[i], Offered(v.current[i], v.qualities[i], exporting), incoming, p.baseline[i])
      ensures anchor == RaisedAnchor(p.peak[i], Offered(v.current[i], v.qualities[i], exporting), incoming, p.baseline[i],
                                     p.anchors[i], v.lastSample, sample)
    {
      value, anchor := p.peak[i], p.anchors[i];
      if v.qualities[i] == VALID && !exporting && v.current[i] > 0 && v.current[i] > value {
        value, anchor := v.current[i], v.lastSample;
      } else if v.qualities[i] == VALID && exporting && v.current[i] < 0 {
        var candidate := Magnitude(v.current[i]);
        if candidate > value {
          value, anchor := candidate, v.lastSample;
        }
      }
      if incoming > p.baseline[i] && incoming > value {
        value, anchor := incoming, sample;
      }
    }

    static method RaiseSide(p: Peaks, v: DemandValues, incoming: Four, samples: FourSamples, exporting: bool) returns (r: Peaks)
      requires NonNegative(p.peak) && NonNegative(p.baseline)
      ensures r == RaisedPeaks(p, v, incoming, samples, exporting)
    {
      hide Raised, RaisedAnchor, Offered;
      var peak: seq<i64> := [];
      var anchors: seq<u64> := [];
      for i := 0 to PHASES
        invariant |peak| == |anchors| == i
        invariant forall k :: 0 <= k < i ==>
          peak[k] == Raised(p.peak[k], Offered(v.current[k], v.qualities[k], exporting), incoming[k], p.baseline[k])
        invariant forall k :: 0 <= k < i ==>
          anchors[k] == RaisedAnchor(p.peak[k], Offered(v.current[k], v.qualities[k], exporting), incoming[k],
                                     p.baseline[k], p.anchors[k], v.lastSample, samples[k])
      {
        var value, anchor := RaisePhase(p, i, v, incoming[i], samples[i], exporting);
        peak, anchors := peak + [value], anchors + [anchor];
      }
      r := Peaks(incoming, p.baseline, peak, anchors);
      assert r.peak == RaisedPeaks(p, v, incoming, samples, exporting).peak;
      assert r.anchors == RaisedPeaks(p, v, incoming, samples, exporting).anchors;
    }

    static method FindSaturation(v: DemandValues) returns (found: bool)
      ensures found <==> MagnitudeSaturates(v)
    {
      for i := 0 to PHASES
        invariant forall k :: 0 <= k < i ==> !(v.qualities[k] == VALID && v.current[k] == INT64_MIN)
      {
        if v.qualities[i] == VALID && v.current[i] == INT64_MIN {
          return true;
        }
      }
      return false;
    }

    /** Where the phase loop starts from: energy_ledger.cpp:645-663. */
    method OpenPeaks(sameInstance: bool, profileChanged: bool, v: DemandValues) returns (r: Result<(Peaks, Peaks, nat), Failure>)
      requires sameInstance == SameInstance(Abstract(), v) && profileChanged == ProfileChanged(Abstract(), v)
      requires PeaksNonNegative(state)
      ensures r.Ok? <==> Acceptable(Abstract(), v)
      ensures r.Ok? ==> r.value.0 == Opening(Abstract(), v, state.imports) && r.value.1 == Opening(Abstract(), v, state.exports)
      ensures r.Ok? ==> r.value.2 == if profileChanged then state.epoch + 1 else state.epoch
      ensures r.Ok? ==> NonNegative(r.value.0.peak) && NonNegative(r.value.0.baseline)
      ensures r.Ok? ==> NonNegative(r.value.1.peak) && NonNegative(r.value.1.baseline)
    {
      if profileChanged {
        return Ok((NoPeaks(), NoPeaks(), state.epoch + 1));
      }
      if !sameInstance {
        return Ok((Peaks(state.imports.raw, Zero(), state.imports.peak, state.imports.anchors),
                   Peaks(state.exports.raw, Zero(), state.exports.peak, state.exports.anchors), state.epoch));
      }
      var rolledImport := HasRollback(v.importPeak, state.imports.raw);
      var rolledExport := HasRollback(v.exportPeak, state.exports.raw);
      if rolledImport || rolledExport {
        return Err(PeakRollback);
      }
      return Ok((state.imports, state.exports, state.epoch));
    }

    /** The phase loop, then the row, then memory. */
    method Commit(imports: Peaks, exports: Peaks, epoch: nat, v: DemandValues, sequence: u32, generation: u32, at: int)
      returns (result: DemandValues)
      requires imports == Opening(Abstract(), v, state.imports) && exports == Opening(Abstract(), v, state.exports)
      requires epoch == if ProfileChanged(Abstract(), v) then state.epoch + 1 else state.epoch
      requires NonNegative(imports.peak) && NonNegative(imports.baseline)
      requires NonNegative(exports.peak) && NonNegative(exports.baseline)
      modifies this
      ensures state == old(NextState(Abstract(), v, sequence, generation)) && audit == old(audit)
      ensures result == WithPeaks(v, state.imports, state.exports, state.epoch, v.saturated || MagnitudeSaturates(v))
      ensures latest == Some(result) && row == Some(Persisted(result, state, at))
    {
      hide Persisted, RaisedPeaks, Opening, NonNegative;
      var newImports := RaiseSide(imports, v, v.importPeak, v.importSample, false);
      var newExports := RaiseSide(exports, v, v.exportPeak, v.exportSample, true);
      var saturated := FindSaturation(v);
      result := WithPeaks(v, newImports, newExports, epoch, v.saturated || saturated);
      var next := DemandState(epoch, v.sessionId, sequence, generation, v.profile, v.profileGeneration, v.current,
                              newImports, newExports);
      row := Some(Persisted(result, next, at));
      state, latest := next, Some(result);
    }

    method Ingest(v: DemandValues, sequence: u32, generation: u32, at: int) returns (r: Result<DemandValues, Failure>)
      requires Sound(Abstract()) && PeaksNonNegative(state)
      modifies this
      ensures Sound(Abstract()) && PeaksNonNegative(state)
      ensures
        var expected := Ingested(old(Abstract()), v, sequence, generation, at);
        && (r.Ok? <==> expected.Ok?)
        && (r.Ok? ==> (Abstract(), r.value) == expected.value)
        && (r.Err? ==> r.error == expected.error && Abstract() == old(Abstract()))
    {
      hide Persisted, Decodes, Loaded, NextState, SameContent, Opening, Acceptable, NonNegative, Agrees;
      ghost var before := Abstract();
      StepSound(before, Checkpoint(v, sequence, generation, at));
      if v.profileGeneration == 0 || v.profile.windowSeconds == 0 || v.profile.updateSeconds == 0 {
        return Err(InvalidProfile);
      }
      var negativeImport := HasNegative(v.importPeak);
      var negativeExport := HasNegative(v.exportPeak);
      if negativeImport || negativeExport {
        return Err(NegativePeak);
      }
      var sameSession := latest.Some? && v.sessionId == state.sessionId;
      var sameSemantics := latest.Some? && v.profile == state.profile;
      var sameInstance := sameSession && sameSemantics && v.profileGeneration == state.profileGeneration;
      var profileChanged := latest.Some? &&
        (!sameSemantics || (sameSession && v.profileGeneration != state.profileGeneration));
      if sameInstance && sequence < state.sequence {
        return Err(StaleSequence);
      }
      if sameInstance && sequence == state.sequence {
        if !SameContent(state, latest.value, v, generation) {
          return Err(DifferentContent);
        }
        return Ok(latest.value);
      }
      var opening := OpenPeaks(sameInstance, profileChanged, v);
      if opening.Err? {
        return Err(PeakRollback);
      }
      NextNonNegative(before, v, sequence, generation);
      var result := Commit(opening.value.0, opening.value.1, opening.value.2, v, sequence, generation, at);
      return Ok(result);
    }

    method Reset(q: ResetRequest) returns (r: Result<(nat, bool), Failure>)
      requires Sound(Abstract()) && PeaksNonNegative(state)
      modifies this
      ensures Sound(Abstract()) && PeaksNonNegative(state)
      ensures
        var expected := WasReset(old(Abstract()), q);
        && (r.Ok? <==> expected.Ok?)
        && (r.Ok? ==> (Abstract(), r.value.0, r.value.1) == expected.value)
        && (r.Err? ==> r.error == expected.error && Abstract() == old(Abstract()))
    {
      hide Persisted, Decodes, Loaded;
      StepSound(Abstract(), Call.Reset(q));
      if q.key == "" || q.actor == "" || q.requestId == "" {
        return Err(IncompleteRequest);
      }
      if q.key in audit {
        return Ok((audit[q.key], true));
      }
      if latest.None? {
        return Err(NoCheckpoint);
      }
      if q.expectedEpoch != state.epoch {
        return Err(EpochConflict);
      }
      var next := ResetState(state);
      var result := WithPeaks(latest.value, next.imports, next.exports, next.epoch, latest.value.saturated);
      row := Some(Persisted(result, next, q.at));
      audit := audit[q.key := next.epoch];
      state, latest := next, Some(result);
      return Ok((next.epoch, false));
    }
  }

  /** Opening a database: a row that does not decode is an error. */
  method OpenLedger(row: Option<Row>, audit: map<string, nat>) returns (r: Result<Store, Failure>)
    ensures r.Ok? <==> Reopened(Ledger(EmptyState(), None, row, audit)).Some?
    ensures r.Ok? ==> fresh(r.value) && Some(r.value.Abstract()) == Reopened(Ledger(EmptyState(), None, row, audit))
    ensures r.Err? ==> r.error == CorruptRow
  {
    if row.Some? && Loaded(row.value).None? {
      return Err(CorruptRow);
    }
    var store := new Store.Open(row, audit);
    return Ok(store);
  }

  ghost predicate PeaksNonNegative(s: DemandState) {
    && NonNegative(s.imports.raw) && NonNegative(s.imports.baseline) && NonNegative(s.imports.peak)
    && NonNegative(s.exports.raw) && NonNegative(s.exports.baseline) && NonNegative(s.exports.peak)
  }

  lemma NextNonNegative(l: Ledger, v: DemandValues, sequence: u32, generation: u32)
    requires PeaksNonNegative(l.state) && NonNegative(v.importPeak) && NonNegative(v.exportPeak)
    ensures PeaksNonNegative(NextState(l, v, sequence, generation))
  {
  }

  // ---------------------------------------------------------------- steps

  datatype Call =
    | Checkpoint(interval: DemandValues, sequence: u32, generation: u32, at: int)
    | Reset(request: ResetRequest)
    | Reopen

  datatype Output = Values(values: DemandValues) | Epoch(epoch: nat, replayed: bool) | Refused(failure: Failure) | Opened

  ghost function Step(l: Ledger, c: Call): (Ledger, Output) {
    match c
    case Checkpoint(v, sequence, generation, at) =>
      (match Ingested(l, v, sequence, generation, at) {
        case Ok((l', values)) => (l', Values(values))
        case Err(e) => (l, Refused(e)) })
    case Reset(q) =>
      (match WasReset(l, q) {
        case Ok((l', epoch, replayed)) => (l', Epoch(epoch, replayed))
        case Err(e) => (l, Refused(e)) })
    case Reopen =>
      (match Reopened(l) {
        case Some(l') => (l', Opened)
        case None => (l, Refused(CorruptRow)) })
  }

  ghost predicate Durable(w: Window) {
    exists rate: u32 :: 0 < rate && RateFits(w.samples, rate) && w == SourceWindow(w.samples, rate)
  }

  lemma PersistedDecodes(v: DemandValues, s: DemandState, at: int)
    requires Agrees(v, s)
    ensures Decodes(Persisted(v, s, at), s, v)
    ensures Persisted(v, s, at).updated == at
    ensures Durable(v.window) ==> Rebuilt(Persisted(v, s, at).samples, Persisted(v, s, at).rate) == v.window
  {
    hide SignedBlob, SignedUnblob, Columns, FromColumns, Hex64, ParseHex64, Rebuilt, SampleRate, RateFits, SourceWindow, Flags;
    FlagsDecode(v);
    HexRoundTrip(s.sessionId);
    HexRoundTrip(v.lastSample);
    HexRoundTrip(v.anchor);
    SignedBlobRoundTrip(s.current);
    ColumnsRoundTrip(s.imports);
    ColumnsRoundTrip(s.exports);
    if Durable(v.window) {
      var rate: u32 :| 0 < rate && RateFits(v.window.samples, rate) && v.window == SourceWindow(v.window.samples, rate);
      WindowSurvivesReload(v.window.samples, rate);
    }
  }

  /** Every call, reopening included, keeps the ledger sound. */
  lemma StepSound(l: Ledger, c: Call)
    requires Sound(l)
    ensures Sound(Step(l, c).0)
  {
    hide Persisted, Decodes, AtLeast, SameContent, Loaded, RaisedPeaks;
    match c
    case Checkpoint(v, sequence, generation, at) =>
      var r := Ingested(l, v, sequence, generation, at);
      if r.Ok? && r.value.0 != l {
        PersistedDecodes(r.value.1, r.value.0.state, at);
      }
    case Reset(q) =>
      var r := WasReset(l, q);
      if r.Ok? && r.value.0 != l {
        PersistedDecodes(r.value.0.latest.value, r.value.0.state, q.at);
      }
    case Reopen =>
      ReopenSound(l);
  }

  lemma ReopenSound(l: Ledger)
    requires Sound(l)
    ensures Reopened(l).Some? && Sound(Reopened(l).value) && Reopened(l).value.state == l.state
    ensures Reopened(l).value.audit == l.audit && Reopened(l).value.row == l.row
    ensures l.latest.Some? ==>
              Reopened(l).value.latest.Some? && Reopened(l).value.latest.value
              == Restamped(l.latest.value, Rebuilt(l.row.value.samples, l.row.value.rate), l.row.value.updated)
    ensures l.latest.None? ==> Reopened(l).value.latest.None?
  {
    hide Loaded;
  }

  // ---------------------------------------------------------------- restarts

  ghost predicate SameValues(a: DemandValues, b: DemandValues) {
    a == b.(measuredAt := a.measuredAt)
  }

  ghost predicate SameButClock(l: Ledger, m: Ledger) {
    && l.state == m.state && l.audit == m.audit && (l.latest.Some? <==> m.latest.Some?)
    && (l.latest.Some? ==> SameValues(l.latest.value, m.latest.value))
  }

  ghost predicate DurableLedger(l: Ledger) {
    && Sound(l)
    && (l.latest.Some? ==> Durable(l.latest.value.window)
                           && Rebuilt(l.row.value.samples, l.row.value.rate) == l.latest.value.window)
  }

  ghost predicate SameOutput(a: Output, b: Output) {
    a == b || (a.Values? && b.Values? && SameValues(a.values, b.values))
  }

  ghost predicate DurableCall(c: Call) {
    c.Checkpoint? ==> Durable(c.interval.window)
  }

  lemma ReopenInvisible(l: Ledger)
    requires DurableLedger(l)
    ensures Reopened(l).Some?
    ensures DurableLedger(Reopened(l).value) && SameButClock(Reopened(l).value, l)
  {
    hide Reopened, Decodes, Durable, Agrees;
    ReopenSound(l);
  }

  lemma CheckpointIgnoresClock(l: Ledger, m: Ledger, c: Call)
    requires Sound(l) && Sound(m) && SameButClock(l, m) && c.Checkpoint?
    ensures SameButClock(Step(l, c).0, Step(m, c).0) && SameOutput(Step(l, c).1, Step(m, c).1)
  {
    hide Persisted, RaisedPeaks, AtLeast, NonNegative, Decodes, Agrees;
  }

  lemma ResetIgnoresClock(l: Ledger, m: Ledger, c: Call)
    requires Sound(l) && Sound(m) && SameButClock(l, m) && c.Reset?
    ensures SameButClock(Step(l, c).0, Step(m, c).0) && SameOutput(Step(l, c).1, Step(m, c).1)
  {
    hide Persisted, Decodes, Agrees;
  }

  lemma StepDurable(l: Ledger, c: Call)
    requires DurableLedger(l) && DurableCall(c)
    ensures DurableLedger(Step(l, c).0)
  {
    hide Persisted, Decodes, AtLeast, SameContent, Durable, Loaded, Rebuilt, RaisedPeaks;
    StepSound(l, c);
    match c
    case Checkpoint(v, sequence, generation, at) =>
      var r := Ingested(l, v, sequence, generation, at);
      if r.Ok? && r.value.0 != l {
        PersistedDecodes(r.value.1, r.value.0.state, at);
      }
    case Reset(q) =>
      var r := WasReset(l, q);
      if r.Ok? && r.value.0 != l {
        PersistedDecodes(r.value.0.latest.value, r.value.0.state, q.at);
      }
    case Reopen =>
      ReopenInvisible(l);
  }

  /** The ledger after a run of calls, with each call's output. */
  ghost function Run(calls: seq<Call>): (r: (Ledger, seq<Output>))
    ensures Sound(r.0)
  {
    if calls == [] then (Empty(map[]), [])
    else
      var before := Run(calls[..|calls| - 1]);
      var call := calls[|calls| - 1];
      StepSound(before.0, call);
      var after := Step(before.0, call);
      (after.0, if call.Reopen? then before.1 else before.1 + [after.1])
  }

  lemma RunSnoc(calls: seq<Call>, c: Call)
    ensures Run(calls + [c]).0 == Step(Run(calls).0, c).0
    ensures Run(calls + [c]).1 == if c.Reopen? then Run(calls).1 else Run(calls).1 + [Step(Run(calls).0, c).1]
  {
    hide Step;
    assert (calls + [c])[..|calls|] == calls;
  }

  lemma {:induction false} RunDurable(calls: seq<Call>)
    requires forall c :: c in calls ==> DurableCall(c)
    ensures DurableLedger(Run(calls).0)
    decreases |calls|
  {
    hide Step, DurableCall;
    if calls != [] {
      hide DurableLedger;
      RunDurable(calls[..|calls| - 1]);
      StepDurable(Run(calls[..|calls| - 1]).0, calls[|calls| - 1]);
    }
  }

  ghost function WithoutReopens(calls: seq<Call>): (r: seq<Call>)
    ensures forall c :: c in r ==> c in calls && !c.Reopen?
  {
    if calls == [] then []
    else WithoutReopens(calls[..|calls| - 1]) + if calls[|calls| - 1].Reopen? then [] else [calls[|calls| - 1]]
  }

  ghost predicate SameOutputs(a: seq<Output>, b: seq<Output>) {
    |a| == |b| && forall i :: 0 <= i < |a| ==> SameOutput(a[i], b[i])
  }

  /** Restarts anywhere in a run are invisible to every later interval, replay and reset. */
  lemma {:induction false} RestartsInvisible(calls: seq<Call>)
    requires forall c :: c in calls ==> DurableCall(c)
    ensures SameButClock(Run(calls).0, Run(WithoutReopens(calls)).0)
    ensures SameOutputs(Run(calls).1, Run(WithoutReopens(calls)).1)
    decreases |calls|
  {
    if calls == [] {
      SameEmpty();
    } else {
      var init, c := calls[..|calls| - 1], calls[|calls| - 1];
      var rest := WithoutReopens(init);
      assert WithoutReopens(calls) == if c.Reopen? then rest else rest + [c];
      assert calls == init + [c];
      hide *;
      RestartsInvisible(init);
      assert DurableCall(c);
      RunSnoc(init, c);
      if c.Reopen? {
        RunDurable(init);
        ReopenStep(Run(init).0, Run(rest).0);
      } else {
        RunSnoc(rest, c);
        if c.Checkpoint? {
          CheckpointIgnoresClock(Run(init).0, Run(rest).0, c);
        } else {
          ResetIgnoresClock(Run(init).0, Run(rest).0, c);
        }
        OutputsSnoc(Run(init).1, Run(rest).1, Step(Run(init).0, c).1, Step(Run(rest).0, c).1);
      }
    }
  }

  lemma OutputsSnoc(a: seq<Output>, b: seq<Output>, x: Output, y: Output)
    requires SameOutputs(a, b) && SameOutput(x, y)
    ensures SameOutputs(a + [x], b + [y])
  {
  }

  lemma SameEmpty()
    ensures SameButClock(Empty(map[]), Empty(map[]))
  {
  }

  lemma ReopenStep(l: Ledger, m: Ledger)
    requires DurableLedger(l) && SameButClock(l, m)
    ensures SameButClock(Step(l, Reopen).0, m)
  {
    hide Reopened, Durable, Decodes, Agrees;
    ReopenInvisible(l);
  }

  // ---------------------------------------------------------------- what a peak is

  /** Did this call commit a new interval (neither a refusal nor a replay)? */
  ghost predicate Commits(l: Ledger, c: Call) {
    && c.Checkpoint? && Step(l, c).1.Values?
    && !(SameInstance(l, c.interval) && c.sequence == l.state.sequence)
  }

  ghost predicate Resets(l: Ledger, c: Call) {
    Step(l, c).1 == Epoch(l.state.epoch + 1, false)
  }

  ghost function Side(s: DemandState, exporting: bool): Peaks {
    if exporting then s.exports else s.imports
  }

  function SessionPeak(v: DemandValues, exporting: bool): Four {
    if exporting then v.exportPeak else v.importPeak
  }

  /** What one committed interval brings to a peak: its valid demand of that sign, or a session peak above the baseline. */
  ghost function Contribution(l: Ledger, v: DemandValues, exporting: bool, i: nat): i64
    requires i < PHASES
  {
    Larger(Offered(v.current[i], v.qualities[i], exporting),
           Above(SessionPeak(v, exporting)[i], Opening(l, v, Side(l.state, exporting)).baseline[i]))
  }

  /** The maximum contribution since the demand epoch began. */
  ghost function EpochMaximum(calls: seq<Call>, exporting: bool, i: nat): i64
    requires i < PHASES
  {
    if calls == [] then 0
    else
      var init, c := calls[..|calls| - 1], calls[|calls| - 1];
      var l := Run(init).0;
      if Resets(l, c) then 0
      else if Commits(l, c) then
        Larger(if ProfileChanged(l, c.interval) then 0 else EpochMaximum(init, exporting, i),
               Contribution(l, c.interval, exporting, i))
      else EpochMaximum(init, exporting, i)
  }

  lemma CommitRaises(l: Ledger, c: Call, exporting: bool, i: nat)
    requires Sound(l) && Commits(l, c) && i < PHASES
    ensures Side(Step(l, c).0.state, exporting).peak[i] ==
            Larger(if ProfileChanged(l, c.interval) then 0 else Side(l.state, exporting).peak[i],
                   Contribution(l, c.interval, exporting, i))
    ensures Step(l, c).0.state == NextState(l, c.interval, c.sequence, c.generation)
    ensures !Resets(l, c)
  {
    hide Persisted, Decodes, SameContent, AtLeast, Agrees;
  }

  lemma PeaksOtherwiseKept(l: Ledger, c: Call)
    requires Sound(l)
    ensures Resets(l, c) ==> Step(l, c).0.state == ResetState(l.state)
    ensures !Resets(l, c) && !Commits(l, c) ==> Step(l, c).0.state == l.state
  {
    hide Persisted, SameContent, RaisedPeaks, NonNegative, Decodes, Loaded, Agrees;
    if c.Reopen? {
      ReopenSound(l);
    }
  }

  /** Each authoritative peak is exactly the maximum contribution of its epoch. */
  lemma {:induction false} PeakIsEpochMaximum(calls: seq<Call>, exporting: bool, i: nat)
    requires i < PHASES
    ensures Side(Run(calls).0.state, exporting).peak[i] == EpochMaximum(calls, exporting, i)
    decreases |calls|
  {
    hide Step, Sound, Commits, Resets, Contribution, Larger, NextState;
    if calls != [] {
      var init, c := calls[..|calls| - 1], calls[|calls| - 1];
      PeakIsEpochMaximum(init, exporting, i);
      var l := Run(init).0;
      PeaksOtherwiseKept(l, c);
      if !Resets(l, c) && Commits(l, c) {
        CommitRaises(l, c, exporting, i);
      }
    }
  }

  /** Within an epoch a peak never decreases. */
  lemma PeakNeverDecreases(l: Ledger, c: Call, exporting: bool, i: nat)
    requires Sound(l) && i < PHASES && Step(l, c).0.state.epoch == l.state.epoch
    ensures Side(Step(l, c).0.state, exporting).peak[i] >= Side(l.state, exporting).peak[i]
  {
    hide Step, Sound, Commits, Resets, Contribution, RaisedPeaks;
    PeaksOtherwiseKept(l, c);
    if Commits(l, c) {
      CommitRaises(l, c, exporting, i);
    }
  }

  /** The epoch counts exactly the accepted resets and the profile changes. */
  ghost function EpochEvents(calls: seq<Call>): nat {
    if calls == [] then 0
    else
      var init, c := calls[..|calls| - 1], calls[|calls| - 1];
      var l := Run(init).0;
      EpochEvents(init) +
      if Resets(l, c) || (Commits(l, c) && ProfileChanged(l, c.interval)) then 1 else 0
  }

  lemma {:induction false} EpochCountsEvents(calls: seq<Call>)
    ensures Run(calls).0.state.epoch == EpochEvents(calls)
    decreases |calls|
  {
    hide Step, Sound, Commits, Resets, RaisedPeaks;
    if calls != [] {
      var init, c := calls[..|calls| - 1], calls[|calls| - 1];
      EpochCountsEvents(init);
      var l := Run(init).0;
      PeaksOtherwiseKept(l, c);
      if Commits(l, c) {
        CommitRaises(l, c, false, 0);
      }
    }
  }

  // ---------------------------------------------------------------- no reinstatement after a reset

  /** The call comes from the session and profile the state is in. */
  ghost predicate FromInstance(s: DemandState, c: Call) {
    c.Checkpoint? ==> c.interval.sessionId == s.sessionId && c.interval.profile == s.profile
                      && c.interval.profileGeneration == s.profileGeneration
  }

  ghost predicate SameIdentity(s: DemandState, t: DemandState) {
    s.sessionId == t.sessionId && s.profile == t.profile && s.profileGeneration == t.profileGeneration
  }

  /** This interval alone justifies the peak: its own valid demand, or a session peak above `floor`. */
  ghost predicate Justifies(c: Call, exporting: bool, i: nat, peak: i64, floor: i64)
    requires i < PHASES
  {
    && c.Checkpoint?
    && (peak == Offered(c.interval.current[i], c.interval.qualities[i], exporting)
        || peak == SessionPeak(c.interval, exporting)[i] > floor)
  }

  /**
   * While session and profile stay the same, through further resets and restarts, a positive peak after a reset comes
   * from an interval after it: its own demand, or a session peak strictly above the one reached before the reset.
   */
  lemma {:induction false} NoReinstatement(calls: seq<Call>, q: ResetRequest, later: seq<Call>, exporting: bool, i: nat)
    requires i < PHASES && Resets(Run(calls).0, Reset(q))
    requires forall d :: d in later ==> FromInstance(Run(calls).0.state, d)
    ensures
      var s := Run(calls + [Reset(q)] + later).0.state;
      var floor := Side(Run(calls).0.state, exporting).raw[i];
      && SameIdentity(s, Run(calls).0.state) && Side(s, exporting).baseline[i] >= floor && Side(s, exporting).raw[i] >= floor
      && (Side(s, exporting).peak[i] > 0 ==>
            exists d :: d in later && Justifies(d, exporting, i, Side(s, exporting).peak[i], floor))
      && Run(calls + [Reset(q)] + later).0.latest.Some?
    decreases |later|
  {
    hide Run, Sound, Resets, Commits, RaisedPeaks;
    if later == [] {
      assert calls + [Reset(q)] + later == calls + [Reset(q)];
      RunSnoc(calls, Reset(q));
      PeaksOtherwiseKept(Run(calls).0, Reset(q));
      ResetLeavesAnswer(Run(calls).0, Reset(q));
    } else {
      var init, d := later[..|later| - 1], later[|later| - 1];
      var before := calls + [Reset(q)] + init;
      assert calls + [Reset(q)] + later == before + [d];
      assert d in later;
      NoReinstatement(calls, q, init, exporting, i);
      RunSnoc(before, d);
      InstanceStep(Run(before).0, d, exporting, i);
    }
  }

  lemma ResetLeavesAnswer(l: Ledger, c: Call)
    requires Sound(l) && Resets(l, c)
    ensures Step(l, c).0.latest.Some?
  {
    hide Persisted, Decodes, RaisedPeaks;
    if c.Reopen? {
      ReopenSound(l);
    }
  }

  lemma RawRises(l: Ledger, c: Call, exporting: bool, i: nat)
    requires Sound(l) && l.latest.Some? && FromInstance(l.state, c) && Commits(l, c) && i < PHASES
    ensures SessionPeak(c.interval, exporting)[i] >= Side(l.state, exporting).raw[i]
  {
    hide Persisted, Decodes, SameContent, NonNegative, Loaded, Agrees, RaisedPeaks;
  }

  lemma InstanceStep(l: Ledger, c: Call, exporting: bool, i: nat)
    requires Sound(l) && l.latest.Some? && FromInstance(l.state, c) && i < PHASES
    ensures Step(l, c).0.latest.Some? && SameIdentity(Step(l, c).0.state, l.state)
    ensures
      var p, p' := Side(l.state, exporting), Side(Step(l, c).0.state, exporting);
      && (p'.baseline[i] == p.baseline[i] || p'.baseline[i] == p.raw[i]) && p'.raw[i] >= p.raw[i]
      && (p'.peak[i] > 0 ==> p'.peak[i] == p.peak[i] || Justifies(c, exporting, i, p'.peak[i], p.baseline[i]))
  {
    hide Persisted, Decodes, SameContent, AtLeast, NonNegative, Loaded, Agrees;
    if c.Reopen? {
      ReopenSound(l);
    } else if Commits(l, c) {
      CommitRaises(l, c, exporting, i);
      RawRises(l, c, exporting, i);
    }
  }
}
