/** Lifetime energy counters: volatile session checkpoints become durable, resettable totals. */
module EnergyLedger {
  import opened Foundation
  import opened LedgerCodec

  const COUNTERS: nat := 28

  type Counters = c: seq<i64> | |c| == COUNTERS witness seq(28, _ => 0)
  type Qualities = q: seq<byte> | |q| == COUNTERS witness seq(28, _ => 0)

  /** A checkpoint or a ledger answer; all its readings share one calculation window and one timestamp. */
  datatype EnergyValues = EnergyValues(
    counters: Counters, qualities: Qualities, window: Window, sessionId: u64, lastSample: u64,
    acceptedSamples: u64, skippedSamples: u64, acceptedBlocks: u32, skippedBlocks: u32,
    resetEpoch: nat, saturated: bool, incomplete: bool, discontinuity: bool, measuredAt: int)

  datatype EnergyState = EnergyState(
    epoch: nat, sessionId: u64, sequence: u32, generation: u32, sessionCounters: Counters, lifetime: Counters)

  /** The single row of energy_state, column by column. */
  datatype Row = Row(
    epoch: nat, sessionId: string, sequence: u32, generation: u32, sessionCounters: seq<byte>, lifetime: seq<byte>,
    qualities: seq<byte>, lastSample: string, acceptedSamples: string, skippedSamples: string,
    acceptedBlocks: u32, skippedBlocks: u32, flags: nat, samples: u32, rate: u32, updated: int)

  /** In-memory state, the latest answer, and what SQLite holds: the state row and the reset audit. */
  datatype Ledger = Ledger(state: EnergyState, latest: Option<EnergyValues>, row: Option<Row>, audit: map<string, nat>)

  datatype ResetRequest = ResetRequest(expectedEpoch: nat, key: string, actor: string, requestId: string, at: int)

  datatype Failure =
    NegativeCounter | StaleSequence | DifferentContent | CounterRollback | IncompleteRequest | NoCheckpoint | EpochConflict
    | CorruptRow

  function Zero(): Counters {
    seq(COUNTERS, _ => 0)
  }

  function EmptyState(): EnergyState {
    EnergyState(0, 0, 0, 0, Zero(), Zero())
  }

  function Empty(audit: map<string, nat>): Ledger {
    Ledger(EmptyState(), None, None, audit)
  }

  // ---------------------------------------------------------------- persistence

  function Flags(v: EnergyValues): nat {
    (if v.saturated then 1 else 0) + (if v.incomplete then 2 else 0) + (if v.discontinuity then 4 else 0)
  }

  function Persisted(v: EnergyValues, s: EnergyState, at: int): Row {
    Row(s.epoch, Hex64(s.sessionId), s.sequence, s.generation, SignedBlob(s.sessionCounters), SignedBlob(s.lifetime),
        v.qualities, Hex64(v.lastSample), Hex64(v.acceptedSamples), Hex64(v.skippedSamples),
        v.acceptedBlocks, v.skippedBlocks, Flags(v), v.window.samples, SampleRate(v.window), at)
  }

  function Loaded(row: Row): Option<(EnergyState, EnergyValues)> {
    var session, lastSample := ParseHex64(row.sessionId), ParseHex64(row.lastSample);
    var accepted, skipped := ParseHex64(row.acceptedSamples), ParseHex64(row.skippedSamples);
    var counters, lifetime := SignedUnblob(row.sessionCounters, COUNTERS), SignedUnblob(row.lifetime, COUNTERS);
    if session.Err? || lastSample.Err? || accepted.Err? || skipped.Err? || counters.Err? || lifetime.Err?
       || |row.qualities| != COUNTERS then None
    else
      Some((EnergyState(row.epoch, session.value, row.sequence, row.generation, counters.value, lifetime.value),
            EnergyValues(lifetime.value, row.qualities, Rebuilt(row.samples, row.rate), session.value,
                         lastSample.value, accepted.value, skipped.value, row.acceptedBlocks, row.skippedBlocks,
                         row.epoch, row.flags % 2 == 1, row.flags / 2 % 2 == 1, row.flags / 4 % 2 == 1, row.updated)))
  }

  // ---------------------------------------------------------------- ingest and reset

  function SaturatingAdd(value: i64, delta: i64): i64
    requires 0 <= value && 0 <= delta
  {
    if value > INT64_MAX - delta then INT64_MAX else value + delta
  }

  predicate SameSession(l: Ledger, v: EnergyValues) {
    l.latest.Some? && v.sessionId == l.state.sessionId
  }

  /** The counters a checkpoint is measured against: the session's previous ones, or zero for a new session. */
  function Base(l: Ledger, v: EnergyValues): Counters {
    if SameSession(l, v) then l.state.sessionCounters else Zero()
  }

  ghost predicate NonNegative(c: Counters) {
    forall i :: 0 <= i < COUNTERS ==> c[i] >= 0
  }

  ghost predicate AtLeast(a: Counters, b: Counters) {
    forall i :: 0 <= i < COUNTERS ==> a[i] >= b[i]
  }

  function Advanced(lifetime: Counters, base: Counters, counters: Counters): (r: Counters)
    requires NonNegative(lifetime) && NonNegative(base) && AtLeast(counters, base)
    ensures NonNegative(r)
  {
    seq(COUNTERS, i requires 0 <= i < COUNTERS => SaturatingAdd(lifetime[i], counters[i] - base[i]))
  }

  ghost predicate Overflows(lifetime: Counters, base: Counters, counters: Counters) {
    exists i :: 0 <= i < COUNTERS && lifetime[i] + (counters[i] - base[i]) > INT64_MAX
  }

  /** Everything a retried checkpoint must repeat; `saturated` may only have been raised since. */
  predicate SameContent(s: EnergyState, latest: EnergyValues, v: EnergyValues, generation: u32) {
    && v.counters == s.sessionCounters && generation == s.generation
    && v.lastSample == latest.lastSample && v.acceptedSamples == latest.acceptedSamples
    && v.skippedSamples == latest.skippedSamples && v.acceptedBlocks == latest.acceptedBlocks
    && v.skippedBlocks == latest.skippedBlocks && v.incomplete == latest.incomplete
    && v.discontinuity == latest.discontinuity && (v.saturated ==> latest.saturated)
    && v.qualities == latest.qualities && v.window == latest.window
  }

  /** The row decodes to this state and answer, apart from the timestamp and (unless durable) the window. */
  ghost predicate Decodes(row: Row, s: EnergyState, v: EnergyValues) {
    Loaded(row) == Some((s, Restamped(v, Rebuilt(row.samples, row.rate), row.updated)))
  }

  function Restamped(v: EnergyValues, window: Window, at: int): EnergyValues {
    EnergyValues(v.counters, v.qualities, window, v.sessionId, v.lastSample, v.acceptedSamples, v.skippedSamples,
                 v.acceptedBlocks, v.skippedBlocks, v.resetEpoch, v.saturated, v.incomplete, v.discontinuity, at)
  }

  ghost predicate Sound(l: Ledger) {
    && NonNegative(l.state.lifetime) && NonNegative(l.state.sessionCounters)
    && (l.latest.Some? <==> l.row.Some?)
    && (l.latest.Some? ==>
          && l.latest.value.counters == l.state.lifetime && l.latest.value.sessionId == l.state.sessionId
          && l.latest.value.resetEpoch == l.state.epoch
          && Decodes(l.row.value, l.state, l.latest.value))
    && (l.latest.None? ==> l.state == EmptyState())
  }

  /** A checkpoint answered with the ledger's totals. */
  function WithTotals(v: EnergyValues, totals: Counters, epoch: nat, saturated: bool): EnergyValues {
    EnergyValues(totals, v.qualities, v.window, v.sessionId, v.lastSample, v.acceptedSamples, v.skippedSamples,
                 v.acceptedBlocks, v.skippedBlocks, epoch, saturated, v.incomplete, v.discontinuity, v.measuredAt)
  }

  ghost function Committed(l: Ledger, v: EnergyValues, s: EnergyState, at: int): Ledger {
    Ledger(s, Some(v), Some(Persisted(v, s, at)), l.audit)
  }

  ghost function Ingested(l: Ledger, v: EnergyValues, sequence: u32, generation: u32, at: int): (r: Result<(Ledger, EnergyValues), Failure>)
    requires Sound(l)
  {
    if !NonNegative(v.counters) then Err(NegativeCounter)
    else if SameSession(l, v) && sequence < l.state.sequence then Err(StaleSequence)
    else if SameSession(l, v) && sequence == l.state.sequence then
      if SameContent(l.state, l.latest.value, v, generation) then Ok((l, l.latest.value)) else Err(DifferentContent)
    else if !AtLeast(v.counters, Base(l, v)) then Err(CounterRollback)
    else
      var lifetime := Advanced(l.state.lifetime, Base(l, v), v.counters);
      var result := WithTotals(v, lifetime, l.state.epoch,
                               v.saturated || Overflows(l.state.lifetime, Base(l, v), v.counters));
      var next := EnergyState(l.state.epoch, v.sessionId, sequence, generation, v.counters, lifetime);
      Ok((Committed(l, result, next, at), result))
  }

  function ResetState(s: EnergyState): EnergyState {
    EnergyState(s.epoch + 1, s.sessionId, s.sequence, s.generation, s.sessionCounters, Zero())
  }

  ghost function WasReset(l: Ledger, q: ResetRequest): (r: Result<(Ledger, nat, bool), Failure>)
    requires Sound(l)
  {
    if q.key == "" || q.actor == "" || q.requestId == "" then Err(IncompleteRequest)
    else if q.key in l.audit then Ok((l, l.audit[q.key], true))
    else if l.latest.None? then Err(NoCheckpoint)
    else if q.expectedEpoch != l.state.epoch then Err(EpochConflict)
    else
      var next := ResetState(l.state);
      var result := WithTotals(l.latest.value, Zero(), next.epoch, l.latest.value.saturated);
      Ok((Ledger(next, Some(result), Some(Persisted(result, next, q.at)), l.audit[q.key := next.epoch]), next.epoch, false))
  }

  /** The constructor over an existing database: decodes the row, or starts empty without one. */
  ghost function Reopened(l: Ledger): Option<Ledger> {
    if l.row.None? then Some(Empty(l.audit))
    else
      var loaded := Loaded(l.row.value);
      if loaded.None? then None
      else Some(Ledger(loaded.value.0, Some(loaded.value.1), l.row, l.audit))
  }

  class Store {
    var state: EnergyState
    var latest: Option<EnergyValues>
    var row: Option<Row>
    var audit: map<string, nat>

    ghost function Abstract(): Ledger
      reads this
    {
      Ledger(state, latest, row, audit)
    }

    constructor Open(row: Option<Row>, audit: map<string, nat>)
      requires row.Some? ==> Loaded(row.value).Some?
      ensures Reopened(Ledger(EmptyState(), None, row, audit)) == Some(Abstract())
    {
      this.row, this.audit := row, audit;
      if row.Some? {
        var (s, v) := Loaded(row.value).value;
        state, latest := s, Some(v);
      } else {
        state, latest := EmptyState(), None;
      }
    }

    static method FindNegative(c: Counters) returns (found: bool)
      ensures found <==> !NonNegative(c)
    {
      for i := 0 to COUNTERS
        invariant forall k :: 0 <= k < i ==> c[k] >= 0
      {
        if c[i] < 0 {
          return true;
        }
      }
      return false;
    }

    /** The counter loop: saturating sums, or the first rolled-back counter's refusal. */
    static method Advance(lifetime: Counters, base: Counters, counters: Counters)
      returns (r: Result<Counters, Failure>, saturated: bool)
      requires NonNegative(lifetime) && NonNegative(base)
      ensures r.Ok? <==> AtLeast(counters, base)
      ensures r.Err? ==> r.error == CounterRollback
      ensures r.Ok? ==> r.value == Advanced(lifetime, base, counters) && (saturated <==> Overflows(lifetime, base, counters))
    {
      var next: seq<i64> := [];
      saturated := false;
      for i := 0 to COUNTERS
        invariant |next| == i
        invariant forall k :: 0 <= k < i ==> counters[k] >= base[k] && next[k] == SaturatingAdd(lifetime[k], counters[k] - base[k])
        invariant saturated <==> exists k :: 0 <= k < i && lifetime[k] + (counters[k] - base[k]) > INT64_MAX
      {
        if counters[i] < base[i] {
          return Err(CounterRollback), saturated;
        }
        var delta: i64 := counters[i] - base[i];
        if lifetime[i] > INT64_MAX - delta {
          saturated := true;
          next := next + [INT64_MAX];
        } else {
          next := next + [lifetime[i] + delta];
        }
      }
      assert next == Advanced(lifetime, base, counters);
      return Ok(next), saturated;
    }

    method Ingest(session: EnergyValues, sequence: u32, generation: u32, at: int) returns (r: Result<EnergyValues, Failure>)
      requires Sound(Abstract())
      modifies this
      ensures Sound(Abstract())
      ensures
        var expected := Ingested(old(Abstract()), session, sequence, generation, at);
        && (r.Ok? <==> expected.Ok?)
        && (r.Ok? ==> (Abstract(), r.value) == expected.value)
        && (r.Err? ==> r.error == expected.error && Abstract() == old(Abstract()))
    {
      hide Persisted, Decodes, Loaded, Advanced;
      var negative := FindNegative(session.counters);
      if negative {
        return Err(NegativeCounter);
      }
      ghost var before := Abstract();
      StepSound(before, Checkpoint(session, sequence, generation, at));
      var base := Zero();
      if latest.Some? && session.sessionId == state.sessionId {
        if sequence < state.sequence {
          return Err(StaleSequence);
        }
        if sequence == state.sequence {
          if !SameContent(state, latest.value, session, generation) {
            return Err(DifferentContent);
          }
          return Ok(latest.value);
        }
        base := state.sessionCounters;
      }
      assert base == Base(before, session);
      var advanced, saturated := Advance(state.lifetime, base, session.counters);
      if advanced.Err? {
        return Err(CounterRollback);
      }
      var result := WithTotals(session, advanced.value, state.epoch, session.saturated || saturated);
      var next := EnergyState(state.epoch, session.sessionId, sequence, generation, session.counters, advanced.value);
      row := Some(Persisted(result, next, at));
      state, latest := next, Some(result);
      return Ok(result);
    }

    method Reset(q: ResetRequest) returns (r: Result<(nat, bool), Failure>)
      requires Sound(Abstract())
      modifies this
      ensures Sound(Abstract())
      ensures
        var expected := WasReset(old(Abstract()), q);
        && (r.Ok? <==> expected.Ok?)
        && (r.Ok? ==> (Abstract(), r.value.0, r.value.1) == expected.value)
        && (r.Err? ==> r.error == expected.error && Abstract() == old(Abstract()))
    {
      hide Persisted, Decodes, Loaded;
      StepSound(Abstract(), Call.Reset(q));
      if q.key == "" || q.actor == "" || q.requestId == "" {
        return Err(IncompleteRequest);
      }
      if q.key in audit {
        return Ok((audit[q.key], true));
      }
      if latest.None? {
        return Err(NoCheckpoint);
      }
      if q.expectedEpoch != state.epoch {
        return Err(EpochConflict);
      }
      var next := ResetState(state);
      var result := WithTotals(latest.value, Zero(), next.epoch, latest.value.saturated);
      row := Some(Persisted(result, next, q.at));
      audit := audit[q.key := next.epoch];
      state, latest := next, Some(result);
      return Ok((next.epoch, false));
    }
  }

  /** Opening a database: a row that does not decode is an error. */
  method OpenLedger(row: Option<Row>, audit: map<string, nat>) returns (r: Result<Store, Failure>)
    ensures r.Ok? <==> Reopened(Ledger(EmptyState(), None, row, audit)).Some?
    ensures r.Ok? ==> fresh(r.value) && Some(r.value.Abstract()) == Reopened(Ledger(EmptyState(), None, row, audit))
    ensures r.Err? ==> r.error == CorruptRow
  {
    if row.Some? && Loaded(row.value).None? {
      return Err(CorruptRow);
    }
    var store := new Store.Open(row, audit);
    return Ok(store);
  }

  // ---------------------------------------------------------------- runs

  datatype Call =
    | Checkpoint(session: EnergyValues, sequence: u32, generation: u32, at: int)
    | Reset(request: ResetRequest)
    | Reopen

  datatype Output = Values(values: EnergyValues) | Epoch(epoch: nat, replayed: bool) | Refused(failure: Failure) | Opened

  ghost function Step(l: Ledger, c: Call): (Ledger, Output)
    requires Sound(l)
  {
    match c
    case Checkpoint(v, sequence, generation, at) =>
      (match Ingested(l, v, sequence, generation, at) {
        case Ok((l', values)) => (l', Values(values))
        case Err(e) => (l, Refused(e)) })
    case Reset(q) =>
      (match WasReset(l, q) {
        case Ok((l', epoch, replayed)) => (l', Epoch(epoch, replayed))
        case Err(e) => (l, Refused(e)) })
    case Reopen =>
      (match Reopened(l) {
        case Some(l') => (l', Opened)
        case None => (l, Refused(CorruptRow)) })
  }

  /** Everything but the readings' timestamp, which a reload replaces by the row's commit time. */
  ghost predicate SameValues(a: EnergyValues, b: EnergyValues) {
    a == b.(measuredAt := a.measuredAt)
  }

  ghost predicate SameButClock(l: Ledger, m: Ledger) {
    && l.state == m.state && l.audit == m.audit && (l.latest.Some? <==> m.latest.Some?)
    && (l.latest.Some? ==> SameValues(l.latest.value, m.latest.value))
  }

  /** The row's sample count and rate determine this window again. */
  ghost predicate Durable(w: Window) {
    exists rate: u32 :: 0 < rate && RateFits(w.samples, rate) && w == SourceWindow(w.samples, rate)
  }

  ghost predicate DurableLedger(l: Ledger) {
    && Sound(l)
    && (l.latest.Some? ==> Durable(l.latest.value.window)
                           && Rebuilt(l.row.value.samples, l.row.value.rate) == l.latest.value.window)
  }

  /** What a commit writes, a reload reads back. */
  lemma PersistedDecodes(v: EnergyValues, s: EnergyState, at: int)
    requires v.counters == s.lifetime && v.sessionId == s.sessionId && v.resetEpoch == s.epoch
    ensures Decodes(Persisted(v, s, at), s, v)
    ensures Persisted(v, s, at).updated == at
    ensures Durable(v.window) ==> Rebuilt(Persisted(v, s, at).samples, Persisted(v, s, at).rate) == v.window
  {
    hide SignedBlob, SignedUnblob, Hex64, ParseHex64, Rebuilt, SampleRate, RateFits, SourceWindow;
    HexRoundTrip(s.sessionId);
    HexRoundTrip(v.lastSample);
    HexRoundTrip(v.acceptedSamples);
    HexRoundTrip(v.skippedSamples);
    SignedBlobRoundTrip(s.sessionCounters);
    SignedBlobRoundTrip(s.lifetime);
    if Durable(v.window) {
      var rate: u32 :| 0 < rate && RateFits(v.window.samples, rate) && v.window == SourceWindow(v.window.samples, rate);
      WindowSurvivesReload(v.window.samples, rate);
    }
  }

  /** Every call, reopening included, keeps the ledger sound. */
  lemma StepSound(l: Ledger, c: Call)
    requires Sound(l)
    ensures Sound(Step(l, c).0)
  {
    hide Persisted, Decodes, AtLeast, Overflows, SameContent, Loaded;
    match c
    case Checkpoint(v, sequence, generation, at) =>
      var r := Ingested(l, v, sequence, generation, at);
      if r.Ok? && r.value.0 != l {
        PersistedDecodes(r.value.1, r.value.0.state, at);
      }
    case Reset(q) =>
      var r := WasReset(l, q);
      if r.Ok? && r.value.0 != l {
        PersistedDecodes(r.value.0.latest.value, r.value.0.state, q.at);
      }
    case Reopen =>
      ReopenSound(l);
  }

  lemma ReopenSound(l: Ledger)
    requires Sound(l)
    ensures Reopened(l).Some? && Sound(Reopened(l).value) && Reopened(l).value.state == l.state
    ensures Reopened(l).value.audit == l.audit && Reopened(l).value.row == l.row
    ensures l.latest.Some? ==>
              Reopened(l).value.latest.Some? && Reopened(l).value.latest.value
              == Restamped(l.latest.value, Rebuilt(l.row.value.samples, l.row.value.rate), l.row.value.updated)
    ensures l.latest.None? ==> Reopened(l).value.latest.None?
  {
    hide Loaded;
  }

  /** Closing and reopening the ledger changes nothing but the timestamp of the latest answer. */
  lemma ReopenInvisible(l: Ledger)
    requires DurableLedger(l)
    ensures Reopened(l).Some?
    ensures DurableLedger(Reopened(l).value) && SameButClock(Reopened(l).value, l)
  {
    hide Reopened, Decodes, Durable;
    ReopenSound(l);
  }

  ghost predicate SameOutput(a: Output, b: Output) {
    a == b || (a.Values? && b.Values? && SameValues(a.values, b.values))
  }

  ghost predicate DurableCall(c: Call) {
    c.Checkpoint? ==> Durable(c.session.window)
  }

  lemma CheckpointIgnoresClock(l: Ledger, m: Ledger, c: Call)
    requires Sound(l) && Sound(m) && SameButClock(l, m) && c.Checkpoint?
    ensures SameButClock(Step(l, c).0, Step(m, c).0) && SameOutput(Step(l, c).1, Step(m, c).1)
  {
    hide Persisted, Advanced, AtLeast, Overflows, NonNegative, Decodes;
  }

  lemma ResetIgnoresClock(l: Ledger, m: Ledger, c: Call)
    requires Sound(l) && Sound(m) && SameButClock(l, m) && c.Reset?
    ensures SameButClock(Step(l, c).0, Step(m, c).0) && SameOutput(Step(l, c).1, Step(m, c).1)
  {
    hide Persisted, Decodes, NonNegative;
  }

  lemma StepDurable(l: Ledger, c: Call)
    requires DurableLedger(l) && DurableCall(c)
    ensures DurableLedger(Step(l, c).0)
  {
    hide Persisted, Decodes, AtLeast, Overflows, SameContent, Durable, Loaded, Rebuilt;
    StepSound(l, c);
    match c
    case Checkpoint(v, sequence, generation, at) =>
      var r := Ingested(l, v, sequence, generation, at);
      if r.Ok? && r.value.0 != l {
        PersistedDecodes(r.value.1, r.value.0.state, at);
      }
    case Reset(q) =>
      var r := WasReset(l, q);
      if r.Ok? && r.value.0 != l {
        PersistedDecodes(r.value.0.latest.value, r.value.0.state, q.at);
      }
    case Reopen =>
      ReopenInvisible(l);
  }

  /** The ledger after a run of calls, with each call's output. */
  ghost function Run(calls: seq<Call>): (r: (Ledger, seq<Output>))
    ensures Sound(r.0)
  {
    if calls == [] then (Empty(map[]), [])
    else
      var before := Run(calls[..|calls| - 1]);
      var call := calls[|calls| - 1];
      StepSound(before.0, call);
      var after := Step(before.0, call);
      (after.0, if call.Reopen? then before.1 else before.1 + [after.1])
  }

  lemma {:induction false} RunDurable(calls: seq<Call>)
    requires forall c :: c in calls ==> DurableCall(c)
    ensures DurableLedger(Run(calls).0)
    decreases |calls|
  {
    hide Step, DurableCall;
    if calls != [] {
      hide DurableLedger;
      RunDurable(calls[..|calls| - 1]);
      StepDurable(Run(calls[..|calls| - 1]).0, calls[|calls| - 1]);
    }
  }

  ghost function WithoutReopens(calls: seq<Call>): (r: seq<Call>)
    ensures forall c :: c in r ==> c in calls && !c.Reopen?
  {
    if calls == [] then []
    else WithoutReopens(calls[..|calls| - 1]) + if calls[|calls| - 1].Reopen? then [] else [calls[|calls| - 1]]
  }

  ghost predicate SameOutputs(a: seq<Output>, b: seq<Output>) {
    |a| == |b| && forall i :: 0 <= i < |a| ==> SameOutput(a[i], b[i])
  }

  lemma RunSnoc(calls: seq<Call>, c: Call)
    ensures Run(calls + [c]).0 == Step(Run(calls).0, c).0
    ensures Run(calls + [c]).1 == if c.Reopen? then Run(calls).1 else Run(calls).1 + [Step(Run(calls).0, c).1]
  {
    hide Step;
    assert (calls + [c])[..|calls|] == calls;
  }

  /** Restarts anywhere in a run are invisible to every later checkpoint, replay and reset. */
  lemma {:induction false} RestartsInvisible(calls: seq<Call>)
    requires forall c :: c in calls ==> DurableCall(c)
    ensures SameButClock(Run(calls).0, Run(WithoutReopens(calls)).0)
    ensures SameOutputs(Run(calls).1, Run(WithoutReopens(calls)).1)
    decreases |calls|
  {
    if calls == [] {
      SameEmpty();
    } else {
      var init, c := calls[..|calls| - 1], calls[|calls| - 1];
      var rest := WithoutReopens(init);
      assert WithoutReopens(calls) == if c.Reopen? then rest else rest + [c];
      assert calls == init + [c];
      hide *;
      RestartsInvisible(init);
      assert DurableCall(c);
      RunSnoc(init, c);
      if c.Reopen? {
        RunDurable(init);
        ReopenStep(Run(init).0, Run(rest).0);
      } else {
        RunSnoc(rest, c);
        if c.Checkpoint? {
          CheckpointIgnoresClock(Run(init).0, Run(rest).0, c);
        } else {
          ResetIgnoresClock(Run(init).0, Run(rest).0, c);
        }
        OutputsSnoc(Run(init).1, Run(rest).1, Step(Run(init).0, c).1, Step(Run(rest).0, c).1);
      }
    }
  }

  lemma OutputsSnoc(a: seq<Output>, b: seq<Output>, x: Output, y: Output)
    requires SameOutputs(a, b) && SameOutput(x, y)
    ensures SameOutputs(a + [x], b + [y])
  {
  }

  lemma SameEmpty()
    ensures SameButClock(Empty(map[]), Empty(map[]))
  {
  }

  lemma ReopenStep(l: Ledger, m: Ledger)
    requires DurableLedger(l) && SameButClock(l, m)
    ensures SameButClock(Step(l, Reopen).0, m)
  {
    hide Reopened, Durable, Decodes;
    ReopenInvisible(l);
  }

  // ---------------------------------------------------------------- conservation

  /** Did this call commit a new checkpoint (neither a refusal nor a replay)? */
  ghost predicate Accrues(l: Ledger, c: Call)
    requires Sound(l)
  {
    && c.Checkpoint? && Step(l, c).1.Values?
    && !(SameSession(l, c.session) && c.sequence == l.state.sequence)
  }

  ghost predicate Resets(l: Ledger, c: Call)
    requires Sound(l)
  {
    Step(l, c).1 == Epoch(l.state.epoch + 1, false)
  }

  /** Exact, unsaturated energy accepted for counter i since the last reset. */
  ghost function Accrued(calls: seq<Call>, i: nat): nat
    requires i < COUNTERS
  {
    if calls == [] then 0
    else
      var init, c := calls[..|calls| - 1], calls[|calls| - 1];
      var l := Run(init).0;
      if Resets(l, c) then 0
      else if Accrues(l, c) then
        AccrualNonNegative(l, c, i);
        Accrued(init, i) + (c.session.counters[i] - Base(l, c.session)[i])
      else Accrued(init, i)
  }

  lemma AccrualNonNegative(l: Ledger, c: Call, i: nat)
    requires Sound(l) && Accrues(l, c) && i < COUNTERS
    ensures c.session.counters[i] >= Base(l, c.session)[i] >= 0
    ensures Step(l, c).0.state.lifetime[i] == SaturatingAdd(l.state.lifetime[i], c.session.counters[i] - Base(l, c.session)[i])
  {
    hide Persisted, SameContent;
  }

  lemma LifetimeOtherwiseKept(l: Ledger, c: Call)
    requires Sound(l)
    ensures Resets(l, c) ==> Step(l, c).0.state.lifetime == Zero()
    ensures !Resets(l, c) && !Accrues(l, c) ==> Step(l, c).0.state.lifetime == l.state.lifetime
  {
    hide Persisted, SameContent, Advanced, NonNegative, Overflows, Decodes, Loaded;
    if c.Reopen? {
      ReopenSound(l);
    }
  }

  /** Each lifetime counter is the sum of the increments accepted since the last reset, saturated at INT64_MAX. */
  lemma {:induction false} LifetimeIsAccrued(calls: seq<Call>, i: nat)
    requires i < COUNTERS
    ensures Run(calls).0.state.lifetime[i] == if Accrued(calls, i) > INT64_MAX then INT64_MAX else Accrued(calls, i)
    decreases |calls|
  {
    hide Step, Sound, Accrues, Resets;
    if calls != [] {
      var init, c := calls[..|calls| - 1], calls[|calls| - 1];
      LifetimeIsAccrued(init, i);
      var l := Run(init).0;
      LifetimeOtherwiseKept(l, c);
      if !Resets(l, c) && Accrues(l, c) {
        AccrualNonNegative(l, c, i);
      }
    }
  }

  /** A refused call leaves the ledger exactly as it was, row and audit included. */
  lemma RefusalChangesNothing(l: Ledger, c: Call)
    requires Sound(l) && Step(l, c).1.Refused?
    ensures Step(l, c).0 == l
  {
  }

  /** The ledger would take this call for a repeat of its last checkpoint. */
  ghost predicate Recognises(l: Ledger, c: Call) {
    && c.Checkpoint? && SameSession(l, c.session) && c.sequence == l.state.sequence
    && SameContent(l.state, l.latest.value, c.session, c.generation)
  }

  lemma AccruedIsRecognised(l: Ledger, c: Call)
    requires Sound(l) && Accrues(l, c)
    ensures Recognises(Step(l, c).0, c)
  {
    hide Persisted, Advanced, AtLeast, Decodes;
  }

  lemma StaysRecognised(l: Ledger, c: Call, d: Call)
    requires DurableLedger(l) && Recognises(l, c) && !d.Checkpoint?
    ensures Recognises(Step(l, d).0, c)
  {
    hide Persisted, Decodes, Durable, Reopened;
    if d.Reopen? {
      ReopenInvisible(l);
    }
  }

  lemma RepeatAddsNothing(l: Ledger, c: Call)
    requires Sound(l) && Recognises(l, c)
    ensures Step(l, c) == (l, Values(l.latest.value))
  {
    hide Persisted, Decodes, AtLeast, Advanced;
  }

  /** After any resets and restarts, the last checkpoint sent again is still recognised and adds nothing. */
  lemma {:induction false} RetryNeverResurrects(calls: seq<Call>, c: Call, later: seq<Call>)
    requires forall k :: k in calls + [c] + later ==> DurableCall(k)
    requires Accrues(Run(calls).0, c) && forall d :: d in later ==> !d.Checkpoint?
    ensures
      var l := Run(calls + [c] + later).0;
      l.latest.Some? && Step(l, c) == (l, Values(l.latest.value))
  {
    RecognisedAfter(calls, c, later);
    hide Step, Run, Accrues;
    RepeatAddsNothing(Run(calls + [c] + later).0, c);
  }

  lemma {:induction false} RecognisedAfter(calls: seq<Call>, c: Call, later: seq<Call>)
    requires forall k :: k in calls + [c] + later ==> DurableCall(k)
    requires Accrues(Run(calls).0, c) && forall d :: d in later ==> !d.Checkpoint?
    ensures Recognises(Run(calls + [c] + later).0, c)
    decreases |later|
  {
    hide Step, Run, Accrues, Recognises, DurableCall, DurableLedger;
    if later == [] {
      assert calls + [c] + later == calls + [c];
      RunSnoc(calls, c);
      AccruedIsRecognised(Run(calls).0, c);
    } else {
      var init, d := later[..|later| - 1], later[|later| - 1];
      var before := calls + [c] + init;
      assert calls + [c] + later == before + [d];
      forall k | k in before ensures DurableCall(k) {
        assert k in before + [d];
      }
      RecognisedAfter(calls, c, init);
      RunDurable(before);
      RunSnoc(before, d);
      StaysRecognised(Run(before).0, c, d);
    }
  }
}
