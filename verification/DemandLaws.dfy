/** When the demand ledger takes an interval or a reset, and what its peaks are, from the readings alone. */
module DemandLaws {
  import opened Foundation
  import opened LedgerCodec
  import opened DemandLedger

  // ---------------------------------------------------------------- resets

  /** A complete request under a new key, for the epoch in force of a ledger that has an interval. */
  ghost predicate Grants(l: Ledger, q: ResetRequest) {
    && |q.key| > 0 && |q.actor| > 0 && |q.requestId| > 0 && q.key !in l.audit.Keys
    && l.latest.Some? && q.expectedEpoch == l.state.epoch
  }

  /** A reset clears peaks and the samples they were reached at, and sets the baseline to the session peaks so far. */
  ghost predicate Cleared(before: Peaks, after: Peaks) {
    && after.raw == before.raw && after.baseline == before.raw
    && forall i :: 0 <= i < 4 ==> after.peak[i] == 0 && after.anchors[i] == 0
  }

  /** A reset takes effect exactly then; a known key is answered from the record; anything else is refused and changes nothing. */
  lemma ResetLaw(l: Ledger, q: ResetRequest)
    requires Sound(l)
    ensures
      var (after, answer) := Step(l, Call.Reset(q));
      && (Grants(l, q) <==> Resets(l, Call.Reset(q))) && (Grants(l, q) <==> after != l)
      && (Grants(l, q) ==>
            && after.state.epoch == l.state.epoch + 1 && answer == Epoch(l.state.epoch + 1, false)
            && after.audit == l.audit[q.key := l.state.epoch + 1]
            && Cleared(l.state.imports, after.state.imports) && Cleared(l.state.exports, after.state.exports)
            && (after.state.sessionId, after.state.sequence, after.state.generation, after.state.profile, after.state.profileGeneration)
               == (l.state.sessionId, l.state.sequence, l.state.generation, l.state.profile, l.state.profileGeneration)
            && after.latest.Some? && after.latest.value.epoch == l.state.epoch + 1)
      && (|q.key| > 0 && |q.actor| > 0 && |q.requestId| > 0 && q.key in l.audit ==> answer == Epoch(l.audit[q.key], true))
      && (!Grants(l, q) && !(|q.key| > 0 && |q.actor| > 0 && |q.requestId| > 0 && q.key in l.audit) ==> answer.Refused?)
  {
    hide Persisted, Decodes, Loaded;
  }

  lemma StepKeepsRecord(l: Ledger, c: Call)
    requires Sound(l)
    ensures Step(l, c).0.state.epoch >= l.state.epoch && (Resets(l, c) ==> Step(l, c).0.state.epoch == l.state.epoch + 1 && c.Reset?)
    ensures forall key :: key in l.audit ==> key in Step(l, c).0.audit && Step(l, c).0.audit[key] == l.audit[key]
  {
    hide Persisted, Decodes, Loaded, SameContent, RaisedPeaks, NonNegative, Agrees, AtLeast;
    if c.Reopen? {
      ReopenSound(l);
      ReopenKeepsAudit(l);
    }
  }

  lemma ReopenKeepsAudit(l: Ledger)
    ensures Step(l, Reopen).0.audit == l.audit
  {
    hide Persisted, Decodes, Loaded;
  }

  lemma {:induction false} RecordOnlyGrows(calls: seq<Call>, i: nat, j: nat)
    requires i <= j <= |calls|
    ensures Run(calls[..i]).0.state.epoch <= Run(calls[..j]).0.state.epoch
    ensures forall key :: key in Run(calls[..i]).0.audit ==>
              key in Run(calls[..j]).0.audit && Run(calls[..j]).0.audit[key] == Run(calls[..i]).0.audit[key]
    decreases j
  {
    hide Run, Step, Sound, Resets;
    if i < j {
      RecordOnlyGrows(calls, i, j - 1);
      assert calls[..j - 1] + [calls[j - 1]] == calls[..j];
      RunSnoc(calls[..j - 1], calls[j - 1]);
      StepKeepsRecord(Run(calls[..j - 1]).0, calls[j - 1]);
    }
  }

  ghost predicate EffectAt(calls: seq<Call>, k: nat) {
    k < |calls| && Resets(Run(calls[..k]).0, calls[k])
  }

  /** Over every run: of all requests expecting the same epoch at most one takes effect, and those that do come in epoch order. */
  lemma OneResetPerEpoch(calls: seq<Call>, i: nat, j: nat)
    requires i < j && EffectAt(calls, i) && EffectAt(calls, j)
    ensures calls[i].Reset? && calls[j].Reset? && calls[i].request.expectedEpoch < calls[j].request.expectedEpoch
  {
    hide Run, Step, Sound, Resets;
    var l, m := Run(calls[..i]).0, Run(calls[..j]).0;
    StepKeepsRecord(l, calls[i]);
    StepKeepsRecord(m, calls[j]);
    ResetLaw(l, calls[i].request);
    ResetLaw(m, calls[j].request);
    assert calls[..i] + [calls[i]] == calls[..i + 1];
    RunSnoc(calls[..i], calls[i]);
    RecordOnlyGrows(calls, i + 1, j);
  }

  /** Over every run: a complete request under a key that took effect is answered with the epoch of that time, and changes nothing. */
  lemma RepeatedKeyReplays(calls: seq<Call>, i: nat, j: nat)
    requires i < j < |calls| && EffectAt(calls, i) && calls[j].Reset? && calls[i].Reset?
    requires calls[j].request.key == calls[i].request.key && |calls[j].request.actor| > 0 && |calls[j].request.requestId| > 0
    ensures Step(Run(calls[..j]).0, calls[j]) == (Run(calls[..j]).0, Epoch(calls[i].request.expectedEpoch + 1, true))
  {
    hide Run, Step, Sound, Resets;
    var l, m := Run(calls[..i]).0, Run(calls[..j]).0;
    ResetLaw(l, calls[i].request);
    assert calls[..i] + [calls[i]] == calls[..i + 1];
    RunSnoc(calls[..i], calls[i]);
    RecordOnlyGrows(calls, i + 1, j);
    ResetLaw(m, calls[j].request);
  }

  // ---------------------------------------------------------------- intervals

  /** The interval comes from the session, the demand profile and the profile generation the ledger is in. */
  ghost predicate GoesOn(l: Ledger, v: DemandValues) {
    && l.latest.Some?
    && (v.sessionId, v.profile.averaging, v.profile.windowSeconds, v.profile.updateSeconds, v.profileGeneration)
       == (l.state.sessionId, l.state.profile.averaging, l.state.profile.windowSeconds, l.state.profile.updateSeconds,
           l.state.profileGeneration)
  }

  /** Demand is measured differently now, or the same session has a new profile generation. */
  ghost predicate NewProfile(l: Ledger, v: DemandValues) {
    && l.latest.Some?
    && (|| v.profile.averaging != l.state.profile.averaging || v.profile.windowSeconds != l.state.profile.windowSeconds
        || v.profile.updateSeconds != l.state.profile.updateSeconds
        || (v.sessionId == l.state.sessionId && v.profileGeneration != l.state.profileGeneration))
  }

  /** What a repeat of the last interval must agree on, field by field. */
  ghost predicate Repeats(l: Ledger, v: DemandValues, generation: u32)
    requires l.latest.Some?
  {
    var w := l.latest.value;
    && (v.current, v.importPeak, v.exportPeak, generation)
       == (l.state.current, l.state.imports.raw, l.state.exports.raw, l.state.generation)
    && (v.lastSample, v.anchor, v.intervals, v.sourceStatus) == (w.lastSample, w.anchor, w.intervals, w.sourceStatus)
    && (v.aligned, v.contaminated, v.boundaryValid, v.incomplete) == (w.aligned, w.contaminated, w.boundaryValid, w.incomplete)
    && (v.qualities, v.window) == (w.qualities, w.window)
    && !(v.saturated && !w.saturated)
  }

  ghost predicate Falls(peaks: Four, below: Four) {
    exists i :: 0 <= i < 4 && peaks[i] < below[i]
  }

  /** Refused: no profile, a negative peak; while the session and profile go on, an older sequence, a differing repeat, a falling peak. */
  lemma IntervalRefusedIff(l: Ledger, v: DemandValues, sequence: u32, generation: u32, at: int)
    ensures Step(l, Checkpoint(v, sequence, generation, at)).1.Refused? <==>
      || v.profileGeneration == 0 || v.profile.windowSeconds == 0 || v.profile.updateSeconds == 0
      || Falls(v.importPeak, Zero()) || Falls(v.exportPeak, Zero())
      || (GoesOn(l, v)
          && (|| sequence < l.state.sequence
              || (sequence == l.state.sequence && !Repeats(l, v, generation))
              || (sequence > l.state.sequence
                  && (Falls(v.importPeak, l.state.imports.raw) || Falls(v.exportPeak, l.state.exports.raw)))))
  {
    hide Persisted, Decodes, Loaded, RaisedPeaks, MagnitudeSaturates;
  }

  /** The baseline stays while session and profile go on, and is dropped when either changes. */
  ghost predicate Continues(l: Ledger, v: DemandValues, before: Peaks, after: Peaks, session: Four) {
    after.raw == session && forall i :: 0 <= i < 4 ==> after.baseline[i] == if GoesOn(l, v) then before.baseline[i] else 0
  }

  /** An accepted new interval is remembered as the last one; only a new profile begins an epoch. */
  lemma IntervalTaken(l: Ledger, v: DemandValues, sequence: u32, generation: u32, at: int)
    requires Commits(l, Checkpoint(v, sequence, generation, at))
    ensures
      var after := Step(l, Checkpoint(v, sequence, generation, at)).0;
      && after.state.epoch == l.state.epoch + (if NewProfile(l, v) then 1 else 0)
      && (after.state.sessionId, after.state.sequence, after.state.generation, after.state.profile, after.state.profileGeneration)
         == (v.sessionId, sequence, generation, v.profile, v.profileGeneration)
      && after.state.current == v.current && after.audit == l.audit
      && Continues(l, v, l.state.imports, after.state.imports, v.importPeak)
      && Continues(l, v, l.state.exports, after.state.exports, v.exportPeak)
  {
    hide Persisted, Decodes, Loaded, SameContent, Raised, RaisedAnchor, AtLeast, NonNegative;
  }

  /** The answer is the interval with the ledger's peaks, marked saturated if a valid demand has no 63-bit magnitude. */
  lemma IntervalAnswer(l: Ledger, v: DemandValues, sequence: u32, generation: u32, at: int)
    requires Commits(l, Checkpoint(v, sequence, generation, at))
    ensures
      var (after, answer) := Step(l, Checkpoint(v, sequence, generation, at));
      && answer.Values? && after.latest == Some(answer.values)
      && (answer.values.importPeak, answer.values.exportPeak) == (after.state.imports.peak, after.state.exports.peak)
      && (answer.values.importSample, answer.values.exportSample) == (after.state.imports.anchors, after.state.exports.anchors)
      && answer.values.epoch == after.state.epoch && answer.values.current == v.current
      && (answer.values.saturated <==>
            v.saturated || exists i :: 0 <= i < 4 && v.qualities[i] == 1 && v.current[i] == -0x8000_0000_0000_0000)
  {
    hide Persisted, Decodes, Loaded, SameContent, RaisedPeaks, AtLeast, NonNegative;
  }

  // ---------------------------------------------------------------- what a peak is

  /** The size of an export: the demand's magnitude, as far as 63 bits go. */
  ghost function Size(value: i64): int {
    if value == -0x8000_0000_0000_0000 then 0x7fff_ffff_ffff_ffff else -(value as int)
  }

  /** The interval's own valid demand of this direction, at its last sample. */
  ghost predicate OwnDemand(v: DemandValues, exporting: bool, i: nat, value: int, sample: u64)
    requires i < 4
  {
    && v.qualities[i] == 1 && sample == v.lastSample
    && (if exporting then v.current[i] < 0 && value == Size(v.current[i]) else v.current[i] > 0 && value == v.current[i])
  }

  /** The session's peak of this direction, above the baseline, at the sample the session names. */
  ghost predicate SessionsPeak(v: DemandValues, exporting: bool, i: nat, baseline: int, value: int, sample: u64)
    requires i < 4
  {
    if exporting then value == v.exportPeak[i] > baseline && sample == v.exportSample[i]
    else value == v.importPeak[i] > baseline && sample == v.importSample[i]
  }

  ghost function SideOf(s: DemandState, exporting: bool): Peaks {
    if exporting then s.exports else s.imports
  }

  ghost predicate Brings(v: DemandValues, exporting: bool, i: nat, baseline: int, value: int, sample: u64)
    requires i < 4
  {
    OwnDemand(v, exporting, i, value, sample) || SessionsPeak(v, exporting, i, baseline, value, sample)
  }

  lemma CommitEffect(l: Ledger, c: Call, exporting: bool, i: nat)
    requires Commits(l, c) && i < 4 && SideOf(l.state, exporting).peak[i] >= 0
    ensures
      var s, p, q := Step(l, c).0.state, SideOf(l.state, exporting), SideOf(Step(l, c).0.state, exporting);
      var kept: int := if s.epoch == l.state.epoch then p.peak[i] else 0;
      && q.peak[i] >= kept
      && (q.peak[i] > kept ==> Brings(c.interval, exporting, i, q.baseline[i], q.peak[i], q.anchors[i]))
      && (q.peak[i] == kept && s.epoch == l.state.epoch ==> q.anchors[i] == p.anchors[i])
  {
    hide Persisted, Decodes, Loaded, SameContent, AtLeast, NonNegative, Agrees;
  }

  lemma CommitBound(l: Ledger, c: Call, exporting: bool, i: nat, value: int, sample: u64)
    requires Commits(l, c) && c.Checkpoint? && i < 4 && SideOf(l.state, exporting).peak[i] >= 0
    requires Brings(c.interval, exporting, i, SideOf(Step(l, c).0.state, exporting).baseline[i], value, sample)
    ensures SideOf(Step(l, c).0.state, exporting).peak[i] >= value
  {
    hide Persisted, Decodes, Loaded, SameContent, AtLeast, NonNegative, Agrees;
  }

  lemma OtherEffect(l: Ledger, c: Call, exporting: bool, i: nat)
    requires Sound(l) && !Commits(l, c) && i < 4
    ensures
      var s, p, q := Step(l, c).0.state, SideOf(l.state, exporting), SideOf(Step(l, c).0.state, exporting);
      if s.epoch == l.state.epoch then q.peak[i] == p.peak[i] && q.anchors[i] == p.anchors[i] else q.peak[i] == 0
  {
    hide Persisted, Decodes, Loaded, SameContent, RaisedPeaks, NonNegative, Agrees, AtLeast;
    PeaksOtherwiseKept(l, c);
  }

  /** The ledger before call k. */
  ghost function LedgerAt(calls: seq<Call>, k: nat): Ledger
    requires k <= |calls|
  {
    Run(calls[..k]).0
  }

  lemma LedgerAtEnd(calls: seq<Call>)
    ensures LedgerAt(calls, |calls|) == Run(calls).0
  {
    hide Run;
    assert calls[..|calls|] == calls;
  }

  lemma LedgerAtPrefix(calls: seq<Call>, k: nat)
    requires k < |calls|
    ensures LedgerAt(calls[..|calls| - 1], k) == LedgerAt(calls, k)
  {
    hide Run;
    assert calls[..|calls| - 1][..k] == calls[..k];
  }

  lemma EpochRises(calls: seq<Call>, i: nat, j: nat)
    requires i <= j <= |calls|
    ensures LedgerAt(calls, i).state.epoch <= LedgerAt(calls, j).state.epoch
  {
    hide Run;
    RecordOnlyGrows(calls, i, j);
  }

  /** Call k was an accepted interval, and no epoch began after it. */
  ghost predicate InEpoch(calls: seq<Call>, k: nat) {
    && k < |calls| && Commits(LedgerAt(calls, k), calls[k])
    && LedgerAt(calls, k + 1).state.epoch == LedgerAt(calls, |calls|).state.epoch
  }

  ghost predicate BringsAt(calls: seq<Call>, k: nat, exporting: bool, i: nat, value: int, sample: u64)
    requires i < 4
  {
    && InEpoch(calls, k) && calls[k].Checkpoint?
    && Brings(calls[k].interval, exporting, i, SideOf(LedgerAt(calls, k + 1).state, exporting).baseline[i], value, sample)
  }

  lemma PrefixEpoch(calls: seq<Call>, k: nat)
    requires calls != [] && k < |calls| - 1
    ensures
      var init := calls[..|calls| - 1];
      var same := LedgerAt(init, |init|).state.epoch == LedgerAt(calls, |calls|).state.epoch;
      && LedgerAt(init, k + 1) == LedgerAt(calls, k + 1) && init[k] == calls[k]
      && (InEpoch(calls, k) <==> InEpoch(init, k) && same)
  {
    hide LedgerAt, Commits;
    var init := calls[..|calls| - 1];
    LedgerAtPrefix(calls, k);
    LedgerAtPrefix(calls, k + 1);
    LedgerAtPrefix(calls, |calls| - 1);
    EpochRises(calls, k + 1, |calls| - 1);
    EpochRises(calls, |calls| - 1, |calls|);
  }

  /** Over every run, a peak is at least everything its epoch's intervals brought. */
  lemma {:induction false} PeakBoundsReadings(calls: seq<Call>, k: nat, exporting: bool, i: nat, value: int, sample: u64)
    requires i < 4 && BringsAt(calls, k, exporting, i, value, sample)
    ensures SideOf(Run(calls).0.state, exporting).peak[i] >= value
    decreases |calls|
  {
    hide Run, Step, Sound, Commits, Brings, LedgerAt;
    var init, c := calls[..|calls| - 1], calls[|calls| - 1];
    var l := Run(init).0;
    LastCall(calls);
    PeaksAreNotNegative(init, exporting, i);
    if k == |calls| - 1 {
      CommitBound(l, c, exporting, i, value, sample);
    } else {
      PrefixEpoch(calls, k);
      PeakBoundsReadings(init, k, exporting, i, value, sample);
      if Commits(l, c) {
        CommitEffect(l, c, exporting, i);
      } else {
        OtherEffect(l, c, exporting, i);
      }
    }
  }

  lemma LastCall(calls: seq<Call>)
    requires calls != []
    ensures
      var init, c := calls[..|calls| - 1], calls[|calls| - 1];
      && Run(calls).0 == Step(Run(init).0, c).0 && LedgerAt(calls, |calls|) == Run(calls).0
      && LedgerAt(calls, |calls| - 1) == Run(init).0 && LedgerAt(init, |init|) == Run(init).0
  {
    hide Run, Step;
    var init, c := calls[..|calls| - 1], calls[|calls| - 1];
    assert init + [c] == calls;
    RunSnoc(init, c);
    LedgerAtEnd(calls);
    LedgerAtEnd(init);
    LedgerAtPrefix(calls, |calls| - 1);
  }

  lemma {:induction false} PeaksAreNotNegative(calls: seq<Call>, exporting: bool, i: nat)
    requires i < 4
    ensures SideOf(Run(calls).0.state, exporting).peak[i] >= 0
    decreases |calls|
  {
    if calls == [] {
      hide Step, Sound, Commits;
    } else {
      var init, c := calls[..|calls| - 1], calls[|calls| - 1];
      hide Run, Step, Sound, Commits, Brings;
      assert init + [c] == calls;
      RunSnoc(init, c);
      PeaksAreNotNegative(init, exporting, i);
      if Commits(Run(init).0, c) {
        CommitEffect(Run(init).0, c, exporting, i);
      } else {
        OtherEffect(Run(init).0, c, exporting, i);
      }
    }
  }

  lemma BringsCarries(calls: seq<Call>, k: nat, exporting: bool, i: nat, value: int, sample: u64)
    requires calls != [] && i < 4 && BringsAt(calls[..|calls| - 1], k, exporting, i, value, sample)
    requires Run(calls[..|calls| - 1]).0.state.epoch == Run(calls).0.state.epoch
    ensures BringsAt(calls, k, exporting, i, value, sample)
  {
    hide Run, Commits, Brings, SideOf, LedgerAt;
    PrefixEpoch(calls, k);
    LastCall(calls);
  }

  lemma LastBrings(calls: seq<Call>, exporting: bool, i: nat, value: int, sample: u64)
    requires calls != [] && i < 4 && Commits(Run(calls[..|calls| - 1]).0, calls[|calls| - 1])
    requires calls[|calls| - 1].Checkpoint?
    requires Brings(calls[|calls| - 1].interval, exporting, i, SideOf(Run(calls).0.state, exporting).baseline[i], value, sample)
    ensures BringsAt(calls, |calls| - 1, exporting, i, value, sample)
  {
    hide Run, Step, Commits, Brings, SideOf, LedgerAt;
    LastCall(calls);
  }

  /** Over every run, a positive peak is something an interval of its epoch brought, at the sample recorded with it. */
  lemma {:induction false} PeakWasReached(calls: seq<Call>, exporting: bool, i: nat) returns (k: nat)
    requires i < 4 && SideOf(Run(calls).0.state, exporting).peak[i] > 0
    ensures
      var p := SideOf(Run(calls).0.state, exporting);
      BringsAt(calls, k, exporting, i, p.peak[i], p.anchors[i])
    decreases |calls|
  {
    NoPeakYet(exporting, i);
    hide Run, Step, Sound, Commits, Brings, BringsAt, SideOf, LedgerAt;
    var init, c := calls[..|calls| - 1], calls[|calls| - 1];
    var l := Run(init).0;
    LastCall(calls);
    PeaksAreNotNegative(init, exporting, i);
    var p := SideOf(Run(calls).0.state, exporting);
    if Commits(l, c) {
      CommitEffect(l, c, exporting, i);
      CommitIsCheckpoint(l, c);
      if Run(calls).0.state.epoch == l.state.epoch && p.peak[i] == SideOf(l.state, exporting).peak[i] {
        k := PeakWasReached(init, exporting, i);
        BringsCarries(calls, k, exporting, i, p.peak[i], p.anchors[i]);
      } else {
        k := |calls| - 1;
        LastBrings(calls, exporting, i, p.peak[i], p.anchors[i]);
      }
    } else {
      OtherEffect(l, c, exporting, i);
      k := PeakWasReached(init, exporting, i);
      BringsCarries(calls, k, exporting, i, p.peak[i], p.anchors[i]);
    }
  }

  lemma NoPeakYet(exporting: bool, i: nat)
    requires i < 4
    ensures SideOf(Run([]).0.state, exporting).peak[i] == 0
  {
    hide Step, Sound;
  }

  lemma CommitIsCheckpoint(l: Ledger, c: Call)
    requires Commits(l, c)
    ensures c.Checkpoint?
  {
  }
}
