/** When the energy ledger takes a checkpoint or a reset, and what the taking leaves, from the request and the ledger's record alone. */
module EnergyLaws {
  import opened Foundation
  import opened LedgerCodec
  import opened EnergyLedger

  // ---------------------------------------------------------------- resets

  /** A complete request under a new key, for the epoch in force of a ledger that has a checkpoint. */
  ghost predicate Grants(l: Ledger, q: ResetRequest) {
    && |q.key| > 0 && |q.actor| > 0 && |q.requestId| > 0 && q.key !in l.audit.Keys
    && l.latest.Some? && q.expectedEpoch == l.state.epoch
  }

  /** A reset takes effect exactly then; a known key is answered from the record; anything else is refused and changes nothing. */
  lemma ResetLaw(l: Ledger, q: ResetRequest)
    requires Sound(l)
    ensures
      var (after, answer) := Step(l, Call.Reset(q));
      && (Grants(l, q) <==> Resets(l, Call.Reset(q))) && (Grants(l, q) <==> after != l)
      && (Grants(l, q) ==>
            && after.state.epoch == l.state.epoch + 1 && answer == Epoch(l.state.epoch + 1, false)
            && after.audit == l.audit[q.key := l.state.epoch + 1]
            && (forall i :: 0 <= i < 28 ==> after.state.lifetime[i] == 0)
            && after.state.sessionCounters == l.state.sessionCounters && after.state.sessionId == l.state.sessionId
            && after.state.sequence == l.state.sequence && after.state.generation == l.state.generation
            && after.latest.Some? && after.latest.value.resetEpoch == l.state.epoch + 1)
      && (|q.key| > 0 && |q.actor| > 0 && |q.requestId| > 0 && q.key in l.audit ==> answer == Epoch(l.audit[q.key], true))
      && (!Grants(l, q) && !(|q.key| > 0 && |q.actor| > 0 && |q.requestId| > 0 && q.key in l.audit) ==> answer.Refused?)
  {
    hide Persisted, Decodes, Loaded;
  }

  lemma StepKeepsRecord(l: Ledger, c: Call)
    requires Sound(l)
    ensures Step(l, c).0.state.epoch == l.state.epoch + if Resets(l, c) then 1 else 0
    ensures forall key :: key in l.audit ==> key in Step(l, c).0.audit && Step(l, c).0.audit[key] == l.audit[key]
    ensures Resets(l, c) ==> c.Reset?
  {
    hide Persisted, Decodes, Loaded, SameContent, Advanced, NonNegative, Overflows;
    if c.Reopen? {
      ReopenSound(l);
      ReopenKeepsAudit(l);
    }
  }

  lemma ReopenKeepsAudit(l: Ledger)
    requires Sound(l)
    ensures Step(l, Reopen).0.audit == l.audit
  {
    hide Persisted, Decodes, Loaded;
  }

  lemma {:induction false} RecordOnlyGrows(calls: seq<Call>, i: nat, j: nat)
    requires i <= j <= |calls|
    ensures Run(calls[..i]).0.state.epoch <= Run(calls[..j]).0.state.epoch
    ensures forall key :: key in Run(calls[..i]).0.audit ==>
              key in Run(calls[..j]).0.audit && Run(calls[..j]).0.audit[key] == Run(calls[..i]).0.audit[key]
    decreases j
  {
    hide Run, Step, Sound, Resets;
    if i < j {
      RecordOnlyGrows(calls, i, j - 1);
      assert calls[..j - 1] + [calls[j - 1]] == calls[..j];
      RunSnoc(calls[..j - 1], calls[j - 1]);
      StepKeepsRecord(Run(calls[..j - 1]).0, calls[j - 1]);
    }
  }

  ghost predicate EffectAt(calls: seq<Call>, k: nat) {
    k < |calls| && Resets(Run(calls[..k]).0, calls[k])
  }

  /** Over every run: of all requests expecting the same epoch at most one takes effect, and those that do come in epoch order. */
  lemma OneResetPerEpoch(calls: seq<Call>, i: nat, j: nat)
    requires i < j && EffectAt(calls, i) && EffectAt(calls, j)
    ensures calls[i].Reset? && calls[j].Reset? && calls[i].request.expectedEpoch < calls[j].request.expectedEpoch
  {
    hide Run, Step, Sound, Resets;
    var l, m := Run(calls[..i]).0, Run(calls[..j]).0;
    StepKeepsRecord(l, calls[i]);
    StepKeepsRecord(m, calls[j]);
    ResetLaw(l, calls[i].request);
    ResetLaw(m, calls[j].request);
    assert calls[..i] + [calls[i]] == calls[..i + 1];
    RunSnoc(calls[..i], calls[i]);
    RecordOnlyGrows(calls, i + 1, j);
  }

  /** Over every run: a complete request under a key that took effect is answered with the epoch of that time, and changes nothing. */
  lemma RepeatedKeyReplays(calls: seq<Call>, i: nat, j: nat)
    requires i < j < |calls| && EffectAt(calls, i) && calls[j].Reset? && calls[i].Reset?
    requires calls[j].request.key == calls[i].request.key && |calls[j].request.actor| > 0 && |calls[j].request.requestId| > 0
    ensures Step(Run(calls[..j]).0, calls[j]) == (Run(calls[..j]).0, Epoch(calls[i].request.expectedEpoch + 1, true))
  {
    hide Run, Step, Sound, Resets;
    var l, m := Run(calls[..i]).0, Run(calls[..j]).0;
    ResetLaw(l, calls[i].request);
    assert calls[..i] + [calls[i]] == calls[..i + 1];
    RunSnoc(calls[..i], calls[i]);
    RecordOnlyGrows(calls, i + 1, j);
    ResetLaw(m, calls[j].request);
  }

  // ---------------------------------------------------------------- checkpoints

  ghost predicate SessionGoesOn(l: Ledger, v: EnergyValues) {
    l.latest.Some? && l.state.sessionId == v.sessionId
  }

  /** What a repeat of the last checkpoint must agree on, field by field. */
  ghost predicate Repeats(l: Ledger, v: EnergyValues, generation: u32)
    requires l.latest.Some?
  {
    var w := l.latest.value;
    && (v.counters, generation) == (l.state.sessionCounters, l.state.generation)
    && (v.lastSample, v.acceptedSamples, v.skippedSamples, v.acceptedBlocks, v.skippedBlocks)
       == (w.lastSample, w.acceptedSamples, w.skippedSamples, w.acceptedBlocks, w.skippedBlocks)
    && (v.incomplete, v.discontinuity, v.qualities, v.window) == (w.incomplete, w.discontinuity, w.qualities, w.window)
    && !(v.saturated && !w.saturated)
  }

  ghost predicate Falls(v: EnergyValues, below: Counters) {
    exists i :: 0 <= i < 28 && v.counters[i] < below[i]
  }

  /** Refused: a negative counter; within the session an older sequence, a repeat that differs, or a counter that falls. */
  lemma CheckpointRefusedIff(l: Ledger, v: EnergyValues, sequence: u32, generation: u32, at: int)
    requires Sound(l)
    ensures Step(l, Checkpoint(v, sequence, generation, at)).1.Refused? <==>
      || Falls(v, Zero())
      || (SessionGoesOn(l, v)
          && (|| sequence < l.state.sequence
              || (sequence == l.state.sequence && !Repeats(l, v, generation))
              || (sequence > l.state.sequence && Falls(v, l.state.sessionCounters))))
  {
    hide Persisted, Decodes, Loaded, Advanced, Overflows;
  }

  /** What a checkpoint adds to counter i: the difference within a session, the whole counter of a new one. */
  ghost function Increment(l: Ledger, v: EnergyValues, i: nat): int
    requires i < 28
  {
    if SessionGoesOn(l, v) then (v.counters[i] as int) - (l.state.sessionCounters[i] as int) else v.counters[i] as int
  }

  ghost function Total(l: Ledger, v: EnergyValues, i: nat): int
    requires i < 28
  {
    (l.state.lifetime[i] as int) + Increment(l, v, i)
  }

  /** An accepted new checkpoint adds its increments, is remembered as the session's last, and is answered with the totals. */
  lemma CheckpointTaken(l: Ledger, v: EnergyValues, sequence: u32, generation: u32, at: int, i: nat)
    requires Sound(l) && i < 28 && Accrues(l, Checkpoint(v, sequence, generation, at))
    ensures
      var (after, answer) := Step(l, Checkpoint(v, sequence, generation, at));
      && 0 <= Increment(l, v, i)
      && after.state.lifetime[i] as int == (if Total(l, v, i) <= INT64_MAX then Total(l, v, i) else INT64_MAX)
      && (after.state.sessionId, after.state.sequence, after.state.generation, after.state.sessionCounters)
         == (v.sessionId, sequence, generation, v.counters)
      && after.state.epoch == l.state.epoch && after.audit == l.audit
      && answer == Values(v.(counters := after.state.lifetime, resetEpoch := l.state.epoch, saturated := answer.values.saturated))
      && after.latest == Some(answer.values)
  {
    hide Persisted, Decodes, Loaded, SameContent;
  }

  /** The answer is marked saturated exactly when the session was, or some total no longer fits 63 bits. */
  lemma SaturationLaw(l: Ledger, v: EnergyValues, sequence: u32, generation: u32, at: int)
    requires Sound(l) && Accrues(l, Checkpoint(v, sequence, generation, at))
    ensures Step(l, Checkpoint(v, sequence, generation, at)).1.values.saturated <==>
              (v.saturated || exists i: nat :: i < 28 && Total(l, v, i) > 0x7fff_ffff_ffff_ffff)
  {
    hide Persisted, Decodes, Loaded, SameContent, Advanced;
    var base := Base(l, v);
    forall i: nat | i < 28 ensures Total(l, v, i) == l.state.lifetime[i] as int + (v.counters[i] as int - base[i] as int) {
    }
    hide Total, Base;
    if i: nat :| i < 28 && Total(l, v, i) > 0x7fff_ffff_ffff_ffff {
      assert Overflows(l.state.lifetime, base, v.counters);
    }
  }
}
