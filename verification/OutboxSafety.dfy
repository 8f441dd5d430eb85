/** What no durable write, and therefore no run with crashes anywhere in it, can do. */
module OutboxSafety {
  import opened Foundation
  import opened OutboxModel

  // ---------------------------------------------------------------- one write

  /** A payload file disappears only after an erase marked its artifact or every delivery of it succeeded. */
  lemma RemovalJustified(d: Disk, e: Event, env: Env, p: Path)
    requires Durable(d, env) && Enabled(d, e, env)
    requires p in d.files && !IsTemp(p.name) && p !in Apply(d, e, env).files
    ensures SafeIdentity(Stem(p.name)) && p == PathOf(Stem(p.name), env)
    ensures Stem(p.name) in d.rows && (d.rows[Stem(p.name)].deletePending || Complete(d.rows[Stem(p.name)]))
  {
    hide Total, IsTemp, NewRows, SafeIdentity, NameOf, Stem, Complete;
    assert CanonicalFile(p, env);
    if e.RemoveDelivered? || e.RemoveMarked? {
      assert RowKept(d, e.id, env);
      CanonicalPath(e.id, env);
    }
  }

  /** Published payload bytes never change. */
  lemma PayloadImmutable(d: Disk, e: Event, env: Env, p: Path)
    requires Durable(d, env) && Enabled(d, e, env)
    requires p in d.files && !IsTemp(p.name) && p in Apply(d, e, env).files
    ensures Apply(d, e, env).files[p] == d.files[p]
  {
    hide Total, IsTemp, NewRows, Complete, NameOf;
  }

  /** A row disappears only once erased, or once delivered everywhere and its payload already gone. */
  lemma RowLossJustified(d: Disk, e: Event, env: Env, id: string)
    requires Enabled(d, e, env) && id in d.rows && id !in Apply(d, e, env).rows
    ensures d.rows[id].deletePending || (Complete(d.rows[id]) && !d.rows[id].present)
    ensures id in Dropped(e)
  {
    hide Total, IsTemp, Complete;
  }

  ghost predicate HasState(d: Disk, id: string, c: string, s: DeliveryState) {
    id in d.rows && c in d.rows[id].deliveries && d.rows[id].deliveries[c].state == s
  }

  /** Succeeded is absorbing for as long as the row exists. */
  lemma SucceededStays(d: Disk, e: Event, env: Env, id: string, c: string)
    requires Enabled(d, e, env) && HasState(d, id, c, Succeeded) && id in Apply(d, e, env).rows
    ensures HasState(Apply(d, e, env), id, c, Succeeded)
    ensures e.Claim? ==> (id, c) !in e.chosen
  {
    hide Total, IsTemp, SafeIdentity, FreshRow, Complete, NameOf;
    if e.Claim? {
      NotClaimable(d, e, env, id, c);
    }
  }

  lemma NotClaimable(d: Disk, e: Event, env: Env, id: string, c: string)
    requires Enabled(d, e, env) && e.Claim? && HasState(d, id, c, Succeeded)
    ensures (id, c) !in e.chosen
  {
    var k := (id, c);
    assert k in e.chosen ==> k.0 in d.rows && Claimable(d.rows[k.0], k.1, e.now);
  }

  // ---------------------------------------------------------------- runs

  /** Each write was one the repository makes in the state it found. A crash is where the log simply stops. */
  ghost predicate Runs(d: Disk, log: seq<Event>, env: Env)
    decreases |log|
  {
    log == [] || (Runs(d, log[..|log| - 1], env) && Enabled(After(d, log[..|log| - 1], env), log[|log| - 1], env))
  }

  ghost function After(d: Disk, log: seq<Event>, env: Env): Disk
    decreases |log|
  {
    if log == [] then d else Apply(After(d, log[..|log| - 1], env), log[|log| - 1], env)
  }

  lemma RunsSnoc(d: Disk, log: seq<Event>, e: Event, env: Env)
    requires Runs(d, log, env) && Enabled(After(d, log, env), e, env)
    ensures Runs(d, log + [e], env) && After(d, log + [e], env) == Apply(After(d, log, env), e, env)
  {
    hide Enabled, Apply;
    assert (log + [e])[..|log|] == log;
  }

  lemma {:induction false} RunDurable(d: Disk, log: seq<Event>, env: Env)
    requires Durable(d, env) && Runs(d, log, env)
    ensures Durable(After(d, log, env), env)
    decreases |log|
  {
    hide Durable, Enabled, Apply;
    if log != [] {
      RunDurable(d, log[..|log| - 1], env);
      StepDurable(After(d, log[..|log| - 1], env), log[|log| - 1], env);
    }
  }

  /** Under a fixed policy the payload bytes never exceed the quota, at any instant of any run. */
  lemma QuotaHolds(d: Disk, log: seq<Event>, env: Env)
    requires Durable(d, env) && Runs(d, log, env)
    ensures Total(After(d, log, env).files) <= env.maximum
  {
    hide Runs, After, RowKept;
    RunDurable(d, log, env);
  }

  /** The artifact of this payload may be removed in this state. */
  ghost predicate Releasable(d: Disk, id: string) {
    id in d.rows && (d.rows[id].deletePending || Complete(d.rows[id]))
  }

  /** Over any run, crashes and restarts included: a payload that is gone was, at some instant, erased or fully delivered. */
  lemma {:induction false} LossWasReleased(d: Disk, log: seq<Event>, env: Env, p: Path)
    requires Durable(d, env) && Runs(d, log, env) && p in d.files && !IsTemp(p.name)
    requires p !in After(d, log, env).files
    ensures exists k: nat :: k < |log| && Releasable(After(d, log[..k], env), Stem(p.name))
    decreases |log|
  {
    hide Durable, Enabled, Apply, IsTemp, Complete, Stem;
    if log != [] {
      var init := log[..|log| - 1];
      if p in After(d, init, env).files {
        RunDurable(d, init, env);
        RemovalJustified(After(d, init, env), log[|log| - 1], env, p);
        assert Releasable(After(d, log[..|log| - 1], env), Stem(p.name));
      } else {
        LossWasReleased(d, init, env, p);
        var k: nat :| k < |init| && Releasable(After(d, init[..k], env), Stem(p.name));
        assert init[..k] == log[..k];
      }
    }
  }

  ghost predicate NeverDropped(log: seq<Event>, id: string) {
    forall k :: 0 <= k < |log| ==> id !in Dropped(log[k])
  }

  lemma {:induction false} RowSurvives(d: Disk, log: seq<Event>, env: Env, id: string)
    requires Runs(d, log, env) && id in d.rows && NeverDropped(log, id)
    ensures id in After(d, log, env).rows
    decreases |log|
  {
    hide Enabled, Apply;
    if log != [] {
      var init := log[..|log| - 1];
      RowSurvives(d, init, env, id);
      if id !in After(d, log, env).rows {
        RowLossJustified(After(d, init, env), log[|log| - 1], env, id);
      }
    }
  }

  /** While its row lives, a succeeded delivery stays succeeded and is never claimed again. */
  lemma {:induction false} SucceededForever(d: Disk, log: seq<Event>, env: Env, id: string, c: string)
    requires Runs(d, log, env) && HasState(d, id, c, Succeeded) && NeverDropped(log, id)
    ensures HasState(After(d, log, env), id, c, Succeeded)
    ensures forall k :: 0 <= k < |log| && log[k].Claim? ==> (id, c) !in log[k].chosen
    decreases |log|
  {
    hide Enabled, Apply;
    if log != [] {
      var init := log[..|log| - 1];
      SucceededForever(d, init, env, id, c);
      RowSurvives(d, log, env, id);
      SucceededStays(After(d, init, env), log[|log| - 1], env, id, c);
      forall k | 0 <= k < |log| && log[k].Claim? ensures (id, c) !in log[k].chosen {
        if k < |init| {
          assert log[k] == init[k];
        }
      }
    }
  }

  // ---------------------------------------------------------------- leases

  /** An event that ends or takes away a lease other than by its expiry. */
  predicate Settles(e: Event, id: string, c: string) {
    || (e.Record? && e.id == id && e.channel == c)
    || (e.MarkErased? && id in e.ids)
    || (e.RecoverRow? && e.id == id)
    || id in Dropped(e)
  }

  ghost predicate Leased(d: Disk, id: string, c: string, until: int) {
    HasState(d, id, c, InFlight) && d.rows[id].deliveries[c].next == until
  }

  lemma LeaseStep(d: Disk, e: Event, env: Env, id: string, c: string, until: int)
    requires Enabled(d, e, env) && Leased(d, id, c, until) && !Settles(e, id, c)
    ensures e.Claim? && (id, c) in e.chosen ==> until <= e.now < e.lease && Leased(Apply(d, e, env), id, c, e.lease)
    ensures !(e.Claim? && (id, c) in e.chosen) ==> Leased(Apply(d, e, env), id, c, until)
  {
    hide Total, IsTemp, Recovered;
    if e.Claim? && (id, c) in e.chosen {
      var k := (id, c);
      assert k.0 in d.rows && Claimable(d.rows[k.0], k.1, e.now);
    }
  }

  /** Without a result, an erase or a restart in between, a later claim starts only after the earlier lease ended. */
  lemma {:induction false} LeasesDisjoint(d: Disk, log: seq<Event>, env: Env, id: string, c: string, until: int)
    requires Runs(d, log, env) && Leased(d, id, c, until)
    requires forall k :: 0 <= k < |log| ==> !Settles(log[k], id, c)
    ensures forall k :: 0 <= k < |log| && log[k].Claim? && (id, c) in log[k].chosen ==> log[k].now >= until
    ensures exists last: int :: last >= until && Leased(After(d, log, env), id, c, last)
    decreases |log|
  {
    hide Enabled, Apply, Settles, Leased;
    if log == [] {
      assert Leased(After(d, log, env), id, c, until);
    } else {
      var init, e := log[..|log| - 1], log[|log| - 1];
      LeasesDisjoint(d, init, env, id, c, until);
      var last: int :| last >= until && Leased(After(d, init, env), id, c, last);
      LeaseStep(After(d, init, env), e, env, id, c, last);
      var next := if e.Claim? && (id, c) in e.chosen then e.lease else last;
      assert Leased(After(d, log, env), id, c, next);
      forall k | 0 <= k < |log| && log[k].Claim? && (id, c) in log[k].chosen ensures log[k].now >= until {
        if k < |init| {
          assert log[k] == init[k];
        }
      }
    }
  }

  // ---------------------------------------------------------------- no delivery waits for ever

  /** 3660 seconds: the delivery lease, which exceeds the longest retry delay. */
  const LONGEST_WAIT: int := 3_660_000_000_000

  const LONGEST_RETRY: int := 3_600_000_000_000

  /** The times the scheduler gives: leases of 3660 s, retries within 3600 s, and clocks that are not negative. */
  ghost predicate Timely(e: Event) {
    match e
    case Insert(_, _, at) => 0 <= at
    case Claim(_, now, lease) => lease == now + LONGEST_WAIT
    case Record(_, _, disposition, at, retryAt) => disposition == Retryable ==> retryAt <= at + LONGEST_RETRY
    case _ => true
  }

  ghost predicate TimelySince(log: seq<Event>, from: nat) {
    forall k :: from <= k < |log| ==> Timely(log[k])
  }

  lemma TimelySnoc(log: seq<Event>, from: nat, e: Event)
    requires from <= |log| && TimelySince(log, from) && Timely(e)
    ensures TimelySince(log + [e], from)
  {
    hide Timely;
  }

  /** When an event sets this delivery, the time it does so. */
  ghost function TouchedAt(d: Disk, e: Event, id: string, c: string): Option<int> {
    match e
    case Insert(k, _, at) => if k == id then Some(at) else None
    case Claim(chosen, now, _) => if (id, c) in chosen then Some(now) else None
    case Record(k, channel, _, at, _) => if k == id && channel == c then Some(at) else None
    case Requeue(ids, now) => if id in ids && !HasState(d, id, c, InFlight) then Some(now) else None
    case RequeueChannel(channel, now) => if channel == c && HasState(d, id, c, Blocked) then Some(now) else None
    case _ => None
  }

  ghost function LastTouch(d: Disk, log: seq<Event>, env: Env, id: string, c: string): Option<int>
    decreases |log|
  {
    if log == [] then None
    else
      var init := log[..|log| - 1];
      var now := TouchedAt(After(d, init, env), log[|log| - 1], id, c);
      if now.Some? then now else LastTouch(d, init, env, id, c)
  }

  predicate Waiting(x: Delivery) {
    x.state == Pending || x.state == RetryWait || x.state == InFlight
  }

  ghost predicate DueBy(d: Disk, id: string, c: string, touched: Option<int>) {
    id in d.rows && c in d.rows[id].deliveries && Waiting(d.rows[id].deliveries[c]) ==>
      touched.Some? && d.rows[id].deliveries[c].next <= touched.value + LONGEST_WAIT
  }

  lemma DueOldRow(d: Disk, e: Event, env: Env, id: string, c: string, touched: Option<int>)
    requires Enabled(d, e, env) && Timely(e) && DueBy(d, id, c, touched) && id in d.rows && c in d.rows[id].deliveries
    requires Waiting(NewRow(d, e, id, env).deliveries[c])
    ensures
      var t := if TouchedAt(d, e, id, c).Some? then TouchedAt(d, e, id, c) else touched;
      t.Some? && NewRow(d, e, id, env).deliveries[c].next <= t.value + LONGEST_WAIT
  {
    hide Total, IsTemp, Complete, SafeIdentity, PathOf, FreshRow;
  }

  lemma SameChannels(d: Disk, e: Event, env: Env, id: string)
    requires Enabled(d, e, env) && id in d.rows
    ensures NewRow(d, e, id, env).deliveries.Keys == d.rows[id].deliveries.Keys
  {
    if !TouchesFiles(e) {
      RowWriteKeepsIdentity(d, e, env, id);
    }
  }

  lemma DueStep(d: Disk, e: Event, env: Env, id: string, c: string, touched: Option<int>)
    requires Enabled(d, e, env) && Timely(e) && DueBy(d, id, c, touched)
    ensures DueBy(Apply(d, e, env), id, c,
                  if TouchedAt(d, e, id, c).Some? then TouchedAt(d, e, id, c) else touched)
  {
    hide Total, IsTemp, Complete, SafeIdentity, NewRow;
    if id in d.rows && id !in Dropped(e) {
      SurvivingRow(d, e, env, id);
      SameChannels(d, e, env, id);
      if c in d.rows[id].deliveries && Waiting(NewRow(d, e, id, env).deliveries[c]) {
        DueOldRow(d, e, env, id, c, touched);
      }
    }
  }

  /**
   * From an empty outbox, every delivery that waits for a retained, unerased artifact can be claimed from 3660 s after the
   * write that last set it.
   */
  lemma ClaimableWithinLongestWait(log: seq<Event>, env: Env, id: string, c: string, now: int)
    requires Runs(Disk(map[], map[]), log, env) && forall k :: 0 <= k < |log| ==> Timely(log[k])
    ensures
      var d, touched := After(Disk(map[], map[]), log, env), LastTouch(Disk(map[], map[]), log, env, id, c);
      id in d.rows && c in d.rows[id].deliveries && Waiting(d.rows[id].deliveries[c])
      && d.rows[id].present && !d.rows[id].deletePending ==>
        touched.Some? && (touched.value + 3_660_000_000_000 <= now ==> Claimable(d.rows[id], c, now))
  {
    hide Runs, After, Timely, LastTouch;
    DueWithinLongestWait(log, env, id, c);
  }

  lemma {:induction false} DueWithinLongestWait(log: seq<Event>, env: Env, id: string, c: string)
    requires Runs(Disk(map[], map[]), log, env) && forall k :: 0 <= k < |log| ==> Timely(log[k])
    ensures DueBy(After(Disk(map[], map[]), log, env), id, c, LastTouch(Disk(map[], map[]), log, env, id, c))
    decreases |log|
  {
    hide Enabled, Apply, DueBy, Timely;
    if log == [] {
      NothingDue(id, c);
    } else {
      var d, init := Disk(map[], map[]), log[..|log| - 1];
      DueWithinLongestWait(init, env, id, c);
      DueStep(After(d, init, env), log[|log| - 1], env, id, c, LastTouch(d, init, env, id, c));
    }
  }

  lemma NothingDue(id: string, c: string)
    ensures DueBy(Disk(map[], map[]), id, c, None)
  {
  }

  // ---------------------------------------------------------------- recovery of arbitrary disks

  ghost predicate Honest(r: Row, file: Option<Bytes>, env: Env) {
    r.present ==> (file.Some? && Matches(r, file.value, env)) || r.error != NoError
  }

  /**
   * Whatever the crash or the outside world did to the file, the recovered row claims a payload only if the file matches
   * or an error is recorded, and leaves nothing claimable without a matching file.
   */
  lemma RecoveredRowHonest(r: Row, file: Option<Bytes>, env: Env, c: string, now: int)
    ensures Honest(Recovered(r, file, env), file, env)
    ensures Claimable(Recovered(r, file, env), c, now) ==> file.Some? && Matches(r, file.value, env)
    ensures c in r.deliveries && Finished(r.deliveries[c]) ==>
              c in Recovered(r, file, env).deliveries && Recovered(r, file, env).deliveries[c] == r.deliveries[c]
  {
  }
}
