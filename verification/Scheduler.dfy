/** The Data Sender scheduler: which windows a job consumes, over every run of configuration, generation and restart. */
module Scheduler {
  import opened Foundation
  import opened Arithmetic
  import opened Order
  import OutboxModel

  const SETTLE: int := 30_000_000_000

  datatype Job = Job(id: string, revision: nat, interval: int, enabled: bool)

  datatype Watermark = Watermark(revision: nat, through: int)

  /** What generating and enqueueing one window came to. */
  datatype Outcome = Generated | RetentionGap | StorageFailed | Unavailable

  datatype Error = InvalidInterval | InvalidJob | InvalidLimit

  datatype Run = Run(generated: nat, skipped: nat, storageBlocked: bool, sourceDeferred: bool)

  // ---------------------------------------------------------------- boundaries

  predicate Multiple(x: int, interval: int)
    requires interval > 0
  {
    x % interval == 0
  }

  /** The least multiple of the interval not before now. */
  ghost predicate LeastBoundary(b: int, now: int, interval: int)
    requires interval > 0
  {
    && now <= b && Multiple(b, interval)
    && forall m {:trigger Multiple(m, interval)} :: now <= m && Multiple(m, interval) ==> b <= m
  }

  function NextBoundary(now: int, interval: int): (r: Result<int, Error>)
    ensures r.Ok? <==> 0 <= now && 0 < interval && now + interval <= INT64_MAX
    ensures r.Ok? ==> LeastBoundary(r.value, now, interval) && r.value <= INT64_MAX
  {
    if now < 0 || interval <= 0 || now > INT64_MAX - interval then Err(InvalidInterval)
    else
      var b := (now + interval - 1) / interval * interval;
      BoundaryIsLeast(now, interval);
      Ok(b)
  }

  lemma BoundaryIsLeast(now: int, interval: int)
    requires 0 <= now && 0 < interval
    ensures LeastBoundary((now + interval - 1) / interval * interval, now, interval)
    ensures (now + interval - 1) / interval * interval <= now + interval - 1
  {
    var q := (now + interval - 1) / interval;
    var b := q * interval;
    Parts(now + interval - 1, interval);
    MultipleOf(q, interval);
    forall m {:trigger Multiple(m, interval)} | now <= m && Multiple(m, interval) ensures b <= m {
      var k := m / interval;
      Parts(m, interval);
      if k < q {
        ProductOrder(k + 1, q, interval);
      } else {
        ProductOrder(q, k, interval);
      }
    }
  }

  lemma MultipleOf(q: int, d: int)
    requires d > 0
    ensures Multiple(q * d, d)
  {
    DivMod(q * d, d, q, 0);
  }

  // ---------------------------------------------------------------- the history of watermarks

  /** A job revision taking effect, or one window leaving a job's future. */
  datatype Event =
    | Activated(job: string, revision: nat, at: int, interval: int, through: int)
    | Consumed(job: string, revision: nat, at: int, start: int, end: int, generated: bool)

  /** The watermark row the last event about this job stored. */
  function Mark(log: seq<Event>, job: string): Option<Watermark> {
    if log == [] then None
    else
      var e := log[|log| - 1];
      if e.job != job then Mark(log[..|log| - 1], job)
      else if e.Activated? then Some(Watermark(e.revision, e.through))
      else Some(Watermark(e.revision, e.end))
  }

  ghost predicate Allowed(log: seq<Event>, e: Event) {
    match e
    case Activated(job, revision, at, interval, through) =>
      && (Mark(log, job).None? || Mark(log, job).value.revision != revision)
      && interval > 0 && LeastBoundary(through, at, interval)
    case Consumed(job, revision, at, start, end, _) =>
      Mark(log, job) == Some(Watermark(revision, start)) && start < end && end + SETTLE <= at
  }

  ghost predicate History(log: seq<Event>) {
    forall k :: 0 <= k < |log| ==> Allowed(log[..k], log[k])
  }

  lemma HistorySnoc(log: seq<Event>, e: Event)
    requires History(log) && Allowed(log, e)
    ensures History(log + [e])
  {
    hide Allowed;
    forall k | 0 <= k < |log + [e]| ensures Allowed((log + [e])[..k], (log + [e])[k]) {
      assert (log + [e])[..k] == log[..k];
      assert log[..|log|] == log;
    }
  }

  function MarkOf(e: Event): Watermark {
    Watermark(e.revision, if e.Activated? then e.through else e.end)
  }

  lemma MarkSnoc(log: seq<Event>, e: Event, job: string)
    ensures Mark(log + [e], job) == if e.job != job then Mark(log, job) else Some(MarkOf(e))
  {
    assert (log + [e])[..|log|] == log;
  }

  // ---------------------------------------------------------------- the engine

  ghost predicate Stored(watermarks: map<string, Watermark>, log: seq<Event>) {
    forall job :: Mark(log, job) == if job in watermarks then Some(watermarks[job]) else None
  }

  predicate Due(watermarks: map<string, Watermark>, job: Job, now: int) {
    && job.enabled && job.id in watermarks && watermarks[job.id].revision == job.revision
    && watermarks[job.id].through + job.interval + SETTLE <= now
  }

  predicate WellFormed(job: Job) {
    job.id != "" && job.revision > 0 && job.interval > 0
  }

  predicate Known(watermarks: map<string, Watermark>, job: Job) {
    job.id in watermarks && watermarks[job.id].revision == job.revision
  }

  /** Well formed and, when it has to be activated, with an id a watermark may have and a boundary in range. */
  predicate Acceptable(job: Job, now: int, watermarks: map<string, Watermark>) {
    && WellFormed(job)
    && (job.enabled && !Known(watermarks, job) ==>
          OutboxModel.SafeIdentity(job.id) && 0 <= now && now + job.interval <= INT64_MAX)
  }

  // ---------------------------------------------------------------- job order

  function InsertJob(s: seq<Job>, x: Job): (r: seq<Job>)
    ensures multiset(r) == multiset(s) + multiset{x}
  {
    if s == [] || !TextLess(x.id, s[|s| - 1].id) then s + [x]
    else
      assert s == s[..|s| - 1] + [s[|s| - 1]];
      InsertJob(s[..|s| - 1], x) + [s[|s| - 1]]
  }

  function SortJobs(s: seq<Job>): (r: seq<Job>)
    ensures multiset(r) == multiset(s)
  {
    if s == [] then []
    else
      assert s == s[..|s| - 1] + [s[|s| - 1]];
      InsertJob(SortJobs(s[..|s| - 1]), s[|s| - 1])
  }

  ghost predicate ById(s: seq<Job>) {
    forall i, j :: 0 <= i < j < |s| ==> !TextLess(s[j].id, s[i].id)
  }

  lemma {:induction false} InsertById(s: seq<Job>, x: Job)
    requires ById(s)
    ensures ById(InsertJob(s, x))
    decreases |s|
  {
    hide TextLess;
    if s == [] || !TextLess(x.id, s[|s| - 1].id) {
      forall i | 0 <= i < |s| ensures !TextLess(x.id, s[i].id) {
        if i < |s| - 1 {
          TextTransitive(s[i].id, s[|s| - 1].id, x.id);
        }
      }
    } else {
      var init, last := s[..|s| - 1], s[|s| - 1];
      InsertById(init, x);
      var r := InsertJob(init, x);
      forall i | 0 <= i < |r| ensures !TextLess(last.id, r[i].id) {
        assert r[i] in multiset(r);
        assert r[i] == x || r[i] in init;
        TextTotal(x.id, last.id);
      }
    }
  }

  /** The scheduler keeps its jobs in the order of their ids. */
  lemma {:induction false} SortedById(s: seq<Job>)
    ensures ById(SortJobs(s)) && forall job :: job in SortJobs(s) <==> job in s
    decreases |s|
  {
    hide TextLess;
    forall job ensures job in SortJobs(s) <==> job in s {
      assert job in multiset(SortJobs(s)) <==> job in multiset(s);
    }
    if s != [] {
      SortedById(s[..|s| - 1]);
      InsertById(SortJobs(s[..|s| - 1]), s[|s| - 1]);
    }
  }

  /** Entries with the same id are the same entry. */
  ghost predicate Consistent(list: seq<Job>) {
    forall a, b :: a in list && b in list && a.id == b.id ==> a == b
  }

  /** One consumed window is an enabled job's interval, generated or skipped for a retention gap as the attempt went. */
  ghost predicate Justified(e: Event, jobs: seq<Job>, i: int, outcome: (Job, int) -> Outcome)
  {
    && 0 <= i < |jobs| && e.Consumed? && jobs[i].enabled && e.job == jobs[i].id && e.revision == jobs[i].revision
    && e.end == e.start + jobs[i].interval
    && outcome(jobs[i], e.start) == if e.generated then Generated else RetentionGap
  }

  ghost predicate AllJustified(log: seq<Event>, from: nat, now: int, jobs: seq<Job>, outcome: (Job, int) -> Outcome) {
    forall k :: from <= k < |log| ==> log[k].at == now && HasReason(log[k], jobs, outcome)
  }

  ghost predicate HasReason(e: Event, jobs: seq<Job>, outcome: (Job, int) -> Outcome) {
    exists i :: Justified(e, jobs, i, outcome)
  }

  lemma JustifiedSnoc(log: seq<Event>, from: nat, now: int, jobs: seq<Job>, outcome: (Job, int) -> Outcome, e: Event, i: int)
    requires AllJustified(log, from, now, jobs, outcome) && Justified(e, jobs, i, outcome) && e.at == now
    ensures AllJustified(log + [e], from, now, jobs, outcome)
  {
    hide Justified;
    assert HasReason(e, jobs, outcome);
    hide HasReason;
  }

  lemma NothingYet(log: seq<Event>, now: int, jobs: seq<Job>, outcome: (Job, int) -> Outcome)
    ensures AllJustified(log, |log|, now, jobs, outcome)
  {
  }

  ghost predicate NoneDue(watermarks: map<string, Watermark>, jobs: seq<Job>, n: nat, now: int) {
    forall k :: 0 <= k < n && k < |jobs| ==> !Due(watermarks, jobs[k], now)
  }

  /** The next window of every enabled job that has a watermark of its revision ends less than 30 s ago or in the future. */
  ghost predicate AllCaughtUp(watermarks: map<string, Watermark>, jobs: seq<Job>, now: int) {
    forall k :: 0 <= k < |jobs| && jobs[k].enabled && jobs[k].id in watermarks && watermarks[jobs[k].id].revision == jobs[k].revision ==>
      now - (watermarks[jobs[k].id].through + jobs[k].interval) < 30_000_000_000
  }

  lemma CaughtUp(watermarks: map<string, Watermark>, jobs: seq<Job>, now: int)
    requires NoneDue(watermarks, jobs, |jobs|, now)
    ensures AllCaughtUp(watermarks, jobs, now)
  {
    forall k | 0 <= k < |jobs| && jobs[k].enabled && jobs[k].id in watermarks && watermarks[jobs[k].id].revision == jobs[k].revision
      ensures now - (watermarks[jobs[k].id].through + jobs[k].interval) < 30_000_000_000
    {
      assert !Due(watermarks, jobs[k], now);
    }
  }

  lemma AdvanceKeepsNoneDue(watermarks: map<string, Watermark>, jobs: seq<Job>, n: nat, now: int, job: Job)
    requires NoneDue(watermarks, jobs, n, now) && Due(watermarks, job, now) && job.interval > 0
    ensures NoneDue(watermarks[job.id := Watermark(job.revision, watermarks[job.id].through + job.interval)], jobs, n, now)
  {
  }

  /** A due window whose attempt failed this way. */
  ghost predicate Held(jobs: seq<Job>, watermarks: map<string, Watermark>, now: int, outcome: (Job, int) -> Outcome,
                       what: Outcome, i: int)
  {
    0 <= i < |jobs| && Due(watermarks, jobs[i], now) && outcome(jobs[i], watermarks[jobs[i].id].through) == what
  }

  lemma IsJustified(e: Event, jobs: seq<Job>, i: int, outcome: (Job, int) -> Outcome)
    requires 0 <= i < |jobs| && e.Consumed? && jobs[i].enabled && e.job == jobs[i].id && e.revision == jobs[i].revision
    requires e.end == e.start + jobs[i].interval && (e.generated <==> outcome(jobs[i], e.start) == Generated)
    requires outcome(jobs[i], e.start) == Generated || outcome(jobs[i], e.start) == RetentionGap
    ensures Justified(e, jobs, i, outcome)
  {
  }

  lemma IsHeld(jobs: seq<Job>, watermarks: map<string, Watermark>, now: int, outcome: (Job, int) -> Outcome,
               what: Outcome, i: int)
    requires 0 <= i < |jobs| && Due(watermarks, jobs[i], now) && outcome(jobs[i], watermarks[jobs[i].id].through) == what
    ensures Held(jobs, watermarks, now, outcome, what, i)
  {
  }

  ghost function GeneratedIn(log: seq<Event>): nat {
    if log == [] then 0
    else GeneratedIn(log[..|log| - 1]) + if log[|log| - 1].Consumed? && log[|log| - 1].generated then 1 else 0
  }

  lemma CountSnoc(log: seq<Event>, e: Event)
    ensures GeneratedIn(log + [e]) == GeneratedIn(log) + if e.Consumed? && e.generated then 1 else 0
  {
    assert (log + [e])[..|log|] == log;
  }

  class Engine {
    var jobs: seq<Job>
    var watermarks: map<string, Watermark>
    ghost var log: seq<Event>

    ghost predicate Valid()
      reads this
    {
      && History(log) && Stored(watermarks, log)
      && (forall k :: 0 <= k < |jobs| ==> jobs[k].interval > 0)
      && forall id :: id in watermarks ==> OutboxModel.SafeIdentity(id) && watermarks[id].revision > 0
    }

    constructor ()
      ensures Valid() && log == [] && jobs == [] && watermarks == map[]
    {
      jobs, watermarks, log := [], map[], [];
    }

    /** The process stops: the job list is lost, the stored watermarks are not. */
    method Restart()
      requires Valid()
      modifies this
      ensures Valid() && log == old(log) && watermarks == old(watermarks) && jobs == []
    {
      jobs := [];
    }

    /** Stores one watermark row; an id that is no identity, or revision zero, is refused. */
    method StoreWatermark(e: Event) returns (stored: bool)
      requires Valid() && Allowed(log, e)
      modifies this
      ensures Valid() && jobs == old(jobs)
      ensures stored <==> OutboxModel.SafeIdentity(e.job) && e.revision > 0
      ensures log == old(log) + if stored then [e] else []
      ensures watermarks == if stored then old(watermarks)[e.job := MarkOf(e)] else old(watermarks)
    {
      hide Allowed;
      if !OutboxModel.SafeIdentity(e.job) || e.revision == 0 {
        return false;
      }
      HistorySnoc(log, e);
      forall job ensures Mark(log + [e], job) == if e.job != job then Mark(log, job) else Some(MarkOf(e)) {
        MarkSnoc(log, e, job);
      }
      hide Mark, History, OutboxModel.SafeIdentity;
      watermarks := watermarks[e.job := MarkOf(e)];
      log := log + [e];
      return true;
    }

    /**
     * A new revision starts at the next boundary; a known one keeps its watermark. A refused list leaves the old list
     * in force, but activations stored before the refusal stay.
     */
    method ApplyJobs(list: seq<Job>, now: int) returns (r: Result<(), Error>)
      requires Valid()
      modifies this
      ensures Valid() && old(log) <= log
      ensures forall k :: |old(log)| <= k < |log| ==> log[k].Activated? && log[k].at == now
      ensures jobs == if r.Ok? then SortJobs(list) else old(jobs)
      ensures Consistent(list) ==> (r.Ok? <==> forall job :: job in list ==> Acceptable(job, now, old(watermarks)))
      ensures r.Ok? ==> forall job :: job in list ==> WellFormed(job) && (job.enabled ==> job.id in watermarks)
      ensures r.Ok? && Consistent(list) ==>
                forall job :: job in list && job.enabled ==> job.id in watermarks && watermarks[job.id].revision == job.revision
      ensures KeepsUnrevised(old(watermarks), watermarks, list)
    {
      hide History, Mark, LeastBoundary, Stored, SortJobs, OutboxModel.SafeIdentity, Progress, Acceptable, Unrevised, Consistent;
      var sorted := SortJobs(list);
      NoProgressYet(watermarks, sorted, now);
      for i := 0 to |sorted|
        invariant Valid() && old(log) <= log && jobs == old(jobs)
        invariant forall k :: |old(log)| <= k < |log| ==> log[k].Activated? && log[k].at == now
        invariant Progress(old(watermarks), watermarks, sorted, i, now)
      {
        var job := sorted[i];
        if !WellFormed(job) {
          Refused(old(watermarks), watermarks, list, i, now);
          return Err(InvalidJob);
        }
        if job.enabled && !Known(watermarks, job) {
          var boundary := NextBoundary(now, job.interval);
          if boundary.Err? {
            Refused(old(watermarks), watermarks, list, i, now);
            return Err(InvalidInterval);
          }
          CanActivate(watermarks, log, job, now, boundary.value);
          ghost var before := watermarks;
          var stored := StoreWatermark(Activated(job.id, job.revision, now, job.interval, boundary.value));
          if !stored {
            Refused(old(watermarks), watermarks, list, i, now);
            return Err(InvalidJob);
          }
          ActivatedOne(old(watermarks), before, watermarks, sorted, i, now);
        } else {
          KnownOne(old(watermarks), watermarks, sorted, i, now);
        }
      }
      AllApplied(old(watermarks), watermarks, list, now);
      jobs := sorted;
      return Ok(());
    }

    /** Consumes due windows in job order until the batch is full, a window fails, or nothing is due. */
    method GenerateDue(maximum: nat, now: int, outcome: (Job, int) -> Outcome) returns (r: Result<Run, Error>)
      requires Valid()
      modifies this
      ensures Valid() && jobs == old(jobs) && old(log) <= log
      ensures r.Ok? <==> 1 <= maximum <= 100
      ensures r.Err? ==> log == old(log)
      ensures r.Ok? ==> |log| - |old(log)| == r.value.generated + r.value.skipped <= maximum
      ensures r.Ok? ==> r.value.generated == GeneratedIn(log) - GeneratedIn(old(log))
      ensures AllJustified(log, |old(log)|, now, jobs, outcome)
      ensures r.Ok? ==> !(r.value.storageBlocked && r.value.sourceDeferred)
      ensures r.Ok? && r.value.storageBlocked ==> exists i :: Held(jobs, watermarks, now, outcome, StorageFailed, i)
      ensures r.Ok? && r.value.sourceDeferred ==> exists i :: Held(jobs, watermarks, now, outcome, Unavailable, i)
      ensures r.Ok? && !r.value.storageBlocked && !r.value.sourceDeferred && r.value.generated + r.value.skipped < maximum ==>
                NoneDue(watermarks, jobs, |jobs|, now) && AllCaughtUp(watermarks, jobs, now)
    {
      hide History, Mark, Stored, GeneratedIn, Justified, Held, AllJustified, Allowed, AllCaughtUp;
      NothingYet(log, now, jobs, outcome);
      if maximum == 0 || maximum > 100 {
        return Err(InvalidLimit);
      }
      var run := Run(0, 0, false, false);
      for i := 0 to |jobs|
        invariant Valid() && jobs == old(jobs) && old(log) <= log
        invariant !run.storageBlocked && !run.sourceDeferred
        invariant |log| - |old(log)| == run.generated + run.skipped <= maximum
        invariant run.generated == GeneratedIn(log) - GeneratedIn(old(log))
        invariant AllJustified(log, |old(log)|, now, jobs, outcome)
        invariant run.generated + run.skipped < maximum ==> NoneDue(watermarks, jobs, i, now)
      {
        while run.generated + run.skipped < maximum && Due(watermarks, jobs[i], now)
          invariant Valid() && jobs == old(jobs) && old(log) <= log
          invariant !run.storageBlocked && !run.sourceDeferred
          invariant |log| - |old(log)| == run.generated + run.skipped <= maximum
          invariant run.generated == GeneratedIn(log) - GeneratedIn(old(log))
        invariant AllJustified(log, |old(log)|, now, jobs, outcome)
          invariant run.generated + run.skipped < maximum ==> NoneDue(watermarks, jobs, i, now)
          decreases maximum - (run.generated + run.skipped)
        {
          var job := jobs[i];
          var start := watermarks[job.id].through;
          var what := outcome(job, start);
          if what == StorageFailed {
            IsHeld(jobs, watermarks, now, outcome, StorageFailed, i);
            return Ok(run.(storageBlocked := true));
          } else if what == Unavailable {
            IsHeld(jobs, watermarks, now, outcome, Unavailable, i);
            return Ok(run.(sourceDeferred := true));
          }
          ghost var e := Consumed(job.id, job.revision, now, start, start + job.interval, what == Generated);
          CanConsume(watermarks, log, job, now, what == Generated);
          IsJustified(e, jobs, i, outcome);
          JustifiedSnoc(log, |old(log)|, now, jobs, outcome, e, i);
          AdvanceKeepsNoneDue(watermarks, jobs, i, now, job);
          CountSnoc(log, e);
          var stored := StoreWatermark(Consumed(job.id, job.revision, now, start, start + job.interval, what == Generated));
          if what == Generated {
            run := run.(generated := run.generated + 1);
          } else {
            run := run.(skipped := run.skipped + 1);
          }
        }
      }
      if run.generated + run.skipped < maximum {
        CaughtUp(watermarks, jobs, now);
      }
      return Ok(run);
    }
  }

  /** The list never asks for another revision of this job. */
  ghost predicate Unrevised(list: seq<Job>, id: string, revision: nat) {
    forall job :: job in list && job.id == id && job.enabled ==> job.revision == revision
  }

  ghost predicate KeepsUnrevised(before: map<string, Watermark>, after: map<string, Watermark>, list: seq<Job>) {
    forall id :: id in before && Unrevised(list, id, before[id].revision) ==> id in after && after[id] == before[id]
  }

  /** What the first n entries of the sorted list have done to the watermarks. */
  ghost predicate Progress(before: map<string, Watermark>, after: map<string, Watermark>, list: seq<Job>, n: nat, now: int) {
    && n <= |list|
    && (forall k :: 0 <= k < n ==> WellFormed(list[k]) && (list[k].enabled ==> list[k].id in after))
    && KeepsUnrevised(before, after, list)
    && (forall id :: SameMark(before, after, id) || Reached(list, n, id, after))
    && (Consistent(list) ==> forall k :: 0 <= k < n ==>
          Acceptable(list[k], now, before) && (list[k].enabled ==> Known(after, list[k])))
  }

  lemma NoProgressYet(watermarks: map<string, Watermark>, list: seq<Job>, now: int)
    ensures Progress(watermarks, watermarks, list, 0, now)
  {
  }

  lemma KnownOne(before: map<string, Watermark>, after: map<string, Watermark>, list: seq<Job>, n: nat, now: int)
    requires Progress(before, after, list, n, now) && n < |list| && WellFormed(list[n])
    requires list[n].enabled ==> Known(after, list[n])
    ensures Progress(before, after, list, n + 1, now)
  {
    hide OutboxModel.SafeIdentity;
    StillReached(before, after, after, list, n, list[n]);
    AcceptedBefore(before, after, list, n, now);
    hide Consistent, Unrevised, Reached, SameMark;
  }

  /** A known entry was acceptable: known from the start, or made known by the same entry earlier in the list. */
  lemma AcceptedBefore(before: map<string, Watermark>, after: map<string, Watermark>, list: seq<Job>, n: nat, now: int)
    requires Progress(before, after, list, n, now) && n < |list| && WellFormed(list[n])
    requires list[n].enabled ==> Known(after, list[n])
    ensures Consistent(list) ==> Acceptable(list[n], now, before)
  {
    hide OutboxModel.SafeIdentity, KeepsUnrevised;
    var job := list[n];
    if Consistent(list) && job.enabled && !Known(before, job) {
      assert SameMark(before, after, job.id) || Reached(list, n, job.id, after);
      var k :| 0 <= k < n && list[k].enabled && list[k].id == job.id && Known(after, list[k]);
      assert list[k] in list && job in list;
    }
  }

  lemma ActivatedOne(before: map<string, Watermark>, mid: map<string, Watermark>, after: map<string, Watermark>, list: seq<Job>,
                     n: nat, now: int)
    requires Progress(before, mid, list, n, now) && n < |list| && WellFormed(list[n])
    requires list[n].enabled && !Known(mid, list[n]) && OutboxModel.SafeIdentity(list[n].id)
    requires 0 <= now && now + list[n].interval <= INT64_MAX
    requires Known(after, list[n]) && forall id :: id != list[n].id ==> SameMark(mid, after, id)
    ensures Progress(before, after, list, n + 1, now)
  {
    hide OutboxModel.SafeIdentity;
    StillReached(before, mid, after, list, n, list[n]);
    UnrevisedStays(before, mid, after, list, n);
    var job := list[n];
    if Consistent(list) {
      assert job in list;
      forall k | 0 <= k < n && list[k].enabled ensures Known(after, list[k]) {
        assert list[k] in list && Known(mid, list[k]);
        assert list[k].id != job.id;
        assert SameMark(mid, after, list[k].id);
      }
    }
    forall k | 0 <= k < n && list[k].enabled ensures list[k].id in after {
      assert list[k].id != job.id ==> SameMark(mid, after, list[k].id);
    }
    hide Consistent, Unrevised, Reached, KeepsUnrevised;
  }

  lemma UnrevisedStays(before: map<string, Watermark>, mid: map<string, Watermark>, after: map<string, Watermark>, list: seq<Job>,
                       n: nat)
    requires KeepsUnrevised(before, mid, list) && n < |list| && list[n].enabled && !Known(mid, list[n])
    requires forall id :: id != list[n].id ==> SameMark(mid, after, id)
    ensures KeepsUnrevised(before, after, list)
  {
    forall id | id in before && Unrevised(list, id, before[id].revision) ensures id in after && after[id] == before[id] {
      if id != list[n].id {
        assert SameMark(mid, after, id);
      }
    }
  }

  lemma SameMembers(list: seq<Job>)
    ensures Consistent(SortJobs(list)) <==> Consistent(list)
    ensures forall id, revision :: Unrevised(SortJobs(list), id, revision) <==> Unrevised(list, id, revision)
  {
    SortedById(list);
    hide SortJobs;
  }

  lemma Refused(before: map<string, Watermark>, after: map<string, Watermark>, list: seq<Job>, n: nat, now: int)
    requires
      var sorted := SortJobs(list);
      Progress(before, after, sorted, n, now) && n < |sorted|
      && (!WellFormed(sorted[n])
          || (sorted[n].enabled && !Known(after, sorted[n])
              && !(OutboxModel.SafeIdentity(sorted[n].id) && 0 <= now && now + sorted[n].interval <= INT64_MAX)))
    ensures Consistent(list) ==> exists job :: job in list && !Acceptable(job, now, before)
    ensures KeepsUnrevised(before, after, list)
  {
    SortedById(list);
    SameMembers(list);
    hide OutboxModel.SafeIdentity, SortJobs;
    var sorted := SortJobs(list);
    var job := sorted[n];
    assert job in sorted;
    if Consistent(list) && WellFormed(job) {
      assert SameMark(before, after, job.id) || Reached(sorted, n, job.id, after);
      ReachedIsKnown(sorted, n, job, after);
      assert !Acceptable(job, now, before);
    }
  }

  lemma AllApplied(before: map<string, Watermark>, after: map<string, Watermark>, list: seq<Job>, now: int)
    requires Progress(before, after, SortJobs(list), |SortJobs(list)|, now)
    ensures forall job :: job in list ==> WellFormed(job) && (job.enabled ==> job.id in after)
    ensures Consistent(list) ==> forall job :: job in list ==> Acceptable(job, now, before) && (job.enabled ==> Known(after, job))
    ensures forall k :: 0 <= k < |SortJobs(list)| ==> WellFormed(SortJobs(list)[k])
    ensures KeepsUnrevised(before, after, list)
  {
    SortedById(list);
    SameMembers(list);
    hide SortJobs, Consistent, Unrevised, Acceptable, Known, Reached, SameMark;
    var sorted := SortJobs(list);
    forall job | job in list ensures WellFormed(job) && (job.enabled ==> job.id in after)
      ensures Consistent(list) ==> Acceptable(job, now, before) && (job.enabled ==> Known(after, job))
    {
      assert job in sorted;
      var k :| 0 <= k < |sorted| && sorted[k] == job;
    }
  }

  ghost predicate SameMark(before: map<string, Watermark>, after: map<string, Watermark>, id: string) {
    if id in before then id in after && after[id] == before[id] else id !in after
  }

  /** An entry already seen left this watermark. */
  ghost predicate Reached(list: seq<Job>, n: nat, id: string, watermarks: map<string, Watermark>) {
    exists k :: 0 <= k < n && k < |list| && list[k].enabled && list[k].id == id && Known(watermarks, list[k])
  }

  lemma ReachedIsKnown(list: seq<Job>, n: nat, job: Job, watermarks: map<string, Watermark>)
    requires job in list
    ensures Consistent(list) && Reached(list, n, job.id, watermarks) ==> Known(watermarks, job)
  {
    if Consistent(list) && Reached(list, n, job.id, watermarks) {
      var k :| 0 <= k < n && k < |list| && list[k].enabled && list[k].id == job.id && Known(watermarks, list[k]);
      assert list[k] in list;
    }
  }

  lemma StillReached(old_: map<string, Watermark>, before: map<string, Watermark>, after: map<string, Watermark>,
                     list: seq<Job>, n: nat, job: Job)
    requires n < |list| && list[n] == job
    requires forall id :: SameMark(old_, before, id) || Reached(list, n, id, before)
    requires after == before || (job.enabled && Known(after, job) && forall id :: id != job.id ==> SameMark(before, after, id))
    ensures forall id :: SameMark(old_, after, id) || Reached(list, n + 1, id, after)
  {
    forall id ensures SameMark(old_, after, id) || Reached(list, n + 1, id, after) {
      if id == job.id && after != before {
        assert list[n].id == id && Known(after, list[n]);
      } else {
        assert SameMark(old_, before, id) || Reached(list, n, id, before);
        if Reached(list, n, id, before) {
          var k :| 0 <= k < n && k < |list| && list[k].enabled && list[k].id == id && Known(before, list[k]);
          assert after == before || SameMark(before, after, id);
          assert Known(after, list[k]);
        }
      }
    }
  }

  lemma CanActivate(watermarks: map<string, Watermark>, log: seq<Event>, job: Job, now: int, boundary: int)
    requires Stored(watermarks, log) && job.interval > 0 && LeastBoundary(boundary, now, job.interval)
    requires !(job.id in watermarks && watermarks[job.id].revision == job.revision)
    ensures Allowed(log, Activated(job.id, job.revision, now, job.interval, boundary))
  {
    hide LeastBoundary;
  }

  lemma CanConsume(watermarks: map<string, Watermark>, log: seq<Event>, job: Job, now: int, generated: bool)
    requires Stored(watermarks, log) && Due(watermarks, job, now) && job.interval > 0
    ensures
      var start := watermarks[job.id].through;
      Allowed(log, Consumed(job.id, job.revision, now, start, start + job.interval, generated))
  {
  }

  // ---------------------------------------------------------------- what every history keeps

  datatype Window = Window(start: int, end: int)

  /** The windows this job consumed at or after position `from`, in order. */
  function Windows(log: seq<Event>, from: nat, job: string): seq<Window> {
    if |log| <= from then []
    else
      var e := log[|log| - 1];
      Windows(log[..|log| - 1], from, job) + if e.Consumed? && e.job == job then [Window(e.start, e.end)] else []
  }

  /** Windows laid end to end from `from` to `to`. */
  ghost predicate Chain(ws: seq<Window>, from: int, to: int) {
    if ws == [] then from == to
    else
      var last := ws[|ws| - 1];
      last.start < last.end == to && Chain(ws[..|ws| - 1], from, last.start)
  }

  predicate Holds(w: Window, t: int) {
    w.start <= t < w.end
  }

  lemma {:induction false} ChainRises(ws: seq<Window>, from: int, to: int, k: nat)
    requires Chain(ws, from, to) && k < |ws|
    ensures from <= ws[k].start < ws[k].end <= to
    decreases |ws|
  {
    var init := ws[..|ws| - 1];
    if k < |ws| - 1 {
      ChainRises(init, from, ws[|ws| - 1].start, k);
    } else if |init| > 0 {
      ChainRises(init, from, ws[|ws| - 1].start, |init| - 1);
      ChainRises(init, from, ws[|ws| - 1].start, 0);
    }
  }

  /** A chain is a tiling: every instant of the span is in exactly one window, and no instant outside is in any. */
  lemma {:induction false} ChainTiles(ws: seq<Window>, from: int, to: int, t: int)
    requires Chain(ws, from, to)
    ensures from <= t < to <==> exists k :: 0 <= k < |ws| && Holds(ws[k], t)
    ensures forall j, k :: 0 <= j < |ws| && 0 <= k < |ws| && Holds(ws[j], t) && Holds(ws[k], t) ==> j == k
    decreases |ws|
  {
    forall k | 0 <= k < |ws| ensures from <= ws[k].start < ws[k].end <= to {
      ChainRises(ws, from, to, k);
    }
    if ws != [] {
      var init, last := ws[..|ws| - 1], ws[|ws| - 1];
      ChainTiles(init, from, last.start, t);
      forall k | 0 <= k < |init| ensures ws[k].end <= last.start {
        ChainRises(init, from, last.start, k);
      }
      if from <= t < to {
        if t < last.start {
          var k :| 0 <= k < |init| && Holds(init[k], t);
          assert Holds(ws[k], t);
        } else {
          assert Holds(ws[|ws| - 1], t);
        }
      }
      forall j, k | 0 <= j < |ws| && 0 <= k < |ws| && Holds(ws[j], t) && Holds(ws[k], t) ensures j == k {
        if j < |init| && k < |init| {
          assert Holds(init[j], t) && Holds(init[k], t);
        }
      }
    }
  }

  ghost predicate NoActivation(log: seq<Event>, from: nat, job: string) {
    forall k :: from <= k < |log| ==> !(log[k].Activated? && log[k].job == job)
  }

  /** Since an activation, restarts included, the windows consumed chain from its boundary to the stored watermark. */
  lemma {:induction false} WindowsTile(log: seq<Event>, a: nat)
    requires History(log) && a < |log| && log[a].Activated? && NoActivation(log, a + 1, log[a].job)
    ensures LeastBoundary(log[a].through, log[a].at, log[a].interval)
    ensures Mark(log, log[a].job).Some? && Mark(log, log[a].job).value.revision == log[a].revision
    ensures Chain(Windows(log, a + 1, log[a].job), log[a].through, Mark(log, log[a].job).value.through)
    decreases |log|
  {
    hide LeastBoundary;
    assert Allowed(log[..a], log[a]);
    if |log| > a + 1 {
      var init, e, job := log[..|log| - 1], log[|log| - 1], log[a].job;
      Prefix(log);
      WindowsTile(init, a);
      assert Allowed(log[..|log| - 1], log[|log| - 1]);
      if e.job == job {
        var ws := Windows(init, a + 1, job);
        assert (ws + [Window(e.start, e.end)])[..|ws|] == ws;
      } else {
        assert Windows(log, a + 1, job) == Windows(init, a + 1, job);
      }
    }
  }

  lemma Prefix(log: seq<Event>)
    requires History(log) && log != []
    ensures History(log[..|log| - 1])
  {
    hide Allowed;
    var init := log[..|log| - 1];
    forall k | 0 <= k < |init| ensures Allowed(init[..k], init[k]) {
      assert init[..k] == log[..k];
    }
  }

  ghost predicate ClockRises(log: seq<Event>) {
    forall i, j :: 0 <= i < j < |log| ==> log[i].at <= log[j].at
  }

  lemma {:induction false} ConsumedBehindMark(log: seq<Event>, i: nat)
    requires History(log) && ClockRises(log) && i < |log| && log[i].Consumed?
    ensures Mark(log, log[i].job).Some? && log[i].end <= Mark(log, log[i].job).value.through
    decreases |log|
  {
    hide LeastBoundary;
    var init, e := log[..|log| - 1], log[|log| - 1];
    assert Allowed(log[..|log| - 1], log[|log| - 1]);
    if i < |init| {
      Prefix(log);
      assert init[i] == log[i];
      ConsumedBehindMark(init, i);
      assert Allowed(log[..i], log[i]);
      if e.Activated? && e.job == log[i].job {
        BoundaryNotBefore(e.through, e.at, e.interval);
      }
    }
  }

  lemma BoundaryNotBefore(b: int, now: int, interval: int)
    requires interval > 0 && LeastBoundary(b, now, interval)
    ensures now <= b
  {
  }

  // ---------------------------------------------------------------- exactly when windows never overlap

  /** Every window of the job starts at or after the end of every one consumed before it. */
  ghost predicate InOrder(log: seq<Event>, job: string) {
    forall i, j :: 0 <= i < j < |log| && log[i].Consumed? && log[j].Consumed? && log[i].job == job && log[j].job == job ==>
      log[i].end <= log[j].start
  }

  /** The next thing that happened to the activated job was a consumed window. */
  ghost predicate PutToUse(log: seq<Event>, a: nat, j: nat) {
    && a < j < |log| && log[a].Activated? && log[j].Consumed? && log[j].job == log[a].job
    && forall k :: a < k < j ==> log[k].job != log[a].job
  }

  /** No activation put to use had its boundary before the end of a window the job had already consumed. */
  ghost predicate NeverBehind(log: seq<Event>, job: string) {
    forall a: nat, j: nat, i: nat :: PutToUse(log, a, j) && log[a].job == job && i < a && log[i].Consumed? && log[i].job == job ==>
      log[i].end <= log[a].through
  }

  /** The job's latest event before position n. */
  lemma {:induction false} Latest(log: seq<Event>, n: nat, job: string) returns (m: nat)
    requires n <= |log| && Mark(log[..n], job).Some?
    ensures m < n && log[m].job == job && (forall k :: m < k < n ==> log[k].job != job)
    ensures Mark(log[..n], job) == Some(MarkOf(log[m]))
    decreases n
  {
    assert log[..n][..n - 1] == log[..n - 1];
    if log[n - 1].job == job {
      m := n - 1;
    } else {
      m := Latest(log, n - 1, job);
    }
  }

  lemma {:induction false} InOrderTo(log: seq<Event>, job: string, i: nat, j: nat)
    requires History(log) && NeverBehind(log, job) && i < j < |log|
    requires log[i].Consumed? && log[j].Consumed? && log[i].job == job && log[j].job == job
    ensures log[i].end <= log[j].start
    decreases j
  {
    hide LeastBoundary, Mark, NeverBehind;
    assert Allowed(log[..j], log[j]);
    var m := Latest(log, j, job);
    assert i <= m;
    if log[m].Consumed? {
      assert Allowed(log[..m], log[m]);
      if i < m {
        InOrderTo(log, job, i, m);
      }
    } else {
      BoundaryHolds(log, job, m, j, i);
    }
  }

  lemma BoundaryHolds(log: seq<Event>, job: string, a: nat, j: nat, i: nat)
    requires NeverBehind(log, job) && PutToUse(log, a, j) && log[a].job == job && i < a && log[i].Consumed? && log[i].job == job
    ensures log[i].end <= log[a].through
  {
  }

  /**
   * Over a job's whole life, whatever revisions come and go and whatever the clock does, its windows are consumed in order
   * and without overlap if and only if no activation that was put to use began before a window already consumed had ended.
   */
  lemma InOrderIff(log: seq<Event>, job: string)
    requires History(log)
    ensures InOrder(log, job) <==> NeverBehind(log, job)
  {
    hide LeastBoundary, Mark;
    if NeverBehind(log, job) {
      forall i, j | 0 <= i < j < |log| && log[i].Consumed? && log[j].Consumed? && log[i].job == job && log[j].job == job
        ensures log[i].end <= log[j].start
      {
        InOrderTo(log, job, i, j);
      }
    }
    if InOrder(log, job) {
      forall a: nat, j: nat, i: nat | PutToUse(log, a, j) && log[a].job == job && i < a && log[i].Consumed? && log[i].job == job
        ensures log[i].end <= log[a].through
      {
        assert Allowed(log[..j], log[j]);
        var m := Latest(log, j, job);
        assert m == a;
      }
    }
  }

  /**
   * Under a clock that never goes back: over a job's whole life, whatever revisions come and go, no two consumed
   * windows overlap, they are consumed in time order, and none before its end has settled.
   */
  lemma NeverTwice(log: seq<Event>, i: nat, j: nat)
    requires History(log) && ClockRises(log) && i < j < |log|
    requires log[i].Consumed? && log[j].Consumed? && log[i].job == log[j].job
    ensures log[i].start < log[i].end <= log[j].start < log[j].end <= log[j].at - 30_000_000_000
  {
    hide LeastBoundary, Mark;
    var before := log[..j];
    forall k | 0 <= k < |before| ensures Allowed(before[..k], before[k]) {
      assert before[..k] == log[..k];
      assert Allowed(log[..k], log[k]);
    }
    assert Allowed(log[..j], log[j]) && Allowed(log[..i], log[i]);
    ConsumedBehindMark(before, i);
  }
}
