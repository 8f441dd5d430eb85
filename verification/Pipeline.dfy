/** Generation into the outbox: enqueue, then the watermark, and what a crash between the two leads to. */
module Pipeline {
  import opened Foundation
  import opened OutboxModel
  import opened OutboxSafety
  import opened Outbox
  import OutboxRecovery
  import Scheduler

  /** Artifact ids are made of job, revision and window. */
  type Naming = (string, nat, int, int) -> string

  /**
   * One due window: its artifact is enqueued first and the watermark moves only once that succeeded. A refusal moves
   * neither the disk nor the watermark.
   */
  method GenerateWindow(repo: Repository, engine: Scheduler.Engine, job: Scheduler.Job, q: Request, now: int, suffix: string,
                        available: nat, minimumFree: nat)
    returns (outcome: Scheduler.Outcome)
    requires repo.Valid() && engine.Valid() && Disciplined(q, repo.env)
    requires Scheduler.Due(engine.watermarks, job, now) && job.interval > 0
    modifies repo, engine
    ensures repo.Valid() && engine.Valid() && engine.jobs == old(engine.jobs)
    ensures outcome == Scheduler.Generated || outcome == Scheduler.StorageFailed || outcome == Scheduler.Unavailable
    ensures outcome == Scheduler.Generated ==> q.id in repo.disk.rows && SameManifest(repo.disk.rows[q.id], q)
    ensures outcome == Scheduler.Generated ==>
              engine.watermarks == old(engine.watermarks)[job.id :=
                Scheduler.Watermark(job.revision, old(engine.watermarks)[job.id].through + job.interval)]
    ensures outcome != Scheduler.Generated ==>
              repo.disk == old(repo.disk) && engine.watermarks == old(engine.watermarks) && engine.log == old(engine.log)
    ensures q.id in old(repo.disk).rows && !SameManifest(old(repo.disk).rows[q.id], q) ==> outcome != Scheduler.Generated
  {
    hide Repository.Valid, Storable, Stored, WellFormed, Scheduler.History, Scheduler.Stored;
    var start := engine.watermarks[job.id].through;
    Scheduler.CanConsume(engine.watermarks, engine.log, job, now, true);
    var r := repo.Enqueue(q, suffix, available, minimumFree);
    if r.Err? {
      return if r.error == InvalidDestination then Scheduler.Unavailable else Scheduler.StorageFailed;
    }
    StoredManifest(old(repo.disk), q, repo.env);
    var stored := engine.StoreWatermark(Scheduler.Consumed(job.id, job.revision, now, start, start + job.interval, true));
    return Scheduler.Generated;
  }

  lemma StoredManifest(d: Disk, q: Request, env: Env)
    ensures q.id in Stored(d, q, env).rows && SameManifest(Stored(d, q, env).rows[q.id], q)
  {
  }

  // ---------------------------------------------------------------- both stores together

  datatype State = State(disk: Disk, log: seq<Scheduler.Event>)

  /** A write of the repository, or a watermark with the artifact that was enqueued for it. */
  datatype Step = Write(e: Event) | Mark(m: Scheduler.Event, q: Request)

  ghost function After(s: State, t: Step, env: Env): State {
    match t
    case Write(e) => State(Apply(s.disk, e, env), s.log)
    case Mark(m, _) => State(s.disk, s.log + [m])
  }

  /** A generated window's watermark follows an enqueue that found or left that artifact's manifest. */
  ghost predicate Possible(s: State, t: Step, name: Naming, env: Env) {
    match t
    case Write(e) => Enabled(s.disk, e, env)
    case Mark(m, q) =>
      && Scheduler.Allowed(s.log, m)
      && (m.Consumed? && m.generated ==>
            q.id == name(m.job, m.revision, m.start, m.end) && q.id in s.disk.rows && SameManifest(s.disk.rows[q.id], q))
  }

  ghost function AfterAll(s: State, steps: seq<Step>, env: Env): State
    decreases |steps|
  {
    if steps == [] then s else After(AfterAll(s, steps[..|steps| - 1], env), steps[|steps| - 1], env)
  }

  ghost predicate Run(s: State, steps: seq<Step>, name: Naming, env: Env)
    decreases |steps|
  {
    steps == [] || (Run(s, steps[..|steps| - 1], name, env)
                    && Possible(AfterAll(s, steps[..|steps| - 1], env), steps[|steps| - 1], name, env))
  }

  /** The window the job stands at is manifested with another digest than anything generated for it now. */
  ghost predicate Conflict(s: State, job: string, revision: nat, start: int, end: int, checksum: string, name: Naming) {
    && Scheduler.Mark(s.log, job) == Some(Scheduler.Watermark(revision, start))
    && name(job, revision, start, end) in s.disk.rows
    && s.disk.rows[name(job, revision, start, end)].checksum == checksum
  }

  /** The step neither drops the artifact, nor activates the job anew, nor skips its window as expired. */
  ghost predicate NoWayOut(t: Step, job: string, end: int, id: string, checksum: string) {
    match t
    case Write(e) => id !in Dropped(e)
    case Mark(m, q) => m.job == job ==> m.Consumed? && m.generated && m.end == end && q.checksum != checksum
  }

  lemma ConflictStep(s: State, t: Step, job: string, revision: nat, start: int, end: int, checksum: string, name: Naming, env: Env)
    requires Conflict(s, job, revision, start, end, checksum, name) && Possible(s, t, name, env)
    requires NoWayOut(t, job, end, name(job, revision, start, end), checksum)
    ensures Conflict(After(s, t, env), job, revision, start, end, checksum, name)
    ensures t.Mark? ==> t.m.job != job
  {
    var id := name(job, revision, start, end);
    match t
    case Write(e) =>
      SurvivingRow(s.disk, e, env, id);
      if TouchesFiles(e) {
        KeepsRows(s.disk, e, env);
      } else {
        RowWriteKeepsIdentity(s.disk, e, env, id);
      }
      hide Enabled, NewRow, NewRows, NewFiles, Scheduler.Mark;
    case Mark(m, q) =>
      Scheduler.MarkSnoc(s.log, m, job);
      hide Scheduler.Mark;
  }

  /**
   * After a crash between enqueue and watermark the regenerated window differs from its manifest. However often it is
   * tried, the job stays where it is until the artifact is dropped, the job is activated anew, or the window expires.
   */
  lemma {:induction false} CrashBetweenStalls(s: State, steps: seq<Step>, job: string, revision: nat, start: int, end: int,
                                              checksum: string, name: Naming, env: Env)
    requires Conflict(s, job, revision, start, end, checksum, name) && Run(s, steps, name, env)
    requires forall k :: 0 <= k < |steps| ==> NoWayOut(steps[k], job, end, name(job, revision, start, end), checksum)
    ensures Conflict(AfterAll(s, steps, env), job, revision, start, end, checksum, name)
    ensures forall k :: 0 <= k < |steps| && steps[k].Mark? ==> steps[k].m.job != job
    decreases |steps|
  {
    hide Conflict, Possible, NoWayOut, After;
    if steps != [] {
      var init := steps[..|steps| - 1];
      CrashBetweenStalls(s, init, job, revision, start, end, checksum, name, env);
      ConflictStep(AfterAll(s, init, env), steps[|steps| - 1], job, revision, start, end, checksum, name, env);
      forall k | 0 <= k < |steps| && steps[k].Mark? ensures steps[k].m.job != job {
        if k < |init| {
          assert steps[k] == init[k];
        }
      }
    }
  }

  /** The crash itself: what enqueue stored is still manifested, with its digest, after startup, and the watermark is behind it. */
  lemma CrashLeavesConflict(d: Disk, q: Request, log: seq<Scheduler.Event>, job: string, revision: nat, start: int, end: int,
                            name: Naming, env: Env)
    requires OutboxModel.Durable(Stored(d, q, env), env) && q.id == name(job, revision, start, end)
    requires Scheduler.Mark(log, job) == Some(Scheduler.Watermark(revision, start))
    ensures Conflict(State(Startup(Stored(d, q, env), env), log), job, revision, start, end, q.checksum, name)
  {
    hide OutboxModel.Durable, Startup, Scheduler.Mark;
    OutboxRecovery.StartupOldRow(Stored(d, q, env), q.id, env);
  }
}
