/** What startup makes of whatever disk a crash left, and what an erase rules out for good. */
module OutboxRecovery {
  import opened Foundation
  import opened OutboxModel
  import opened OutboxSafety
  import opened Outbox

  /** A payload that no erase marked and that some channel may still want. */
  ghost predicate Owed(d: Disk, p: Path) {
    && p in d.files && !IsTemp(p.name)
    && (Stem(p.name) in d.rows ==> !d.rows[Stem(p.name)].deletePending && !Complete(d.rows[Stem(p.name)]))
  }

  /** Every file after startup is a payload that was there before, under a row that describes it. */
  ghost predicate FileSettled(before: Disk, after: Disk, p: Path, env: Env)
    requires p in after.files
  {
    && p in before.files && after.files[p] == before.files[p] && !IsTemp(p.name)
    && Stem(p.name) in after.rows && p == PathOf(Stem(p.name), env)
    && after.rows[Stem(p.name)].present && Matches(after.rows[Stem(p.name)], after.files[p], env)
  }

  /** A row after startup either lost its payload or has exactly the payload it describes. */
  ghost predicate RowSettled(before: Disk, after: Disk, id: string, env: Env)
    requires id in after.rows
  {
    && !after.rows[id].deletePending
    && (after.rows[id].present <==> PathOf(id, env) in after.files)
    && (PathOf(id, env) in after.files ==> Matches(after.rows[id], after.files[PathOf(id, env)], env))
    && (if id in before.rows
        then !before.rows[id].deletePending && after.rows[id].deliveries == before.rows[id].deliveries
             && (!Complete(before.rows[id]) ==> after.rows[id] == before.rows[id])
        else PathOf(id, env) in before.files
             && after.rows[id] == RecoveredManifest(id, before.files[PathOf(id, env)], env))
  }

  ghost predicate Settled(before: Disk, after: Disk, env: Env) {
    && (forall p :: p in after.files ==> FileSettled(before, after, p, env))
    && (forall id :: id in after.rows ==> RowSettled(before, after, id, env))
    && (forall p :: Owed(before, p) ==> p in after.files)
    && (forall id :: id in before.rows && !before.rows[id].deletePending ==> id in after.rows)
    && (forall id :: id in before.rows && before.rows[id].deletePending ==>
          id !in after.rows && PathOf(id, env) !in after.files)
  }

  // ---------------------------------------------------------------- the startup disk, point by point

  /** Does startup remove this payload? */
  ghost predicate Removed(d: Disk, p: Path) {
    IsTemp(p.name) ||
    (Stem(p.name) in d.rows && (d.rows[Stem(p.name)].deletePending || Complete(d.rows[Stem(p.name)])))
  }

  lemma InPaths(d: Disk, ids: set<string>, p: Path, env: Env)
    requires Durable(d, env) && p in d.files && !IsTemp(p.name) && ids <= d.rows.Keys
    ensures p in Paths(ids, env) <==> Stem(p.name) in ids
  {
    hide Total, PathOf, IsTemp, Stem, SafeIdentity;
    assert CanonicalFile(p, env);
    CanonicalPath(Stem(p.name), env);
    forall id | id in ids ensures PathOf(id, env) == p <==> id == Stem(p.name) {
      assert RowKept(d, id, env);
    }
  }

  ghost function Reconciled(d: Disk, env: Env): Disk {
    var erased := Without(d, PendingIds(d), env);
    Cleaned(erased, erased.rows.Keys, env)
  }

  ghost function LiveComplete(d: Disk): set<string> {
    set id | id in d.rows && !d.rows[id].deletePending && Complete(d.rows[id])
  }

  lemma ReconciledFiles(d: Disk, env: Env)
    ensures Reconciled(d, env).files == d.files - Paths(PendingIds(d), env) - Paths(LiveComplete(d), env)
    ensures Startup(d, env) == Swept(Reconciled(d, env), Reconciled(d, env).files.Keys, env)
  {
    hide Complete, PathOf, Swept, CleanRow;
    var erased := Without(d, PendingIds(d), env);
    assert CompleteIds(erased, erased.rows.Keys) == LiveComplete(d);
  }

  lemma StartupFile(d: Disk, p: Path, env: Env)
    requires Durable(d, env)
    ensures p in Startup(d, env).files <==> p in d.files && !Removed(d, p)
    ensures p in Startup(d, env).files ==> Startup(d, env).files[p] == d.files[p]
  {
    ReconciledFiles(d, env);
    hide Durable, IsTemp, Complete, PathOf, Stem, Startup, Reconciled, Paths, WithAdopted;
    if p in d.files {
      if IsTemp(p.name) {
        assert p in Reconciled(d, env).files ==> p in Temps(Reconciled(d, env).files.Keys);
      } else {
        InPaths(d, PendingIds(d), p, env);
        InPaths(d, LiveComplete(d), p, env);
      }
    }
  }

  lemma ReconciledRow(d: Disk, id: string, env: Env)
    requires Durable(d, env)
    ensures id in Reconciled(d, env).rows <==> id in d.rows && !d.rows[id].deletePending
    ensures id in Reconciled(d, env).rows ==> Reconciled(d, env).rows[id] == CleanRow(d.rows[id], PathOf(id, env) in d.files)
  {
    if id in d.rows && !d.rows[id].deletePending {
      OwnPath(d, id, env);
      if PathOf(id, env) in d.files {
        InPaths(d, PendingIds(d), PathOf(id, env), env);
      }
    }
    hide Durable, IsTemp, Complete, PathOf, Stem, Paths, CleanRow, CompleteIds;
  }

  lemma OwnPath(d: Disk, id: string, env: Env)
    requires Durable(d, env) && id in d.rows
    ensures SafeIdentity(id) && !IsTemp(PathOf(id, env).name) && Stem(PathOf(id, env).name) == id
  {
    hide Total, IsTemp, Stem, SafeIdentity;
    assert RowKept(d, id, env);
    CanonicalName(id, env);
    CanonicalPath(id, env);
  }

  lemma StartupOldRow(d: Disk, id: string, env: Env)
    requires Durable(d, env) && id in d.rows
    ensures id in Startup(d, env).rows <==> !d.rows[id].deletePending
    ensures id in Startup(d, env).rows ==> Startup(d, env).rows[id] == CleanRow(d.rows[id], PathOf(id, env) in d.files)
  {
    ReconciledFiles(d, env);
    ReconciledRow(d, id, env);
    if d.rows[id].deletePending {
      PendingGone(d, id, env);
    }
    hide Durable, IsTemp, Complete, PathOf, Stem, Paths, CleanRow, Startup, Reconciled;
  }

  lemma PendingGone(d: Disk, id: string, env: Env)
    requires Durable(d, env) && id in d.rows && d.rows[id].deletePending
    ensures PathOf(id, env) !in Reconciled(d, env).files
  {
    ReconciledFiles(d, env);
    hide Durable, IsTemp, Complete, PathOf, Stem, Startup, Reconciled;
    assert PathOf(id, env) in Paths(PendingIds(d), env);
  }

  lemma StartupNewRow(d: Disk, id: string, env: Env)
    requires Durable(d, env) && id !in d.rows
    ensures id in Startup(d, env).rows <==> SafeIdentity(id) && PathOf(id, env) in d.files
    ensures id in Startup(d, env).rows ==>
              Startup(d, env).rows[id] == RecoveredManifest(id, d.files[PathOf(id, env)], env)
  {
    ReconciledFiles(d, env);
    ReconciledRow(d, id, env);
    var clean, p := Reconciled(d, env), PathOf(id, env);
    if SafeIdentity(id) && p in d.files {
      CanonicalName(id, env);
      CanonicalPath(id, env);
      InPaths(d, PendingIds(d), p, env);
      InPaths(d, LiveComplete(d), p, env);
      assert p in clean.files;
      hide Durable, IsTemp, Complete, PathOf, Stem, Paths, CleanRow, Startup, Reconciled, NameOf, RecoveredManifest;
      assert Adoptable(clean, p);
      assert id in Adopted(clean, clean.files.Keys);
    } else if id in Adopted(clean, clean.files.Keys) {
      StemsAreSafe(d, clean, id, env);
      hide Durable, IsTemp, Complete, PathOf, Stem, Paths, CleanRow, Startup, Reconciled, RecoveredManifest;
    }
  }

  lemma StemsAreSafe(d: Disk, clean: Disk, id: string, env: Env)
    requires Durable(d, env) && clean.files.Keys <= d.files.Keys && id in Adopted(clean, clean.files.Keys)
    ensures SafeIdentity(id)
  {
    hide Total, IsTemp, Stem, SafeIdentity, PathOf;
    var q :| q in clean.files.Keys && Adoptable(clean, q) && Stem(q.name) == id;
    assert CanonicalFile(q, env);
  }

  // ---------------------------------------------------------------- crash recovery

  lemma OldRowAfterStartup(d: Disk, id: string, env: Env)
    requires Durable(d, env) && id in d.rows && id in Startup(d, env).rows
    ensures RowSettled(d, Startup(d, env), id, env)
  {
    StartupFile(d, PathOf(id, env), env);
    StartupOldRow(d, id, env);
    OwnPath(d, id, env);
    assert RowKept(d, id, env);
    hide Durable, IsTemp, PathOf, Stem, Startup, SafeIdentity, Complete, Matches, NameOf, RecoveredManifest;
  }

  lemma RowAfterStartup(d: Disk, id: string, env: Env)
    requires Durable(d, env) && id in Startup(d, env).rows
    ensures RowSettled(d, Startup(d, env), id, env)
  {
    if id in d.rows {
      OldRowAfterStartup(d, id, env);
    } else {
      StartupFile(d, PathOf(id, env), env);
      StartupNewRow(d, id, env);
      CanonicalName(id, env);
      CanonicalPath(id, env);
    }
    hide Durable, IsTemp, PathOf, Stem, Startup, SafeIdentity, Complete, NameOf;
  }

  lemma FileAfterStartup(d: Disk, p: Path, env: Env)
    requires Durable(d, env) && p in Startup(d, env).files
    ensures FileSettled(d, Startup(d, env), p, env)
  {
    StartupFile(d, p, env);
    var id := Stem(p.name);
    PayloadName(d, p, env);
    if id in d.rows {
      StartupOldRow(d, id, env);
    } else {
      StartupNewRow(d, id, env);
    }
    RowAfterStartup(d, id, env);
    hide Durable, IsTemp, PathOf, Stem, Startup, SafeIdentity, Complete, Matches;
  }

  lemma PayloadName(d: Disk, p: Path, env: Env)
    requires Durable(d, env) && p in d.files && !IsTemp(p.name)
    ensures SafeIdentity(Stem(p.name)) && p == PathOf(Stem(p.name), env)
  {
    hide Total, IsTemp, Stem, SafeIdentity, PathOf;
    assert CanonicalFile(p, env);
  }

  /**
   * A crash after any durable write of any run, followed by startup: every payload file is manifested, every row has
   * exactly the payload it claims, nothing still owed was dropped, no live row was lost, and nothing erased came back.
   */
  lemma CrashRecovery(d: Disk, log: seq<Event>, env: Env)
    requires Durable(d, env) && Runs(d, log, env)
    ensures Settled(After(d, log, env), Startup(After(d, log, env), env), env)
  {
    RunDurable(d, log, env);
    StartupSettles(After(d, log, env), env);
  }

  lemma StartupSettles(d: Disk, env: Env)
    requires Durable(d, env)
    ensures Settled(d, Startup(d, env), env)
  {
    hide Durable, IsTemp, PathOf, Stem, Startup, SafeIdentity, Complete, FileSettled, RowSettled;
    var after := Startup(d, env);
    forall p | p in after.files ensures FileSettled(d, after, p, env) {
      FileAfterStartup(d, p, env);
    }
    forall id | id in after.rows ensures RowSettled(d, after, id, env) {
      RowAfterStartup(d, id, env);
    }
    forall p | Owed(d, p) ensures p in after.files {
      StartupFile(d, p, env);
    }
    forall id | id in d.rows
      ensures d.rows[id].deletePending ==> id !in after.rows && PathOf(id, env) !in after.files
      ensures !d.rows[id].deletePending ==> id in after.rows
    {
      StartupOldRow(d, id, env);
      OwnPath(d, id, env);
      StartupFile(d, PathOf(id, env), env);
    }
  }

  // ---------------------------------------------------------------- an erase is final

  /** Marked for erasure, or gone with its payload. */
  ghost predicate Going(d: Disk, id: string, env: Env) {
    if id in d.rows then d.rows[id].deletePending else PathOf(id, env) !in d.files
  }

  lemma GoingStep(d: Disk, e: Event, id: string, env: Env)
    requires Durable(d, env) && Enabled(d, e, env) && SafeIdentity(id) && Going(d, id, env)
    requires !(e.Publish? && e.id == id)
    ensures Going(Apply(d, e, env), id, env)
  {
    if id in d.rows {
      GoingRow(d, e, id, env);
    } else {
      GoneStaysGone(d, e, id, env);
    }
  }

  lemma GoingRow(d: Disk, e: Event, id: string, env: Env)
    requires Enabled(d, e, env) && id in d.rows && d.rows[id].deletePending
    ensures Going(Apply(d, e, env), id, env)
  {
    hide Total, IsTemp, SafeIdentity, PathOf, Complete, FreshRow;
    if id !in Dropped(e) {
      SurvivingRow(d, e, env, id);
      if !TouchesFiles(e) {
        RowWriteKeepsIdentity(d, e, env, id);
      }
    }
  }

  lemma GoneStaysGone(d: Disk, e: Event, id: string, env: Env)
    requires Enabled(d, e, env) && SafeIdentity(id) && id !in d.rows && PathOf(id, env) !in d.files
    requires !(e.Publish? && e.id == id)
    ensures id !in Apply(d, e, env).rows && PathOf(id, env) !in Apply(d, e, env).files
  {
    CanonicalPath(id, env);
    hide Total, IsTemp, SafeIdentity, PathOf, Complete, FreshRow, NewRow;
  }

  /** Once erased, an artifact stays erased through any later writes, crashes and startups, until it is published anew. */
  lemma {:induction false} ErasedStaysErased(d: Disk, log: seq<Event>, id: string, env: Env)
    requires Durable(d, env) && Runs(d, log, env) && SafeIdentity(id) && Going(d, id, env)
    requires forall k :: 0 <= k < |log| ==> !(log[k].Publish? && log[k].id == id)
    ensures Going(After(d, log, env), id, env)
    ensures id !in Startup(After(d, log, env), env).rows && PathOf(id, env) !in Startup(After(d, log, env), env).files
    decreases |log|
  {
    hide Durable, Enabled, Apply, Going, SafeIdentity, Startup;
    RunDurable(d, log, env);
    if log != [] {
      var init := log[..|log| - 1];
      ErasedStaysErased(d, init, id, env);
      RunDurable(d, init, env);
      GoingStep(After(d, init, env), log[|log| - 1], id, env);
    }
    GoingIsGoneAtStartup(After(d, log, env), id, env);
  }

  lemma GoingIsGoneAtStartup(d: Disk, id: string, env: Env)
    requires Durable(d, env) && SafeIdentity(id) && Going(d, id, env)
    ensures id !in Startup(d, env).rows && PathOf(id, env) !in Startup(d, env).files
  {
    hide Durable, IsTemp, Stem, Startup, SafeIdentity, Complete, PathOf;
    StartupFile(d, PathOf(id, env), env);
    if id in d.rows {
      StartupOldRow(d, id, env);
      OwnPath(d, id, env);
    } else {
      StartupNewRow(d, id, env);
    }
  }
}
