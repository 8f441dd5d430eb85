/** A power loss may undo removals that no directory sync has followed: what survives it, and when an erase is final. */
module OutboxPowerLoss {
  import opened Foundation
  import opened OutboxModel
  import opened OutboxSafety
  import opened Outbox
  import opened OutboxRecovery
  import opened OutboxStartup

  /** The removals after which their directory was not synced, with the bytes that may come back. */
  ghost function Undoable(d: Disk, log: seq<Event>, env: Env): map<Path, Bytes>
    decreases |log|
  {
    if log == [] then map[]
    else
      var init := log[..|log| - 1];
      UndoableAfter(Undoable(d, init, env), After(d, init, env), log[|log| - 1], env)
  }

  ghost function UndoableAfter(u: map<Path, Bytes>, d: Disk, e: Event, env: Env): map<Path, Bytes> {
    match e
    case RemoveDelivered(id) => Removing(u, d, PathOf(id, env))
    case RemoveMarked(id) => Removing(u, d, PathOf(id, env))
    case RemoveTemp(temp) => Removing(u, d, temp)
    case WriteTemp(temp, _) => u - {temp}
    case Publish(id, _) => u - {PathOf(id, env)}
    case SyncDirectory(local) => map p | p in u && p.local != local :: u[p]
    case _ => u
  }

  ghost function Removing(u: map<Path, Bytes>, d: Disk, p: Path): map<Path, Bytes> {
    if p in d.files then u[p := d.files[p]] else u
  }

  /** Which removals came back is the disk's choice: any of those that can. */
  ghost predicate Among(back: map<Path, Bytes>, u: map<Path, Bytes>) {
    forall p :: p in back ==> p in u && back[p] == u[p]
  }

  ghost function Restored(d: Disk, back: map<Path, Bytes>): Disk {
    Disk(d.rows, d.files + back)
  }

  // ---------------------------------------------------------------- what can come back

  /** A removed payload was that of an erased artifact, of a forgotten one, or of a finished one it still matches. */
  ghost predicate Leftover(d: Disk, p: Path, body: Bytes, env: Env) {
    && p !in d.files && CanonicalFile(p, env)
    && (!IsTemp(p.name) && Stem(p.name) in d.rows && !d.rows[Stem(p.name)].deletePending ==>
          Complete(d.rows[Stem(p.name)]) && Matches(d.rows[Stem(p.name)], body, env))
  }

  ghost predicate Leftovers(d: Disk, u: map<Path, Bytes>, env: Env) {
    forall p :: p in u ==> Leftover(d, p, u[p], env)
  }

  lemma LeftoverStep(d: Disk, e: Event, u: map<Path, Bytes>, p: Path, env: Env)
    requires OutboxModel.Durable(d, env) && Enabled(d, e, env) && Leftovers(d, u, env) && p in UndoableAfter(u, d, e, env)
    ensures Leftover(Apply(d, e, env), p, UndoableAfter(u, d, e, env)[p], env)
  {
    if p in d.files {
      RemovedNow(d, e, u, p, env);
    } else {
      assert p in u && u[p] == UndoableAfter(u, d, e, env)[p] by {
        hide OutboxModel.Durable, Enabled, PathOf;
      }
      assert Leftover(d, p, u[p], env);
      LeftoverFile(d, e, p, u, env);
      if !IsTemp(p.name) {
        LeftoverRow(d, e, p, u[p], env);
      }
      hide OutboxModel.Durable, Enabled, PathOf, Apply, IsTemp, Stem, Complete, Matches, UndoableAfter, CanonicalFile;
    }
  }

  /** Nothing but a removal makes a file both gone and undoable. */
  lemma RemovedNow(d: Disk, e: Event, u: map<Path, Bytes>, p: Path, env: Env)
    requires OutboxModel.Durable(d, env) && Enabled(d, e, env) && Leftovers(d, u, env)
    requires p in d.files && p in UndoableAfter(u, d, e, env)
    ensures Leftover(Apply(d, e, env), p, UndoableAfter(u, d, e, env)[p], env)
  {
    assert p !in u by {
      assert p in u ==> Leftover(d, p, u[p], env);
    }
    assert CanonicalFile(p, env);
    assert e.RemoveDelivered? || e.RemoveMarked? || e.RemoveTemp?;
    if !e.RemoveTemp? {
      assert RowKept(d, e.id, env);
      OwnPath(d, e.id, env);
    }
    KeepsRows(d, e, env);
    hide Total, IsTemp, Stem, SafeIdentity, Complete, Matches, NameOf, CanonicalFile, NewRows;
  }

  lemma LeftoverFile(d: Disk, e: Event, p: Path, u: map<Path, Bytes>, env: Env)
    requires Enabled(d, e, env) && p !in d.files && p in UndoableAfter(u, d, e, env)
    ensures p !in Apply(d, e, env).files
  {
    hide Total, IsTemp, SafeIdentity, PathOf, Complete, FreshRow, NewRows;
  }

  lemma LeftoverRow(d: Disk, e: Event, p: Path, body: Bytes, env: Env)
    requires OutboxModel.Durable(d, env) && Enabled(d, e, env) && Leftover(d, p, body, env) && !IsTemp(p.name)
    requires !(e.Publish? && p == PathOf(e.id, env))
    ensures
      var id, rows := Stem(p.name), Apply(d, e, env).rows;
      id in rows && !rows[id].deletePending ==> Complete(rows[id]) && Matches(rows[id], body, env)
  {
    var id := Stem(p.name);
    if id in d.rows && id !in Dropped(e) {
      SurvivingRow(d, e, env, id);
      if !TouchesFiles(e) {
        RowWriteKeepsIdentity(d, e, env, id);
      } else {
        KeepsRows(d, e, env);
      }
      hide Total, IsTemp, Stem, SafeIdentity, PathOf, Complete, FreshRow, NewRow, NewRows, Enabled, OutboxModel.Durable;
    } else if id in d.rows {
      DroppedIsGone(d, e, id, env);
    } else {
      StillNoRow(d, e, id, env);
    }
  }

  lemma DroppedIsGone(d: Disk, e: Event, id: string, env: Env)
    requires Enabled(d, e, env) && id in d.rows && id in Dropped(e)
    ensures id !in Apply(d, e, env).rows
  {
    hide Total, IsTemp, SafeIdentity, PathOf, Complete, FreshRow, NewRow;
  }

  lemma StillNoRow(d: Disk, e: Event, id: string, env: Env)
    requires Enabled(d, e, env) && id !in d.rows && PathOf(id, env) !in d.files
    ensures id !in Apply(d, e, env).rows
  {
    hide Total, IsTemp, SafeIdentity, PathOf, Complete, FreshRow, NewRow;
  }

  lemma {:induction false} LeftoversRun(d: Disk, log: seq<Event>, env: Env)
    requires OutboxModel.Durable(d, env) && Runs(d, log, env)
    ensures Leftovers(After(d, log, env), Undoable(d, log, env), env)
    decreases |log|
  {
    hide OutboxModel.Durable, Enabled, Apply, UndoableAfter, Leftover;
    if log != [] {
      var init, e := log[..|log| - 1], log[|log| - 1];
      LeftoversRun(d, init, env);
      RunDurable(d, init, env);
      var u, before := Undoable(d, init, env), After(d, init, env);
      forall p | p in Undoable(d, log, env) ensures Leftover(After(d, log, env), p, Undoable(d, log, env)[p], env) {
        LeftoverStep(before, e, u, p, env);
      }
    }
  }

  // ---------------------------------------------------------------- startup after a power loss

  lemma RestoredCanonical(d: Disk, u: map<Path, Bytes>, back: map<Path, Bytes>, env: Env)
    requires OutboxModel.Durable(d, env) && Leftovers(d, u, env) && Among(back, u)
    ensures Canonical(Restored(d, back), env)
  {
    DurableIsCanonical(d, env);
    hide OutboxModel.Durable, CanonicalFile, CanonicalRow;
    forall p | p in d.files + back ensures CanonicalFile(p, env) {
      if p in back {
        assert Leftover(d, p, u[p], env);
      }
    }
  }

  /** A file that came back stays exactly when no row is left, or the row left denies having it. */
  ghost predicate Resurfaces(d: Disk, p: Path) {
    !IsTemp(p.name) && !(Stem(p.name) in d.rows && d.rows[Stem(p.name)].present)
  }

  lemma BackFile(d: Disk, u: map<Path, Bytes>, back: map<Path, Bytes>, p: Path, env: Env)
    requires OutboxModel.Durable(d, env) && Leftovers(d, u, env) && Among(back, u) && p in back
    ensures p in Restart(Restored(d, back), {}, env).files <==> Resurfaces(d, p)
  {
    RestoredCanonical(d, u, back, env);
    RestartFile(Restored(d, back), {}, p, env);
    assert Leftover(d, p, u[p], env);
    hide OutboxModel.Durable, Canonical, Restart, IsTemp, Stem, Complete, Matches, CanonicalFile;
  }

  lemma OwedStays(d: Disk, u: map<Path, Bytes>, back: map<Path, Bytes>, p: Path, env: Env)
    requires OutboxModel.Durable(d, env) && Leftovers(d, u, env) && Among(back, u) && p in d.files
    ensures p in Restart(Restored(d, back), {}, env).files <==> !Gone(d, p, {}, env)
    ensures p in Restart(Restored(d, back), {}, env).files ==> Restart(Restored(d, back), {}, env).files[p] == d.files[p]
  {
    RestoredCanonical(d, u, back, env);
    RestartFile(Restored(d, back), {}, p, env);
    assert p !in back by {
      assert p in back ==> Leftover(d, p, u[p], env);
    }
    hide OutboxModel.Durable, Canonical, Restart, IsTemp, Stem, LetsGo;
  }

  lemma LiveRowStays(d: Disk, u: map<Path, Bytes>, back: map<Path, Bytes>, id: string, env: Env)
    requires OutboxModel.Durable(d, env) && Leftovers(d, u, env) && Among(back, u) && id in d.rows && !d.rows[id].deletePending
    ensures id in Restart(Restored(d, back), {}, env).rows
    ensures
      var r := Restart(Restored(d, back), {}, env).rows[id];
      r.deliveries == d.rows[id].deliveries && (!Complete(d.rows[id]) ==> r == d.rows[id])
  {
    RestoredCanonical(d, u, back, env);
    RestartLiveRow(Restored(d, back), {}, id, env);
    OwnPath(d, id, env);
    var r, p, file := d.rows[id], PathOf(id, env), FileAt(Restored(d, back), PathOf(id, env));
    hide OutboxModel.Durable, Canonical, Restart, IsTemp, Stem, Complete, Matches, PathOf, SafeIdentity, AnyRow, CleanRow;
    if p in back {
      assert Leftover(d, p, u[p], env);
      FinishedRow(r, file, env);
    } else {
      LiveRowReconciled(d, id, env);
      assert file == FileAt(d, p);
      CleanKeeps(r, p in d.files);
    }
  }

  lemma FinishedRow(r: Row, file: Option<Bytes>, env: Env)
    requires Complete(r) && file.Some? && Matches(r, file.value, env)
    ensures AnyRow(r, file, true, env).deliveries == r.deliveries
  {
  }

  lemma CleanKeeps(r: Row, hasFile: bool)
    ensures CleanRow(r, hasFile).deliveries == r.deliveries && (!Complete(r) ==> CleanRow(r, hasFile) == r)
  {
  }

  /**
   * After a power loss at any point of any run, whichever unsynced removals it undid: startup succeeds, nothing owed is
   * lost, live rows keep their deliveries, and what came back stays exactly where no row claims it.
   */
  lemma PowerLossRecovery(d0: Disk, log: seq<Event>, back: map<Path, Bytes>, listing: seq<Path>, env: Env)
    requires OutboxModel.Durable(d0, env) && Runs(d0, log, env) && Among(back, Undoable(d0, log, env))
    requires OutboxSweep.Listing(listing, Tidied(Restored(After(d0, log, env), back), {}, env).files)
    ensures
      var d := After(d0, log, env);
      var after := Restart(Restored(d, back), {}, env);
      && AnyStartup(Restored(d, back), {}, listing, env) == Some(after)
      && (forall p :: Owed(d, p) ==> p in after.files && after.files[p] == d.files[p])
      && (forall id :: id in d.rows && !d.rows[id].deletePending ==>
            id in after.rows && after.rows[id].deliveries == d.rows[id].deliveries
            && (!Complete(d.rows[id]) ==> after.rows[id] == d.rows[id]))
      && (forall p :: p in back ==> (p in after.files <==> Resurfaces(d, p)))
  {
    hide OutboxModel.Durable, Canonical, Restart, AnyStartup, Tidied, IsTemp, Stem, Complete, Resurfaces, Undoable, Leftovers;
    var d, u := After(d0, log, env), Undoable(d0, log, env);
    RunDurable(d0, log, env);
    LeftoversRun(d0, log, env);
    RestoredCanonical(d, u, back, env);
    StartupSucceeds(Restored(d, back), {}, listing, env);
    var after := Restart(Restored(d, back), {}, env);
    forall p | Owed(d, p) ensures p in after.files && after.files[p] == d.files[p] {
      OwedStays(d, u, back, p, env);
      OwedIsNotGone(d, p, env);
    }
    forall id | id in d.rows && !d.rows[id].deletePending
      ensures id in after.rows && after.rows[id].deliveries == d.rows[id].deliveries
      ensures !Complete(d.rows[id]) ==> after.rows[id] == d.rows[id]
    {
      LiveRowStays(d, u, back, id, env);
    }
    forall p | p in back ensures p in after.files <==> Resurfaces(d, p) {
      BackFile(d, u, back, p, env);
    }
  }

  lemma OwedIsNotGone(d: Disk, p: Path, env: Env)
    requires Owed(d, p)
    ensures !Gone(d, p, {}, env)
  {
    hide IsTemp, Stem, Complete, Matches;
  }

  // ---------------------------------------------------------------- when an erase is final

  /** No power loss now can bring the artifact back. */
  ghost predicate Final(d0: Disk, log: seq<Event>, id: string, env: Env) {
    forall back :: Among(back, Undoable(d0, log, env)) ==> id !in Restart(Restored(After(d0, log, env), back), {}, env).rows
  }

  lemma ReturnsIff(d: Disk, u: map<Path, Bytes>, back: map<Path, Bytes>, id: string, env: Env)
    requires OutboxModel.Durable(d, env) && Leftovers(d, u, env) && Among(back, u) && SafeIdentity(id) && Going(d, id, env)
    ensures id in Restart(Restored(d, back), {}, env).rows <==>
              PathOf(id, env) in back && !(id in d.rows && d.rows[id].present)
  {
    RestoredCanonical(d, u, back, env);
    ErasedReturnsIff(Restored(d, back), {}, id, env);
    if id in d.rows {
      assert RowKept(d, id, env);
    }
    hide OutboxModel.Durable, Canonical, Restart, SafeIdentity, PathOf, Total;
  }

  /**
   * An erased artifact can still come back if and only if its payload was removed without a later sync of its directory
   * and no present row is left to remove it again. The erase itself never syncs; a publish or a finalize there does.
   */
  lemma EraseFinalIff(d0: Disk, log: seq<Event>, id: string, env: Env)
    requires OutboxModel.Durable(d0, env) && Runs(d0, log, env) && SafeIdentity(id) && Going(After(d0, log, env), id, env)
    ensures
      var d := After(d0, log, env);
      Final(d0, log, id, env) <==> PathOf(id, env) !in Undoable(d0, log, env) || (id in d.rows && d.rows[id].present)
  {
    hide OutboxModel.Durable, Restart, Undoable, SafeIdentity, PathOf, Leftovers, Going;
    var d, u := After(d0, log, env), Undoable(d0, log, env);
    RunDurable(d0, log, env);
    LeftoversRun(d0, log, env);
    forall back | Among(back, u)
      ensures id in Restart(Restored(d, back), {}, env).rows <==> PathOf(id, env) in back && !(id in d.rows && d.rows[id].present)
    {
      ReturnsIff(d, u, back, id, env);
    }
    assert Among(u, u);
  }

  /** What erase() does to one present artifact is not final until its directory is synced. */
  lemma EraseAloneIsNotFinal(d: Disk, id: string, env: Env)
    requires OutboxModel.Durable(d, env) && id in d.rows && d.rows[id].deletePending && d.rows[id].present
    requires PathOf(id, env) in d.files
    ensures Runs(d, [RemoveMarked(id), DropMarked({id})], env) && !Final(d, [RemoveMarked(id), DropMarked({id})], id, env)
    ensures Final(d, [RemoveMarked(id), DropMarked({id}), SyncDirectory(PathOf(id, env).local)], id, env)
  {
    hide Final, OutboxModel.Durable, SafeIdentity, PathOf, Going;
    var a, b, c := RemoveMarked(id), DropMarked({id}), SyncDirectory(PathOf(id, env).local);
    OwnPath(d, id, env);
    RemovesMarked(d, id, env);
    var removed := d.(files := d.files - {PathOf(id, env)});
    OneEvent(d, a, env);
    DropsOne(removed, id, env);
    RunsSnoc(d, [a], b, env);
    assert [a] + [b] == [a, b];
    UndoableSnoc(d, [a], b, env);
    UndoableSnoc(d, [], a, env);
    assert [] + [a] == [a];
    EraseFinalIff(d, [a, b], id, env);
    Syncs(After(d, [a, b], env), c.local, env);
    RunsSnoc(d, [a, b], c, env);
    assert [a, b] + [c] == [a, b, c];
    UndoableSnoc(d, [a, b], c, env);
    EraseFinalIff(d, [a, b, c], id, env);
  }

  lemma OneEvent(d: Disk, e: Event, env: Env)
    requires Enabled(d, e, env)
    ensures Runs(d, [e], env) && After(d, [e], env) == Apply(d, e, env)
  {
    hide Enabled, Apply;
    assert [] + [e] == [e];
    RunsSnoc(d, [], e, env);
  }

  lemma DropsOne(d: Disk, id: string, env: Env)
    requires id in d.rows && d.rows[id].deletePending && PathOf(id, env) !in d.files
    ensures Enabled(d, DropMarked({id}), env) && id !in Apply(d, DropMarked({id}), env).rows
    ensures Going(Apply(d, DropMarked({id}), env), id, env)
  {
    hide PathOf;
  }

  lemma UndoableSnoc(d: Disk, log: seq<Event>, e: Event, env: Env)
    ensures Undoable(d, log + [e], env) == UndoableAfter(Undoable(d, log, env), After(d, log, env), e, env)
  {
    hide UndoableAfter;
    assert (log + [e])[..|log|] == log;
  }
}
