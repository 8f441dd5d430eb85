/** Startup on any disk: files that cannot be removed, payloads that do not match, and removals a power loss undid. */
module OutboxStartup {
  import opened Foundation
  import opened OutboxModel
  import opened OutboxSafety
  import opened Outbox
  import opened OutboxRecovery
  import opened OutboxSweep

  // ---------------------------------------------------------------- the three passes

  function RowPath(r: Row): Path {
    Path(r.local, r.name)
  }

  /** UNIQUE(filename), and no manifest names a temporary. */
  ghost predicate Tabled(rows: map<string, Row>) {
    && (forall a, b :: a in rows && b in rows && a != b ==> rows[a].name != rows[b].name)
    && (forall a :: a in rows ==> !IsTemp(rows[a].name))
  }

  ghost function Stale(d: Disk, stuck: set<Path>): set<Path> {
    set id | id in d.rows && d.rows[id].deletePending && d.rows[id].present && RowPath(d.rows[id]) !in stuck :: RowPath(d.rows[id])
  }

  /** finish_pending_deletions: errors while removing are ignored, the marked rows go all the same. */
  ghost function FinishAny(d: Disk, stuck: set<Path>): Disk {
    Disk(map id | id in d.rows && !d.rows[id].deletePending :: d.rows[id], d.files - Stale(d, stuck))
  }

  predicate LetsGo(r: Row, file: Option<Bytes>, env: Env) {
    file.Some? && Matches(r, file.value, env) && Complete(r) && r.present
  }

  /** A manifest against its file, with the payload of a finished artifact let go if it can be removed. */
  function AnyRow(r: Row, file: Option<Bytes>, removable: bool, env: Env): Row {
    if LetsGo(r, file, env) && removable then r.(present := false) else Recovered(r, file, env)
  }

  ghost function Released(d: Disk, stuck: set<Path>, env: Env): set<Path> {
    set id | id in d.rows && LetsGo(d.rows[id], FileAt(d, RowPath(d.rows[id])), env) && RowPath(d.rows[id]) !in stuck
      :: RowPath(d.rows[id])
  }

  ghost function ReconcileAny(d: Disk, stuck: set<Path>, env: Env): Disk {
    Disk(map id | id in d.rows ::
           AnyRow(d.rows[id], FileAt(d, RowPath(d.rows[id])), RowPath(d.rows[id]) !in stuck, env),
         d.files - Released(d, stuck, env))
  }

  /** The disk the directory sweep finds. */
  ghost function Tidied(d: Disk, stuck: set<Path>, env: Env): Disk {
    ReconcileAny(FinishAny(d, stuck), stuck, env)
  }

  /** Startup on any disk, the directory entries coming in the order of `listing`; None is an exception. */
  ghost function AnyStartup(d: Disk, stuck: set<Path>, listing: seq<Path>, env: Env): Option<Disk>
    requires Listing(listing, Tidied(d, stuck, env).files)
  {
    var tidy := Tidied(d, stuck, env);
    var rows := Sweep(tidy.rows, listing, tidy.files, |listing|, env);
    if rows.None? then None else Some(Disk(rows.value, tidy.files - (Temps(tidy.files.Keys) - stuck)))
  }

  // ---------------------------------------------------------------- honesty on any disk

  lemma TidiedRow(d: Disk, stuck: set<Path>, id: string, env: Env)
    requires Tabled(d.rows)
    ensures id in Tidied(d, stuck, env).rows <==> id in d.rows && !d.rows[id].deletePending
    ensures id in Tidied(d, stuck, env).rows ==>
              Tidied(d, stuck, env).rows[id]
                == AnyRow(d.rows[id], FileAt(d, RowPath(d.rows[id])), RowPath(d.rows[id]) !in stuck, env)
  {
    hide AnyRow, IsTemp;
    if id in d.rows && !d.rows[id].deletePending {
      assert RowPath(d.rows[id]) !in Stale(d, stuck);
    }
  }

  lemma TidiedFile(d: Disk, stuck: set<Path>, id: string, env: Env)
    requires Tabled(d.rows) && id in d.rows && !d.rows[id].deletePending
    ensures
      var p := RowPath(d.rows[id]);
      FileAt(Tidied(d, stuck, env), p) ==
        if LetsGo(d.rows[id], FileAt(d, p), env) && p !in stuck then None else FileAt(d, p)
  {
    hide IsTemp, LetsGo, AnyRow;
    var p := RowPath(d.rows[id]);
    var finished := FinishAny(d, stuck);
    assert p !in Stale(d, stuck);
    assert FileAt(finished, p) == FileAt(d, p);
    assert id in finished.rows && finished.rows[id] == d.rows[id];
    if p in Released(finished, stuck, env) {
      var k :| k in finished.rows && LetsGo(finished.rows[k], FileAt(finished, RowPath(finished.rows[k])), env)
        && RowPath(finished.rows[k]) !in stuck && RowPath(finished.rows[k]) == p;
      assert k == id;
    }
  }

  /**
   * Whatever the disk looked like, a row that claims its payload after startup has the matching file or an error on
   * record, and nothing can be claimed for delivery without a matching file.
   */
  lemma StartupHonest(d: Disk, stuck: set<Path>, listing: seq<Path>, id: string, c: string, now: int, env: Env)
    requires Tabled(d.rows) && id in d.rows && !d.rows[id].deletePending
    requires Listing(listing, Tidied(d, stuck, env).files) && AnyStartup(d, stuck, listing, env).Some?
    ensures
      var after := AnyStartup(d, stuck, listing, env).value;
      && id in after.rows && Honest(after.rows[id], FileAt(after, RowPath(d.rows[id])), env)
      && (Claimable(after.rows[id], c, now) ==>
            RowPath(d.rows[id]) in after.files && Matches(after.rows[id], after.files[RowPath(d.rows[id])], env))
  {
    var r, p := d.rows[id], RowPath(d.rows[id]);
    var tidy := Tidied(d, stuck, env);
    TidiedRow(d, stuck, id, env);
    TidiedFile(d, stuck, id, env);
    SweepKeeps(tidy.rows, listing, tidy.files, id, env);
    assert !IsTemp(p.name);
    RecoveredRowHonest(r, FileAt(d, p), env, c, now);
    hide Tidied, Sweep, IsTemp, Listing, Complete;
    var after := AnyStartup(d, stuck, listing, env).value;
    assert FileAt(after, p) == FileAt(tidy, p);
  }

  lemma SweepKeeps(rows: map<string, Row>, listing: seq<Path>, files: map<Path, Bytes>, id: string, env: Env)
    requires Listing(listing, files) && Sweep(rows, listing, files, |listing|, env).Some? && id in rows
    ensures id in Sweep(rows, listing, files, |listing|, env).value
    ensures Sweep(rows, listing, files, |listing|, env).value[id] == rows[id]
  {
    hide Sweep, NoTwins, IdsFree, Handed, NamesOf, NewNames, Manifested;
    SweepState(rows, listing, files, |listing|, env);
  }

  /** On any disk: when startup succeeds with every recoverable file that is left manifested. */
  lemma StartupManifestsIff(d: Disk, stuck: set<Path>, listing: seq<Path>, env: Env)
    requires Listing(listing, Tidied(d, stuck, env).files)
    ensures
      var tidy, after := Tidied(d, stuck, env), AnyStartup(d, stuck, listing, env);
      (after.Some? && AllManifested(after.value.rows, listing)) <==>
      (NoForeignName(tidy.rows, listing) && NoTwins(tidy.rows, listing, |listing|)
       && IdsFree(tidy.rows, listing, tidy.files, |listing|, env))
  {
    hide Tidied, Sweep, AllManifested, NoForeignName, NoTwins, IdsFree, Listing;
    SweepManifestsIff(Tidied(d, stuck, env).rows, listing, Tidied(d, stuck, env).files, env);
  }

  // ---------------------------------------------------------------- canonical names

  /** What startup makes of a disk with canonical names, in whatever order the directories are read. */
  ghost function Restart(d: Disk, stuck: set<Path>, env: Env): Disk {
    var tidy := Tidied(d, stuck, env);
    Disk(Swept(tidy, tidy.files.Keys, env).rows, tidy.files - (Temps(tidy.files.Keys) - stuck))
  }

  lemma CanonicalTabled(d: Disk, env: Env)
    requires Canonical(d, env)
    ensures Tabled(d.rows)
    ensures forall id :: id in d.rows ==> RowPath(d.rows[id]) == PathOf(id, env)
  {
    hide IsTemp, SafeIdentity, NameOf, CanonicalFile;
    forall a | a in d.rows
      ensures !IsTemp(d.rows[a].name) && RowPath(d.rows[a]) == PathOf(a, env)
      ensures forall b :: b in d.rows && a != b ==> d.rows[a].name != d.rows[b].name
    {
      assert CanonicalRow(d.rows[a], a, env);
      CanonicalPath(a, env);
      CanonicalName(a, env);
      forall b | b in d.rows && a != b ensures d.rows[a].name != d.rows[b].name {
        assert CanonicalRow(d.rows[b], b, env);
      }
    }
  }

  lemma TidiedCanonical(d: Disk, stuck: set<Path>, env: Env)
    requires Canonical(d, env)
    ensures Canonical(Tidied(d, stuck, env), env)
  {
    hide IsTemp, SafeIdentity, NameOf, CanonicalFile;
    CanonicalTabled(d, env);
    var tidy := Tidied(d, stuck, env);
    forall id | id in tidy.rows ensures CanonicalRow(tidy.rows[id], id, env) {
      TidiedRow(d, stuck, id, env);
      assert CanonicalRow(d.rows[id], id, env);
      SameIdentity(d.rows[id], FileAt(d, RowPath(d.rows[id])), RowPath(d.rows[id]) !in stuck, env);
    }
  }

  lemma SameIdentity(r: Row, file: Option<Bytes>, removable: bool, env: Env)
    ensures AnyRow(r, file, removable, env).name == r.name && AnyRow(r, file, removable, env).local == r.local
  {
  }

  /** Under canonical names startup never fails, and the order of the directory entries does not matter. */
  lemma StartupSucceeds(d: Disk, stuck: set<Path>, listing: seq<Path>, env: Env)
    requires Canonical(d, env) && Listing(listing, Tidied(d, stuck, env).files)
    ensures AnyStartup(d, stuck, listing, env) == Some(Restart(d, stuck, env))
  {
    hide Tidied, Canonical, Sweep, Swept;
    TidiedCanonical(d, stuck, env);
    SweepCanonical(Tidied(d, stuck, env), listing, env);
  }

  /** Does startup remove this file? */
  ghost predicate Gone(d: Disk, p: Path, stuck: set<Path>, env: Env)
    requires p in d.files
  {
    && p !in stuck
    && (IsTemp(p.name)
        || (Stem(p.name) in d.rows
            && (if d.rows[Stem(p.name)].deletePending then d.rows[Stem(p.name)].present
                else LetsGo(d.rows[Stem(p.name)], Some(d.files[p]), env))))
  }

  lemma RestartFile(d: Disk, stuck: set<Path>, p: Path, env: Env)
    requires Canonical(d, env)
    ensures p in Restart(d, stuck, env).files <==> p in d.files && !Gone(d, p, stuck, env)
    ensures p in Restart(d, stuck, env).files ==> Restart(d, stuck, env).files[p] == d.files[p]
  {
    CanonicalTabled(d, env);
    if p in d.files {
      if IsTemp(p.name) {
        TempTidied(d, stuck, p, env);
      } else {
        assert CanonicalFile(p, env);
        PayloadTidied(d, stuck, p, env);
      }
      hide IsTemp, Stem, LetsGo, Canonical, Tidied, Swept, PathOf;
    }
  }

  lemma TempTidied(d: Disk, stuck: set<Path>, p: Path, env: Env)
    requires Canonical(d, env) && p in d.files && IsTemp(p.name)
    ensures p in Tidied(d, stuck, env).files && Tidied(d, stuck, env).files[p] == d.files[p]
  {
    CanonicalTabled(d, env);
    hide Canonical, IsTemp, LetsGo, AnyRow;
  }

  lemma PayloadTidied(d: Disk, stuck: set<Path>, p: Path, env: Env)
    requires Canonical(d, env) && p in d.files && !IsTemp(p.name)
    ensures p in Tidied(d, stuck, env).files <==> !Gone(d, p, stuck, env)
    ensures p in Tidied(d, stuck, env).files ==> Tidied(d, stuck, env).files[p] == d.files[p]
  {
    CanonicalTabled(d, env);
    var finished := FinishAny(d, stuck);
    StaleIs(d, stuck, p, env);
    ReleasedIs(d, stuck, p, env);
    hide Canonical, IsTemp, LetsGo, AnyRow, PathOf, Stem, Stale, Released;
  }

  lemma RowOfPath(d: Disk, p: Path, id: string, env: Env)
    requires Canonical(d, env) && p in d.files && !IsTemp(p.name) && id in d.rows
    ensures RowPath(d.rows[id]) == p <==> id == Stem(p.name)
  {
    CanonicalTabled(d, env);
    hide IsTemp, SafeIdentity, Stem, PathOf;
    assert CanonicalFile(p, env);
    assert CanonicalRow(d.rows[id], id, env);
    CanonicalPath(id, env);
  }

  lemma StaleIs(d: Disk, stuck: set<Path>, p: Path, env: Env)
    requires Canonical(d, env) && p in d.files && !IsTemp(p.name)
    ensures p in Stale(d, stuck) <==>
              p !in stuck && Stem(p.name) in d.rows && d.rows[Stem(p.name)].deletePending && d.rows[Stem(p.name)].present
  {
    hide IsTemp, Canonical, Stem, RowPath;
    forall id | id in d.rows ensures RowPath(d.rows[id]) == p <==> id == Stem(p.name) {
      RowOfPath(d, p, id, env);
    }
  }

  lemma ReleasedIs(d: Disk, stuck: set<Path>, p: Path, env: Env)
    requires Canonical(d, env) && p in d.files && !IsTemp(p.name)
    ensures
      var finished := FinishAny(d, stuck);
      p in finished.files ==>
      (p in Released(finished, stuck, env) <==>
         p !in stuck && Stem(p.name) in d.rows && !d.rows[Stem(p.name)].deletePending
         && LetsGo(d.rows[Stem(p.name)], Some(d.files[p]), env))
  {
    hide IsTemp, Canonical, Stem, RowPath, LetsGo, Stale;
    forall id | id in d.rows ensures RowPath(d.rows[id]) == p <==> id == Stem(p.name) {
      RowOfPath(d, p, id, env);
    }
    var finished, id := FinishAny(d, stuck), Stem(p.name);
    if p in finished.files {
      assert FileAt(finished, p) == Some(d.files[p]);
      if id in d.rows && !d.rows[id].deletePending {
        assert id in finished.rows && finished.rows[id] == d.rows[id];
      }
      if p in Released(finished, stuck, env) {
        var k :| k in finished.rows && LetsGo(finished.rows[k], FileAt(finished, RowPath(finished.rows[k])), env)
          && RowPath(finished.rows[k]) !in stuck && RowPath(finished.rows[k]) == p;
        assert k == id;
      }
    }
  }

  lemma RestartLiveRow(d: Disk, stuck: set<Path>, id: string, env: Env)
    requires Canonical(d, env) && id in d.rows && !d.rows[id].deletePending
    ensures id in Restart(d, stuck, env).rows
    ensures Restart(d, stuck, env).rows[id]
              == AnyRow(d.rows[id], FileAt(d, PathOf(id, env)), PathOf(id, env) !in stuck, env)
  {
    CanonicalTabled(d, env);
    TidiedRow(d, stuck, id, env);
    hide Tidied, Canonical, IsTemp, Stem, AnyRow, PathOf;
  }

  lemma RestartOtherRow(d: Disk, stuck: set<Path>, id: string, env: Env)
    requires Canonical(d, env) && SafeIdentity(id) && (id in d.rows ==> d.rows[id].deletePending)
    ensures id in Restart(d, stuck, env).rows <==> PathOf(id, env) in Restart(d, stuck, env).files
    ensures id in Restart(d, stuck, env).rows ==>
              PathOf(id, env) in d.files && Restart(d, stuck, env).rows[id] == RecoveredManifest(id, d.files[PathOf(id, env)], env)
  {
    CanonicalTabled(d, env);
    TidiedRow(d, stuck, id, env);
    TidiedCanonical(d, stuck, env);
    CanonicalPath(id, env);
    CanonicalName(id, env);
    RestartFile(d, stuck, PathOf(id, env), env);
    var tidy, p := Tidied(d, stuck, env), PathOf(id, env);
    if p in tidy.files {
      AdoptedIfThere(tidy, p, id);
    }
    assert tidy.files.Keys <= d.files.Keys && forall q :: q in tidy.files ==> tidy.files[q] == d.files[q];
    hide Tidied, Canonical, IsTemp, Stem, PathOf, RecoveredManifest, SafeIdentity, Gone, NameOf;
  }

  lemma AdoptedIfThere(tidy: Disk, p: Path, id: string)
    requires p in tidy.files && !IsTemp(p.name) && Stem(p.name) == id && id !in tidy.rows
    ensures id in Adopted(tidy, tidy.files.Keys)
  {
    hide IsTemp, Stem;
    assert Adoptable(tidy, p);
  }

  /** Exactly when an erased artifact is back after startup: its file is there and nothing removes it. */
  lemma ErasedReturnsIff(d: Disk, stuck: set<Path>, id: string, env: Env)
    requires Canonical(d, env) && SafeIdentity(id) && (id in d.rows ==> d.rows[id].deletePending)
    ensures id in Restart(d, stuck, env).rows <==>
              PathOf(id, env) in d.files && !(id in d.rows && d.rows[id].present && PathOf(id, env) !in stuck)
  {
    RestartOtherRow(d, stuck, id, env);
    RestartFile(d, stuck, PathOf(id, env), env);
    CanonicalPath(id, env);
    CanonicalName(id, env);
    hide Restart, Canonical, IsTemp, Stem, PathOf, SafeIdentity, LetsGo, NameOf;
  }

  // ---------------------------------------------------------------- the crash disk as an instance

  lemma LiveRowReconciled(d: Disk, id: string, env: Env)
    requires OutboxModel.Durable(d, env) && id in d.rows && !d.rows[id].deletePending
    ensures AnyRow(d.rows[id], FileAt(d, PathOf(id, env)), true, env) == CleanRow(d.rows[id], PathOf(id, env) in d.files)
    ensures PathOf(id, env) in d.files ==>
              (LetsGo(d.rows[id], FileAt(d, PathOf(id, env)), env) <==> Complete(d.rows[id]))
  {
    hide Total, IsTemp, SafeIdentity, NameOf;
    assert RowKept(d, id, env);
  }

  /** On a durable disk, with every removal succeeding, this is the startup the repository performs. */
  lemma DurableRestart(d: Disk, env: Env)
    requires OutboxModel.Durable(d, env)
    ensures Restart(d, {}, env) == Startup(d, env)
  {
    hide OutboxModel.Durable, Restart, Startup, Complete, IsTemp, Stem, SafeIdentity, PathOf, AnyRow, CleanRow, RecoveredManifest;
    DurableIsCanonical(d, env);
    var a, b := Restart(d, {}, env), Startup(d, env);
    forall p ensures p in a.files <==> p in b.files
      ensures p in a.files ==> a.files[p] == b.files[p]
    {
      RestartFile(d, {}, p, env);
      StartupFile(d, p, env);
      GoneIsRemoved(d, p, env);
    }
    forall id ensures id in a.rows <==> id in b.rows
      ensures id in a.rows ==> a.rows[id] == b.rows[id]
    {
      SameRow(d, id, env);
    }
    assert a.files == b.files && a.rows == b.rows;
  }

  lemma GoneIsRemoved(d: Disk, p: Path, env: Env)
    requires OutboxModel.Durable(d, env)
    ensures p in d.files ==> (Gone(d, p, {}, env) <==> Removed(d, p))
  {
    if p in d.files && !IsTemp(p.name) && Stem(p.name) in d.rows {
      PayloadName(d, p, env);
      assert RowKept(d, Stem(p.name), env);
      if !d.rows[Stem(p.name)].deletePending {
        LiveRowReconciled(d, Stem(p.name), env);
      }
    }
    hide OutboxModel.Durable, IsTemp, Stem, SafeIdentity, PathOf, AnyRow, Complete, LetsGo;
  }

  lemma SameRow(d: Disk, id: string, env: Env)
    requires OutboxModel.Durable(d, env) && Canonical(d, env)
    ensures id in Restart(d, {}, env).rows <==> id in Startup(d, env).rows
    ensures id in Restart(d, {}, env).rows ==> Restart(d, {}, env).rows[id] == Startup(d, env).rows[id]
  {
    hide OutboxModel.Durable, Canonical, Restart, Startup, Complete, IsTemp, Stem, PathOf, AnyRow, CleanRow, RecoveredManifest;
    if id in d.rows {
      StartupOldRow(d, id, env);
      OwnPath(d, id, env);
      if d.rows[id].deletePending {
        RestartOtherRow(d, {}, id, env);
        RestartFile(d, {}, PathOf(id, env), env);
        GoneIsRemoved(d, PathOf(id, env), env);
      } else {
        RestartLiveRow(d, {}, id, env);
        LiveRowReconciled(d, id, env);
      }
    } else {
      StartupNewRow(d, id, env);
      if SafeIdentity(id) {
        RestartOtherRow(d, {}, id, env);
        RestartFile(d, {}, PathOf(id, env), env);
        UnknownStays(d, id, env);
      } else {
        UnsafeIsNoRow(d, id, env);
      }
    }
  }

  lemma UnknownStays(d: Disk, id: string, env: Env)
    requires SafeIdentity(id) && id !in d.rows
    ensures PathOf(id, env) in d.files ==> !Gone(d, PathOf(id, env), {}, env)
  {
    CanonicalName(id, env);
    CanonicalPath(id, env);
    hide IsTemp, Stem, SafeIdentity, NameOf, LetsGo;
  }

  lemma UnsafeIsNoRow(d: Disk, id: string, env: Env)
    requires Canonical(d, env) && !SafeIdentity(id)
    ensures id !in Restart(d, {}, env).rows
  {
    CanonicalTabled(d, env);
    TidiedRow(d, {}, id, env);
    var tidy := Tidied(d, {}, env);
    assert id in d.rows ==> CanonicalRow(d.rows[id], id, env);
    forall q | q in tidy.files && Adoptable(tidy, q) ensures SafeIdentity(Stem(q.name)) {
      assert CanonicalFile(q, env);
    }
    hide Tidied, IsTemp, Stem, SafeIdentity, PathOf;
  }
}
