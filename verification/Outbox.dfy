/** The outbox repository: each operation as the sequence of durable writes it performs, and startup recovery. */
module Outbox {
  import opened Foundation
  import opened OutboxModel
  import opened OutboxSafety
  import opened Order

  datatype Error = InvalidArtifact | InvalidDestination | ConflictingManifest | StorageGuard | UnexpectedFile
                 | UnknownArtifact | UnsentArtifact | InvalidSelection | AlreadyFinal | MissingContent
                 | RemovalFailed

  datatype Request = Request(
    id: string, name: string, extension: string, body: Bytes, checksum: string, channels: seq<string>, local: bool,
    revision: nat, start: int, end: int, at: int)

  // ---------------------------------------------------------------- what each operation makes of the disk

  ghost predicate Distinct(s: seq<string>) {
    forall i, j :: 0 <= i < j < |s| ==> s[i] != s[j]
  }

  function NewDeliveries(channels: seq<string>): map<string, Delivery> {
    map c | c in channels :: Delivery(Pending, 0, 0, 0)
  }

  function NewManifest(q: Request): Row {
    Row(q.name, q.checksum, |q.body|, q.local, true, NoError, false, q.revision, q.start, q.end, NewDeliveries(q.channels))
  }

  /** The caller's naming discipline: the id settles destination and extension. */
  ghost predicate Disciplined(q: Request, env: Env) {
    q.local == env.toArchive(q.id) && (q.extension == "csv" <==> env.csv(q.id))
  }

  ghost predicate WellFormed(q: Request, env: Env) {
    && SafeIdentity(q.id) && q.name == q.id + "." + q.extension && SafeFilename(q.name)
    && (q.extension == "json" || q.extension == "csv") && env.sha(q.body) == q.checksum && |q.checksum| == 64
    && (q.local <==> q.channels == [])
    && (forall c :: c in q.channels ==> SafeIdentity(c)) && Distinct(q.channels)
  }

  predicate SameManifest(r: Row, q: Request) {
    && r.name == q.name && r.checksum == q.checksum && r.size == |q.body| && r.start == q.start && r.end == q.end
    && r.revision == q.revision
  }

  /** The same artifact again: name, digest, length, window and revision all agree. */
  ghost predicate RepeatOf(r: Row, q: Request) {
    (r.name, r.checksum, r.size, r.start, r.end, r.revision) == (q.name, q.checksum, |q.body|, q.start, q.end, q.revision)
  }

  /** The manifest of a new artifact: it claims its payload and every channel has it before it. */
  ghost predicate AwaitsDelivery(r: Row, q: Request) {
    && r.present && !r.deletePending && r.error == NoError && RepeatOf(r, q) && r.local == q.local
    && (forall c :: c in r.deliveries <==> c in q.channels)
    && forall c :: c in r.deliveries ==>
         r.deliveries[c].state == Pending && r.deliveries[c].attempts == 0 && r.deliveries[c].next == 0 && r.deliveries[c].last == 0
  }

  /** First the temporary, then its rename, then the directory sync, and only then the transaction. */
  ghost predicate InOrder(written: seq<Event>, q: Request, suffix: string) {
    var n, temp := |written|, Path(q.local, "." + q.name + ".tmp." + suffix);
    && n >= 3 && (forall k :: 0 <= k < n - 3 ==> written[k].WriteTemp? && written[k].temp == temp)
    && written[n - 3] == Publish(q.id, temp) && written[n - 2] == SyncDirectory(q.local)
    && written[n - 1].Insert? && written[n - 1].id == q.id
  }

  lemma WrittenInOrder(before: seq<Event>, published: seq<Event>, after: seq<Event>, q: Request, suffix: string, env: Env)
    requires Disciplined(q, env) && before <= published && after == published + [Insert(q.id, NewManifest(q), q.at)]
    requires
      var temp := Path(q.local, "." + q.name + ".tmp." + suffix);
      && |published| >= |before| + 2 && published[|published| - 2..] == [Publish(q.id, temp), SyncDirectory(PathOf(q.id, env).local)]
      && forall k :: |before| <= k < |published| - 2 ==> published[k].WriteTemp? && published[k].temp == temp
    ensures InOrder(after[|before|..], q, suffix)
  {
    var written := after[|before|..];
    var n := |written|;
    assert written[n - 3] == published[|published| - 2] == published[|published| - 2..][0];
    assert written[n - 2] == published[|published| - 1] == published[|published| - 2..][1];
    forall k | 0 <= k < n - 3 ensures written[k].WriteTemp? && written[k].temp == Path(q.local, "." + q.name + ".tmp." + suffix) {
      assert written[k] == published[|before| + k];
    }
  }

  lemma StoredAwaits(d: Disk, q: Request, env: Env)
    ensures q.id in Stored(d, q, env).rows && AwaitsDelivery(Stored(d, q, env).rows[q.id], q)
  {
  }

  lemma RepeatMeans(r: Row, q: Request)
    ensures SameManifest(r, q) <==> RepeatOf(r, q)
  {
  }

  predicate Fits(q: Request, used: nat, maximum: nat, available: nat, minimumFree: nat) {
    used < maximum && |q.body| <= maximum - used && minimumFree < available && |q.body| <= available - minimumFree
  }

  /** The guard leaves room and neither the payload's name nor the temporary's is taken. */
  ghost predicate Storable(d: Disk, q: Request, suffix: string, available: nat, minimumFree: nat, env: Env) {
    && Fits(q, Total(d.files), env.maximum, available, minimumFree) && PathOf(q.id, env) !in d.files
    && Path(q.local, "." + q.name + ".tmp." + suffix) !in d.files
  }

  /** A published artifact: its row, and its payload under its own name. */
  ghost function Stored(d: Disk, q: Request, env: Env): Disk {
    Disk(d.rows[q.id := NewManifest(q)], d.files[PathOf(q.id, env) := q.body])
  }

  function Due(rows: map<string, Row>, now: int): set<(string, string)> {
    set id, c | id in rows && c in rows[id].deliveries && Claimable(rows[id], c, now) :: (id, c)
  }

  ghost predicate AllKnown(rows: map<string, Row>, keys: set<(string, string)>) {
    forall k :: k in keys ==> k.0 in rows && k.1 in rows[k.0].deliveries
  }

  function NextOf(rows: map<string, Row>, k: (string, string)): int
    requires k.0 in rows && k.1 in rows[k.0].deliveries
  {
    rows[k.0].deliveries[k.1].next
  }

  ghost function Claimed(d: Disk, chosen: set<(string, string)>, lease: int): Disk {
    Disk(map id | id in d.rows :: ClaimRow(d.rows[id], id, chosen, lease), d.files)
  }

  /** It was due, for a payload that is there and not erased; it is now in flight until the lease ends, its attempts uncounted. */
  ghost predicate TakenFor(before: map<string, Row>, after: map<string, Row>, k: (string, string), now: int, lease: int) {
    && k.0 in before && k.1 in before[k.0].deliveries && k.0 in after && k.1 in after[k.0].deliveries
    && before[k.0].present && !before[k.0].deletePending
    && var x, y := before[k.0].deliveries[k.1], after[k.0].deliveries[k.1];
    && x.next <= now && x.state in {Pending, RetryWait, InFlight}
    && y.state == InFlight && y.next == lease && y.attempts == x.attempts && y.last == x.last
  }

  lemma TakesChosen(d: Disk, chosen: set<(string, string)>, now: int, lease: int)
    requires chosen <= Due(d.rows, now)
    ensures forall k :: k in chosen ==> TakenFor(d.rows, Claimed(d, chosen, lease).rows, k, now, lease)
  {
    forall k | k in chosen ensures TakenFor(d.rows, Claimed(d, chosen, lease).rows, k, now, lease) {
      assert k in Due(d.rows, now);
    }
  }

  ghost function Recorded(d: Disk, id: string, channel: string, disposition: Disposition, at: int, retryAt: int): Disk
    requires id in d.rows && channel in d.rows[id].deliveries
  {
    var r := d.rows[id];
    d.(rows := d.rows[id := r.(deliveries := r.deliveries[channel :=
         AfterResult(r.deliveries[channel], disposition, at, retryAt)])])
  }

  ghost predicate Readable(d: Disk, id: string, env: Env) {
    && id in d.rows && !d.rows[id].deletePending && d.rows[id].present
    && PathOf(id, env) in d.files && Matches(d.rows[id], d.files[PathOf(id, env)], env)
  }

  predicate Finalizable(d: Disk, id: string) {
    id in d.rows && !d.rows[id].deletePending && d.rows[id].present && Complete(d.rows[id])
  }

  ghost function Finalized(d: Disk, id: string, env: Env): Disk {
    if Finalizable(d, id) then Disk(d.rows[id := d.rows[id].(present := false)], d.files - {PathOf(id, env)}) else d
  }

  predicate Prunable(r: Row, cutoff: int) {
    && !r.present && !r.deletePending && Complete(r)
    && (exists c :: c in r.deliveries && r.deliveries[c].last > 0)
    && forall c :: c in r.deliveries ==> r.deliveries[c].last <= cutoff
  }

  /** A remote artifact without payload, delivered on every channel, the last time between one and the cutoff. */
  ghost predicate Forgettable(r: Row, cutoff: int) {
    && !r.local && !r.present && !r.deletePending
    && (forall c :: c in r.deliveries ==> r.deliveries[c].state == Succeeded && r.deliveries[c].last <= cutoff)
    && exists c :: c in r.deliveries && r.deliveries[c].last >= 1
  }

  lemma ForgettableIs(r: Row, cutoff: int)
    ensures Prunable(r, cutoff) <==> Forgettable(r, cutoff)
  {
  }

  ghost function Pruned(d: Disk, now: int, retention: int): Disk {
    if now <= retention then d
    else d.(rows := map id | id in d.rows && !Prunable(d.rows[id], now - retention) :: d.rows[id])
  }

  /** Everything one result does: it is recorded, a finished payload goes, and old metadata is pruned. */
  ghost function Concluded(d: Disk, id: string, channel: string, disposition: Disposition, at: int, retryAt: int,
                           retention: int, removable: bool, env: Env): Disk
    requires id in d.rows && channel in d.rows[id].deliveries
  {
    var recorded := Recorded(d, id, channel, disposition, at, retryAt);
    Pruned(if removable then Finalized(recorded, id, env) else recorded, at, retention)
  }

  /** One more attempt at this time; delivered is final, a retryable failure waits for its retry, any other is blocked. */
  ghost predicate Attempted(x: Delivery, y: Delivery, what: Disposition, at: int, retryAt: int) {
    && y.attempts == x.attempts + 1 && y.last == at
    && (what == Delivered ==> y.state == Succeeded && y.next == 0)
    && (what == Retryable ==> y.state == RetryWait && y.next == retryAt)
    && (what == Refused ==> y.state == Blocked && y.next == 0)
  }

  lemma ConcludedAttempts(d: Disk, id: string, channel: string, what: Disposition, at: int, retryAt: int, retention: int,
                          removable: bool, env: Env)
    requires id in d.rows && channel in d.rows[id].deliveries
    ensures
      var after := Concluded(d, id, channel, what, at, retryAt, retention, removable, env);
      id in after.rows ==>
        channel in after.rows[id].deliveries
        && Attempted(d.rows[id].deliveries[channel], after.rows[id].deliveries[channel], what, at, retryAt)
  {
    hide Prunable, Complete, PathOf;
  }

  function IdSet(ids: seq<string>): set<string> {
    set id | id in ids
  }

  ghost function Requeued(d: Disk, ids: set<string>, now: int): Disk {
    d.(rows := map id | id in d.rows :: if id in ids then RequeueRow(d.rows[id], now) else d.rows[id])
  }

  ghost function ChannelRequeued(d: Disk, channel: string, now: int): Disk {
    d.(rows := map id | id in d.rows :: RequeueOne(d.rows[id], channel, now))
  }

  /** A chosen delivery in one of these states is pending from now on; every other one is as it was. */
  ghost predicate QueuedAgain(x: Delivery, y: Delivery, chosen: bool, states: set<DeliveryState>, now: int) {
    if chosen && x.state in states then y.state == Pending && y.next == now && y.attempts == x.attempts && y.last == x.last
    else y == x
  }

  lemma RequeuedMeans(d: Disk, ids: set<string>, now: int)
    ensures forall id, c :: id in d.rows && c in d.rows[id].deliveries ==>
              var rows := Requeued(d, ids, now).rows;
              id in rows && c in rows[id].deliveries
              && QueuedAgain(d.rows[id].deliveries[c], rows[id].deliveries[c], id in ids, {Pending, RetryWait, Blocked}, now)
  {
  }

  lemma ChannelRequeuedMeans(d: Disk, channel: string, now: int)
    ensures forall id, c :: id in d.rows && c in d.rows[id].deliveries ==>
              var rows := ChannelRequeued(d, channel, now).rows;
              id in rows && c in rows[id].deliveries
              && QueuedAgain(d.rows[id].deliveries[c], rows[id].deliveries[c], c == channel, {Blocked}, now)
  {
  }

  ghost function Paths(ids: set<string>, env: Env): set<Path> {
    set id | id in ids :: PathOf(id, env)
  }

  /** The disk without these artifacts: neither row nor payload. */
  ghost function Without(d: Disk, ids: set<string>, env: Env): Disk {
    Disk(map id | id in d.rows && id !in ids :: d.rows[id], d.files - Paths(ids, env))
  }

  /** Some channel has not had the artifact yet, or it is a remote one that no channel was ever given. */
  ghost predicate Owes(r: Row) {
    || (exists c :: c in r.deliveries && r.deliveries[c].state in {Pending, RetryWait, Blocked, InFlight})
    || (!r.local && forall c :: c !in r.deliveries)
  }

  lemma OwesIs(r: Row)
    ensures Unsent(r) <==> Owes(r)
  {
    if Unsent(r) && exists c :: c in r.deliveries && !Finished(r.deliveries[c]) {
      var c :| c in r.deliveries && !Finished(r.deliveries[c]);
      assert r.deliveries[c].state in {Pending, RetryWait, Blocked, InFlight};
    }
  }

  /** Some selected artifact claims a payload that cannot be removed. */
  ghost predicate Blocks(d: Disk, ids: set<string>, stuck: set<string>) {
    exists id :: id in ids && id in stuck && id in d.rows && d.rows[id].present
  }

  lemma NothingBlocks(d: Disk, stuck: set<string>)
    ensures !Blocks(d, {}, stuck)
  {
  }

  lemma OneMoreBlocks(d: Disk, ids: set<string>, id: string, stuck: set<string>)
    ensures Blocks(d, ids + {id}, stuck) <==> Blocks(d, ids, stuck) || (id in stuck && id in d.rows && d.rows[id].present)
  {
  }

  lemma BlocksAmong(d: Disk, some: set<string>, all: set<string>, stuck: set<string>)
    requires Blocks(d, some, stuck) && some <= all
    ensures Blocks(d, all, stuck)
  {
  }

  /** Every selected row is marked, some of their files are gone, and nothing else changed. */
  ghost predicate HalfErased(before: Disk, d: Disk, ids: set<string>, env: Env) {
    d.rows == Marked(before, ids).rows && exists gone :: gone <= ids && d.files == before.files - Paths(gone, env)
  }

  ghost predicate Erasable(d: Disk, ids: seq<string>, discardUnsent: bool) {
    1 <= |ids| <= 500 && forall id :: id in ids ==>
      id in d.rows && !d.rows[id].deletePending && (Unsent(d.rows[id]) ==> discardUnsent)
  }

  // ---------------------------------------------------------------- startup

  /** A completed artifact gives up its payload; every other row stays. */
  function CleanRow(r: Row, hasFile: bool): Row {
    if Complete(r) then r.(present := false, error := if hasFile then r.error else NoError) else r
  }

  ghost function CompleteIds(d: Disk, ids: set<string>): set<string> {
    set id | id in ids && id in d.rows && Complete(d.rows[id])
  }

  ghost function Cleaned(d: Disk, ids: set<string>, env: Env): Disk {
    Disk(map id | id in d.rows :: if id in ids then CleanRow(d.rows[id], PathOf(id, env) in d.files) else d.rows[id],
         d.files - Paths(CompleteIds(d, ids), env))
  }

  ghost predicate Adoptable(d: Disk, p: Path) {
    p in d.files && !IsTemp(p.name) && Stem(p.name) !in d.rows
  }

  ghost function Adopted(d: Disk, seen: set<Path>): set<string> {
    set p | p in seen && Adoptable(d, p) :: Stem(p.name)
  }

  ghost function Temps(seen: set<Path>): set<Path> {
    set p | p in seen && IsTemp(p.name)
  }

  /** After the directory entries in `seen`: temporaries removed, unmanifested payloads adopted. */
  ghost function Swept(d: Disk, seen: set<Path>, env: Env): Disk {
    Disk(WithAdopted(d, Adopted(d, seen), env), d.files - Temps(seen))
  }

  ghost function WithAdopted(d: Disk, ids: set<string>, env: Env): map<string, Row> {
    d.rows + map id | id in ids && PathOf(id, env) in d.files :: RecoveredManifest(id, d.files[PathOf(id, env)], env)
  }

  lemma AdoptOneMore(d: Disk, ids: set<string>, id: string, env: Env)
    requires PathOf(id, env) in d.files
    ensures WithAdopted(d, ids + {id}, env)
              == WithAdopted(d, ids, env)[id := RecoveredManifest(id, d.files[PathOf(id, env)], env)]
  {
    hide RecoveredManifest, PathOf;
  }

  lemma WithNoneAdopted(d: Disk, env: Env)
    ensures WithAdopted(d, {}, env) == d.rows
  {
  }

  ghost function PendingIds(d: Disk): set<string> {
    set id | id in d.rows && d.rows[id].deletePending
  }

  ghost function Startup(d: Disk, env: Env): Disk {
    var erased := Without(d, PendingIds(d), env);
    var clean := Cleaned(erased, erased.rows.Keys, env);
    Swept(clean, clean.files.Keys, env)
  }

  class Repository {
    const env: Env
    var disk: Disk
    ghost var origin: Disk
    ghost var log: seq<Event>

    /** The disk is what the log of durable writes made of a sound starting disk. */
    ghost predicate Valid()
      reads this
    {
      && OutboxModel.Durable(origin, env) && Runs(origin, log, env) && After(origin, log, env) == disk
      && OutboxModel.Durable(disk, env)
    }

    constructor Open(env: Env, disk: Disk)
      requires OutboxModel.Durable(disk, env)
      ensures Valid() && this.disk == disk && this.env == env && log == [] && origin == disk
    {
      this.env, this.disk := env, disk;
      origin, log := disk, [];
    }

    /** One durable write. A crash may follow any of them. */
    method Durably(e: Event)
      requires Valid() && Enabled(disk, e, env)
      modifies this
      ensures Valid() && disk == Apply(old(disk), e, env)
      ensures log == old(log) + [e] && origin == old(origin)
    {
      StepDurable(disk, e, env);
      RunsSnoc(origin, log, e, env);
      hide Enabled, OutboxModel.Durable, Apply, Runs, After;
      disk := Apply(disk, e, env);
      log := log + [e];
    }

    // -------------------------------------------------------------- enqueue

    method CheckChannels(channels: seq<string>) returns (ok: bool)
      ensures ok <==> (forall c :: c in channels ==> SafeIdentity(c)) && Distinct(channels)
    {
      var seen: set<string> := {};
      for i := 0 to |channels|
        invariant seen == set k | 0 <= k < i :: channels[k]
        invariant forall k :: 0 <= k < i ==> SafeIdentity(channels[k])
        invariant forall j, k :: 0 <= j < k < i ==> channels[j] != channels[k]
      {
        if !SafeIdentity(channels[i]) || channels[i] in seen {
          return false;
        }
        seen := seen + {channels[i]};
      }
      return true;
    }

    /** storage_status walks both directories. */
    method PayloadBytes() returns (used: nat)
      ensures used == Total(disk.files)
    {
      hide IsTemp;
      used := 0;
      var todo := disk.files;
      while todo.Keys != {}
        invariant used + Total(todo) == Total(disk.files)
        decreases |todo|
      {
        var p :| p in todo;
        TotalRemove(todo, p);
        used := used + if IsTemp(p.name) then 0 else |todo[p]|;
        todo := todo - {p};
      }
    }

    /** Writes the body to a temporary, in whatever pieces the system accepts. */
    method WriteBody(temp: Path, body: Bytes)
      requires Valid() && IsTemp(temp.name)
      modifies this
      ensures Valid() && disk == old(disk).(files := old(disk).files[temp := body])
      ensures origin == old(origin) && old(log) <= log
      ensures forall k :: |old(log)| <= k < |log| ==> log[k].WriteTemp? && log[k].temp == temp
    {
      hide IsTemp, Valid, Enabled, Apply;
      WritesTemp(disk, temp, [], env);
      Durably(WriteTemp(temp, []));
      var offset := 0;
      while offset < |body|
        invariant Valid() && offset <= |body| && disk == old(disk).(files := old(disk).files[temp := body[..offset]])
        invariant origin == old(origin) && old(log) <= log
        invariant forall k :: |old(log)| <= k < |log| ==> log[k].WriteTemp? && log[k].temp == temp
      {
        var written: nat :| 1 <= written <= |body| - offset;
        offset := offset + written;
        WritesTemp(disk, temp, body[..offset], env);
        Durably(WriteTemp(temp, body[..offset]));
      }
      assert body[..|body|] == body;
    }

    /**
     * A new artifact becomes one published file and one manifest row; an identical repeat changes nothing;
     * a refusal changes nothing. The writes happen in the order temporary, rename, transaction.
     */
    method Enqueue(q: Request, suffix: string, available: nat, minimumFree: nat) returns (r: Result<(), Error>)
      requires Valid() && Disciplined(q, env)
      modifies this
      ensures Valid() && origin == old(origin) && old(log) <= log
      ensures r.Ok? <==> (&& WellFormed(q, env)
                          && if q.id in old(disk).rows then SameManifest(old(disk).rows[q.id], q)
                             else Storable(old(disk), q, suffix, available, minimumFree, env))
      ensures disk == if r.Ok? && q.id !in old(disk).rows then Stored(old(disk), q, env) else old(disk)
      ensures q.id in old(disk).rows && !RepeatOf(old(disk).rows[q.id], q) ==> r.Err?
      ensures r.Ok? && q.id !in old(disk).rows ==>
                && Total(old(disk).files) + |q.body| <= env.maximum && |q.body| + minimumFree <= available
                && q.id in disk.rows && AwaitsDelivery(disk.rows[q.id], q)
      ensures r.Ok? ==> env.sha(q.body) == q.checksum && |q.checksum| == 64 && (q.local <==> q.channels == [])
      ensures if r.Ok? && q.id !in old(disk).rows then InOrder(log[|old(log)|..], q, suffix) else log == old(log)
    {
      hide Valid, Total, IsTemp, SafeIdentity, SafeFilename, Stored, Distinct, RepeatOf, SameManifest, AwaitsDelivery, InOrder;
      if q.id in disk.rows {
        RepeatMeans(disk.rows[q.id], q);
      }
      if !SafeIdentity(q.id) || !SafeFilename(q.name) || q.name != q.id + "." + q.extension ||
         (q.extension != "json" && q.extension != "csv") || env.sha(q.body) != q.checksum || |q.checksum| != 64 {
        return Err(InvalidArtifact);
      }
      if q.local != (q.channels == []) {
        return Err(InvalidDestination);
      }
      var valid := CheckChannels(q.channels);
      if !valid {
        return Err(InvalidDestination);
      }
      if q.id in disk.rows {
        RepeatMeans(disk.rows[q.id], q);
        return if SameManifest(disk.rows[q.id], q) then Ok(()) else Err(ConflictingManifest);
      }
      var used := PayloadBytes();
      if !Fits(q, used, env.maximum, available, minimumFree) {
        return Err(StorageGuard);
      }
      var temp := Path(q.local, "." + q.name + ".tmp." + suffix);
      TempName(q.name, suffix);
      assert Path(q.local, q.name) == PathOf(q.id, env);
      if Path(q.local, q.name) in disk.files || temp in disk.files {
        return Err(UnexpectedFile);
      }
      PublishPayload(q, temp);
      ghost var published := log;
      InsertManifest(q);
      WrittenInOrder(old(log), published, log, q, suffix, env);
      StoredByParts(old(disk), q, env);
      StoredAwaits(old(disk), q, env);
      return Ok(());
    }

    /** The temporary takes the payload's name only once it is complete. */
    method PublishPayload(q: Request, temp: Path)
      requires Valid() && SafeIdentity(q.id) && q.id !in disk.rows
      requires PathOf(q.id, env) !in disk.files && IsTemp(temp.name) && temp !in disk.files
      requires Total(disk.files) + |q.body| <= env.maximum
      modifies this
      ensures Valid() && origin == old(origin) && old(log) <= log
      ensures disk == old(disk).(files := old(disk).files[PathOf(q.id, env) := q.body])
      ensures |log| >= |old(log)| + 2 && log[|log| - 2..] == [Publish(q.id, temp), SyncDirectory(PathOf(q.id, env).local)]
      ensures forall k :: |old(log)| <= k < |log| - 2 ==> log[k].WriteTemp? && log[k].temp == temp
    {
      hide Valid, Total, IsTemp, SafeIdentity, Enabled, Apply, PathOf;
      WriteBody(temp, q.body);
      Publishes(old(disk), q.id, temp, q.body, env);
      Durably(Publish(q.id, temp));
      Syncs(disk, PathOf(q.id, env).local, env);
      Durably(SyncDirectory(PathOf(q.id, env).local));
    }

    method InsertManifest(q: Request)
      requires Valid() && Disciplined(q, env) && WellFormed(q, env) && q.id !in disk.rows
      requires PathOf(q.id, env) in disk.files && disk.files[PathOf(q.id, env)] == q.body
      modifies this
      ensures Valid() && origin == old(origin) && old(log) <= log
      ensures disk == old(disk).(rows := old(disk).rows[q.id := NewManifest(q)])
      ensures log == old(log) + [Insert(q.id, NewManifest(q), q.at)]
    {
      hide Valid, Enabled, Apply, PathOf, NewManifest, WellFormed;
      InsertsRow(disk, q, env);
      Durably(Insert(q.id, NewManifest(q), q.at));
    }

    // -------------------------------------------------------------- delivery

    /** Claims in the order of due time, artifact and channel: at most `limit`, each leased until `lease`. */
    method ClaimDue(now: int, lease: int, limit: nat) returns (r: Result<set<(string, string)>, Error>)
      requires Valid()
      modifies this
      ensures Valid() && origin == old(origin) && old(log) <= log
      ensures r.Ok? <==> 1 <= limit <= 500 && now < lease
      ensures r.Err? ==> disk == old(disk)
      ensures r.Ok? ==> |r.value| <= limit && r.value <= Due(old(disk).rows, now)
      ensures r.Ok? ==> (r.value == Due(old(disk).rows, now) || |r.value| == limit)
      ensures r.Ok? ==> NoneOvertaken(old(disk).rows, r.value, Due(old(disk).rows, now))
      ensures r.Ok? ==> disk == Claimed(old(disk), r.value, lease)
      ensures r.Ok? ==> forall k :: k in r.value ==> TakenFor(old(disk).rows, disk.rows, k, now, lease)
      ensures lease == now + LONGEST_WAIT ==> TimelySince(log, |old(log)|)
      ensures log == old(log) + if r.Ok? then [Claim(r.value, now, lease)] else []
    {
      hide Valid, Enabled, Apply, Claimed, Due, TakenFor;
      if limit == 0 || limit > 500 || lease <= now {
        return Err(InvalidSelection);
      }
      var chosen := ChooseDue(disk.rows, now, limit);
      ClaimsRows(disk, chosen, now, lease, env);
      TakesChosen(disk, chosen, now, lease);
      Durably(Claim(chosen, now, lease));
      return Ok(chosen);
    }

    /** Removes a fully delivered payload, then records that it is gone; when it cannot be removed, nothing changes. */
    method FinalizeCompleted(id: string, removable: bool)
      requires Valid()
      modifies this
      ensures Valid() && origin == old(origin) && old(log) <= log
      ensures disk == (if removable then Finalized(old(disk), id, env) else old(disk)) && TimelySince(log, |old(log)|)
      ensures log == old(log) + if removable && Finalizable(old(disk), id)
                                then [RemoveDelivered(id), MarkAbsent(id), SyncDirectory(false)] else []
    {
      hide Valid, Enabled, Apply, Complete, PathOf;
      if !Finalizable(disk, id) || !removable {
        return;
      }
      TimelySnoc(log, |log|, RemoveDelivered(id));
      TimelySnoc(log + [RemoveDelivered(id)], |log|, MarkAbsent(id));
      TimelySnoc(log + [RemoveDelivered(id)] + [MarkAbsent(id)], |log|, SyncDirectory(false));
      RemovesDelivered(disk, id, env);
      Durably(RemoveDelivered(id));
      MarksAbsent(disk, id, env);
      Durably(MarkAbsent(id));
      Syncs(disk, false, env);
      Durably(SyncDirectory(false));
    }

    method PruneCompleted(now: int, retention: int)
      requires Valid()
      modifies this
      ensures Valid() && origin == old(origin) && old(log) <= log
      ensures disk == Pruned(old(disk), now, retention) && TimelySince(log, |old(log)|)
      ensures forall id :: id in old(disk).rows && id !in disk.rows <==>
                id in old(disk).rows && now > retention && Forgettable(old(disk).rows[id], now - retention)
    {
      hide Valid, Enabled, Apply, Prunable, Forgettable;
      if now <= retention {
        return;
      }
      var ids := set id | id in disk.rows && Prunable(disk.rows[id], now - retention);
      forall id | id in disk.rows ensures Prunable(disk.rows[id], now - retention) <==> Forgettable(disk.rows[id], now - retention) {
        ForgettableIs(disk.rows[id], now - retention);
      }
      PrunesRows(disk, ids, now, retention, env);
      if ids == {} {
        return;
      }
      TimelySnoc(log, |log|, Prune(ids));
      Durably(Prune(ids));
    }

    /** A result is recorded once, while the delivery is open; then payload and metadata are let go when they may be. */
    method RecordResult(id: string, channel: string, disposition: Disposition, at: int, retryAt: int, retention: int,
                        removable: bool)
      returns (r: Result<(), Error>)
      requires Valid()
      modifies this
      ensures Valid() && origin == old(origin) && old(log) <= log
      ensures r.Ok? <==> id in old(disk).rows && channel in old(disk).rows[id].deliveries
                         && !Finished(old(disk).rows[id].deliveries[channel])
      ensures r.Err? ==> disk == old(disk)
      ensures r.Ok? ==>
        disk == Concluded(old(disk), id, channel, disposition, at, retryAt, retention, removable, env)
      ensures (disposition == Retryable ==> retryAt <= at + LONGEST_RETRY) ==> TimelySince(log, |old(log)|)
      ensures r.Ok? && id in disk.rows ==>
                && channel in disk.rows[id].deliveries
                && Attempted(old(disk).rows[id].deliveries[channel], disk.rows[id].deliveries[channel], disposition, at, retryAt)
    {
      hide Valid, Enabled, Apply, Finalized, Pruned, Recorded, Attempted;
      if id !in disk.rows || channel !in disk.rows[id].deliveries || Finished(disk.rows[id].deliveries[channel]) {
        return Err(AlreadyFinal);
      }
      RecordsResult(disk, id, channel, disposition, at, retryAt, env);
      ConcludedAttempts(disk, id, channel, disposition, at, retryAt, retention, removable, env);
      Durably(Record(id, channel, disposition, at, retryAt));
      FinalizeCompleted(id, removable);
      PruneCompleted(at, retention);
      return Ok(());
    }

    method Retry(ids: seq<string>, now: int) returns (r: Result<(), Error>)
      requires Valid()
      modifies this
      ensures Valid() && origin == old(origin) && old(log) <= log
      ensures r.Ok? <==> (&& 1 <= |ids| <= 500
                          && forall id :: id in ids ==> id in old(disk).rows && !old(disk).rows[id].deletePending)
      ensures disk == if r.Ok? then Requeued(old(disk), IdSet(ids), now) else old(disk)
      ensures r.Ok? ==> forall id, c :: id in old(disk).rows && c in old(disk).rows[id].deliveries ==>
                id in disk.rows && c in disk.rows[id].deliveries
                && QueuedAgain(old(disk).rows[id].deliveries[c], disk.rows[id].deliveries[c], id in ids, {Pending, RetryWait, Blocked}, now)
    {
      hide Valid, Enabled, Apply, Requeued, QueuedAgain;
      if ids == [] || |ids| > 500 {
        return Err(InvalidSelection);
      }
      for i := 0 to |ids|
        invariant forall k :: 0 <= k < i ==> ids[k] in disk.rows && !disk.rows[ids[k]].deletePending
        invariant disk == old(disk) && Valid() && origin == old(origin) && log == old(log)
      {
        assert ids[i] in ids;
        if ids[i] !in disk.rows || disk.rows[ids[i]].deletePending {
          return Err(UnknownArtifact);
        }
      }
      var chosen := IdSet(ids);
      RequeuesRows(disk, chosen, now, env);
      RequeuedMeans(disk, chosen, now);
      Durably(Requeue(chosen, now));
      return Ok(());
    }

    method RetryChannel(channel: string, now: int) returns (r: Result<(), Error>)
      requires Valid()
      modifies this
      ensures Valid() && origin == old(origin) && old(log) <= log
      ensures r.Ok? <==> SafeIdentity(channel)
      ensures disk == if r.Ok? then ChannelRequeued(old(disk), channel, now) else old(disk)
      ensures r.Ok? ==> forall id, c :: id in old(disk).rows && c in old(disk).rows[id].deliveries ==>
                id in disk.rows && c in disk.rows[id].deliveries
                && QueuedAgain(old(disk).rows[id].deliveries[c], disk.rows[id].deliveries[c], c == channel, {Blocked}, now)
    {
      hide Valid, Enabled, Apply, ChannelRequeued, QueuedAgain;
      if !SafeIdentity(channel) {
        return Err(InvalidSelection);
      }
      RequeuesChannel(disk, channel, now, env);
      ChannelRequeuedMeans(disk, channel, now);
      Durably(RequeueChannel(channel, now));
      return Ok(());
    }

    /** The payload, once its size and digest agree with the manifest. */
    method Content(id: string) returns (r: Result<Bytes, Error>)
      ensures r.Ok? <==> Readable(disk, id, env)
      ensures r.Ok? ==> r.value == disk.files[PathOf(id, env)]
    {
      if id !in disk.rows || disk.rows[id].deletePending {
        return Err(UnknownArtifact);
      }
      if !disk.rows[id].present || PathOf(id, env) !in disk.files {
        return Err(MissingContent);
      }
      var body := disk.files[PathOf(id, env)];
      return if Matches(disk.rows[id], body, env) then Ok(body) else Err(MissingContent);
    }

    // -------------------------------------------------------------- erase

    /** Refuses before any write when an id is unknown or unsent data was not released. */
    method CheckErasable(ids: seq<string>, discardUnsent: bool) returns (r: Result<(), Error>)
      ensures r.Ok? <==> Erasable(disk, ids, discardUnsent)
      ensures r != Err(RemovalFailed)
    {
      hide Unsent;
      if ids == [] || |ids| > 500 {
        return Err(InvalidSelection);
      }
      for i := 0 to |ids|
        invariant forall k :: 0 <= k < i ==>
          ids[k] in disk.rows && !disk.rows[ids[k]].deletePending && (Unsent(disk.rows[ids[k]]) ==> discardUnsent)
      {
        if ids[i] !in disk.rows || disk.rows[ids[i]].deletePending {
          return Err(UnknownArtifact);
        }
        if Unsent(disk.rows[ids[i]]) && !discardUnsent {
          return Err(UnsentArtifact);
        }
      }
      return Ok(());
    }

    /**
     * Marks, removes the payloads, then drops the rows; a refusal writes nothing and everything else stays. A file that
     * cannot be removed ends the erase with every selected artifact marked, for startup to finish.
     */
    method Erase(ids: seq<string>, discardUnsent: bool, stuck: set<string>) returns (r: Result<(), Error>)
      requires Valid()
      modifies this
      ensures Valid() && origin == old(origin) && old(log) <= log
      ensures r.Ok? <==> Erasable(old(disk), ids, discardUnsent) && !Blocks(old(disk), IdSet(ids), stuck)
      ensures r == Err(RemovalFailed) <==> Erasable(old(disk), ids, discardUnsent) && Blocks(old(disk), IdSet(ids), stuck)
      ensures r.Ok? ==> disk == Without(old(disk), IdSet(ids), env)
      ensures r.Err? && r.error != RemovalFailed ==> disk == old(disk) && log == old(log)
      ensures r == Err(RemovalFailed) ==> HalfErased(old(disk), disk, IdSet(ids), env)
      ensures forall k :: |old(log)| <= k < |log| ==> log[k].MarkErased? || log[k].RemoveMarked? || log[k].DropMarked?
      ensures log != old(log) ==> |log| > |old(log)| && log[|old(log)|] == MarkErased(IdSet(ids))
      ensures !discardUnsent && (exists id :: id in ids && id in old(disk).rows && !old(disk).rows[id].deletePending
                                              && Owes(old(disk).rows[id])) ==>
                r.Err? && disk == old(disk) && log == old(log)
      ensures 1 <= |ids| <= 500 && stuck == {}
              && (forall id :: id in ids ==> id in old(disk).rows && !old(disk).rows[id].deletePending && !Owes(old(disk).rows[id])) ==>
                r.Ok?
    {
      hide Valid, Enabled, Apply, Without, Unsent, Owes, Discarded', Paths, PathOf;
      forall id | id in disk.rows ensures Unsent(disk.rows[id]) <==> Owes(disk.rows[id]) {
        OwesIs(disk.rows[id]);
      }
      r := CheckErasable(ids, discardUnsent);
      if r.Err? {
        return;
      }
      var marked := IdSet(ids);
      MarksRows(disk, marked, env);
      Durably(MarkErased(marked));
      var removed := RemovePayloads(marked, stuck);
      if removed.Err? {
        return Err(RemovalFailed);
      }
      DropsMarked(old(disk), disk, marked, env);
      Durably(DropMarked(marked));
    }

    /** Removes the payload file of every marked artifact that claims one, stopping at one that cannot be removed. */
    method RemovePayloads(marked: set<string>, stuck: set<string>) returns (r: Result<(), Error>)
      requires Valid() && forall id :: id in marked ==> id in disk.rows && disk.rows[id].deletePending
      modifies this
      ensures Valid() && origin == old(origin) && old(log) <= log
      ensures r.Ok? <==> !Blocks(old(disk), marked, stuck)
      ensures r.Ok? ==> disk == old(disk).(files := old(disk).files - Paths(marked, env))
      ensures forall k :: |old(log)| <= k < |log| ==> log[k].RemoveMarked?
      ensures r.Err? ==> exists gone :: gone <= marked && disk == old(disk).(files := old(disk).files - Paths(gone, env))
    {
      hide Valid, Enabled, Apply, Paths, Blocks;
      NothingBlocks(disk, stuck);
      var todo := marked;
      NoPaths(disk.files, env);
      assert marked - todo == {};
      while todo != {}
        invariant Valid() && origin == old(origin) && old(log) <= log && todo <= marked
        invariant disk == old(disk).(files := old(disk).files - Paths(marked - todo, env))
        invariant !Blocks(old(disk), marked - todo, stuck)
        invariant forall k :: |old(log)| <= k < |log| ==> log[k].RemoveMarked?
        decreases |todo|
      {
        var id :| id in todo;
        OneMoreBlocks(old(disk), marked - todo, id, stuck);
        if disk.rows[id].present && id in stuck {
          BlocksAmong(old(disk), (marked - todo) + {id}, marked, stuck);
          return Err(RemovalFailed);
        }
        OnePathMore(old(disk).files, marked - todo, id, env);
        assert marked - (todo - {id}) == (marked - todo) + {id};
        RemovePayload(id);
        todo := todo - {id};
      }
      assert marked - todo == marked;
      return Ok(());
    }

    /** Removes one marked artifact's file if its row claims one. */
    method RemovePayload(id: string)
      requires Valid() && id in disk.rows && disk.rows[id].deletePending
      modifies this
      ensures Valid() && origin == old(origin)
      ensures disk == old(disk).(files := old(disk).files - {PathOf(id, env)})
      ensures log == old(log) + if old(disk).rows[id].present then [RemoveMarked(id)] else []
    {
      hide Valid, Enabled, Apply, PathOf;
      if disk.rows[id].present {
        RemovesMarked(disk, id, env);
        Durably(RemoveMarked(id));
      } else {
        Sound();
        AbsentPayload(disk, id, env);
        assert disk.files - {PathOf(id, env)} == disk.files;
      }
    }

    lemma Sound()
      requires Valid()
      ensures OutboxModel.Durable(disk, env)
    {
    }

    // -------------------------------------------------------------- startup

    /** Finishes deletions, reconciles rows with files, then sweeps the directories. */
    method Initialize()
      requires Valid()
      modifies this
      ensures Valid() && origin == old(origin) && old(log) <= log
      ensures disk == Startup(old(disk), env)
    {
      hide Valid, Without, Cleaned, Swept;
      FinishPendingDeletions();
      NonePending(old(disk), env);
      ReconcileRows();
      SweepDirectories();
    }

    method FinishPendingDeletions()
      requires Valid()
      modifies this
      ensures Valid() && origin == old(origin) && old(log) <= log
      ensures disk == Without(old(disk), PendingIds(old(disk)), env)
    {
      hide Valid, Enabled, Apply, Without;
      var ids := set id | id in disk.rows && disk.rows[id].deletePending;
      var removed := RemovePayloads(ids, {});
      DropsPending(old(disk), disk, env);
      Durably(DropMarked(ids));
    }

    method ReconcileRows()
      requires Valid() && PendingIds(disk) == {}
      modifies this
      ensures Valid() && origin == old(origin) && old(log) <= log
      ensures disk == Cleaned(old(disk), old(disk).rows.Keys, env)
    {
      hide Valid, Cleaned, PendingIds, OutboxModel.Durable;
      var ids := disk.rows.Keys;
      Sound();
      var todo := ids;
      CleanedNothing(disk, env);
      assert ids - todo == {};
      while todo != {}
        invariant Valid() && origin == old(origin) && old(log) <= log && todo <= ids
        invariant disk == Cleaned(old(disk), ids - todo, env)
        decreases |todo|
      {
        var id :| id in todo;
        CleanedStep(old(disk), ids - todo, id, env);
        ReconcileRow(id);
        assert ids - (todo - {id}) == (ids - todo) + {id};
        todo := todo - {id};
      }
      assert ids - todo == ids;
    }

    /** One manifest: note what is wrong with its payload, and let a fully delivered payload go. */
    method ReconcileRow(id: string)
      requires Valid() && id in disk.rows && !disk.rows[id].deletePending
      modifies this
      ensures Valid() && origin == old(origin) && old(log) <= log
      ensures disk == Cleaned(old(disk), {id}, env)
    {
      hide Valid, Enabled, Apply, Recovered, Matches, Finalized, Cleaned;
      var before, file := disk.rows[id], FileAt(disk, PathOf(id, env));
      Sound();
      RecoversRow(disk, id, env);
      Durably(RecoverRow(id));
      if file.Some? && Matches(before, file.value, env) && Complete(before) {
        FinalizeCompleted(id, true);
      }
      ReconcileEffect(old(disk), id, env);
    }

    method SweepDirectories()
      requires Valid()
      modifies this
      ensures Valid() && origin == old(origin) && old(log) <= log
      ensures disk == Swept(old(disk), old(disk).files.Keys, env)
    {
      hide Valid, Swept, Enabled, Apply, IsTemp, Recoverable, Canonical, OutboxModel.Durable;
      var names := NamesOf(disk.rows);
      var paths := disk.files.Keys;
      var todo := paths;
      SweptNothing(disk, env);
      assert paths - todo == {};
      Sound();
      DurableIsCanonical(disk, env);
      while todo != {}
        invariant Valid() && origin == old(origin) && old(log) <= log && todo <= paths
        invariant disk == Swept(old(disk), paths - todo, env)
        decreases |todo|
      {
        var p :| p in todo;
        assert paths - (todo - {p}) == (paths - todo) + {p};
        SweptStep(old(disk), paths - todo, p, names, env);
        if IsTemp(p.name) {
          Durably(RemoveTemp(p));
        } else if Recoverable(p.name) && p.name !in names {
          Durably(RecoverFile(Stem(p.name)));
        }
        todo := todo - {p};
      }
      assert paths - todo == paths;
    }
  }

  // ---------------------------------------------------------------- choosing what to deliver

  /** ORDER BY next_attempt_ns, artifact_id, channel_id. */
  predicate Ahead(rows: map<string, Row>, k: (string, string), j: (string, string))
    requires k.0 in rows && k.1 in rows[k.0].deliveries && j.0 in rows && j.1 in rows[j.0].deliveries
  {
    || NextOf(rows, k) < NextOf(rows, j)
    || (NextOf(rows, k) == NextOf(rows, j) && (TextLess(k.0, j.0) || (k.0 == j.0 && TextLess(k.1, j.1))))
  }

  /** The due time decides, then the artifact, then the channel. */
  lemma AheadMeans(rows: map<string, Row>, k: (string, string), j: (string, string))
    requires AllKnown(rows, {k, j})
    ensures Ahead(rows, k, j) <==>
      (if rows[k.0].deliveries[k.1].next != rows[j.0].deliveries[j.1].next
       then rows[k.0].deliveries[k.1].next < rows[j.0].deliveries[j.1].next
       else if k.0 != j.0 then TextLess(k.0, j.0) else TextLess(k.1, j.1))
  {
    hide TextLess;
    TextTotal(k.0, j.0);
  }

  lemma AheadTransitive(rows: map<string, Row>, a: (string, string), b: (string, string), c: (string, string))
    requires AllKnown(rows, {a, b, c}) && !Ahead(rows, b, a) && !Ahead(rows, c, b)
    ensures !Ahead(rows, c, a)
  {
    hide TextLess;
    TextTotal(a.0, b.0);
    TextTotal(b.0, c.0);
    TextTotal(a.0, c.0);
    if !TextLess(b.0, a.0) && !TextLess(c.0, b.0) {
      TextTransitive(a.0, b.0, c.0);
    }
    if !TextLess(b.1, a.1) && !TextLess(c.1, b.1) {
      TextTransitive(a.1, b.1, c.1);
    }
  }

  lemma AheadTotal(rows: map<string, Row>, a: (string, string), b: (string, string))
    requires AllKnown(rows, {a, b})
    ensures !Ahead(rows, a, a) && !(Ahead(rows, a, b) && Ahead(rows, b, a))
    ensures !Ahead(rows, a, b) && !Ahead(rows, b, a) ==> a == b
  {
    hide TextLess;
    TextTotal(a.0, b.0);
    TextTotal(a.1, b.1);
    TextTotal(a.0, a.0);
    TextTotal(a.1, a.1);
  }

  /** Every due delivery left out comes after every chosen one in that order. */
  ghost predicate NoneOvertaken(rows: map<string, Row>, chosen: set<(string, string)>, due: set<(string, string)>)
  {
    forall k, j :: k in chosen && j in due && j !in chosen && AllKnown(rows, {k, j}) ==> Ahead(rows, k, j)
  }

  method ChooseDue(rows: map<string, Row>, now: int, limit: nat) returns (chosen: set<(string, string)>)
    ensures chosen <= Due(rows, now) && |chosen| <= limit && (chosen == Due(rows, now) || |chosen| == limit)
    ensures NoneOvertaken(rows, chosen, Due(rows, now))
  {
    hide Claimable, Ahead;
    chosen := {};
    var due := Due(rows, now);
    while |chosen| < limit && chosen != due
      invariant chosen <= due && |chosen| <= limit
      invariant forall k, j :: k in chosen && j in due - chosen ==> Ahead(rows, k, j)
      decreases limit - |chosen|
    {
      assert due == chosen + (due - chosen);
      var first := Earliest(due - chosen, rows);
      forall j | j in due - chosen && j != first ensures Ahead(rows, first, j) {
        AheadTotal(rows, first, j);
      }
      chosen := chosen + {first};
    }
  }

  method Earliest(candidates: set<(string, string)>, rows: map<string, Row>) returns (first: (string, string))
    requires candidates != {} && AllKnown(rows, candidates)
    ensures first in candidates && forall k :: k in candidates ==> !Ahead(rows, k, first)
  {
    hide Ahead;
    first :| first in candidates;
    var todo := candidates - {first};
    AheadTotal(rows, first, first);
    while todo != {}
      invariant todo <= candidates && first in candidates
      invariant forall k :: k in candidates - todo ==> !Ahead(rows, k, first)
    {
      var k :| k in todo;
      AheadTotal(rows, k, first);
      if Ahead(rows, k, first) {
        forall j | j in candidates - todo ensures !Ahead(rows, j, k) {
          AheadTransitive(rows, k, first, j);
        }
        AheadTotal(rows, k, k);
        first := k;
      }
      todo := todo - {k};
    }
  }

  // ---------------------------------------------------------------- effects of single writes

  lemma TempName(name: string, suffix: string)
    ensures IsTemp("." + name + ".tmp." + suffix)
  {
    var s := "." + name + ".tmp." + suffix;
    assert s[|name| + 1..|name| + 6] == ".tmp.";
    assert TempAt(s, |name| + 1);
  }

  lemma KeepsRows(d: Disk, e: Event, env: Env)
    requires TouchesFiles(e)
    ensures NewRows(d, e, env) == d.rows
  {
  }

  lemma Syncs(d: Disk, local: bool, env: Env)
    ensures Enabled(d, SyncDirectory(local), env) && Apply(d, SyncDirectory(local), env) == d
  {
    assert NewRows(d, SyncDirectory(local), env) == d.rows;
  }

  lemma WritesTemp(d: Disk, temp: Path, body: Bytes, env: Env)
    requires IsTemp(temp.name)
    ensures Enabled(d, WriteTemp(temp, body), env)
    ensures Apply(d, WriteTemp(temp, body), env) == d.(files := d.files[temp := body])
  {
    KeepsRows(d, WriteTemp(temp, body), env);
  }

  lemma Publishes(d: Disk, id: string, temp: Path, body: Bytes, env: Env)
    requires SafeIdentity(id) && id !in d.rows && PathOf(id, env) !in d.files
    requires IsTemp(temp.name) && temp !in d.files && Total(d.files) + |body| <= env.maximum
    ensures
      var written := d.(files := d.files[temp := body]);
      && Enabled(written, Publish(id, temp), env)
      && Apply(written, Publish(id, temp), env) == d.(files := d.files[PathOf(id, env) := body])
  {
    hide Total, IsTemp, SafeIdentity, PathOf;
    var written := d.(files := d.files[temp := body]);
    TempIsNoPayload(temp, id, env);
    TotalAdd(d.files, temp, body);
    KeepsRows(written, Publish(id, temp), env);
    assert written.files - {temp} == d.files;
  }

  lemma InsertsRow(d: Disk, q: Request, env: Env)
    requires Disciplined(q, env) && WellFormed(q, env) && q.id !in d.rows
    requires PathOf(q.id, env) in d.files && d.files[PathOf(q.id, env)] == q.body
    ensures Enabled(d, Insert(q.id, NewManifest(q), q.at), env)
    ensures Apply(d, Insert(q.id, NewManifest(q), q.at), env) == d.(rows := d.rows[q.id := NewManifest(q)])
  {
    hide SafeIdentity, SafeFilename, Distinct;
    if q.channels != [] {
      assert q.channels[0] in NewDeliveries(q.channels);
    }
  }

  lemma StoredByParts(d: Disk, q: Request, env: Env)
    ensures d.(files := d.files[PathOf(q.id, env) := q.body]).(rows := d.rows[q.id := NewManifest(q)]) == Stored(d, q, env)
  {
  }

  lemma ClaimsRows(d: Disk, chosen: set<(string, string)>, now: int, lease: int, env: Env)
    requires chosen <= Due(d.rows, now) && now < lease
    ensures Enabled(d, Claim(chosen, now, lease), env)
    ensures Apply(d, Claim(chosen, now, lease), env) == Claimed(d, chosen, lease)
  {
    hide Claimable, ClaimRow;
    assert forall k :: k in chosen ==> k in Due(d.rows, now);
  }

  lemma RemovesDelivered(d: Disk, id: string, env: Env)
    requires Finalizable(d, id)
    ensures Enabled(d, RemoveDelivered(id), env)
    ensures Apply(d, RemoveDelivered(id), env) == d.(files := d.files - {PathOf(id, env)})
  {
    KeepsRows(d, RemoveDelivered(id), env);
  }

  lemma MarksAbsent(d: Disk, id: string, env: Env)
    requires Finalizable(d, id) && PathOf(id, env) !in d.files
    ensures Enabled(d, MarkAbsent(id), env)
    ensures Apply(d, MarkAbsent(id), env) == d.(rows := d.rows[id := d.rows[id].(present := false)])
  {
    hide Complete;
  }

  lemma PrunesRows(d: Disk, ids: set<string>, now: int, retention: int, env: Env)
    requires now > retention && ids == set id | id in d.rows && Prunable(d.rows[id], now - retention)
    ensures Enabled(d, Prune(ids), env) && Apply(d, Prune(ids), env) == Pruned(d, now, retention)
    ensures ids == {} ==> Pruned(d, now, retention) == d
  {
    hide Complete;
    if ids == {} {
      forall id | id in d.rows ensures id in Pruned(d, now, retention).rows {
        assert id !in ids;
      }
      assert Pruned(d, now, retention).rows == d.rows;
    }
    assert forall id :: id in ids ==> id in d.rows && Prunable(d.rows[id], now - retention);
    DropsRows(d, Prune(ids), env);
    assert NewRows(d, Prune(ids), env) == Pruned(d, now, retention).rows;
  }

  lemma DropsRows(d: Disk, e: Event, env: Env)
    requires e.Prune? || e.DropMarked?
    ensures NewRows(d, e, env) == map id | id in d.rows && id !in e.ids :: d.rows[id]
  {
  }

  lemma RecordsResult(d: Disk, id: string, channel: string, disposition: Disposition, at: int, retryAt: int, env: Env)
    requires id in d.rows && channel in d.rows[id].deliveries && !Finished(d.rows[id].deliveries[channel])
    ensures Enabled(d, Record(id, channel, disposition, at, retryAt), env)
    ensures Apply(d, Record(id, channel, disposition, at, retryAt), env)
              == Recorded(d, id, channel, disposition, at, retryAt)
  {
    hide AfterResult;
  }

  lemma RequeuesRows(d: Disk, ids: set<string>, now: int, env: Env)
    requires forall id :: id in ids ==> id in d.rows && !d.rows[id].deletePending
    ensures Enabled(d, Requeue(ids, now), env) && Apply(d, Requeue(ids, now), env) == Requeued(d, ids, now)
  {
    hide RequeueRow;
  }

  lemma RequeuesChannel(d: Disk, channel: string, now: int, env: Env)
    ensures Enabled(d, RequeueChannel(channel, now), env)
    ensures Apply(d, RequeueChannel(channel, now), env) == ChannelRequeued(d, channel, now)
  {
    hide RequeueOne;
  }

  ghost function Marked(d: Disk, ids: set<string>): Disk {
    d.(rows := map id | id in d.rows ::
         if id in ids then d.rows[id].(deletePending := true, deliveries := Discarded'(d.rows[id].deliveries))
         else d.rows[id])
  }

  lemma MarksRows(d: Disk, ids: set<string>, env: Env)
    requires forall id :: id in ids ==> id in d.rows && !d.rows[id].deletePending
    ensures Enabled(d, MarkErased(ids), env) && Apply(d, MarkErased(ids), env) == Marked(d, ids)
    ensures forall id :: id in ids ==> id in Marked(d, ids).rows && Marked(d, ids).rows[id].deletePending
  {
    hide Discarded';
  }

  lemma DropsMarked(before: Disk, d: Disk, ids: set<string>, env: Env)
    requires d == Marked(before, ids).(files := before.files - Paths(ids, env))
    requires forall id :: id in ids ==> id in before.rows
    ensures Enabled(d, DropMarked(ids), env) && Apply(d, DropMarked(ids), env) == Without(before, ids, env)
  {
    hide Discarded', PathOf;
    DropsRows(d, DropMarked(ids), env);
  }

  lemma DropsPending(before: Disk, d: Disk, env: Env)
    requires d == before.(files := before.files - Paths(PendingIds(before), env))
    ensures Enabled(d, DropMarked(PendingIds(before)), env)
    ensures Apply(d, DropMarked(PendingIds(before)), env) == Without(before, PendingIds(before), env)
  {
    hide PathOf;
    DropsRows(d, DropMarked(PendingIds(before)), env);
  }

  lemma NonePending(d: Disk, env: Env)
    ensures PendingIds(Without(d, PendingIds(d), env)) == {}
  {
    hide Paths;
  }

  lemma NoPaths(files: map<Path, Bytes>, env: Env)
    ensures files - Paths({}, env) == files
  {
  }

  lemma OnePathMore(files: map<Path, Bytes>, ids: set<string>, id: string, env: Env)
    ensures files - Paths(ids + {id}, env) == files - Paths(ids, env) - {PathOf(id, env)}
    ensures PathOf(id, env) !in files - Paths(ids, env) ==> files - Paths(ids + {id}, env) == files - Paths(ids, env)
  {
    hide PathOf;
  }

  lemma RemovesMarked(d: Disk, id: string, env: Env)
    requires id in d.rows && d.rows[id].deletePending && d.rows[id].present
    ensures Enabled(d, RemoveMarked(id), env)
    ensures Apply(d, RemoveMarked(id), env) == d.(files := d.files - {PathOf(id, env)})
  {
    KeepsRows(d, RemoveMarked(id), env);
  }

  lemma AbsentPayload(d: Disk, id: string, env: Env)
    requires OutboxModel.Durable(d, env) && id in d.rows && !d.rows[id].present
    ensures PathOf(id, env) !in d.files
  {
    hide Total;
    assert RowKept(d, id, env);
  }

  // ---------------------------------------------------------------- startup, step by step

  lemma RecoversRow(d: Disk, id: string, env: Env)
    requires id in d.rows && !d.rows[id].deletePending
    ensures Enabled(d, RecoverRow(id), env)
    ensures Apply(d, RecoverRow(id), env)
              == d.(rows := d.rows[id := Recovered(d.rows[id], FileAt(d, PathOf(id, env)), env)])
  {
    hide Recovered;
  }

  /** In a durable state the only thing recovery finds wrong with a row is a delivered payload's leftovers. */
  lemma ReconcileEffect(d: Disk, id: string, env: Env)
    requires OutboxModel.Durable(d, env) && id in d.rows && !d.rows[id].deletePending
    ensures
      var file := FileAt(d, PathOf(id, env));
      var noted := d.(rows := d.rows[id := Recovered(d.rows[id], file, env)]);
      Cleaned(d, {id}, env) == if file.Some? && Matches(d.rows[id], file.value, env) && Complete(d.rows[id])
                               then Finalized(noted, id, env) else noted
  {
    hide Total, IsTemp, SafeIdentity, NameOf;
    assert RowKept(d, id, env);
    var r := d.rows[id];
    if Complete(r) {
      assert CompleteIds(d, {id}) == {id};
      assert Paths({id}, env) == {PathOf(id, env)};
    } else {
      assert CompleteIds(d, {id}) == {};
      assert Paths({}, env) == {};
    }
    assert r.present ==> r.(present := true) == r;
  }

  lemma CleanedNothing(d: Disk, env: Env)
    ensures Cleaned(d, {}, env) == d
  {
    hide PathOf, Complete, CleanRow;
    assert CompleteIds(d, {}) == {};
    assert Paths({}, env) == {};
    assert Cleaned(d, {}, env).rows == d.rows;
  }

  lemma CleanedStep(d: Disk, done: set<string>, id: string, env: Env)
    requires OutboxModel.Durable(d, env) && id in d.rows && id !in done && PendingIds(d) == {} && done <= d.rows.Keys
    ensures id in Cleaned(d, done, env).rows && !Cleaned(d, done, env).rows[id].deletePending
    ensures Cleaned(Cleaned(d, done, env), {id}, env) == Cleaned(d, done + {id}, env)
  {
    hide Complete, PathOf, CleanRow;
    assert id in PendingIds(d) <==> d.rows[id].deletePending;
    OtherPaths(d, done, id, env);
    var mid := Cleaned(d, done, env);
    assert mid.rows[id] == d.rows[id];
    if Complete(d.rows[id]) {
      assert CompleteIds(mid, {id}) == {id};
      assert CompleteIds(d, done + {id}) == CompleteIds(d, done) + {id};
    } else {
      assert CompleteIds(mid, {id}) == {};
      assert CompleteIds(d, done + {id}) == CompleteIds(d, done);
    }
    MorePaths(CompleteIds(d, done), CompleteIds(mid, {id}), env);
    assert Cleaned(mid, {id}, env).files == Cleaned(d, done + {id}, env).files by {
      hide Paths, CompleteIds;
    }
    CleanedRowsStep(d, done, id, env);
  }

  lemma CleanedRowsStep(d: Disk, done: set<string>, id: string, env: Env)
    requires id in d.rows && id !in done && PathOf(id, env) !in Paths(CompleteIds(d, done), env)
    ensures Cleaned(Cleaned(d, done, env), {id}, env).rows == Cleaned(d, done + {id}, env).rows
  {
    hide Complete, PathOf, CleanRow, CompleteIds, Paths;
  }

  lemma MorePaths(a: set<string>, b: set<string>, env: Env)
    ensures Paths(a + b, env) == Paths(a, env) + Paths(b, env)
  {
    hide PathOf;
  }

  lemma OtherPaths(d: Disk, done: set<string>, id: string, env: Env)
    requires OutboxModel.Durable(d, env) && id in d.rows && id !in done && done <= d.rows.Keys
    ensures PathOf(id, env) !in Paths(CompleteIds(d, done), env)
  {
    hide Total, PathOf, IsTemp, Complete;
    assert RowKept(d, id, env);
    CanonicalPath(id, env);
    forall other | other in done ensures PathOf(other, env) != PathOf(id, env) {
      assert RowKept(d, other, env);
    }
  }

  lemma SweptNothing(d: Disk, env: Env)
    ensures Swept(d, {}, env) == d
  {
    hide IsTemp, Stem, WithAdopted;
    WithNoneAdopted(d, env);
    assert Adopted(d, {}) == {} && Temps({}) == {};
  }

  /** In a durable state a payload's name is manifested exactly when its id is. */
  lemma NameIsManifested(d: Disk, p: Path, env: Env)
    requires Canonical(d, env) && p in d.files && !IsTemp(p.name)
    ensures SafeIdentity(Stem(p.name)) && p == PathOf(Stem(p.name), env) && Recoverable(p.name)
    ensures (exists id :: id in d.rows && d.rows[id].name == p.name) <==> Stem(p.name) in d.rows
  {
    hide IsTemp, SafeIdentity, Recoverable, Stem, NameOf;
    assert CanonicalFile(p, env);
    CanonicalName(Stem(p.name), env);
    if Stem(p.name) in d.rows {
      assert CanonicalRow(d.rows[Stem(p.name)], Stem(p.name), env);
    }
    forall id | id in d.rows && d.rows[id].name == p.name ensures id == Stem(p.name) {
      assert CanonicalRow(d.rows[id], id, env);
    }
  }

  lemma SweptTemp(d: Disk, seen: set<Path>, p: Path, env: Env)
    requires IsTemp(p.name)
    ensures Enabled(Swept(d, seen, env), RemoveTemp(p), env)
    ensures Apply(Swept(d, seen, env), RemoveTemp(p), env) == Swept(d, seen + {p}, env)
  {
    hide IsTemp, Stem, PathOf;
    KeepsRows(Swept(d, seen, env), RemoveTemp(p), env);
    assert Adopted(d, seen + {p}) == Adopted(d, seen);
    assert Temps(seen + {p}) == Temps(seen) + {p};
  }

  lemma SweptPayload(d: Disk, seen: set<Path>, p: Path, env: Env)
    requires Canonical(d, env) && p in d.files && p !in seen && !IsTemp(p.name)
    requires seen <= d.files.Keys && Stem(p.name) !in d.rows
    ensures Enabled(Swept(d, seen, env), RecoverFile(Stem(p.name)), env)
    ensures Apply(Swept(d, seen, env), RecoverFile(Stem(p.name)), env) == Swept(d, seen + {p}, env)
  {
    NameIsManifested(d, p, env);
    NotYetAdopted(d, seen, p, env);
    var id := Stem(p.name);
    NotARow(d, Adopted(d, seen), id, env);
    AdoptOneMore(d, Adopted(d, seen), id, env);
    hide IsTemp, Stem, SafeIdentity, Canonical, PathOf, RecoveredManifest, Enabled, Apply, WithAdopted;
    assert Adopted(d, seen + {p}) == Adopted(d, seen) + {id};
    assert Temps(seen + {p}) == Temps(seen);
    AdoptsFile(Swept(d, seen, env), id, env);
  }

  lemma NotARow(d: Disk, ids: set<string>, id: string, env: Env)
    requires id !in d.rows && id !in ids
    ensures id !in WithAdopted(d, ids, env)
  {
  }

  lemma AdoptsFile(d: Disk, id: string, env: Env)
    requires SafeIdentity(id) && id !in d.rows && PathOf(id, env) in d.files
    ensures Enabled(d, RecoverFile(id), env)
    ensures Apply(d, RecoverFile(id), env)
              == d.(rows := d.rows[id := RecoveredManifest(id, d.files[PathOf(id, env)], env)])
  {
    hide SafeIdentity, PathOf, RecoveredManifest;
  }

  lemma NotYetAdopted(d: Disk, seen: set<Path>, p: Path, env: Env)
    requires Canonical(d, env) && p in d.files && p !in seen && !IsTemp(p.name) && seen <= d.files.Keys
    ensures Stem(p.name) !in Adopted(d, seen)
  {
    hide IsTemp, Stem, SafeIdentity, PathOf, CanonicalRow;
    assert CanonicalFile(p, env);
    forall q | q in seen && Adoptable(d, q) ensures Stem(q.name) != Stem(p.name) {
      assert CanonicalFile(q, env);
    }
  }

  lemma SweptStep(d: Disk, seen: set<Path>, p: Path, names: set<string>, env: Env)
    requires Canonical(d, env) && p in d.files && p !in seen && seen <= d.files.Keys && names == NamesOf(d.rows)
    ensures
      var now, next := Swept(d, seen, env), Swept(d, seen + {p}, env);
      if IsTemp(p.name) then Enabled(now, RemoveTemp(p), env) && Apply(now, RemoveTemp(p), env) == next
      else if Recoverable(p.name) && p.name !in names
      then Enabled(now, RecoverFile(Stem(p.name)), env) && Apply(now, RecoverFile(Stem(p.name)), env) == next
      else now == next
  {
    hide IsTemp, Stem, SafeIdentity, Recoverable, Enabled, Apply, PathOf;
    if IsTemp(p.name) {
      SweptTemp(d, seen, p, env);
    } else {
      NameIsManifested(d, p, env);
      if Stem(p.name) !in d.rows {
        SweptPayload(d, seen, p, env);
      } else {
        assert Adopted(d, seen + {p}) == Adopted(d, seen);
        assert Temps(seen + {p}) == Temps(seen);
      }
    }
  }
}
