/** The Data Sender outbox as durable writes: manifest rows, payload files, and what each single write may do. */
module OutboxModel {
  import opened Foundation

  type Bytes = seq<byte>

  datatype DeliveryState = Pending | RetryWait | Blocked | Succeeded | Discarded | InFlight

  datatype Delivery = Delivery(state: DeliveryState, attempts: nat, next: int, last: int)

  datatype RecoveryError = NoError | MissingPayload | SizeMismatch | ChecksumMismatch | RecoveredLocal | RecoveredUnsent

  /** One artifacts row with the deliveries rows that reference (and cascade with) it. */
  datatype Row = Row(
    name: string, checksum: string, size: nat, local: bool, present: bool, error: RecoveryError, deletePending: bool,
    revision: nat, start: int, end: int, deliveries: map<string, Delivery>)

  /** A file of the archive (local) or the outbox directory. */
  datatype Path = Path(local: bool, name: string)

  datatype Disk = Disk(rows: map<string, Row>, files: map<Path, Bytes>)

  /**
   * What the repository takes from outside: the digest, the storage quota, and the naming discipline of its callers,
   * under which an artifact id determines its destination and its extension.
   */
  datatype Env = Env(sha: Bytes -> string, maximum: nat, toArchive: string -> bool, csv: string -> bool)

  // ---------------------------------------------------------------- names

  predicate Alnum(c: char) {
    'a' <= c <= 'z' || 'A' <= c <= 'Z' || '0' <= c <= '9'
  }

  predicate SafeIdentity(s: string) {
    0 < |s| <= 160 && forall i :: 0 <= i < |s| ==> Alnum(s[i]) || s[i] == '-' || s[i] == '_'
  }

  predicate SafeFilename(s: string) {
    0 < |s| <= 240 && s[0] != '.' && forall i :: 0 <= i < |s| ==> Alnum(s[i]) || s[i] == '-' || s[i] == '_' || s[i] == '.'
  }

  predicate TempAt(name: string, i: nat) {
    i + 5 <= |name| && name[i..i + 5] == ".tmp."
  }

  /** The name contains ".tmp.". */
  predicate IsTemp(name: string) {
    exists i: nat | i < |name| :: TempAt(name, i)
  }

  /** Position of the last dot, or |s| without one. */
  function LastDot(s: string, n: nat): (k: nat)
    requires n <= |s|
    ensures k < n ==> s[k] == '.' && forall i :: k < i < n ==> s[i] != '.'
    ensures k >= n ==> k == |s| && forall i :: 0 <= i < n ==> s[i] != '.'
  {
    if n == 0 then |s| else if s[n - 1] == '.' then n - 1 else LastDot(s, n - 1)
  }

  function Extension(s: string): string {
    var k := LastDot(s, |s|);
    if k == |s| then "" else s[k + 1..]
  }

  function Stem(s: string): string {
    s[..LastDot(s, |s|)]
  }

  predicate Recoverable(name: string) {
    !IsTemp(name) && SafeFilename(name) && (Extension(name) == "json" || Extension(name) == "csv")
  }

  function NameOf(id: string, env: Env): string {
    id + "." + if env.csv(id) then "csv" else "json"
  }

  function PathOf(id: string, env: Env): Path {
    Path(env.toArchive(id), NameOf(id, env))
  }

  /** A canonical name gives its id back, is recoverable at startup, and is never mistaken for a temporary. */
  lemma CanonicalName(id: string, env: Env)
    requires SafeIdentity(id)
    ensures Stem(NameOf(id, env)) == id && Recoverable(NameOf(id, env))
    ensures forall other: string :: SafeIdentity(other) && NameOf(other, env) == NameOf(id, env) ==> other == id
  {
    OneDot(id, env);
    forall other: string | SafeIdentity(other) && NameOf(other, env) == NameOf(id, env) ensures other == id {
      OneDot(other, env);
    }
  }

  lemma OneDot(id: string, env: Env)
    requires SafeIdentity(id)
    ensures Stem(NameOf(id, env)) == id && Recoverable(NameOf(id, env))
  {
    var s := NameOf(id, env);
    var k := LastDot(s, |s|);
    assert s[|id|] == '.';
    assert k == |id|;
    assert s[..k] == id;
    forall i: nat | i < |s| ensures !TempAt(s, i) {
      if i + 5 <= |s| {
        assert s[i..i + 5][0] == s[i] && s[i..i + 5][4] == s[i + 4];
      }
    }
    assert Extension(s) == if env.csv(id) then "csv" else "json";
  }

  // ---------------------------------------------------------------- predicates on rows

  predicate Finished(d: Delivery) {
    d.state == Succeeded || d.state == Discarded
  }

  /** A remote artifact all of whose deliveries succeeded. */
  predicate Complete(r: Row) {
    !r.local && r.deliveries.Keys != {} && forall c :: c in r.deliveries ==> r.deliveries[c].state == Succeeded
  }

  /** Does deleting this artifact lose data that was never sent? */
  predicate Unsent(r: Row) {
    (exists c :: c in r.deliveries && !Finished(r.deliveries[c])) || (!r.local && r.deliveries.Keys == {})
  }

  predicate Matches(r: Row, body: Bytes, env: Env) {
    |body| == r.size && env.sha(body) == r.checksum
  }

  predicate Claimable(r: Row, c: string, now: int) {
    && r.present && !r.deletePending && c in r.deliveries && r.deliveries[c].next <= now
    && (r.deliveries[c].state == Pending || r.deliveries[c].state == RetryWait || r.deliveries[c].state == InFlight)
  }

  // ---------------------------------------------------------------- storage accounting

  ghost function Counted(p: Path, b: Bytes): nat {
    if IsTemp(p.name) then 0 else |b|
  }

  /** storage_status: bytes of every file that is not a temporary. */
  ghost function Total(files: map<Path, Bytes>): nat
    decreases |files|
  {
    if files.Keys == {} then 0
    else
      var p :| p in files;
      Counted(p, files[p]) + Total(files - {p})
  }

  lemma {:induction false} TotalRemove(files: map<Path, Bytes>, p: Path)
    requires p in files
    ensures Total(files) == Counted(p, files[p]) + Total(files - {p})
    decreases |files|
  {
    hide Counted;
    var q :| q in files && Total(files) == Counted(q, files[q]) + Total(files - {q});
    if q != p {
      TotalRemove(files - {q}, p);
      TotalRemove(files - {p}, q);
      assert files - {q} - {p} == files - {p} - {q};
    }
  }

  lemma TotalAdd(files: map<Path, Bytes>, p: Path, b: Bytes)
    requires p !in files
    ensures Total(files[p := b]) == Total(files) + Counted(p, b)
  {
    hide Counted;
    TotalRemove(files[p := b], p);
    assert files[p := b] - {p} == files;
  }

  // ---------------------------------------------------------------- single durable writes

  datatype Disposition = Delivered | Retryable | Refused

  /**
   * Each event is one atomic write: a file operation or one committed transaction. A directory sync changes nothing that
   * can be seen; it only settles which removals a power loss can still undo.
   */
  datatype Event =
    | WriteTemp(temp: Path, body: Bytes)
    | RemoveTemp(temp: Path)
    | Publish(id: string, temp: Path)
    | Insert(id: string, row: Row, at: int)
    | Claim(chosen: set<(string, string)>, now: int, lease: int)
    | Record(id: string, channel: string, disposition: Disposition, at: int, retryAt: int)
    | RemoveDelivered(id: string)
    | MarkAbsent(id: string)
    | Requeue(ids: set<string>, now: int)
    | RequeueChannel(channel: string, now: int)
    | MarkErased(ids: set<string>)
    | RemoveMarked(id: string)
    | DropMarked(ids: set<string>)
    | Prune(ids: set<string>)
    | RecoverRow(id: string)
    | RecoverFile(id: string)
    | SyncDirectory(local: bool)

  function Blocked'(deliveries: map<string, Delivery>): map<string, Delivery> {
    map c | c in deliveries :: if Finished(deliveries[c]) then deliveries[c] else deliveries[c].(state := Blocked)
  }

  function Discarded'(deliveries: map<string, Delivery>): map<string, Delivery> {
    map c | c in deliveries :: if Finished(deliveries[c]) then deliveries[c] else deliveries[c].(state := Discarded, next := 0)
  }

  /** recover_locked on one manifest row, given the bytes of its payload file if there is one. */
  function Recovered(r: Row, file: Option<Bytes>, env: Env): Row {
    match file
    case None =>
      if Complete(r) then r.(present := false, error := NoError)
      else if r.present then r.(present := false, error := MissingPayload, deliveries := Blocked'(r.deliveries))
      else r
    case Some(body) =>
      if |body| != r.size then r.(error := SizeMismatch, deliveries := Blocked'(r.deliveries))
      else if env.sha(body) != r.checksum then r.(error := ChecksumMismatch, deliveries := Blocked'(r.deliveries))
      else r
  }

  function FileAt(d: Disk, p: Path): Option<Bytes> {
    if p in d.files then Some(d.files[p]) else None
  }

  function RecoveredManifest(id: string, body: Bytes, env: Env): Row {
    Row(NameOf(id, env), env.sha(body), |body|, env.toArchive(id), true,
        if env.toArchive(id) then RecoveredLocal else RecoveredUnsent, false, 1, 0, 0, map[])
  }

  function AfterResult(x: Delivery, e: Disposition, at: int, retryAt: int): Delivery {
    var state := match e { case Delivered => Succeeded case Retryable => RetryWait case Refused => Blocked };
    Delivery(state, x.attempts + 1, if state == RetryWait then retryAt else 0, at)
  }

  function ClaimRow(r: Row, id: string, chosen: set<(string, string)>, lease: int): Row {
    r.(deliveries := map c | c in r.deliveries ::
         if (id, c) in chosen then r.deliveries[c].(state := InFlight, next := lease) else r.deliveries[c])
  }

  function RequeueRow(r: Row, now: int): Row {
    r.(deliveries := map c | c in r.deliveries ::
         if r.deliveries[c].state == Pending || r.deliveries[c].state == RetryWait || r.deliveries[c].state == Blocked
         then r.deliveries[c].(state := Pending, next := now) else r.deliveries[c])
  }

  function RequeueOne(r: Row, channel: string, now: int): Row {
    if channel in r.deliveries && r.deliveries[channel].state == Blocked
    then r.(deliveries := r.deliveries[channel := r.deliveries[channel].(state := Pending, next := now)])
    else r
  }

  /** The row an event leaves behind; rows it does not mention stay as they are. */
  function NewRow(d: Disk, e: Event, id: string, env: Env): Row
    requires id in d.rows
  {
    var r := d.rows[id];
    match e
    case Claim(chosen, _, lease) => ClaimRow(r, id, chosen, lease)
    case Record(k, channel, disposition, at, retryAt) =>
      if k == id && channel in r.deliveries
      then r.(deliveries := r.deliveries[channel := AfterResult(r.deliveries[channel], disposition, at, retryAt)]) else r
    case MarkAbsent(k) => if k == id then r.(present := false) else r
    case Requeue(ids, now) => if id in ids then RequeueRow(r, now) else r
    case RequeueChannel(channel, now) => RequeueOne(r, channel, now)
    case MarkErased(ids) => if id in ids then r.(deletePending := true, deliveries := Discarded'(r.deliveries)) else r
    case RecoverRow(k) => if k == id then Recovered(r, FileAt(d, PathOf(id, env)), env) else r
    case _ => r
  }

  function Dropped(e: Event): set<string> {
    match e
    case DropMarked(ids) => ids
    case Prune(ids) => ids
    case _ => {}
  }

  function NewRows(d: Disk, e: Event, env: Env): map<string, Row> {
    var kept := map id | id in d.rows && id !in Dropped(e) :: NewRow(d, e, id, env);
    match e
    case Insert(id, row, _) => kept[id := row]
    case RecoverFile(id) => if PathOf(id, env) in d.files then kept[id := RecoveredManifest(id, d.files[PathOf(id, env)], env)] else kept
    case _ => kept
  }

  function NewFiles(d: Disk, e: Event, env: Env): map<Path, Bytes> {
    match e
    case WriteTemp(temp, body) => d.files[temp := body]
    case RemoveTemp(temp) => d.files - {temp}
    case Publish(id, temp) => if temp in d.files then (d.files - {temp})[PathOf(id, env) := d.files[temp]] else d.files
    case RemoveDelivered(id) => d.files - {PathOf(id, env)}
    case RemoveMarked(id) => d.files - {PathOf(id, env)}
    case _ => d.files
  }

  function Apply(d: Disk, e: Event, env: Env): Disk {
    Disk(NewRows(d, e, env), NewFiles(d, e, env))
  }

  /** The row enqueue inserts: pending to every channel, claiming the payload just published. */
  ghost predicate FreshRow(row: Row, id: string, body: Bytes, env: Env) {
    && row.name == NameOf(id, env) && row.local == env.toArchive(id) && row.present && row.error == NoError
    && !row.deletePending && Matches(row, body, env)
    && (row.local <==> row.deliveries.Keys == {})
    && forall c :: c in row.deliveries ==> row.deliveries[c] == Delivery(Pending, 0, 0, 0)
  }

  /** When the repository performs each write. */
  ghost predicate Enabled(d: Disk, e: Event, env: Env) {
    match e
    case WriteTemp(temp, _) => IsTemp(temp.name)
    case RemoveTemp(temp) => IsTemp(temp.name)
    case Publish(id, temp) =>
      && SafeIdentity(id) && id !in d.rows && PathOf(id, env) !in d.files
      && IsTemp(temp.name) && temp in d.files && Total(d.files) + |d.files[temp]| <= env.maximum
    case Insert(id, row, _) =>
      && SafeIdentity(id) && id !in d.rows && PathOf(id, env) in d.files
      && FreshRow(row, id, d.files[PathOf(id, env)], env)
    case Claim(chosen, now, lease) =>
      && now < lease
      && forall k :: k in chosen ==> k.0 in d.rows && Claimable(d.rows[k.0], k.1, now)
    case Record(id, channel, _, _, _) =>
      id in d.rows && channel in d.rows[id].deliveries && !Finished(d.rows[id].deliveries[channel])
    case RemoveDelivered(id) => id in d.rows && d.rows[id].present && !d.rows[id].deletePending && Complete(d.rows[id])
    case MarkAbsent(id) =>
      id in d.rows && !d.rows[id].deletePending && Complete(d.rows[id]) && PathOf(id, env) !in d.files
    case Requeue(ids, _) => forall id :: id in ids ==> id in d.rows && !d.rows[id].deletePending
    case RequeueChannel(_, _) => true
    case MarkErased(ids) => forall id :: id in ids ==> id in d.rows && !d.rows[id].deletePending
    case RemoveMarked(id) => id in d.rows && d.rows[id].deletePending && d.rows[id].present
    case DropMarked(ids) =>
      forall id :: id in ids ==> id in d.rows && d.rows[id].deletePending && PathOf(id, env) !in d.files
    case Prune(ids) =>
      forall id :: id in ids ==> id in d.rows && !d.rows[id].present && !d.rows[id].deletePending && Complete(d.rows[id])
    case RecoverRow(id) => id in d.rows && !d.rows[id].deletePending
    case RecoverFile(id) => SafeIdentity(id) && id !in d.rows && PathOf(id, env) in d.files
    case SyncDirectory(_) => true
  }

  // ---------------------------------------------------------------- what holds at every instant

  /** A row that claims its payload has the matching file, or has delivered it everywhere. */
  ghost predicate RowKept(d: Disk, id: string, env: Env)
    requires id in d.rows
  {
    var r, p := d.rows[id], PathOf(id, env);
    && SafeIdentity(id) && r.name == NameOf(id, env) && r.local == env.toArchive(id)
    && (r.local ==> r.deliveries.Keys == {})
    && (!r.present ==> p !in d.files)
    && (p in d.files && !r.deletePending ==> Matches(r, d.files[p], env))
    && (r.present && !r.deletePending && p !in d.files ==> Complete(r))
  }

  ghost predicate CanonicalFile(p: Path, env: Env) {
    !IsTemp(p.name) ==> SafeIdentity(Stem(p.name)) && p == PathOf(Stem(p.name), env)
  }

  /** The crash invariant: it holds after every single durable write, so a crash can stop anywhere. */
  ghost predicate Durable(d: Disk, env: Env) {
    && (forall id :: id in d.rows ==> RowKept(d, id, env))
    && (forall p :: p in d.files ==> CanonicalFile(p, env))
    && Total(d.files) <= env.maximum
  }

  /** Names are as the repository gives them; nothing is said about which rows have files. */
  ghost predicate Canonical(d: Disk, env: Env) {
    && (forall id :: id in d.rows ==> CanonicalRow(d.rows[id], id, env))
    && (forall p :: p in d.files ==> CanonicalFile(p, env))
  }

  ghost predicate CanonicalRow(r: Row, id: string, env: Env) {
    SafeIdentity(id) && r.name == NameOf(id, env) && r.local == env.toArchive(id)
  }

  lemma DurableIsCanonical(d: Disk, env: Env)
    requires Durable(d, env)
    ensures Canonical(d, env)
  {
    hide CanonicalFile, Total;
    forall id | id in d.rows ensures CanonicalRow(d.rows[id], id, env) {
      assert RowKept(d, id, env);
    }
  }

  /** Every run can start from nothing. */
  lemma EmptyDurable(env: Env)
    ensures Durable(Disk(map[], map[]), env)
  {
  }

  function NamesOf(rows: map<string, Row>): set<string> {
    set id | id in rows :: rows[id].name
  }

  lemma CanonicalPath(id: string, env: Env)
    requires SafeIdentity(id)
    ensures CanonicalFile(PathOf(id, env), env) && !IsTemp(PathOf(id, env).name)
    ensures forall other: string :: SafeIdentity(other) && PathOf(other, env) == PathOf(id, env) ==> other == id
  {
    CanonicalName(id, env);
  }

  lemma TempIsNoPayload(temp: Path, id: string, env: Env)
    requires IsTemp(temp.name) && SafeIdentity(id)
    ensures temp != PathOf(id, env)
  {
    CanonicalPath(id, env);
  }

  lemma {:induction false} TotalStep(d: Disk, e: Event, env: Env)
    requires Durable(d, env) && Enabled(d, e, env)
    ensures Total(NewFiles(d, e, env)) <= env.maximum
  {
    hide RowKept, CanonicalFile, FreshRow, IsTemp, Total;
    match e
    case WriteTemp(temp, body) =>
      if temp in d.files {
        TotalRemove(d.files, temp);
        TotalAdd(d.files - {temp}, temp, body);
        assert (d.files - {temp})[temp := body] == d.files[temp := body];
      } else {
        TotalAdd(d.files, temp, body);
      }
    case RemoveTemp(temp) => TotalWithout(d.files, temp);
    case Publish(id, temp) =>
      CanonicalPath(id, env);
      TotalRemove(d.files, temp);
      TotalAdd(d.files - {temp}, PathOf(id, env), d.files[temp]);
    case RemoveDelivered(id) => TotalWithout(d.files, PathOf(id, env));
    case RemoveMarked(id) => TotalWithout(d.files, PathOf(id, env));
    case _ =>
  }

  lemma TotalWithout(files: map<Path, Bytes>, p: Path)
    ensures Total(files - {p}) <= Total(files)
  {
    if p in files {
      TotalRemove(files, p);
    } else {
      assert files - {p} == files;
    }
  }

  lemma FilesStep(d: Disk, e: Event, env: Env, p: Path)
    requires Durable(d, env) && Enabled(d, e, env) && p in NewFiles(d, e, env)
    ensures CanonicalFile(p, env)
  {
    hide RowKept, FreshRow, Total, IsTemp, Stem;
    if e.Publish? {
      CanonicalPath(e.id, env);
    }
  }

  lemma RequeueKeepsComplete(r: Row, now: int)
    requires Complete(r)
    ensures RequeueRow(r, now) == r
  {
    assert RequeueRow(r, now).deliveries == r.deliveries;
  }

  lemma ClaimKeepsComplete(r: Row, id: string, chosen: set<(string, string)>, now: int, lease: int)
    requires Complete(r) && forall c :: (id, c) in chosen ==> Claimable(r, c, now)
    ensures ClaimRow(r, id, chosen, lease) == r
  {
    assert ClaimRow(r, id, chosen, lease).deliveries == r.deliveries;
  }

  predicate TouchesFiles(e: Event) {
    e.WriteTemp? || e.RemoveTemp? || e.Publish? || e.RemoveDelivered? || e.RemoveMarked?
  }

  lemma FileWriteKeepsRow(d: Disk, e: Event, env: Env, id: string)
    requires Durable(d, env) && Enabled(d, e, env) && id in d.rows && TouchesFiles(e)
    ensures id in NewRows(d, e, env) && RowKept(Apply(d, e, env), id, env)
  {
    hide Total, IsTemp, SafeIdentity, NameOf, CanonicalFile, Complete, Matches;
    assert RowKept(d, id, env);
    match e
    case WriteTemp(temp, _) => TempIsNoPayload(temp, id, env);
    case RemoveTemp(temp) => TempIsNoPayload(temp, id, env);
    case Publish(k, temp) =>
      TempIsNoPayload(temp, id, env);
      CanonicalPath(k, env);
    case RemoveDelivered(k) => CanonicalPath(id, env); assert RowKept(d, k, env);
    case RemoveMarked(k) => CanonicalPath(id, env); assert RowKept(d, k, env);
    case _ =>
  }

  /** A row write keeps the row's identity and its payload's description; it never undoes completion or erasure. */
  lemma RowWriteKeepsIdentity(d: Disk, e: Event, env: Env, id: string)
    requires Enabled(d, e, env) && id in d.rows && !TouchesFiles(e)
    ensures
      var r, r' := d.rows[id], NewRow(d, e, id, env);
      && r'.name == r.name && r'.local == r.local && r'.size == r.size && r'.checksum == r.checksum
      && r'.deliveries.Keys == r.deliveries.Keys
      && (Complete(r) ==> Complete(r'))
      && (r.deletePending ==> r'.deletePending)
      && (r'.present ==> r.present)
      && (r.present && !r'.present ==> PathOf(id, env) !in d.files)
  {
    hide Total, IsTemp, SafeIdentity, PathOf, FreshRow;
    var r := d.rows[id];
    if e.Claim? && Complete(r) {
      forall c | (id, c) in e.chosen ensures Claimable(r, c, e.now) {
        var k := (id, c);
        assert k.0 in d.rows && Claimable(d.rows[k.0], k.1, e.now);
      }
      ClaimKeepsComplete(r, id, e.chosen, e.now, e.lease);
    } else if e.Requeue? && Complete(r) {
      RequeueKeepsComplete(r, e.now);
    }
  }

  lemma RowWriteKeepsRow(d: Disk, e: Event, env: Env, id: string)
    requires Durable(d, env) && Enabled(d, e, env) && id in d.rows && id !in Dropped(e) && !TouchesFiles(e)
    ensures id in NewRows(d, e, env) && RowKept(Apply(d, e, env), id, env)
  {
    RowWriteKeepsIdentity(d, e, env, id);
    assert RowKept(d, id, env);
    SurvivingRow(d, e, env, id);
    hide Total, IsTemp, SafeIdentity, NameOf, CanonicalFile, NewRow, NewRows, Complete, Enabled;
  }

  lemma SurvivingRow(d: Disk, e: Event, env: Env, id: string)
    requires Enabled(d, e, env) && id in d.rows && id !in Dropped(e)
    ensures id in NewRows(d, e, env) && NewRows(d, e, env)[id] == NewRow(d, e, id, env)
  {
    hide Total, IsTemp, SafeIdentity, NewRow, Complete, FreshRow;
  }

  lemma NewRowStep(d: Disk, e: Event, env: Env, id: string)
    requires Durable(d, env) && Enabled(d, e, env) && id !in d.rows && id in NewRows(d, e, env)
    ensures RowKept(Apply(d, e, env), id, env)
  {
    hide Total, IsTemp, SafeIdentity, NameOf, CanonicalFile;
  }

  /** Every durable write preserves the crash invariant, quota included. */
  lemma StepDurable(d: Disk, e: Event, env: Env)
    requires Durable(d, env) && Enabled(d, e, env)
    ensures Durable(Apply(d, e, env), env)
  {
    forall id | id in NewRows(d, e, env) ensures RowKept(Apply(d, e, env), id, env) {
      if id in d.rows {
        DroppedGone(d, e, env, id);
        if TouchesFiles(e) {
          FileWriteKeepsRow(d, e, env, id);
        } else {
          RowWriteKeepsRow(d, e, env, id);
        }
      } else {
        NewRowStep(d, e, env, id);
      }
    }
    forall p | p in NewFiles(d, e, env) ensures CanonicalFile(p, env) {
      FilesStep(d, e, env, p);
    }
    TotalStep(d, e, env);
    hide NewRows, NewFiles, Enabled, RowKept, CanonicalFile;
  }

  lemma DroppedGone(d: Disk, e: Event, env: Env, id: string)
    requires id in d.rows && id in NewRows(d, e, env)
    ensures id !in Dropped(e)
  {
  }

  // ---------------------------------------------------------------- what the words mean

  ghost predicate IdentityCode(k: int) {
    48 <= k <= 57 || 65 <= k <= 90 || 97 <= k <= 122 || k == 45 || k == 95
  }

  /** An identity is one to 160 letters, digits, hyphens and underscores; a file name may be longer and have dots, not first. */
  lemma IdentityMeans(s: string)
    ensures SafeIdentity(s) <==> 1 <= |s| <= 160 && forall i :: 0 <= i < |s| ==> IdentityCode(s[i] as int)
    ensures SafeFilename(s) <==>
              1 <= |s| <= 240 && s[0] as int != 46 && forall i :: 0 <= i < |s| ==> IdentityCode(s[i] as int) || s[i] as int == 46
  {
    forall i | 0 <= i < |s|
      ensures Alnum(s[i]) || s[i] == '-' || s[i] == '_' <==> IdentityCode(s[i] as int)
      ensures s[i] == '.' <==> s[i] as int == 46
    {
      IdentityCodeOf(s[i]);
    }
    hide IdentityCode, Alnum;
  }

  lemma IdentityCodeOf(c: char)
    ensures Alnum(c) || c == '-' || c == '_' <==> IdentityCode(c as int)
    ensures c == '.' <==> c as int == 46
  {
  }

  /** Complete: a remote artifact with channels, every one of which has it. */
  lemma CompleteMeans(r: Row)
    ensures Complete(r) <==> !r.local && (set c | c in r.deliveries :: r.deliveries[c].state) == {Succeeded}
  {
    var states := set c | c in r.deliveries :: r.deliveries[c].state;
    if Complete(r) {
      var c :| c in r.deliveries;
      assert r.deliveries[c].state in states;
    }
    if !r.local && states == {Succeeded} {
      assert Succeeded in states;
      forall c | c in r.deliveries ensures r.deliveries[c].state == Succeeded {
        assert r.deliveries[c].state in states;
      }
    }
  }

  /** Unfinished deliveries are blocked, finished ones left as they were. */
  ghost predicate Stopped(before: map<string, Delivery>, after: map<string, Delivery>) {
    && before.Keys == after.Keys
    && forall c :: c in before ==>
         if before[c].state in {Succeeded, Discarded} then after[c] == before[c] else after[c] == before[c].(state := Blocked)
  }

  /** What recovery notes on a row: which error, whether it still claims a payload, and what becomes of its deliveries. */
  lemma RecoveryNotes(r: Row, file: Option<Bytes>, env: Env)
    ensures
      var q := Recovered(r, file, env);
      && (file.Some? && |file.value| == r.size && env.sha(file.value) == r.checksum ==> q == r)
      && (file.Some? && |file.value| != r.size ==>
            q == r.(error := SizeMismatch, deliveries := q.deliveries) && Stopped(r.deliveries, q.deliveries))
      && (file.Some? && |file.value| == r.size && env.sha(file.value) != r.checksum ==>
            q == r.(error := ChecksumMismatch, deliveries := q.deliveries) && Stopped(r.deliveries, q.deliveries))
      && (file.None? && Complete(r) ==> q == r.(present := false, error := NoError))
      && (file.None? && !Complete(r) && r.present ==>
            q == r.(present := false, error := MissingPayload, deliveries := q.deliveries) && Stopped(r.deliveries, q.deliveries))
      && (file.None? && !Complete(r) && !r.present ==> q == r)
  {
    hide Complete;
  }

  /** An adopted file's manifest: it claims the file, describes it, owes nobody, and says where it was found. */
  lemma AdoptedMeans(id: string, body: Bytes, env: Env)
    ensures
      var r := RecoveredManifest(id, body, env);
      && r.present && !r.deletePending && |body| == r.size && env.sha(body) == r.checksum && r.deliveries.Keys == {}
      && Path(r.local, r.name) == PathOf(id, env) && r.error == (if r.local then RecoveredLocal else RecoveredUnsent)
  {
  }
}
