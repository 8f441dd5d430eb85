/** The directory sweep of startup on any disk: when it succeeds, and when it leaves every payload manifested. */
module OutboxSweep {
  import opened Foundation
  import opened OutboxModel
  import opened Outbox

  // ---------------------------------------------------------------- one directory entry

  function Prefix(s: string, n: nat): string {
    if |s| <= n then s else s[..n]
  }

  /** The id recovery prefers for a file: its stem, or a name made of its digest. */
  function FirstId(name: string, checksum: string): string {
    if SafeIdentity(Stem(name)) then Stem(name) else "recovered-" + Prefix(checksum, 24)
  }

  /** The id it falls back on when the first is taken. */
  function SecondId(name: string, checksum: string): string {
    FirstId(name, checksum) + "-" + Prefix(checksum, 12)
  }

  function Pick(taken: set<string>, name: string, checksum: string): string {
    if FirstId(name, checksum) in taken then SecondId(name, checksum) else FirstId(name, checksum)
  }

  function RowFor(p: Path, body: Bytes, env: Env): Row {
    Row(p.name, env.sha(body), |body|, p.local, true, if p.local then RecoveredLocal else RecoveredUnsent, false, 1, 0, 0, map[])
  }

  /** Needs a manifest: recoverable, and its bare name is none of those manifested when the sweep began. */
  predicate New(manifested: set<string>, p: Path) {
    Recoverable(p.name) && p.name !in manifested
  }

  /** One entry; None is a violated PRIMARY KEY or UNIQUE(filename), which ends startup. */
  function SweepFile(rows: map<string, Row>, manifested: set<string>, p: Path, body: Bytes, env: Env): Option<map<string, Row>> {
    if !New(manifested, p) then Some(rows)
    else
      var id := Pick(rows.Keys, p.name, env.sha(body));
      if id in rows || p.name in NamesOf(rows) then None else Some(rows[id := RowFor(p, body, env)])
  }

  // ---------------------------------------------------------------- a whole listing

  ghost predicate Listing(listing: seq<Path>, files: map<Path, Bytes>) {
    && (forall i :: 0 <= i < |listing| ==> listing[i] in files)
    && (forall p :: p in files ==> p in listing)
    && (forall i, j :: 0 <= i < j < |listing| ==> listing[i] != listing[j])
  }

  /** The first n entries, the set of manifested names fixed beforehand and the rows carried along. */
  function Sweep(rows: map<string, Row>, listing: seq<Path>, files: map<Path, Bytes>, n: nat, env: Env): Option<map<string, Row>>
    requires n <= |listing| && forall i :: 0 <= i < n ==> listing[i] in files
  {
    if n == 0 then Some(rows)
    else
      var before := Sweep(rows, listing, files, n - 1, env);
      if before.None? then None
      else SweepFile(before.value, NamesOf(rows), listing[n - 1], files[listing[n - 1]], env)
  }

  /** The loop over both directories' entries. */
  method SweepListing(rows: map<string, Row>, listing: seq<Path>, files: map<Path, Bytes>, env: Env)
    returns (r: Option<map<string, Row>>)
    requires Listing(listing, files)
    ensures r == Sweep(rows, listing, files, |listing|, env)
    ensures (r.Some? && AllManifested(r.value, listing)) <==>
              (NoForeignName(rows, listing) && NoTwins(rows, listing, |listing|) && IdsFree(rows, listing, files, |listing|, env))
  {
    hide SweepFile, NoForeignName, NoTwins, IdsFree, AllManifested;
    SweepManifestsIff(rows, listing, files, env);
    r := Some(rows);
    var manifested := NamesOf(rows);
    for i := 0 to |listing|
      invariant r == Sweep(rows, listing, files, i, env)
    {
      if r.Some? {
        r := SweepFile(r.value, manifested, listing[i], files[listing[i]], env);
      }
    }
  }

  // ---------------------------------------------------------------- the exact condition

  ghost predicate Manifested(rows: map<string, Row>, p: Path) {
    exists id :: id in rows && rows[id].name == p.name && rows[id].local == p.local
  }

  ghost predicate AllManifested(rows: map<string, Row>, listing: seq<Path>) {
    forall i :: 0 <= i < |listing| && Recoverable(listing[i].name) ==> Manifested(rows, listing[i])
  }

  /** No recoverable file's name is borne only by a row of the other directory. */
  ghost predicate NoForeignName(rows: map<string, Row>, listing: seq<Path>) {
    forall i :: 0 <= i < |listing| && Recoverable(listing[i].name) && listing[i].name in NamesOf(rows) ==>
      Manifested(rows, listing[i])
  }

  /** No unmanifested recoverable name stands in both directories. */
  ghost predicate NoTwins(rows: map<string, Row>, listing: seq<Path>, n: nat)
    requires n <= |listing|
  {
    forall i, j :: 0 <= i < j < n && New(NamesOf(rows), listing[i]) && New(NamesOf(rows), listing[j]) ==>
      listing[i].name != listing[j].name
  }

  /** The ids the first n entries would be handed, from names and digests alone. */
  ghost function Handed(rows: map<string, Row>, listing: seq<Path>, files: map<Path, Bytes>, n: nat, env: Env): seq<string>
    requires n <= |listing| && forall i :: 0 <= i < n ==> listing[i] in files
  {
    if n == 0 then []
    else
      var before, p := Handed(rows, listing, files, n - 1, env), listing[n - 1];
      if !New(NamesOf(rows), p) then before
      else before + [Pick(rows.Keys + Ids(before), p.name, env.sha(files[p]))]
  }

  ghost function Ids(handed: seq<string>): set<string> {
    set i | 0 <= i < |handed| :: handed[i]
  }

  /** Those ids collide neither with rows nor with each other. */
  ghost predicate IdsFree(rows: map<string, Row>, listing: seq<Path>, files: map<Path, Bytes>, n: nat, env: Env)
    requires n <= |listing| && forall i :: 0 <= i < n ==> listing[i] in files
  {
    Fresh(rows, Handed(rows, listing, files, n, env))
  }

  ghost predicate Fresh(rows: map<string, Row>, handed: seq<string>) {
    && (forall i :: 0 <= i < |handed| ==> handed[i] !in rows)
    && (forall i, j :: 0 <= i < j < |handed| ==> handed[i] != handed[j])
  }

  lemma FreshSnoc(rows: map<string, Row>, handed: seq<string>, id: string)
    ensures Fresh(rows, handed + [id]) <==> Fresh(rows, handed) && id !in rows && id !in Ids(handed)
    ensures Ids(handed + [id]) == Ids(handed) + {id}
  {
    var more := handed + [id];
    forall x ensures x in Ids(more) <==> x in Ids(handed) + {id} {
      if x in Ids(handed) {
        var i :| 0 <= i < |handed| && handed[i] == x;
        assert more[i] == x;
      }
      assert more[|handed|] == id;
    }
    if Fresh(rows, more) {
      assert more[|handed|] == id;
      forall i | 0 <= i < |handed| ensures handed[i] !in rows && handed[i] != id {
        assert more[i] == handed[i];
      }
      forall i, j | 0 <= i < j < |handed| ensures handed[i] != handed[j] {
        assert more[i] == handed[i] && more[j] == handed[j];
      }
    }
  }

  ghost function NewNames(rows: map<string, Row>, listing: seq<Path>, n: nat): set<string>
    requires n <= |listing|
  {
    set i | 0 <= i < n && New(NamesOf(rows), listing[i]) :: listing[i].name
  }

  lemma TwinsSnoc(rows: map<string, Row>, listing: seq<Path>, n: nat)
    requires n < |listing|
    ensures !New(NamesOf(rows), listing[n]) ==>
              (NoTwins(rows, listing, n + 1) <==> NoTwins(rows, listing, n)) && NewNames(rows, listing, n + 1) == NewNames(rows, listing, n)
    ensures New(NamesOf(rows), listing[n]) ==>
              (NoTwins(rows, listing, n + 1) <==> NoTwins(rows, listing, n) && listing[n].name !in NewNames(rows, listing, n))
    ensures New(NamesOf(rows), listing[n]) ==> NewNames(rows, listing, n + 1) == NewNames(rows, listing, n) + {listing[n].name}
  {
    hide New;
    if New(NamesOf(rows), listing[n]) && NoTwins(rows, listing, n) && listing[n].name !in NewNames(rows, listing, n) {
      forall i, j | 0 <= i < j < n + 1 && New(NamesOf(rows), listing[i]) && New(NamesOf(rows), listing[j])
        ensures listing[i].name != listing[j].name
      {
        if j == n {
          assert listing[i].name in NewNames(rows, listing, n);
        }
      }
    }
  }

  /** After n entries: old rows are kept, and every other row is the manifest of one new entry. */
  ghost predicate Extends(rows: map<string, Row>, after: map<string, Row>, listing: seq<Path>, n: nat)
    requires n <= |listing|
  {
    && (forall id :: id in rows ==> id in after && after[id] == rows[id])
    && (forall id :: id in after && id !in rows ==> after[id].name !in NamesOf(rows))
    && (forall i :: 0 <= i < n && New(NamesOf(rows), listing[i]) ==> Manifested(after, listing[i]))
  }

  lemma ExtendsOne(rows: map<string, Row>, after: map<string, Row>, listing: seq<Path>, n: nat, id: string, r: Row)
    requires n < |listing| && Extends(rows, after, listing, n) && id !in after
    requires r.name == listing[n].name && r.local == listing[n].local && r.name !in NamesOf(rows)
    ensures Extends(rows, after[id := r], listing, n + 1)
    ensures NamesOf(after[id := r]) == NamesOf(after) + {r.name}
  {
    hide New, NamesOf;
    var more := after[id := r];
    forall i | 0 <= i < n + 1 && New(NamesOf(rows), listing[i]) ensures Manifested(more, listing[i]) {
      if i < n {
        var k :| k in after && after[k].name == listing[i].name && after[k].local == listing[i].local;
        assert more[k] == after[k];
      } else {
        assert more[id] == r;
      }
    }
    NamesGrow(after, id, r);
  }

  lemma NamesGrow(rows: map<string, Row>, id: string, r: Row)
    requires id !in rows
    ensures NamesOf(rows[id := r]) == NamesOf(rows) + {r.name}
  {
    var more := rows[id := r];
    forall x | x in NamesOf(rows) ensures x in NamesOf(more) {
      var k :| k in rows && rows[k].name == x;
      assert more[k].name == x;
    }
    assert more[id].name == r.name;
  }

  /** What the sweep has done after n entries, and exactly when it got that far. */
  ghost predicate SweptSoFar(rows: map<string, Row>, listing: seq<Path>, files: map<Path, Bytes>, n: nat, env: Env)
    requires n <= |listing| && forall i :: 0 <= i < n ==> listing[i] in files
  {
    var r := Sweep(rows, listing, files, n, env);
    && (r.Some? <==> NoTwins(rows, listing, n) && IdsFree(rows, listing, files, n, env))
    && (r.Some? ==> Extends(rows, r.value, listing, n)
                    && r.value.Keys == rows.Keys + Ids(Handed(rows, listing, files, n, env))
                    && NamesOf(r.value) == NamesOf(rows) + NewNames(rows, listing, n))
  }

  lemma {:induction false} SweepStep(rows: map<string, Row>, listing: seq<Path>, files: map<Path, Bytes>, n: nat, env: Env)
    requires n < |listing| && forall i :: 0 <= i <= n ==> listing[i] in files
    requires SweptSoFar(rows, listing, files, n, env)
    ensures SweptSoFar(rows, listing, files, n + 1, env)
  {
    hide New, Pick, Extends, NamesOf, NoTwins, NewNames, Ids, Fresh, RowFor;
    TwinsSnoc(rows, listing, n);
    var p := listing[n];
    var handed := Handed(rows, listing, files, n, env);
    if New(NamesOf(rows), p) {
      var id := Pick(rows.Keys + Ids(handed), p.name, env.sha(files[p]));
      FreshSnoc(rows, handed, id);
      NewIsUnmanifested(NamesOf(rows), p);
      var before := Sweep(rows, listing, files, n, env);
      if before.Some? && id !in before.value && p.name !in NamesOf(before.value) {
        RowForFields(p, files[p], env);
        ExtendsOne(rows, before.value, listing, n, id, RowFor(p, files[p], env));
      }
    } else {
      if Sweep(rows, listing, files, n, env).Some? {
        ExtendsOld(rows, Sweep(rows, listing, files, n, env).value, listing, n);
      }
    }
  }

  lemma NewIsUnmanifested(manifested: set<string>, p: Path)
    requires New(manifested, p)
    ensures p.name !in manifested
  {
  }

  lemma RowForFields(p: Path, body: Bytes, env: Env)
    ensures RowFor(p, body, env).name == p.name && RowFor(p, body, env).local == p.local
  {
  }

  lemma ExtendsOld(rows: map<string, Row>, after: map<string, Row>, listing: seq<Path>, n: nat)
    requires n < |listing| && Extends(rows, after, listing, n) && !New(NamesOf(rows), listing[n])
    ensures Extends(rows, after, listing, n + 1)
  {
    hide New, NamesOf, Manifested;
  }

  lemma {:induction false} SweepState(rows: map<string, Row>, listing: seq<Path>, files: map<Path, Bytes>, n: nat, env: Env)
    requires n <= |listing| && forall i :: 0 <= i < n ==> listing[i] in files
    ensures SweptSoFar(rows, listing, files, n, env)
  {
    if n > 0 {
      SweepState(rows, listing, files, n - 1, env);
      SweepStep(rows, listing, files, n - 1, env);
    }
  }

  lemma OldManifest(rows: map<string, Row>, after: map<string, Row>, listing: seq<Path>, p: Path)
    requires Extends(rows, after, listing, |listing|)
    ensures Manifested(rows, p) ==> Manifested(after, p)
    ensures Manifested(after, p) && p.name in NamesOf(rows) ==> Manifested(rows, p)
  {
    if Manifested(rows, p) {
      var id :| id in rows && rows[id].name == p.name && rows[id].local == p.local;
      assert after[id].name == p.name && after[id].local == p.local;
    }
  }

  /**
   * On any disk: the sweep succeeds and leaves every recoverable file manifested if and only if no recoverable name is
   * borne only by a row of the other directory, no unmanifested name stands in both, and the ids handed out are free.
   */
  lemma SweepManifestsIff(rows: map<string, Row>, listing: seq<Path>, files: map<Path, Bytes>, env: Env)
    requires Listing(listing, files)
    ensures
      var r := Sweep(rows, listing, files, |listing|, env);
      (r.Some? && AllManifested(r.value, listing)) <==>
      (NoForeignName(rows, listing) && NoTwins(rows, listing, |listing|) && IdsFree(rows, listing, files, |listing|, env))
  {
    hide NamesOf, NoTwins, IdsFree, Recoverable, Sweep, Handed, NewNames, Manifested, Ids;
    SweepState(rows, listing, files, |listing|, env);
    var r := Sweep(rows, listing, files, |listing|, env);
    if r.Some? {
      forall i | 0 <= i < |listing| && Recoverable(listing[i].name)
        ensures Manifested(r.value, listing[i]) <==> (listing[i].name in NamesOf(rows) ==> Manifested(rows, listing[i]))
      {
        OldManifest(rows, r.value, listing, listing[i]);
        if listing[i].name !in NamesOf(rows) {
          assert New(NamesOf(rows), listing[i]);
        }
      }
    }
  }

  // ---------------------------------------------------------------- the ids without a dry run

  ghost function First(listing: seq<Path>, files: map<Path, Bytes>, k: nat, env: Env): string
    requires Listing(listing, files) && k < |listing|
  {
    FirstId(listing[k].name, env.sha(files[listing[k]]))
  }

  ghost function Second(listing: seq<Path>, files: map<Path, Bytes>, k: nat, env: Env): string
    requires Listing(listing, files) && k < |listing|
  {
    SecondId(listing[k].name, env.sha(files[listing[k]]))
  }

  ghost predicate NewAt(rows: map<string, Row>, listing: seq<Path>, k: nat) {
    k < |listing| && New(NamesOf(rows), listing[k])
  }

  /** The entry's first id belongs to a row, or an earlier new entry has the same one. */
  ghost predicate Repeats(rows: map<string, Row>, listing: seq<Path>, files: map<Path, Bytes>, k: nat, env: Env)
    requires Listing(listing, files)
  {
    && NewAt(rows, listing, k)
    && (First(listing, files, k, env) in rows
        || exists j: nat :: j < k && NewAt(rows, listing, j) && First(listing, files, j, env) == First(listing, files, k, env))
  }

  /** No new entry's second id is a new entry's first. */
  ghost predicate Uncrossed(rows: map<string, Row>, listing: seq<Path>, files: map<Path, Bytes>, env: Env)
    requires Listing(listing, files)
  {
    forall j: nat, k: nat :: NewAt(rows, listing, j) && NewAt(rows, listing, k) ==>
      Second(listing, files, j, env) != First(listing, files, k, env)
  }

  ghost function Given(rows: map<string, Row>, listing: seq<Path>, files: map<Path, Bytes>, k: nat, env: Env): string
    requires Listing(listing, files) && k < |listing|
  {
    if Repeats(rows, listing, files, k, env) then Second(listing, files, k, env) else First(listing, files, k, env)
  }

  lemma {:induction false} FirstOfItsKind(rows: map<string, Row>, listing: seq<Path>, files: map<Path, Bytes>, j: nat, env: Env)
    returns (i: nat)
    requires Listing(listing, files) && NewAt(rows, listing, j) && First(listing, files, j, env) !in rows
    ensures i <= j && NewAt(rows, listing, i) && First(listing, files, i, env) == First(listing, files, j, env)
    ensures !Repeats(rows, listing, files, i, env)
    decreases j
  {
    hide New, First, Listing;
    if Repeats(rows, listing, files, j, env) {
      var k: nat :| k < j && NewAt(rows, listing, k) && First(listing, files, k, env) == First(listing, files, j, env);
      i := FirstOfItsKind(rows, listing, files, k, env);
    } else {
      i := j;
    }
  }

  /** What is taken when entry n is reached. */
  ghost predicate GivenOut(rows: map<string, Row>, listing: seq<Path>, files: map<Path, Bytes>, n: nat, env: Env)
    requires Listing(listing, files) && n <= |listing|
  {
    forall x :: x in Ids(Handed(rows, listing, files, n, env)) <==>
      exists i: nat :: i < n && NewAt(rows, listing, i) && Given(rows, listing, files, i, env) == x
  }

  lemma PickIsGiven(rows: map<string, Row>, listing: seq<Path>, files: map<Path, Bytes>, n: nat, env: Env)
    requires Listing(listing, files) && Uncrossed(rows, listing, files, env) && n < |listing| && NewAt(rows, listing, n)
    requires GivenOut(rows, listing, files, n, env)
    ensures Pick(rows.Keys + Ids(Handed(rows, listing, files, n, env)), listing[n].name, env.sha(files[listing[n]]))
              == Given(rows, listing, files, n, env)
  {
    hide New, FirstId, SecondId, Handed, Ids;
    var a := First(listing, files, n, env);
    if Repeats(rows, listing, files, n, env) && a !in rows {
      var j: nat :| j < n && NewAt(rows, listing, j) && First(listing, files, j, env) == a;
      var i := FirstOfItsKind(rows, listing, files, j, env);
      assert Given(rows, listing, files, i, env) == a;
    }
    if a in Ids(Handed(rows, listing, files, n, env)) {
      var i: nat :| i < n && NewAt(rows, listing, i) && Given(rows, listing, files, i, env) == a;
      assert First(listing, files, i, env) == a;
    }
  }

  lemma GivenStep(rows: map<string, Row>, listing: seq<Path>, files: map<Path, Bytes>, n: nat, env: Env)
    requires Listing(listing, files) && Uncrossed(rows, listing, files, env) && n < |listing|
    requires GivenOut(rows, listing, files, n, env)
    ensures GivenOut(rows, listing, files, n + 1, env)
    ensures IdsFree(rows, listing, files, n + 1, env) <==>
              IdsFree(rows, listing, files, n, env) && (NewAt(rows, listing, n) ==> GivenFree(rows, listing, files, n, env))
  {
    hide New, First, Second, Fresh, Ids, Uncrossed, Given, Pick, NamesOf, Repeats;
    var handed := Handed(rows, listing, files, n, env);
    if NewAt(rows, listing, n) {
      PickIsGiven(rows, listing, files, n, env);
      FreshSnoc(rows, handed, Given(rows, listing, files, n, env));
      assert Handed(rows, listing, files, n + 1, env) == handed + [Given(rows, listing, files, n, env)];
      assert GivenFree(rows, listing, files, n, env) <==>
             Given(rows, listing, files, n, env) !in rows && Given(rows, listing, files, n, env) !in Ids(handed);
    } else {
      assert Handed(rows, listing, files, n + 1, env) == handed;
    }
  }

  lemma {:induction false} GivenTo(rows: map<string, Row>, listing: seq<Path>, files: map<Path, Bytes>, n: nat, env: Env)
    requires Listing(listing, files) && Uncrossed(rows, listing, files, env) && n <= |listing|
    ensures GivenOut(rows, listing, files, n, env)
    ensures IdsFree(rows, listing, files, n, env) <==>
              forall k: nat :: k < n && NewAt(rows, listing, k) ==> GivenFree(rows, listing, files, k, env)
  {
    hide NewAt, GivenFree, Uncrossed, Given;
    if n == 0 {
      NothingHanded(rows);
    } else {
      GivenTo(rows, listing, files, n - 1, env);
      GivenStep(rows, listing, files, n - 1, env);
      hide GivenOut, IdsFree;
    }
  }

  lemma NothingHanded(rows: map<string, Row>)
    ensures Fresh(rows, []) && Ids([]) == {}
  {
  }

  ghost predicate GivenFree(rows: map<string, Row>, listing: seq<Path>, files: map<Path, Bytes>, k: nat, env: Env)
    requires Listing(listing, files) && k < |listing|
  {
    && Given(rows, listing, files, k, env) !in rows
    && forall i: nat :: i < k && NewAt(rows, listing, i) ==> Given(rows, listing, files, i, env) != Given(rows, listing, files, k, env)
  }

  /** Every repeated first id has a second that no row has and no earlier repeated entry shares. */
  ghost predicate RepeatsResolve(rows: map<string, Row>, listing: seq<Path>, files: map<Path, Bytes>, env: Env)
    requires Listing(listing, files)
  {
    forall k: nat :: Repeats(rows, listing, files, k, env) ==>
      && Second(listing, files, k, env) !in rows
      && forall i: nat :: i < k && Repeats(rows, listing, files, i, env) ==>
           Second(listing, files, i, env) != Second(listing, files, k, env)
  }

  lemma GivenFreeIff(rows: map<string, Row>, listing: seq<Path>, files: map<Path, Bytes>, k: nat, env: Env)
    requires Listing(listing, files) && Uncrossed(rows, listing, files, env) && NewAt(rows, listing, k)
    ensures GivenFree(rows, listing, files, k, env) <==>
      (Repeats(rows, listing, files, k, env) ==>
        && Second(listing, files, k, env) !in rows
        && forall i: nat :: i < k && Repeats(rows, listing, files, i, env) ==>
             Second(listing, files, i, env) != Second(listing, files, k, env))
  {
    hide New, First, Second, Listing;
    if GivenFree(rows, listing, files, k, env) && Repeats(rows, listing, files, k, env) {
      forall i: nat | i < k && Repeats(rows, listing, files, i, env)
        ensures Second(listing, files, i, env) != Second(listing, files, k, env)
      {
        assert Given(rows, listing, files, i, env) != Given(rows, listing, files, k, env);
      }
    }
  }

  /** Without crossed ids the condition is plain: only repeated first ids matter, and only through their seconds. */
  lemma IdsFreePlain(rows: map<string, Row>, listing: seq<Path>, files: map<Path, Bytes>, env: Env)
    requires Listing(listing, files) && Uncrossed(rows, listing, files, env)
    ensures IdsFree(rows, listing, files, |listing|, env) <==> RepeatsResolve(rows, listing, files, env)
  {
    hide New, First, Second, Uncrossed, GivenFree, IdsFree;
    GivenTo(rows, listing, files, |listing|, env);
    forall k: nat | NewAt(rows, listing, k)
      ensures GivenFree(rows, listing, files, k, env) <==>
        (Repeats(rows, listing, files, k, env) ==>
          && Second(listing, files, k, env) !in rows
          && forall i: nat :: i < k && Repeats(rows, listing, files, i, env) ==>
               Second(listing, files, i, env) != Second(listing, files, k, env))
    {
      GivenFreeIff(rows, listing, files, k, env);
    }
  }

  // ---------------------------------------------------------------- two families of failing inputs

  /** The same unmanifested recoverable name in both directories: startup fails, whatever else is on the disk. */
  lemma TwinNamesStopStartup(rows: map<string, Row>, listing: seq<Path>, files: map<Path, Bytes>, name: string, env: Env)
    requires Listing(listing, files) && Path(false, name) in files && Path(true, name) in files
    requires Recoverable(name) && name !in NamesOf(rows)
    ensures Sweep(rows, listing, files, |listing|, env).None?
  {
    hide Recoverable, NamesOf, Sweep, Handed;
    SweepState(rows, listing, files, |listing|, env);
    var i :| 0 <= i < |listing| && listing[i] == Path(false, name);
    var j :| 0 <= j < |listing| && listing[j] == Path(true, name);
    assert New(NamesOf(rows), listing[i]) && New(NamesOf(rows), listing[j]);
    assert listing[i].name == listing[j].name;
    assert i < j || j < i;
  }

  /** Position of an entry's id among those handed out. */
  ghost function Place(rows: map<string, Row>, listing: seq<Path>, n: nat): nat
    requires n <= |listing|
  {
    if n == 0 then 0 else Place(rows, listing, n - 1) + if New(NamesOf(rows), listing[n - 1]) then 1 else 0
  }

  lemma {:induction false} HandedAt(rows: map<string, Row>, listing: seq<Path>, files: map<Path, Bytes>, n: nat, i: nat, env: Env)
    requires i < n <= |listing| && forall k :: 0 <= k < n ==> listing[k] in files
    requires New(NamesOf(rows), listing[i])
    ensures
      var handed, at := Handed(rows, listing, files, n, env), Place(rows, listing, i);
      var p := listing[i];
      && at < |handed| == Place(rows, listing, n)
      && (handed[at] == FirstId(p.name, env.sha(files[p])) || handed[at] == SecondId(p.name, env.sha(files[p])))
    decreases n
  {
    hide New, FirstId, SecondId, NamesOf;
    HandedLength(rows, listing, files, n, env);
    if i < n - 1 {
      HandedAt(rows, listing, files, n - 1, i, env);
    } else {
      HandedLength(rows, listing, files, n - 1, env);
    }
  }

  lemma {:induction false} HandedLength(rows: map<string, Row>, listing: seq<Path>, files: map<Path, Bytes>, n: nat, env: Env)
    requires n <= |listing| && forall k :: 0 <= k < n ==> listing[k] in files
    ensures |Handed(rows, listing, files, n, env)| == Place(rows, listing, n)
  {
    hide New, Pick;
    if n > 0 {
      HandedLength(rows, listing, files, n - 1, env);
    }
  }

  lemma {:induction false} PlacesDiffer(rows: map<string, Row>, listing: seq<Path>, i: nat, j: nat)
    requires i < j <= |listing| && New(NamesOf(rows), listing[i])
    ensures Place(rows, listing, i) < Place(rows, listing, j)
  {
    hide New;
    if i < j - 1 {
      PlacesDiffer(rows, listing, i, j - 1);
    }
  }

  /** An unmanifested file with this digest whose stem is no id. */
  ghost predicate Copy(rows: map<string, Row>, p: Path, checksum: string, files: map<Path, Bytes>, env: Env)
    requires p in files
  {
    New(NamesOf(rows), p) && !SafeIdentity(Stem(p.name)) && env.sha(files[p]) == checksum
  }

  /** Three of them: two ids are all there is for them, and startup fails. */
  lemma ThreeCopiesStopStartup(rows: map<string, Row>, listing: seq<Path>, files: map<Path, Bytes>, i: nat, j: nat, k: nat,
                               checksum: string, env: Env)
    requires Listing(listing, files) && i < j < k < |listing|
    requires Copy(rows, listing[i], checksum, files, env) && Copy(rows, listing[j], checksum, files, env)
    requires Copy(rows, listing[k], checksum, files, env)
    ensures Sweep(rows, listing, files, |listing|, env).None?
  {
    hide New, NamesOf, Sweep, NoTwins, Handed, Place, SafeIdentity, Stem;
    SweepState(rows, listing, files, |listing|, env);
    var n := |listing|;
    HandedAt(rows, listing, files, n, i, env);
    HandedAt(rows, listing, files, n, j, env);
    HandedAt(rows, listing, files, n, k, env);
    PlacesDiffer(rows, listing, i, j);
    PlacesDiffer(rows, listing, j, k);
  }

  /** A short name whose stem contains a dot, so that it is no id. */
  ghost predicate DottedName(s: string) {
    |s| == 8 && Alnum(s[0]) && s[1] == '.' && Alnum(s[2]) && s[3..] == ".json"
  }

  lemma DottedStem(s: string)
    requires DottedName(s)
    ensures Recoverable(s) && !SafeIdentity(Stem(s))
  {
    assert s[3] == '.' && s[4] == 'j' && s[5] == 's' && s[6] == 'o' && s[7] == 'n';
    assert LastDot(s, 8) == 3;
    assert s[..3][1] == '.';
    assert s[4..] == "json";
    forall i: nat | i < |s| ensures !TempAt(s, i) {
      if i + 5 <= |s| {
        assert s[i..i + 5][0] == s[i] && s[i..i + 5][1] == s[i + 1];
      }
    }
  }

  function ThreeFiles(p: Path, q: Path, r: Path, body: Bytes): map<Path, Bytes> {
    map[p := body, q := body, r := body]
  }

  lemma ThreeListed(p: Path, q: Path, r: Path, body: Bytes)
    requires p != q && q != r && p != r
    ensures Listing([p, q, r], ThreeFiles(p, q, r, body))
    ensures forall x :: x in ThreeFiles(p, q, r, body) ==> ThreeFiles(p, q, r, body)[x] == body
  {
  }

  lemma DottedCopy(name: string, files: map<Path, Bytes>, body: Bytes, env: Env)
    requires DottedName(name) && Path(false, name) in files && files[Path(false, name)] == body
    ensures Copy(map[], Path(false, name), env.sha(body), files, env)
  {
    DottedStem(name);
    hide DottedName, SafeIdentity, Stem, Recoverable;
  }

  lemma ThreeDottedCopies(a: string, b: string, c: string, body: Bytes, env: Env)
    requires DottedName(a) && DottedName(b) && DottedName(c) && a != b && b != c && a != c
    ensures
      var listing, files := [Path(false, a), Path(false, b), Path(false, c)], ThreeFiles(Path(false, a), Path(false, b), Path(false, c), body);
      Listing(listing, files) && Sweep(map[], listing, files, 3, env).None?
  {
    var p, q, r := Path(false, a), Path(false, b), Path(false, c);
    ThreeListed(p, q, r, body);
    hide Sweep, DottedName, Copy, ThreeFiles;
    var files := ThreeFiles(p, q, r, body);
    assert [p, q, r][0] in files && [p, q, r][1] in files && [p, q, r][2] in files;
    DottedCopy(a, files, body, env);
    DottedCopy(b, files, body, env);
    DottedCopy(c, files, body, env);
    ThreeCopiesStopStartup(map[], [p, q, r], files, 0, 1, 2, env.sha(body), env);
  }

  /** For example three copies named a.b.json, c.d.json and e.f.json, with nothing manifested. */
  lemma ThreeCopiesExample(body: Bytes, env: Env) returns (listing: seq<Path>, files: map<Path, Bytes>)
    ensures Listing(listing, files) && Sweep(map[], listing, files, |listing|, env).None? && |listing| == 3
  {
    hide Sweep, Listing;
    var a, b, c := "a.b.json", "c.d.json", "e.f.json";
    assert a[0] == 'a' && b[0] == 'c' && c[0] == 'e';
    assert a[3..] == ".json" && b[3..] == ".json" && c[3..] == ".json";
    ThreeDottedCopies(a, b, c, body, env);
    listing := [Path(false, a), Path(false, b), Path(false, c)];
    files := ThreeFiles(Path(false, a), Path(false, b), Path(false, c), body);
  }

  // ---------------------------------------------------------------- the canonical disk as an instance

  lemma SkippedStep(d: Disk, seen: set<Path>, p: Path, env: Env)
    requires Canonical(d, env) && p in d.files && (IsTemp(p.name) || Stem(p.name) in d.rows)
    ensures !New(NamesOf(d.rows), p) && Adopted(d, seen + {p}) == Adopted(d, seen)
  {
    if !IsTemp(p.name) {
      NameIsManifested(d, p, env);
    }
    hide Stem, SafeIdentity, Canonical, PathOf, IsTemp, WithAdopted;
    assert Adopted(d, seen + {p}) == Adopted(d, seen);
  }

  lemma AdoptedStep(d: Disk, seen: set<Path>, p: Path, env: Env)
    requires Canonical(d, env) && p in d.files && p !in seen && seen <= d.files.Keys && !IsTemp(p.name)
    requires Stem(p.name) !in d.rows
    ensures
      var rows, id := WithAdopted(d, Adopted(d, seen), env), Stem(p.name);
      && New(NamesOf(d.rows), p) && SafeIdentity(id) && id !in rows && p.name !in NamesOf(rows)
      && WithAdopted(d, Adopted(d, seen + {p}), env) == rows[id := RowFor(p, d.files[p], env)]
  {
    NameIsManifested(d, p, env);
    NotYetAdopted(d, seen, p, env);
    NameNotYetTaken(d, seen, p, env);
    var id := Stem(p.name);
    AdoptOneMore(d, Adopted(d, seen), id, env);
    NotARow(d, Adopted(d, seen), id, env);
    RowIsManifest(p, id, d.files[p], env);
    hide Stem, SafeIdentity, Canonical, PathOf, IsTemp, WithAdopted, Recoverable, NameOf, RowFor, RecoveredManifest;
    assert Adopted(d, seen + {p}) == Adopted(d, seen) + {id};
  }

  lemma SweepCanonicalStep(d: Disk, seen: set<Path>, p: Path, env: Env)
    requires Canonical(d, env) && p in d.files && p !in seen && seen <= d.files.Keys
    ensures
      SweepFile(WithAdopted(d, Adopted(d, seen), env), NamesOf(d.rows), p, d.files[p], env)
        == Some(WithAdopted(d, Adopted(d, seen + {p}), env))
  {
    hide Stem, SafeIdentity, Canonical, IsTemp, WithAdopted, NamesOf, RowFor, New, Adopted;
    if IsTemp(p.name) || Stem(p.name) in d.rows {
      SkippedStep(d, seen, p, env);
    } else {
      AdoptedStep(d, seen, p, env);
    }
  }

  lemma RowIsManifest(p: Path, id: string, body: Bytes, env: Env)
    requires p == PathOf(id, env)
    ensures RowFor(p, body, env) == RecoveredManifest(id, body, env)
  {
  }

  lemma NameNotYetTaken(d: Disk, seen: set<Path>, p: Path, env: Env)
    requires Canonical(d, env) && p in d.files && p !in seen && seen <= d.files.Keys && !IsTemp(p.name)
    requires Stem(p.name) !in d.rows
    ensures p.name !in NamesOf(WithAdopted(d, Adopted(d, seen), env))
  {
    NameIsManifested(d, p, env);
    hide IsTemp, Stem, SafeIdentity, PathOf;
    var rows := WithAdopted(d, Adopted(d, seen), env);
    forall id | id in rows ensures rows[id].name != p.name {
      if id in Adopted(d, seen) {
        var q :| q in seen && Adoptable(d, q) && Stem(q.name) == id;
        assert CanonicalFile(q, env) && CanonicalFile(p, env);
        PathName(id, env);
      }
    }
  }

  lemma PathName(id: string, env: Env)
    ensures PathOf(id, env).name == NameOf(id, env) && PathOf(id, env).local == env.toArchive(id)
  {
  }

  lemma {:induction false} SweepCanonicalTo(d: Disk, listing: seq<Path>, n: nat, env: Env)
    requires Canonical(d, env) && Listing(listing, d.files) && n <= |listing|
    ensures Sweep(d.rows, listing, d.files, n, env) == Some(WithAdopted(d, Adopted(d, Seen(listing, n)), env))
  {
    hide SweepFile, WithAdopted, Adopted, Canonical;
    if n == 0 {
      SweptNothing(d, env);
      hide Swept;
      assert Seen(listing, 0) == {};
      NothingAdopted(d, env);
    } else {
      SweepCanonicalTo(d, listing, n - 1, env);
      var p := listing[n - 1];
      assert Seen(listing, n) == Seen(listing, n - 1) + {p};
      SweepCanonicalStep(d, Seen(listing, n - 1), p, env);
    }
  }

  lemma NothingAdopted(d: Disk, env: Env)
    ensures WithAdopted(d, Adopted(d, {}), env) == d.rows
  {
    hide Adoptable;
    assert Adopted(d, {}) == {};
    WithNoneAdopted(d, env);
  }

  ghost function Seen(listing: seq<Path>, n: nat): set<Path>
    requires n <= |listing|
  {
    set i | 0 <= i < n :: listing[i]
  }

  /** Under canonical names, and so on every durable disk, the sweep succeeds and is the one the repository performs. */
  lemma SweepCanonical(d: Disk, listing: seq<Path>, env: Env)
    requires Canonical(d, env) && Listing(listing, d.files)
    ensures Sweep(d.rows, listing, d.files, |listing|, env) == Some(Swept(d, d.files.Keys, env).rows)
  {
    hide Sweep, WithAdopted, Canonical, Adopted;
    SweepCanonicalTo(d, listing, |listing|, env);
    assert Seen(listing, |listing|) == d.files.Keys;
  }

  /** The names handed out: the stem if it is an identity, else recovered- and 24 digits; the fallback adds a hyphen and 12. */
  lemma IdsMean(name: string, checksum: string)
    requires |checksum| == 64
    ensures SafeIdentity(Stem(name)) ==> FirstId(name, checksum) == Stem(name)
    ensures !SafeIdentity(Stem(name)) ==>
              |FirstId(name, checksum)| == 34 && FirstId(name, checksum)[..10] == "recovered-"
              && FirstId(name, checksum)[10..] == checksum[..24]
    ensures
      var first, second := FirstId(name, checksum), SecondId(name, checksum);
      |second| == |first| + 13 && second[..|first|] == first && second[|first|] == '-' && second[|first| + 1..] == checksum[..12]
  {
    hide SafeIdentity, Stem;
  }
}
