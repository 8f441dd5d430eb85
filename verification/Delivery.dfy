/** Delivering what is due: the lease, the attempt, and the retry back-off. */
module Delivery {
  import opened Foundation
  import opened OutboxModel
  import opened OutboxSafety
  import opened Outbox

  // ---------------------------------------------------------------- back-off

  const SECOND: nat := 1_000_000_000

  function Minimum(a: nat, b: nat): nat {
    if a <= b then a else b
  }

  function Doubled(shift: nat): (d: nat)
    ensures d >= 5
  {
    if shift == 0 then 5 else 2 * Doubled(shift - 1)
  }

  /** Attempt numbers count from one; zero is taken as one. */
  function AttemptNumber(attempt: nat): nat {
    if attempt == 0 then 1 else attempt
  }

  /** Five seconds doubled per attempt, up to an hour. */
  function BaseSeconds(attempt: nat): nat {
    Minimum(Doubled(Minimum(AttemptNumber(attempt) - 1, 10)), 3600)
  }

  /** The delay in nanoseconds, for whatever hash the delivery's identity has. */
  function Delay(attempt: nat, hash: nat): nat {
    var base := BaseSeconds(attempt);
    var range := Minimum(base / 5, 3600 - base);
    (base + if range == 0 then 0 else hash % (range + 1)) * SECOND
  }

  lemma {:induction false} DoubledGrows(a: nat, b: nat)
    requires a < b
    ensures 2 * Doubled(a) <= Doubled(b)
  {
    if b > a + 1 {
      DoubledGrows(a, b - 1);
    }
  }

  lemma Doubled10()
    ensures Doubled(9) == 2560 && Doubled(10) == 5120
  {
    assert Doubled(2) == 20;
    assert Doubled(4) == 80;
    assert Doubled(6) == 320;
    assert Doubled(8) == 1280;
  }

  /** Every delay is a whole number of seconds from 5 to 3600, whatever the identity hashes to. */
  lemma DelayBounds(attempt: nat, hash: nat)
    ensures 5_000_000_000 <= Delay(attempt, hash) <= 3_600_000_000_000
    ensures BaseSeconds(attempt) * SECOND <= Delay(attempt, hash)
    ensures 5 * Delay(attempt, hash) <= 6 * BaseSeconds(attempt) * SECOND
  {
  }

  /** Jitter never reorders the back-off: each attempt up to the eleventh waits longer than any before it, for any hashes. */
  lemma BackoffGrows(n: nat, m: nat, h: nat, k: nat)
    requires 1 <= n < m <= 11
    ensures Delay(n, h) < Delay(m, k)
  {
    hide Doubled;
    DoubledGrows(n - 1, m - 1);
    Doubled10();
    if n - 1 < 9 {
      DoubledGrows(n - 1, 9);
    }
    assert BaseSeconds(n) == Doubled(n - 1) && 6 * BaseSeconds(n) < 5 * BaseSeconds(m);
    DelayBounds(n, h);
    DelayBounds(m, k);
  }

  lemma BackoffSaturates(n: nat, h: nat)
    requires n >= 11
    ensures Delay(n, h) == 3_600_000_000_000
  {
    Doubled10();
  }

  /** Five seconds, doubled from attempt to attempt, and an hour from the eleventh on. */
  lemma BaseTable(n: nat)
    ensures BaseSeconds(0) == 5 && BaseSeconds(1) == 5 && BaseSeconds(2) == 10 && BaseSeconds(10) == 2560
    ensures 1 <= n <= 9 ==> BaseSeconds(n + 1) == 2 * BaseSeconds(n)
    ensures n >= 11 ==> BaseSeconds(n) == 3600
  {
    Doubled10();
    if 1 <= n <= 9 {
      if n < 9 {
        DoubledGrows(n, 9);
      }
      if n - 1 < 9 {
        DoubledGrows(n - 1, 9);
      }
    }
  }

  /** Until the tenth attempt up to a fifth of the base is added, chosen by the hash. */
  lemma JitterLaw(n: nat, hash: nat)
    requires 1 <= n <= 10
    ensures Delay(n, hash) == (BaseSeconds(n) + hash % (BaseSeconds(n) / 5 + 1)) * 1_000_000_000
  {
    hide Doubled;
    Doubled10();
    if n < 10 {
      DoubledGrows(n - 1, 9);
    }
  }

  /** The hash is FNV-1a with the program's offset. */
  lemma FnvConstants(s: seq<byte>, b: byte)
    ensures Fnv([]) == 1469598103934665603 && Fnv(s + [b]) == (Fnv(s) ^ (b as bv64)) * 0x100000001b3
  {
    FnvSnoc(s, b);
    FnvStart();
    hide Fnv;
  }

  lemma FnvStart()
    ensures Fnv([]) == 1469598103934665603
  {
    hide FnvStep;
  }

  function FnvStep(h: bv64, b: byte): bv64 {
    (h ^ (b as bv64)) * 1099511628211
  }

  /** The hash as a fold; the starting value is the program's, one digit short of the published offset basis. */
  function Fnv(s: seq<byte>): bv64 {
    if s == [] then 1469598103934665603 else FnvStep(Fnv(s[..|s| - 1]), s[|s| - 1])
  }

  lemma FnvSnoc(s: seq<byte>, b: byte)
    ensures Fnv(s + [b]) == FnvStep(Fnv(s), b)
  {
    hide FnvStep;
    assert (s + [b])[..|s|] == s;
  }

  /** The identity's bytes, then the attempt number's four bytes from the least significant. */
  method Fnv1a(value: seq<byte>, attempt: nat) returns (h: bv64)
    requires attempt <= UINT32_MAX
    ensures h == Fnv(value + Le(attempt, 4))
  {
    hide FnvStep, Fnv;
    h := Fnv([]);
    for i := 0 to |value|
      invariant h == Fnv(value[..i])
    {
      FnvSnoc(value[..i], value[i]);
      assert value[..i] + [value[i]] == value[..i + 1];
      h := FnvStep(h, value[i]);
    }
    assert value[..|value|] == value;
    ghost var tail := Le(attempt, 4);
    var rest := attempt;
    assert value + tail[..0] == value;
    for k := 0 to 4
      invariant Le(rest, 4 - k) == tail[k..] && h == Fnv(value + tail[..k])
    {
      assert tail[k] == rest % 256;
      assert Le(rest / 256, 3 - k) == tail[k + 1..];
      FnvSnoc(value + tail[..k], tail[k]);
      assert value + tail[..k] + [tail[k]] == value + tail[..k + 1];
      h := FnvStep(h, rest % 256);
      rest := rest / 256;
    }
    assert tail[..4] == tail;
  }

  method RetryDelay(attempt: nat, identity: seq<byte>) returns (delay: nat)
    requires attempt <= UINT32_MAX
    ensures delay == Delay(attempt, Fnv(identity + Le(AttemptNumber(attempt), 4)) as nat)
    ensures 5_000_000_000 <= delay <= 3_600_000_000_000
  {
    hide Fnv, Doubled;
    var number := AttemptNumber(attempt);
    var hash := Fnv1a(identity, number);
    DelayBounds(attempt, hash as nat);
    delay := Delay(attempt, hash as nat);
  }

  // ---------------------------------------------------------------- deliver_due

  datatype DeliveryError = InvalidBatch

  function AsBytes(s: string): seq<byte> {
    seq(|s|, i requires 0 <= i < |s| => s[i] as int % 256)
  }

  function Identity(k: (string, string)): seq<byte> {
    AsBytes(k.0 + ":" + k.1)
  }

  /** Attempt counters are 32 bits wide. */
  function NextAttempt(attempts: nat): nat {
    (attempts + 1) % (UINT32_MAX + 1)
  }

  ghost function DelayFor(k: (string, string), attempts: nat): nat {
    Delay(NextAttempt(attempts), Fnv(Identity(k) + Le(AttemptNumber(NextAttempt(attempts)), 4)) as nat)
  }

  /** How a delivery stands once its attempt's result is recorded. */
  ghost function AfterAttempt(k: (string, string), x: OutboxModel.Delivery, now: int, what: Disposition): OutboxModel.Delivery {
    AfterResult(x, what, now, if what == Retryable then now + DelayFor(k, x.attempts) else 0)
  }

  ghost predicate Known(d: Disk, k: (string, string)) {
    k.0 in d.rows && k.1 in d.rows[k.0].deliveries
  }

  ghost function At(d: Disk, k: (string, string)): OutboxModel.Delivery
    requires Known(d, k)
  {
    d.rows[k.0].deliveries[k.1]
  }

  /** Claimed and not yet attempted. */
  ghost predicate InHand(d: Disk, k: (string, string), before: Disk) {
    && Known(d, k) && Known(before, k) && At(d, k).state == InFlight && At(d, k).attempts == At(before, k).attempts
    && d.rows[k.0].present && !d.rows[k.0].deletePending
  }

  /** Attempted: the result is on record, or the row has since been pruned, which only full success allows. */
  ghost predicate Attempted(d: Disk, k: (string, string), before: Disk, now: int, deliver: ((string, string)) -> Disposition) {
    && Known(before, k)
    && (Known(d, k) ==> At(d, k) == AfterAttempt(k, At(before, k), now, deliver(k)))
    && (!Known(d, k) ==> deliver(k) == Delivered)
  }

  /** A claimed delivery's payload is on disk and matches its manifest: content() cannot fail between claim and result. */
  lemma ClaimedIsReadable(d: Disk, k: (string, string), before: Disk, env: Env)
    requires OutboxModel.Durable(d, env) && InHand(d, k, before)
    ensures Readable(d, k.0, env)
  {
    hide Total, IsTemp, SafeIdentity, NameOf, Matches;
    assert RowKept(d, k.0, env);
    assert !Complete(d.rows[k.0]);
  }

  lemma ClaimedInHand(d: Disk, chosen: set<(string, string)>, now: int, lease: int, k: (string, string))
    requires chosen <= Due(d.rows, now) && k in chosen
    ensures InHand(Claimed(d, chosen, lease), k, d)
  {
    assert k in Due(d.rows, now);
  }

  /** What one concluded result leaves of any delivery. */
  lemma ConcludedEffect(d: Disk, k: (string, string), what: Disposition, at: int, retryAt: int, retention: int, removable: bool, env: Env,
                        j: (string, string))
    requires Known(d, k) && Known(d, j)
    ensures
      var after := Concluded(d, k.0, k.1, what, at, retryAt, retention, removable, env);
      var x := if j == k then AfterResult(At(d, k), what, at, retryAt) else At(d, j);
      && (Known(after, j) ==> At(after, j) == x)
      && (!Known(after, j) ==> x.state == Succeeded)
      && (x.state != Succeeded ==> Known(after, j) && after.rows[j.0].deletePending == d.rows[j.0].deletePending
                                   && after.rows[j.0].present == d.rows[j.0].present)
  {
    hide PathOf, AfterResult, Prunable;
    var recorded := Recorded(d, k.0, k.1, what, at, retryAt);
    var finalized := if removable then Finalized(recorded, k.0, env) else recorded;
    assert finalized.rows[j.0].deliveries == recorded.rows[j.0].deliveries;
    if Prunable(finalized.rows[j.0], at - retention) {
      PrunableIsComplete(finalized.rows[j.0], at - retention);
      assert finalized.rows[j.0].deliveries[j.1].state == Succeeded;
    }
  }

  lemma PrunableIsComplete(r: Row, cutoff: int)
    requires Prunable(r, cutoff)
    ensures Complete(r)
  {
  }

  lemma ConcludedKeeps(d: Disk, k: (string, string), what: Disposition, now: int, retryAt: int, retention: int, removable: bool, env: Env,
                       j: (string, string), before: Disk, deliver: ((string, string)) -> Disposition)
    requires Known(d, k) && j != k
    ensures
      var after := Concluded(d, k.0, k.1, what, now, retryAt, retention, removable, env);
      && (InHand(d, j, before) ==> InHand(after, j, before))
      && (Attempted(d, j, before, now, deliver) ==> Attempted(after, j, before, now, deliver))
  {
    hide Concluded, AfterAttempt;
    if Known(d, j) {
      ConcludedEffect(d, k, what, now, retryAt, retention, removable, env, j);
      AttemptState(j, now, deliver, before);
    } else {
      StillUnknown(d, k, what, now, retryAt, retention, removable, env, j);
    }
  }

  lemma AttemptState(j: (string, string), now: int, deliver: ((string, string)) -> Disposition, before: Disk)
    ensures Known(before, j) && AfterAttempt(j, At(before, j), now, deliver(j)).state == Succeeded ==> deliver(j) == Delivered
  {
    hide Delay, Fnv;
  }

  lemma StillUnknown(d: Disk, k: (string, string), what: Disposition, at: int, retryAt: int, retention: int, removable: bool, env: Env,
                     j: (string, string))
    requires Known(d, k) && !Known(d, j)
    ensures !Known(Concluded(d, k.0, k.1, what, at, retryAt, retention, removable, env), j)
  {
    hide PathOf, AfterResult, Prunable;
  }

  lemma ConcludedAttempt(d: Disk, k: (string, string), what: Disposition, now: int, retryAt: int, retention: int, removable: bool, env: Env,
                         before: Disk, deliver: ((string, string)) -> Disposition)
    requires InHand(d, k, before) && what == deliver(k)
    requires retryAt == if what == Retryable then now + DelayFor(k, At(before, k).attempts) else 0
    ensures Attempted(Concluded(d, k.0, k.1, what, now, retryAt, retention, removable, env), k, before, now, deliver)
  {
    hide Concluded, DelayFor;
    ConcludedEffect(d, k, what, now, retryAt, retention, removable, env, k);
  }

  /**
   * Claims for 3660 s, attempts each claimed delivery once and records its result; every write is one the lease and
   * waiting-time guarantees assume.
   */
  method DeliverDue(repo: Repository, now: int, maximum: nat, retention: int, deliver: ((string, string)) -> Disposition,
                    removable: string -> bool)
    returns (r: Result<nat, DeliveryError>, ghost claimed: set<(string, string)>)
    requires repo.Valid()
    modifies repo
    ensures repo.Valid() && repo.origin == old(repo.origin) && old(repo.log) <= repo.log
    ensures r.Ok? <==> 1 <= maximum <= 100
    ensures r.Err? ==> repo.disk == old(repo.disk)
    ensures r.Ok? ==> claimed <= Due(old(repo.disk).rows, now) && r.value == |claimed| <= maximum
    ensures r.Ok? ==> (claimed == Due(old(repo.disk).rows, now) || |claimed| == maximum)
    ensures r.Ok? ==> forall k :: k in claimed ==> Attempted(repo.disk, k, old(repo.disk), now, deliver)
    ensures TimelySince(repo.log, |old(repo.log)|)
    ensures r.Ok? ==> old(repo.log) + [Claim(claimed, now, now + 3_660_000_000_000)] <= repo.log
  {
    hide Due, InHand, Attempted, Delay, Fnv, TimelySince, Claimed, NoneOvertaken, Concluded;
    claimed := {};
    if maximum == 0 || maximum > 100 {
      NothingNew(repo.log);
      return Err(InvalidBatch), {};
    }
    var chosen := repo.ClaimDue(now, now + LONGEST_WAIT, maximum);
    claimed := chosen.value;
    var todo := chosen.value;
    forall k | k in todo ensures InHand(repo.disk, k, old(repo.disk)) {
      ClaimedInHand(old(repo.disk), claimed, now, now + LONGEST_WAIT, k);
    }
    while todo != {}
      invariant repo.Valid() && repo.origin == old(repo.origin) && old(repo.log) <= repo.log
      invariant old(repo.log) + [Claim(claimed, now, now + LONGEST_WAIT)] <= repo.log
      invariant todo <= claimed && TimelySince(repo.log, |old(repo.log)|)
      invariant forall k :: k in todo ==> InHand(repo.disk, k, old(repo.disk))
      invariant forall k :: k in claimed && k !in todo ==> Attempted(repo.disk, k, old(repo.disk), now, deliver)
    {
      var k :| k in todo;
      DeliverOne(repo, k, old(repo.disk), now, retention, deliver, removable, claimed, todo, |old(repo.log)|);
      todo := todo - {k};
    }
    return Ok(|chosen.value|), claimed;
  }

  lemma NothingNew(log: seq<Event>)
    ensures TimelySince(log, |log|)
  {
  }

  method DeliverOne(repo: Repository, k: (string, string), ghost before: Disk, now: int, retention: int,
                    deliver: ((string, string)) -> Disposition, removable: string -> bool, ghost claimed: set<(string, string)>,
                    ghost todo: set<(string, string)>, ghost from: nat)
    requires repo.Valid() && k in todo && todo <= claimed && from <= |repo.log| && TimelySince(repo.log, from)
    requires forall j :: j in todo ==> InHand(repo.disk, j, before)
    requires forall j :: j in claimed && j !in todo ==> Attempted(repo.disk, j, before, now, deliver)
    modifies repo
    ensures repo.Valid() && repo.origin == old(repo.origin) && old(repo.log) <= repo.log && TimelySince(repo.log, from)
    ensures forall j :: j in todo - {k} ==> InHand(repo.disk, j, before)
    ensures forall j :: j in claimed && j !in todo - {k} ==> Attempted(repo.disk, j, before, now, deliver)
  {
    hide Attempted, Delay, Fnv, TimelySince, Concluded, Repository.Valid, AfterAttempt;
    repo.Sound();
    ClaimedIsReadable(repo.disk, k, before, repo.env);
    var body := repo.Content(k.0);
    var what := if body.Ok? then deliver(k) else Refused;
    assert repo.disk.rows[k.0].deliveries[k.1].state == InFlight;
    var attempts := repo.disk.rows[k.0].deliveries[k.1].attempts;
    var delay := RetryDelay(NextAttempt(attempts), Identity(k));
    var retryAt := if what == Retryable then now + delay else 0;
    var recorded := repo.RecordResult(k.0, k.1, what, now, retryAt, retention, removable(k.0));
    TimelyJoin(old(repo.log), repo.log, from);
    ConcludedAttempt(old(repo.disk), k, what, now, retryAt, retention, removable(k.0), repo.env, before, deliver);
    forall j | j in claimed && j != k
      ensures InHand(old(repo.disk), j, before) ==> InHand(repo.disk, j, before)
      ensures Attempted(old(repo.disk), j, before, now, deliver) ==> Attempted(repo.disk, j, before, now, deliver)
    {
      ConcludedKeeps(old(repo.disk), k, what, now, retryAt, retention, removable(k.0), repo.env, j, before, deliver);
    }
  }

  lemma TimelyJoin(earlier: seq<Event>, later: seq<Event>, from: nat)
    requires earlier <= later && from <= |earlier| && TimelySince(earlier, from) && TimelySince(later, |earlier|)
    ensures TimelySince(later, from)
  {
    hide Timely;
    forall k | from <= k < |later| ensures Timely(later[k]) {
      if k < |earlier| {
        assert later[k] == earlier[k];
      }
    }
  }
}
