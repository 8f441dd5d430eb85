/** Lifetime energy session by session: what is counted once, and what a session that comes back is counted for again. */
module EnergySessions {
  import opened Foundation
  import opened LedgerCodec
  import opened EnergyLedger

  /** The last counter the ledger accepted from each session. */
  ghost function LastSeen(calls: seq<Call>, i: nat): map<u64, int>
    requires i < COUNTERS
  {
    if calls == [] then map[]
    else
      var init, c := calls[..|calls| - 1], calls[|calls| - 1];
      if Accrues(Run(init).0, c) then LastSeen(init, i)[c.session.sessionId := c.session.counters[i]] else LastSeen(init, i)
  }

  /** What it had accepted from each when the ledger was last reset. */
  ghost function AtReset(calls: seq<Call>, i: nat): map<u64, int>
    requires i < COUNTERS
  {
    if calls == [] then map[]
    else
      var init, c := calls[..|calls| - 1], calls[|calls| - 1];
      if Resets(Run(init).0, c) then LastSeen(init, i) else AtReset(init, i)
  }

  function Value(m: map<u64, int>, s: u64): int {
    if s in m then m[s] else 0
  }

  /** Each session's energy since the last reset: its last counter less its value at the reset. */
  ghost function SessionEnergy(calls: seq<Call>, i: nat): map<u64, int>
    requires i < COUNTERS
  {
    Since(LastSeen(calls, i), AtReset(calls, i))
  }

  ghost function Since(last: map<u64, int>, floor: map<u64, int>): map<u64, int> {
    map s | s in last :: last[s] - Value(floor, s)
  }

  ghost function Sum(m: map<u64, int>): int
    decreases |m|
  {
    if m.Keys == {} then 0
    else
      var s :| s in m;
      m[s] + Sum(m - {s})
  }

  lemma {:induction false} SumRemove(m: map<u64, int>, s: u64)
    requires s in m
    ensures Sum(m) == m[s] + Sum(m - {s})
    decreases |m|
  {
    var t :| t in m && Sum(m) == m[t] + Sum(m - {t});
    if t != s {
      SumRemove(m - {t}, s);
      SumRemove(m - {s}, t);
      assert m - {t} - {s} == m - {s} - {t};
    }
  }

  lemma SumUpdate(m: map<u64, int>, s: u64, v: int)
    ensures Sum(m[s := v]) == Sum(m) - Value(m, s) + v
  {
    SumRemove(m[s := v], s);
    if s in m {
      SumRemove(m, s);
      assert m[s := v] - {s} == m - {s};
    } else {
      assert m[s := v] - {s} == m;
    }
  }

  lemma {:induction false} SumZero(m: map<u64, int>)
    requires forall s :: s in m ==> m[s] == 0
    ensures Sum(m) == 0
    decreases |m|
  {
    if m.Keys != {} {
      var s :| s in m;
      SumRemove(m, s);
      SumZero(m - {s});
    }
  }

  // ---------------------------------------------------------------- sessions that come back

  /** An accepted checkpoint of a session that another one had replaced: it is measured from zero again. */
  ghost predicate Returns(init: seq<Call>, c: Call, i: nat)
    requires i < COUNTERS
  {
    Accrues(Run(init).0, c) && !SameSession(Run(init).0, c.session) && c.session.sessionId in LastSeen(init, i)
  }

  /** Energy of returning sessions that is counted a second time, since the last reset. */
  ghost function Recounted(calls: seq<Call>, i: nat): int
    requires i < COUNTERS
  {
    if calls == [] then 0
    else
      var init, c := calls[..|calls| - 1], calls[|calls| - 1];
      if Resets(Run(init).0, c) then 0
      else Recounted(init, i) + if Returns(init, c, i) then LastSeen(init, i)[c.session.sessionId] else 0
  }

  /** What the ledger remembers of the session it is in, and of all others. */
  ghost predicate Remembers(calls: seq<Call>, i: nat)
    requires i < COUNTERS
  {
    var l, last := Run(calls).0, LastSeen(calls, i);
    && (l.latest.Some? ==> l.state.sessionId in last && last[l.state.sessionId] == l.state.sessionCounters[i])
    && (forall s :: s in last ==> last[s] >= 0)
    && (forall s :: s in AtReset(calls, i) ==> s in last)
  }

  lemma StateAfter(l: Ledger, c: Call, i: nat)
    requires Sound(l) && i < COUNTERS
    ensures Accrues(l, c) ==>
              && c.Checkpoint? && Step(l, c).0.latest.Some? && Step(l, c).0.state.sessionId == c.session.sessionId
              && Step(l, c).0.state.sessionCounters[i] == c.session.counters[i] >= 0 && !Resets(l, c)
    ensures !Accrues(l, c) ==>
              && Step(l, c).0.latest.Some? == l.latest.Some? && Step(l, c).0.state.sessionId == l.state.sessionId
              && Step(l, c).0.state.sessionCounters == l.state.sessionCounters
  {
    hide Persisted, SameContent, Advanced, Overflows, Decodes, Loaded;
    if c.Reopen? {
      ReopenSound(l);
    }
  }

  lemma {:induction false} SessionsRemembered(calls: seq<Call>, i: nat)
    requires i < COUNTERS
    ensures Remembers(calls, i)
    decreases |calls|
  {
    hide Step, Sound, Accrues, Resets;
    if calls != [] {
      var init, c := calls[..|calls| - 1], calls[|calls| - 1];
      SessionsRemembered(init, i);
      StateAfter(Run(init).0, c, i);
    }
  }

  lemma {:induction false} SessionAccount(calls: seq<Call>, i: nat)
    requires i < COUNTERS
    ensures Accrued(calls, i) == Sum(SessionEnergy(calls, i)) + Recounted(calls, i)
    decreases |calls|
  {
    hide Step, Sound, Accrues, Resets, Run;
    if calls != [] {
      var init, c := calls[..|calls| - 1], calls[|calls| - 1];
      SessionAccount(init, i);
      SessionsRemembered(init, i);
      var l := Run(init).0;
      StateAfter(l, c, i);
      var last, floor := LastSeen(init, i), AtReset(init, i);
      if Resets(l, c) {
        SumZero(Since(LastSeen(calls, i), AtReset(calls, i)));
      } else if Accrues(l, c) {
        var s, v := c.session.sessionId, c.session.counters[i];
        assert Since(last[s := v], floor) == Since(last, floor)[s := v - Value(floor, s)];
        SumUpdate(Since(last, floor), s, v - Value(floor, s));
        BaseOf(l, c.session, i);
      }
    }
  }

  lemma BaseOf(l: Ledger, v: EnergyValues, i: nat)
    requires i < COUNTERS
    ensures Base(l, v)[i] == if SameSession(l, v) then l.state.sessionCounters[i] else 0
  {
  }

  // ---------------------------------------------------------------- counted once

  /** Call k brought back a session whose last counter was not zero. */
  ghost predicate CountsAgain(calls: seq<Call>, k: nat, i: nat)
    requires i < COUNTERS
  {
    k < |calls| && Returns(calls[..k], calls[k], i) && LastSeen(calls[..k], i)[calls[k].session.sessionId] > 0
  }

  ghost predicate NoResetAfter(calls: seq<Call>, k: nat) {
    forall j :: k < j < |calls| ==> !Resets(Run(calls[..j]).0, calls[j])
  }

  lemma PrefixFacts(calls: seq<Call>, k: nat, i: nat)
    requires calls != [] && k < |calls| - 1 && i < COUNTERS
    ensures
      var init := calls[..|calls| - 1];
      && (CountsAgain(calls, k, i) <==> CountsAgain(init, k, i))
      && (NoResetAfter(calls, k) <==> NoResetAfter(init, k) && !Resets(Run(init).0, calls[|calls| - 1]))
  {
    hide Resets, Returns, LastSeen, Run;
    var init := calls[..|calls| - 1];
    assert init[..k] == calls[..k];
    if NoResetAfter(calls, k) {
      forall j | k < j < |init| ensures !Resets(Run(init[..j]).0, init[j]) {
        assert init[..j] == calls[..j];
      }
      assert !Resets(Run(calls[..|calls| - 1]).0, calls[|calls| - 1]);
    }
    if NoResetAfter(init, k) && !Resets(Run(init).0, calls[|calls| - 1]) {
      forall j | k < j < |calls| ensures !Resets(Run(calls[..j]).0, calls[j]) {
        if j < |init| {
          assert init[..j] == calls[..j];
        }
      }
    }
  }

  lemma RecountedStep(calls: seq<Call>, i: nat)
    requires calls != [] && i < COUNTERS && Recounted(calls[..|calls| - 1], i) >= 0
    ensures Recounted(calls, i) >= 0
    ensures
      var init, c := calls[..|calls| - 1], calls[|calls| - 1];
      Recounted(calls, i) > 0 <==>
      (CountsAgain(calls, |init|, i) || (!Resets(Run(init).0, c) && Recounted(init, i) > 0))
  {
    var init, c := calls[..|calls| - 1], calls[|calls| - 1];
    NotBoth(init, c, i);
    hide Resets, Run, LastSeen, Returns;
    assert calls[..|init|] == init;
  }

  /** A returning checkpoint is no reset, and what it is counted for again is not negative. */
  lemma NotBoth(init: seq<Call>, c: Call, i: nat)
    requires i < COUNTERS
    ensures Returns(init, c, i) ==> !Resets(Run(init).0, c) && LastSeen(init, i)[c.session.sessionId] >= 0
  {
    SessionsRemembered(init, i);
    StateAfter(Run(init).0, c, i);
    hide Resets, Accrues, Run, SameSession, LastSeen, AtReset;
  }

  lemma {:induction false} RecountedIff(calls: seq<Call>, i: nat)
    requires i < COUNTERS
    ensures Recounted(calls, i) >= 0
    ensures Recounted(calls, i) > 0 <==> exists k: nat :: CountsAgain(calls, k, i) && NoResetAfter(calls, k)
    decreases |calls|
  {
    hide Resets, Run, Returns, LastSeen;
    if calls != [] {
      var init, c := calls[..|calls| - 1], calls[|calls| - 1];
      RecountedIff(init, i);
      RecountedStep(calls, i);
      forall k: nat | k < |init|
        ensures CountsAgain(calls, k, i) <==> CountsAgain(init, k, i)
        ensures NoResetAfter(calls, k) <==> NoResetAfter(init, k) && !Resets(Run(init).0, c)
      {
        PrefixFacts(calls, k, i);
      }
      LastCallOrEarlier(calls, i);
      hide CountsAgain, Recounted;
      assert NoResetAfter(calls, |init|);
    }
  }

  lemma LastCallOrEarlier(calls: seq<Call>, i: nat)
    requires calls != [] && i < COUNTERS
    requires
      var init, c := calls[..|calls| - 1], calls[|calls| - 1];
      && (forall k: nat :: k < |init| ==> (CountsAgain(calls, k, i) <==> CountsAgain(init, k, i)))
      && (forall k: nat :: k < |init| ==> (NoResetAfter(calls, k) <==> NoResetAfter(init, k) && !Resets(Run(init).0, c)))
    ensures
      var init, c := calls[..|calls| - 1], calls[|calls| - 1];
      (exists k: nat :: CountsAgain(calls, k, i) && NoResetAfter(calls, k)) <==>
      ((CountsAgain(calls, |init|, i) && NoResetAfter(calls, |init|))
       || (!Resets(Run(init).0, c) && exists k: nat :: CountsAgain(init, k, i) && NoResetAfter(init, k)))
  {
    hide Resets, Returns, LastSeen, Run, NoResetAfter;
    var init, c := calls[..|calls| - 1], calls[|calls| - 1];
    if k: nat :| CountsAgain(init, k, i) && NoResetAfter(init, k) && !Resets(Run(init).0, c) {
      assert CountsAgain(calls, k, i) && NoResetAfter(calls, k);
    }
  }

  /**
   * Over every run, a lifetime counter is the saturated sum of the sessions' energy since the last reset plus what
   * returning sessions are counted for again; every session is counted once if and only if none with a nonzero counter
   * came back, since that reset, after another had been accepted.
   */
  lemma LifetimeBySession(calls: seq<Call>, i: nat)
    requires i < COUNTERS
    ensures
      var total := Sum(SessionEnergy(calls, i)) + Recounted(calls, i);
      Run(calls).0.state.lifetime[i] == if total > INT64_MAX then INT64_MAX else total
    ensures Accrued(calls, i) == Sum(SessionEnergy(calls, i)) <==>
              !exists k: nat :: CountsAgain(calls, k, i) && NoResetAfter(calls, k)
  {
    hide Run, Recounted, SessionEnergy, CountsAgain, NoResetAfter, Sum;
    LifetimeIsAccrued(calls, i);
    SessionAccount(calls, i);
    RecountedIff(calls, i);
  }

  /** Session 1, session 2, and the same checkpoint of session 1 again: its energy is counted twice. */
  lemma ReturningSessionCountsTwice(a: Call, b: Call, i: nat)
    requires a.Checkpoint? && b.Checkpoint? && i < COUNTERS && a.session.sessionId != b.session.sessionId
    requires NonNegative(a.session.counters) && NonNegative(b.session.counters)
    ensures
      var x: int, y: int := a.session.counters[i], b.session.counters[i];
      && Accrued([a, b, a], i) == 2 * x + y
      && Run([a, b, a]).0.state.lifetime[i] == if 2 * x + y > INT64_MAX then INT64_MAX else 2 * x + y
  {
    hide Step, Run, Accrues, Resets, Base, NonNegative, Accrued;
    RunSnoc([], a);
    RunSnoc([a], b);
    assert [] + [a] == [a] && [a] + [b] == [a, b];
    assert [a, b, a][..2] == [a, b] && [a, b][..1] == [a] && [a][..0] == [];
    NoCallsYet();
    NewSessionAccrues(Run([]).0, a, i);
    NewSessionAccrues(Run([a]).0, b, i);
    NewSessionAccrues(Run([a, b]).0, a, i);
    AccruedSnoc([a, b], a, i);
    AccruedSnoc([a], b, i);
    AccruedSnoc([], a, i);
    assert [a, b] + [a] == [a, b, a];
    LifetimeIsAccrued([a, b, a], i);
  }

  lemma AccruedSnoc(calls: seq<Call>, c: Call, i: nat)
    requires i < COUNTERS && Accrues(Run(calls).0, c) && !Resets(Run(calls).0, c)
    ensures Accrued(calls + [c], i) == Accrued(calls, i) + (c.session.counters[i] - Base(Run(calls).0, c.session)[i])
  {
    hide Step, Run, Accrues, Resets, Base;
    assert (calls + [c])[..|calls|] == calls;
  }

  lemma NoCallsYet()
    ensures Run([]).0.latest.None?
    ensures forall i: nat :: i < COUNTERS ==> Accrued([], i) == 0
  {
  }

  lemma NewSessionAccrues(l: Ledger, c: Call, i: nat)
    requires Sound(l) && c.Checkpoint? && NonNegative(c.session.counters) && i < COUNTERS
    ensures !SameSession(l, c.session) ==>
              && Accrues(l, c) && !Resets(l, c) && Base(l, c.session)[i] == 0
              && Step(l, c).0.latest.Some? && Step(l, c).0.state.sessionId == c.session.sessionId
  {
    hide Persisted, SameContent, Advanced, Overflows, Decodes, Loaded;
  }
}
