/** Dependency-ordered start of the registered services. */
module Services {
  import opened Foundation

  datatype Service = Service(name: string, unit: string, after: seq<string>, autoStart: bool)

  datatype Error = DuplicateService | UnknownService | ControlFailed

  // ---------------------------------------------------------------- the dependency graph

  function Find(services: seq<Service>, name: string): (r: Option<Service>)
    ensures r.Some? ==> r.value in services && r.value.name == name
    ensures r.None? ==> forall s :: s in services ==> s.name != name
  {
    if services == [] then None
    else if services[0].name == name then Some(services[0]) else Find(services[1..], name)
  }

  ghost predicate Unique(services: seq<Service>) {
    forall i, j :: 0 <= i < j < |services| ==> services[i].name != services[j].name && services[i].unit != services[j].unit
  }

  lemma FindsItself(services: seq<Service>, s: Service)
    requires Unique(services) && s in services
    ensures Find(services, s.name) == Some(s)
  {
  }

  /** a names b as something to start first. */
  predicate Edge(services: seq<Service>, a: string, b: string) {
    Find(services, a).Some? && b in Find(services, a).value.after
  }

  ghost predicate Path(services: seq<Service>, p: seq<string>) {
    p != [] && forall i :: 0 <= i < |p| - 1 ==> Edge(services, p[i], p[i + 1])
  }

  ghost predicate Leads(services: seq<Service>, p: seq<string>, a: string, b: string) {
    Path(services, p) && p[0] == a && p[|p| - 1] == b
  }

  /** b is a or one of its transitive dependencies. */
  ghost predicate Reaches(services: seq<Service>, a: string, b: string) {
    exists p :: Leads(services, p, a, b)
  }

  /** Acyclic: every dependency ranks below what depends on it. */
  ghost predicate Acyclic(services: seq<Service>, rank: string -> nat) {
    forall a, b :: Edge(services, a, b) ==> rank(b) < rank(a)
  }

  lemma ReachesSelf(services: seq<Service>, a: string)
    ensures Reaches(services, a, a)
  {
    assert Leads(services, [a], a, a);
  }

  lemma ReachesThrough(services: seq<Service>, a: string, b: string, c: string)
    requires Edge(services, a, b) && Reaches(services, b, c)
    ensures Reaches(services, a, c)
  {
    hide Edge;
    var p :| Leads(services, p, b, c);
    var q := [a] + p;
    forall i | 0 <= i < |q| - 1 ensures Edge(services, q[i], q[i + 1]) {
      if i > 0 {
        assert Edge(services, p[i - 1], p[i]);
      }
    }
    assert Leads(services, q, a, c);
  }

  // ---------------------------------------------------------------- what a start order must satisfy

  /** No service twice, each one registered, and each after everything it names. */
  ghost predicate Ordered(services: seq<Service>, started: seq<string>) {
    && (forall i, j :: 0 <= i < j < |started| ==> started[i] != started[j])
    && (forall i :: 0 <= i < |started| ==> Find(services, started[i]).Some?)
    && (forall i, d :: 0 <= i < |started| && Edge(services, started[i], d) ==> d in started[..i])
  }

  /** In such an order every transitive dependency comes first, not only the named ones. */
  lemma {:induction false} TransitivelyFirst(services: seq<Service>, started: seq<string>, i: nat, p: seq<string>)
    requires Ordered(services, started) && i < |started| && Path(services, p) && p[0] == started[i] && |p| > 1
    ensures p[|p| - 1] in started[..i]
    decreases |p|
  {
    hide Edge;
    assert Edge(services, p[0], p[1]);
    var j :| 0 <= j < i && started[j] == p[1];
    if |p| > 2 {
      var q := p[1..];
      forall k | 0 <= k < |q| - 1 ensures Edge(services, q[k], q[k + 1]) {
        assert Edge(services, p[k + 1], p[k + 2]);
      }
      TransitivelyFirst(services, started, j, q);
    }
  }

  lemma ReachableStarted(services: seq<Service>, started: seq<string>, a: string, b: string)
    requires Ordered(services, started) && a in started && Reaches(services, a, b)
    ensures b in started
  {
    hide Edge;
    var p :| Leads(services, p, a, b);
    var i :| 0 <= i < |started| && started[i] == a;
    if |p| > 1 {
      TransitivelyFirst(services, started, i, p);
    }
  }

  lemma OrderedSnoc(services: seq<Service>, started: seq<string>, s: Service)
    requires Ordered(services, started) && s.name !in started && Find(services, s.name) == Some(s)
    requires forall k :: 0 <= k < |s.after| ==> s.after[k] in started
    ensures Ordered(services, started + [s.name])
  {
    var next := started + [s.name];
    forall i, d | 0 <= i < |next| && Edge(services, next[i], d) ensures d in next[..i] {
      assert next[..i] == started[..i];
      if i == |started| {
        assert started[..i] == started;
      } else {
        assert Edge(services, started[i], d);
      }
    }
  }

  /** The services of this order that were not running get a start command, in order. */
  function Commands(started: seq<string>, active: set<string>): seq<string> {
    if started == [] then []
    else
      var last := started[|started| - 1];
      Commands(started[..|started| - 1], active) + if last in active then [] else [last]
  }

  /** Exactly the services that were not running are commanded to start, in the order they were reached. */
  lemma {:induction false} CommandsMean(started: seq<string>, active: set<string>, name: string)
    ensures name in Commands(started, active) <==> name in started && name !in active
    decreases |started|
  {
    if started != [] {
      CommandsMean(started[..|started| - 1], active, name);
      assert started == started[..|started| - 1] + [started[|started| - 1]];
    }
  }

  lemma CommandsSnoc(started: seq<string>, active: set<string>, name: string)
    ensures Commands(started + [name], active) == Commands(started, active) + if name in active then [] else [name]
  {
    assert (started + [name])[..|started|] == started;
  }

  class ServiceManager {
    var services: seq<Service>
    /** The controller: which services run, which it fails to start, and the commands issued so far. */
    const active: set<string>
    const broken: set<string>
    var issued: seq<string>

    ghost predicate Valid()
      reads this
    {
      Unique(services)
    }

    constructor (active: set<string>, broken: set<string>)
      ensures Valid() && services == [] && issued == [] && this.active == active && this.broken == broken
    {
      this.active, this.broken := active, broken;
      services, issued := [], [];
    }

    method Register(s: Service) returns (error: Option<Error>)
      requires Valid()
      modifies this
      ensures Valid() && issued == old(issued)
      ensures error.None? <==> forall t :: t in old(services) ==> t.name != s.name && t.unit != s.unit
      ensures services == if error.None? then old(services) + [s] else old(services)
    {
      for i := 0 to |services|
        invariant forall k :: 0 <= k < i ==> services[k].name != s.name && services[k].unit != s.unit
        invariant services == old(services) && issued == old(issued)
      {
        if services[i].name == s.name || services[i].unit == s.unit {
          assert services[i] in services;
          return Some(DuplicateService);
        }
      }
      services := services + [s];
      return None;
    }

    ghost predicate CanStart(name: string)
      reads this`services
    {
      Find(services, name).Some? && (name in active || name !in broken)
    }

    /** Everything in `names` is the service itself or below it, and can start. */
    ghost predicate Below(root: string, names: seq<string>)
      reads this`services
    {
      forall k :: 0 <= k < |names| ==> Reaches(services, root, names[k]) && CanStart(names[k])
    }

    ghost predicate Obstructed(root: string)
      reads this`services
    {
      exists x :: Reaches(services, root, x) && !CanStart(x)
    }

    /** Starts what the service needs, then the service; a failure keeps what was already started, in order. */
    method StartOne(s: Service, started: seq<string>, ghost rank: string -> nat, ghost base: seq<string>)
      returns (done: seq<string>, error: Option<Error>)
      requires Valid() && Acyclic(services, rank) && Find(services, s.name) == Some(s) && Ordered(services, started)
      requires issued == base + Commands(started, active)
      modifies this`issued
      ensures started <= done && Ordered(services, done) && Below(s.name, done[|started|..])
      ensures issued == base + Commands(done, active)
      ensures error.None? ==> s.name in done
      ensures error.Some? ==> Obstructed(s.name)
      decreases rank(s.name)
    {
      hide Edge, Reaches, Ordered, Commands, Find, Unique;
      done, error := started, None;
      if s.name in started {
        return;
      }
      for k := 0 to |s.after|
        invariant started <= done && Ordered(services, done) && Below(s.name, done[|started|..])
        invariant issued == base + Commands(done, active) && s.name !in done
        invariant error.None? && forall j :: 0 <= j < k ==> s.after[j] in done
      {
        var d := s.after[k];
        Named(services, s, k);
        var dependency := Find(services, d);
        if dependency.None? {
          NoSuchService(services, s.name, d);
          assert !CanStart(d);
          return done, Some(UnknownService);
        }
        assert dependency.value.name == d by { Found(services, d); }
        var before := done;
        done, error := StartOne(dependency.value, before, rank, base);
        Joined(s.name, d, started, before, done, rank);
        if error.Some? {
          Lifted(s.name, d);
          return;
        }
      }
      ReachesSelf(services, s.name);
      if s.name !in active {
        if s.name in broken {
          assert !CanStart(s.name);
          return done, Some(ControlFailed);
        }
        issued := issued + [s.name];
      }
      CommandsSnoc(done, active, s.name);
      OrderedSnoc(services, done, s);
      assert (done + [s.name])[|started|..] == done[|started|..] + [s.name];
      done := done + [s.name];
    }

    lemma Joined(root: string, d: string, started: seq<string>, before: seq<string>, done: seq<string>, rank: string -> nat)
      requires Edge(services, root, d) && Acyclic(services, rank) && started <= before <= done
      requires Below(root, before[|started|..]) && Below(d, done[|before|..]) && root !in before
      ensures Below(root, done[|started|..]) && root !in done
    {
      hide Edge, Reaches, CanStart;
      var rest := done[|started|..];
      forall k | 0 <= k < |rest| ensures Reaches(services, root, rest[k]) && CanStart(rest[k]) {
        if k < |before| - |started| {
          assert rest[k] == before[|started|..][k];
        } else {
          assert rest[k] == done[|before|..][k - (|before| - |started|)];
          ReachesThrough(services, root, d, rest[k]);
        }
      }
      forall k | 0 <= k < |done| ensures done[k] != root {
        if k >= |before| {
          assert done[k] == done[|before|..][k - |before|];
          RankFalls(services, rank, d, done[k]);
        } else {
          assert done[k] == before[k];
        }
      }
    }

    lemma Lifted(root: string, d: string)
      requires Edge(services, root, d) && Obstructed(d)
      ensures Obstructed(root)
    {
      hide Edge, CanStart, Reaches;
      var x :| Reaches(services, d, x) && !CanStart(x);
      ReachesThrough(services, root, d, x);
    }

    /** Starts exactly the auto-start services and what they depend on, each once and after its dependencies. */
    method StartRegistered(ghost rank: string -> nat) returns (done: seq<string>, error: Option<Error>)
      requires Valid() && Acyclic(services, rank)
      modifies this`issued
      ensures Ordered(services, done) && issued == old(issued) + Commands(done, active)
      ensures forall x :: x in done ==> Wanted(services, x) && CanStart(x)
      ensures error.None? <==> forall x :: Wanted(services, x) ==> CanStart(x)
      ensures error.None? ==> forall x :: x in done <==> Wanted(services, x)
    {
      hide Edge, Reaches, Ordered, Commands, Find, CanStart;
      done, error := [], None;
      NothingStarted(services, active);
      for i := 0 to |services|
        invariant Ordered(services, done) && issued == old(issued) + Commands(done, active)
        invariant forall x :: x in done ==> Wanted(services, x) && CanStart(x)
        invariant error.None? && forall k :: 0 <= k < i && services[k].autoStart ==> services[k].name in done
      {
        if services[i].autoStart {
          FindsItself(services, services[i]);
          ghost var before := done;
          done, error := StartOne(services[i], done, rank, old(issued));
          NewOnesWanted(i, before, done);
          if error.Some? {
            ghost var x :| Reaches(services, services[i].name, x) && !CanStart(x);
            assert Wanted(services, x);
            return;
          }
        }
      }
      forall x | Wanted(services, x) ensures x in done {
        var k :| 0 <= k < |services| && services[k].autoStart && Reaches(services, services[k].name, x);
        ReachableStarted(services, done, services[k].name, x);
      }
    }

    lemma NewOnesWanted(i: nat, before: seq<string>, done: seq<string>)
      requires i < |services| && services[i].autoStart && before <= done && Below(services[i].name, done[|before|..])
      requires forall x :: x in before ==> Wanted(services, x) && CanStart(x)
      ensures forall x :: x in done ==> Wanted(services, x) && CanStart(x)
    {
      hide Reaches, CanStart;
      forall x | x in done ensures Wanted(services, x) && CanStart(x) {
        var k :| 0 <= k < |done| && done[k] == x;
        if k < |before| {
          assert x == before[k];
        } else {
          assert x == done[|before|..][k - |before|];
        }
      }
    }
  }

  /** Something an auto-start service is or depends on. */
  ghost predicate Wanted(services: seq<Service>, x: string) {
    exists k :: 0 <= k < |services| && services[k].autoStart && Reaches(services, services[k].name, x)
  }

  lemma Named(services: seq<Service>, s: Service, k: nat)
    requires Find(services, s.name) == Some(s) && k < |s.after|
    ensures Edge(services, s.name, s.after[k])
  {
  }

  lemma Found(services: seq<Service>, name: string)
    requires Find(services, name).Some?
    ensures Find(services, name).value.name == name
  {
  }

  lemma NoSuchService(services: seq<Service>, a: string, d: string)
    requires Edge(services, a, d)
    ensures Reaches(services, a, d)
  {
    hide Edge;
    ReachesSelf(services, d);
    ReachesThrough(services, a, d, d);
  }

  lemma NothingStarted(services: seq<Service>, active: set<string>)
    ensures Ordered(services, []) && Commands([], active) == []
  {
  }

  lemma {:induction false} RankFallsOnPath(services: seq<Service>, rank: string -> nat, p: seq<string>)
    requires Acyclic(services, rank) && Path(services, p)
    ensures rank(p[|p| - 1]) <= rank(p[0])
    decreases |p|
  {
    hide Edge;
    if |p| > 1 {
      assert Edge(services, p[0], p[1]);
      var q := p[1..];
      forall k | 0 <= k < |q| - 1 ensures Edge(services, q[k], q[k + 1]) {
        assert Edge(services, p[k + 1], p[k + 2]);
      }
      RankFallsOnPath(services, rank, q);
    }
  }

  lemma RankFalls(services: seq<Service>, rank: string -> nat, a: string, b: string)
    requires Acyclic(services, rank) && Reaches(services, a, b)
    ensures rank(b) <= rank(a)
  {
    hide Edge;
    var p :| Leads(services, p, a, b);
    RankFallsOnPath(services, rank, p);
  }
}
