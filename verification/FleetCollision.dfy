/** When the resources of Fleet get into each other's way: exactly when they collide, and
    what two that do can do to each other. */
module FleetCollision {
  import opened Common
  import opened KeyStore
  import opened Lifecycle
  import opened LifecycleSafety
  import opened Fleet
  import Identifiers
  import Text

  // ---- new fleets -----------------------------------------------------------------------------------

  /** A resource just created. */
  function NewResource(): System {
    System(Resource(0, 1, "me@acme.com", false, Status.Status(None, None, 0, false)),
           World(Absent, None, 0, 0, [], 0, false), 0, false)
  }

  /** Admitted resources just created, and nothing else. */
  ghost predicate IsNew(f: Fleet, org: Org) {
    && AllAdmitted(org, f.own.Keys) && f.store == map[] && f.accounts == map[]
    && forall o :: o in f.own ==> f.own[o] == NewResource()
  }

  lemma NothingIsSeenYet(f: Fleet, org: Org, o: Owner)
    requires IsNew(f, org) && o in f.own
    ensures View(f, org, o) == NewResource() && IsStart(View(f, org, o))
  {
  }

  // ---- one undisturbed reconcile ----------------------------------------------------------------------

  const UNDISTURBED := Reconciled(Smooth(0), Smooth(0), true)

  lemma AlwaysAdmissible(s: System)
    requires s.now <= 0
    ensures Admissible(s, UNDISTURBED)
  {
  }

  lemma FirstReconcileCreates(cfg: Config)
    ensures var n := Next(NewResource(), cfg, UNDISTURBED);
      && n.world.account == Some(Account(0, Some(0), None, "me@acme.com", false))
      && n.world.created == [0] && n.res.status.locator == Some(0) && !n.res.deleting && n.now == 0
  {
  }

  lemma SecondAttemptAdopts(s: System, cfg: Config)
    requires s.res.status.locator.None? && Recent(s.world.secret, s.res.createdAt) && s.world.account.Some?
    requires !s.res.deleting && !s.gone && s.now == 0
    ensures var n := Next(s, cfg, UNDISTURBED);
      && n.res.status.locator == Some(s.world.account.value.locator)
      && n.world.account == s.world.account && n.world.created == s.world.created
      && !n.res.deleting && !n.gone && n.now == 0
  {
  }

  lemma DeletionDrops(s: System, cfg: Config)
    requires s.res.status.locator.Some? && s.res.deleting && !s.gone && s.world.account.Some?
    ensures var n := Next(s, cfg, UNDISTURBED);
      n.world.account.None? && n.world.created == s.world.created && n.world.dropped
  {
  }

  /** Three reconciles, with the request for deletion before the last. */
  const ADOPT_AND_DROP := [UNDISTURBED, UNDISTURBED, DeletionRequested, UNDISTURBED]

  /** A new resource whose account name is taken: it never creates an account, and drops
      the one that has its name. */
  lemma AdoptsAndDrops(s: System, cfg: Config, taken: Account)
    requires s == WithAccount(NewResource(), Some(taken))
    ensures IsRun(s, cfg, ADOPT_AND_DROP)
    ensures RunAll(s, cfg, ADOPT_AND_DROP).world.created == [] && RunAll(s, cfg, ADOPT_AND_DROP).world.dropped
    ensures RunAll(s, cfg, ADOPT_AND_DROP).world.account.None?
  {
    var s1 := Next(s, cfg, UNDISTURBED);
    FirstCreateIsRefused(s, cfg);
    var s2 := Next(s1, cfg, UNDISTURBED);
    SecondAttemptAdopts(s1, cfg);
    var s3 := Next(s2, cfg, DeletionRequested);
    var s4 := Next(s3, cfg, UNDISTURBED);
    DeletionDrops(s3, cfg);
    OneEvent(s3, cfg, UNDISTURBED, []);
    OneEvent(s2, cfg, DeletionRequested, [UNDISTURBED]);
    OneEvent(s1, cfg, UNDISTURBED, [DeletionRequested, UNDISTURBED]);
    OneEvent(s, cfg, UNDISTURBED, [UNDISTURBED, DeletionRequested, UNDISTURBED]);
  }

  // ---- runs of a fleet in which one resource moves -------------------------------------------------------

  function Only(o: Owner, events: seq<Event>): seq<FleetEvent>
    decreases |events|
  {
    if events == [] then [] else [FleetEvent(o, events[0])] + Only(o, events[1..])
  }

  /** The resource sees its own run, and one it collides with sees what becomes of the
      account. */
  lemma {:induction false} OneMoves(f: Fleet, org: Org, cfg: Config, o: Owner, events: seq<Event>, p: Owner)
    requires AllAdmitted(org, f.own.Keys) && o in f.own && p in f.own && p != o && Collide(org, o, p)
    requires IsRun(View(f, org, o), cfg, events)
    ensures IsFleetRun(f, org, cfg, Only(o, events))
    ensures var e := RunFleet(f, org, cfg, Only(o, events));
      && e.own.Keys == f.own.Keys && View(e, org, o) == RunAll(View(f, org, o), cfg, events)
      && View(e, org, p) == WithAccount(View(f, org, p), View(e, org, o).world.account)
    decreases |events|
  {
    NamesMeetExactly(org, o, p);
    if events != [] {
      var e := FleetEvent(o, events[0]);
      var n := NextFleet(f, org, cfg, e);
      PlacedIsSeen(f, org, o, Next(View(f, org, o), cfg, events[0]), o);
      PlacedIsSeen(f, org, o, Next(View(f, org, o), cfg, events[0]), p);
      OneMoves(n, org, cfg, o, events[1..], p);
      assert Only(o, events)[1..] == Only(o, events[1..]);
    }
  }

  ghost predicate Reaches(f: Fleet, org: Org, cfg: Config, events: seq<FleetEvent>, end: Fleet) {
    AllAdmitted(org, f.own.Keys) && IsFleetRun(f, org, cfg, events) && RunFleet(f, org, cfg, events) == end
  }

  lemma OneFleetEvent(f: Fleet, org: Org, cfg: Config, e: FleetEvent, rest: seq<FleetEvent>, end: Fleet)
    requires AllAdmitted(org, f.own.Keys) && e.owner in f.own && Admissible(View(f, org, e.owner), e.event)
    requires Reaches(NextFleet(f, org, cfg, e), org, cfg, rest, end)
    ensures Reaches(f, org, cfg, [e] + rest, end)
  {
    assert ([e] + rest)[1..] == rest;
  }

  // ---- the exact condition --------------------------------------------------------------------------------

  /** In every run of the fleet the resource sees what it would have seen alone. */
  ghost predicate RunsAlone(f: Fleet, org: Org, cfg: Config, o: Owner)
    requires AllAdmitted(org, f.own.Keys) && o in f.own
  {
    forall events :: IsFleetRun(f, org, cfg, events) ==>
      && o in RunFleet(f, org, cfg, events).own
      && View(RunFleet(f, org, cfg, events), org, o) == RunAll(View(f, org, o), cfg, Of(events, o))
  }

  lemma NoneOf(events: seq<FleetEvent>, o: Owner)
    requires |events| == 1 && events[0].owner != o
    ensures Of(events, o) == []
  {
    assert events[1..] == [];
  }

  /** One reconcile of another resource shows, if the two collide. */
  lemma SharerIsSeen(f: Fleet, org: Org, cfg: Config, o: Owner, p: Owner)
    requires IsNew(f, org) && o in f.own && p in f.own && p != o && Collide(org, p, o)
    ensures !RunsAlone(f, org, cfg, o)
  {
    NothingIsSeenYet(f, org, o);
    NothingIsSeenYet(f, org, p);
    AlwaysAdmissible(NewResource());
    OneEvent(NewResource(), cfg, UNDISTURBED, []);
    OneMoves(f, org, cfg, p, [UNDISTURBED], o);
    FirstReconcileCreates(cfg);
    var events := Only(p, [UNDISTURBED]);
    NoneOf(events, o);
    assert View(RunFleet(f, org, cfg, events), org, o).world.account.Some?;
    assert RunAll(View(f, org, o), cfg, Of(events, o)) == View(f, org, o);
  }

  /** "Accounts from different namespaces never collide": among resources just created,
      one runs as if alone, in every run, exactly when no other has its name in a
      namespace with its suffix. */
  lemma RunsAloneExactly(f: Fleet, org: Org, cfg: Config, o: Owner)
    requires IsNew(f, org) && o in f.own
    ensures RunsAlone(f, org, cfg, o) <==> Unshared(org, f.own.Keys, o)
  {
    if Unshared(org, f.own.Keys, o) {
      forall events | IsFleetRun(f, org, cfg, events)
        ensures o in RunFleet(f, org, cfg, events).own
        ensures View(RunFleet(f, org, cfg, events), org, o) == RunAll(View(f, org, o), cfg, Of(events, o))
      {
        EachRunsAlone(f, org, cfg, events, o);
      }
    } else {
      var p :| p in f.own.Keys && Collide(org, o, p) && p != o;
      SharerIsSeen(f, org, cfg, o, p);
    }
  }

  /** First `a` creates its account, and `b` finds the name taken. */
  lemma FirstCreates(f: Fleet, org: Org, cfg: Config, a: Owner, b: Owner)
    requires IsNew(f, org) && a in f.own && b in f.own && a != b && Collide(org, a, b)
    ensures View(f, org, a) == NewResource()
    ensures var m := NextFleet(f, org, cfg, FleetEvent(a, UNDISTURBED));
      && m.own.Keys == f.own.Keys
      && View(m, org, a) == Next(NewResource(), cfg, UNDISTURBED)
      && View(m, org, b) == WithAccount(NewResource(), View(m, org, a).world.account)
  {
    NothingIsSeenYet(f, org, a);
    NothingIsSeenYet(f, org, b);
    PlacedIsSeen(f, org, a, Next(NewResource(), cfg, UNDISTURBED), a);
    PlacedIsSeen(f, org, a, Next(NewResource(), cfg, UNDISTURBED), b);
  }

  /** Then `b` adopts it, and drops it. */
  lemma ThenDropped(m: Fleet, org: Org, cfg: Config, a: Owner, b: Owner, taken: Account) returns (e: Fleet)
    requires AllAdmitted(org, m.own.Keys) && a in m.own && b in m.own && a != b && Collide(org, a, b)
    requires View(m, org, b) == WithAccount(NewResource(), Some(taken))
    ensures Reaches(m, org, cfg, Only(b, ADOPT_AND_DROP), e) && e.own.Keys == m.own.Keys
    ensures View(e, org, a) == WithAccount(View(m, org, a), None)
    ensures View(e, org, b).world.created == [] && View(e, org, b).world.dropped
  {
    AdoptsAndDrops(View(m, org, b), cfg, taken);
    OneMoves(m, org, cfg, b, ADOPT_AND_DROP, a);
    e := RunFleet(m, org, cfg, Only(b, ADOPT_AND_DROP));
  }

  /** What a collision comes to. `a` creates its account; `b`, refused once, adopts it on
      the second attempt; and the deletion of `b` drops it while `a` still records its
      locator and nobody asked for its deletion. */
  lemma CollisionDropsTheOthersAccount(f: Fleet, org: Org, cfg: Config, a: Owner, b: Owner) returns (e: Fleet)
    requires IsNew(f, org) && a in f.own && b in f.own && a != b && Collide(org, a, b)
    ensures Reaches(f, org, cfg, [FleetEvent(a, UNDISTURBED)] + Only(b, ADOPT_AND_DROP), e) && e.own.Keys == f.own.Keys
    ensures View(e, org, a).world.created == [0] && View(e, org, a).res.status.locator == Some(0)
    ensures !View(e, org, a).res.deleting && View(e, org, a).world.account.None?
    ensures View(e, org, b).world.created == [] && View(e, org, b).world.dropped
  {
    FirstCreates(f, org, cfg, a, b);
    FirstReconcileCreates(cfg);
    AlwaysAdmissible(NewResource());
    var first := FleetEvent(a, UNDISTURBED);
    var m := NextFleet(f, org, cfg, first);
    e := ThenDropped(m, org, cfg, a, b, View(m, org, a).world.account.value);
    OneFleetEvent(f, org, cfg, first, Only(b, ADOPT_AND_DROP), e);
  }

  // ---- such fleets exist ------------------------------------------------------------------------------------

  /** A resource with valid, short names is admitted. */
  lemma AdmitsShortNames(org: Org, o: Owner)
    requires |org.name| <= 20 && |o.name| <= 20 && GoodSuffix(org.suffix(o.namespace))
    requires Identifiers.ValidNamespace(o.namespace) && Identifiers.ValidAccountName(o.name)
    requires Identifiers.ValidSegment(org.name) && Identifiers.ValidSegment(o.namespace)
    ensures Admitted(org, o)
  {
    var suffix := org.suffix(o.namespace);
    Text.ReplaceCharPointwise(o.name, '-', '_');
    Identifiers.AccountNameIsASegment(o.name);
    Identifiers.AcceptedNameFitsTheIdentifier(org.name, o.namespace, o.name, suffix);
  }

  /** Three texts of one letter. */
  lemma Letters() returns (a: string, b: string, n: string)
    ensures a != b && forall s :: s in [a, b, n] ==>
      |s| == 1 && Identifiers.ValidNamespace(s) && Identifiers.ValidAccountName(s) && Identifiers.ValidSegment(s)
  {
    a, b, n := "a", "b", "n";
  }

  lemma Suffixes() returns (x: string, y: string)
    ensures x != y && GoodSuffix(x) && GoodSuffix(y)
  {
    x, y := "aaaaa", "bbbbb";
    assert x[0] != y[0];
  }

  /** The two resources `a` and `b`, just created. */
  function Pair(a: Owner, b: Owner): Fleet { Fleet(map[a := NewResource(), b := NewResource()], map[], map[]) }

  lemma PairIsNew(org: Org, a: Owner, b: Owner)
    requires Admitted(org, a) && Admitted(org, b)
    ensures IsNew(Pair(a, b), org) && Pair(a, b).own.Keys == {a, b}
  {
    assert Pair(a, b).own.Keys == {a, b};
  }

  /** Two resources of the same name in two namespaces, which collide or do not as the
      digests will have it. */
  lemma FleetsExist(collide: bool) returns (org: Org, a: Owner, b: Owner)
    ensures IsNew(Pair(a, b), org) && Pair(a, b).own.Keys == {a, b} && a.namespace != b.namespace
    ensures Collide(org, a, b) <==> collide
  {
    var first, second, name := Letters();
    var x, y := Suffixes();
    org := Org(name, ns => if ns == first || collide then x else y);
    a, b := Owner(first, name), Owner(second, name);
    AdmitsShortNames(org, a);
    AdmitsShortNames(org, b);
    PairIsNew(org, a, b);
  }
}
