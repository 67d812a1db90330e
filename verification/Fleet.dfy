/** Many resources at once, over one secret store keyed by secret identifier and one
    organization keyed by account name: why Lifecycle may give each its own. */
module Fleet {
  import opened Common
  import opened KeyStore
  import opened Lifecycle
  import opened LifecycleSafety
  import Identifiers
  import Text

  /** Which resource: its namespace and its name. */
  datatype Owner = Owner(namespace: string, name: string)

  /** The organization, and the five characters a namespace contributes to its accounts' names. */
  datatype Org = Org(name: string, suffix: string -> string)

  /** `own` is each resource with its clock and counters; its secret and its account are
      in `store` and `accounts`. */
  datatype Fleet = Fleet(own: map<Owner, System>, store: map<string, Slot<Key>>, accounts: map<string, Account>)

  predicate GoodSuffix(suffix: string) {
    && |suffix| == Identifiers.NAMESPACE_SUFFIX_LEN
    && forall i :: 0 <= i < |suffix| ==> Identifiers.IsLowerAlnum(suffix[i])
  }

  /** A resource Kubernetes admits and whose secret has an identifier. */
  predicate Admitted(org: Org, o: Owner) {
    && Identifiers.ValidNamespace(o.namespace) && Identifiers.ValidAccountName(o.name)
    && Identifiers.NewTenantIdentifier(org.name, o.namespace, o.name).Ok?
    && GoodSuffix(org.suffix(o.namespace))
  }

  function SecretId(org: Org, o: Owner): string
    requires Admitted(org, o)
  {
    Identifiers.NewTenantIdentifier(org.name, o.namespace, o.name).value
  }

  /** The resolved name as Snowflake compares names, ignoring case. */
  function AccountName(org: Org, o: Owner): string {
    Text.ToUpper(Identifiers.ResolveName(o.name, org.suffix(o.namespace)))
  }

  ghost predicate AllAdmitted(org: Org, owners: set<Owner>) {
    forall o :: o in owners ==> Admitted(org, o)
  }

  /** The same name in two namespaces whose digests begin with the same five characters. */
  predicate Collide(org: Org, o: Owner, p: Owner) {
    o.name == p.name && org.suffix(o.namespace) == org.suffix(p.namespace)
  }

  /** No other resource collides with this one. */
  ghost predicate Unshared(org: Org, owners: set<Owner>, o: Owner) {
    forall p :: p in owners && Collide(org, o, p) ==> p == o
  }

  /** No two resources share a secret; they share an account name exactly when they
      collide. */
  lemma NamesMeetExactly(org: Org, o: Owner, p: Owner)
    requires Admitted(org, o) && Admitted(org, p)
    ensures SecretId(org, o) == SecretId(org, p) <==> o == p
    ensures AccountName(org, o) == AccountName(org, p) <==> Collide(org, o, p)
  {
    Identifiers.PoolKeysNeverShareASecret(org.name, o.namespace, o.name, p.namespace, p.name);
    Identifiers.ResolvedNamesAreDistinct(o.name, org.suffix(o.namespace), p.name, org.suffix(p.namespace));
  }

  lemma PutIsRead(store: map<string, Slot<Key>>, id: string, s: Slot<Key>, other: string)
    ensures SlotOf(Put(store, id, s), other) == if other == id then s else SlotOf(store, other)
  {
  }

  // ---- one resource's view --------------------------------------------------------------------------

  /** What Lifecycle calls the system of this resource. */
  function View(f: Fleet, org: Org, o: Owner): System
    requires o in f.own && Admitted(org, o)
  {
    var s := f.own[o];
    var name := AccountName(org, o);
    s.(world := s.world.(secret := SlotOf(f.store, SecretId(org, o)),
                         account := if name in f.accounts then Some(f.accounts[name]) else None))
  }

  function Place(f: Fleet, org: Org, o: Owner, s: System): Fleet
    requires Admitted(org, o)
  {
    var name := AccountName(org, o);
    Fleet(f.own[o := s], Put(f.store, SecretId(org, o), s.world.secret),
          if s.world.account.Some? then f.accounts[name := s.world.account.value] else f.accounts - {name})
  }

  lemma OthersAreUntouched(f: Fleet, org: Org, o: Owner, s: System, p: Owner)
    requires Admitted(org, o) && Admitted(org, p) && p in f.own && p != o
    requires SecretId(org, o) != SecretId(org, p) && AccountName(org, o) != AccountName(org, p)
    ensures View(Place(f, org, o, s), org, p) == View(f, org, p)
  {
    PutIsRead(f.store, SecretId(org, o), s.world.secret, SecretId(org, p));
    assert View(Place(f, org, o, s), org, p).world.account == View(f, org, p).world.account;
  }

  lemma OwnerSeesIt(f: Fleet, org: Org, o: Owner, s: System)
    requires Admitted(org, o) && o in f.own
    ensures View(Place(f, org, o, s), org, o) == s
  {
    PutIsRead(f.store, SecretId(org, o), s.world.secret, SecretId(org, o));
    assert View(Place(f, org, o, s), org, o).world.account == s.world.account;
  }

  function WithAccount(s: System, account: Option<Account>): System {
    s.(world := s.world.(account := account))
  }

  lemma SharersSeeTheAccount(f: Fleet, org: Org, o: Owner, s: System, p: Owner)
    requires Admitted(org, o) && Admitted(org, p) && p in f.own && p != o
    requires SecretId(org, o) != SecretId(org, p) && AccountName(org, o) == AccountName(org, p)
    ensures View(Place(f, org, o, s), org, p) == WithAccount(View(f, org, p), s.world.account)
  {
    PutIsRead(f.store, SecretId(org, o), s.world.secret, SecretId(org, p));
    assert View(Place(f, org, o, s), org, p).world.account == s.world.account;
  }

  /** A resource sees what was placed for it; of what was placed for another it sees
      nothing, or the account if the two collide. */
  lemma PlacedIsSeen(f: Fleet, org: Org, o: Owner, s: System, p: Owner)
    requires Admitted(org, o) && Admitted(org, p) && o in f.own && p in f.own
    ensures View(Place(f, org, o, s), org, p)
         == if p == o then s
            else if Collide(org, o, p) then WithAccount(View(f, org, p), s.world.account)
            else View(f, org, p)
  {
    NamesMeetExactly(org, o, p);
    if p == o {
      OwnerSeesIt(f, org, o, s);
    } else if Collide(org, o, p) {
      SharersSeeTheAccount(f, org, o, s, p);
    } else {
      OthersAreUntouched(f, org, o, s, p);
    }
  }

  // ---- runs -------------------------------------------------------------------------------------------

  datatype FleetEvent = FleetEvent(owner: Owner, event: Event)

  function NextFleet(f: Fleet, org: Org, cfg: Config, e: FleetEvent): (n: Fleet)
    requires e.owner in f.own && Admitted(org, e.owner)
    ensures n.own.Keys == f.own.Keys
  {
    Place(f, org, e.owner, Next(View(f, org, e.owner), cfg, e.event))
  }

  ghost predicate IsFleetRun(f: Fleet, org: Org, cfg: Config, events: seq<FleetEvent>)
    requires AllAdmitted(org, f.own.Keys)
    decreases |events|
  {
    events == [] ||
    (&& events[0].owner in f.own && Admissible(View(f, org, events[0].owner), events[0].event)
     && IsFleetRun(NextFleet(f, org, cfg, events[0]), org, cfg, events[1..]))
  }

  ghost function RunFleet(f: Fleet, org: Org, cfg: Config, events: seq<FleetEvent>): Fleet
    requires AllAdmitted(org, f.own.Keys) && IsFleetRun(f, org, cfg, events)
    decreases |events|
  {
    if events == [] then f else RunFleet(NextFleet(f, org, cfg, events[0]), org, cfg, events[1..])
  }

  /** The events of one resource, in order. */
  function Of(events: seq<FleetEvent>, o: Owner): seq<Event>
    decreases |events|
  {
    if events == [] then []
    else if events[0].owner == o then [events[0].event] + Of(events[1..], o)
    else Of(events[1..], o)
  }

  /** Isolation: however the reconciles of different resources interleave, one that
      collides with no other sees exactly the run it would have had alone. */
  lemma {:induction false} EachRunsAlone(f: Fleet, org: Org, cfg: Config, events: seq<FleetEvent>, o: Owner)
    requires AllAdmitted(org, f.own.Keys) && IsFleetRun(f, org, cfg, events)
    requires o in f.own && Unshared(org, f.own.Keys, o)
    ensures o in RunFleet(f, org, cfg, events).own
    ensures IsRun(View(f, org, o), cfg, Of(events, o))
    ensures View(RunFleet(f, org, cfg, events), org, o) == RunAll(View(f, org, o), cfg, Of(events, o))
    decreases |events|
  {
    if events != [] {
      var e := events[0];
      var s := Next(View(f, org, e.owner), cfg, e.event);
      PlacedIsSeen(f, org, e.owner, s, o);
      EachRunsAlone(NextFleet(f, org, cfg, e), org, cfg, events[1..], o);
      if e.owner == o {
        OneEvent(View(f, org, o), cfg, e.event, Of(events[1..], o));
      }
    }
  }

  /** So the guarantees of a single resource hold for every such one of many. */
  lemma EachIsCrashSafe(f: Fleet, org: Org, cfg: Config, events: seq<FleetEvent>, o: Owner)
    requires AllAdmitted(org, f.own.Keys) && IsFleetRun(f, org, cfg, events)
    requires o in f.own && Unshared(org, f.own.Keys, o)
    requires IsStart(View(f, org, o)) && NobodyElseCreates(Of(events, o))
    ensures o in RunFleet(f, org, cfg, events).own
    ensures var e := View(RunFleet(f, org, cfg, events), org, o);
      && e.world.issuedWhileLive == 0 && |e.world.created| <= 1
      && (e.res.status.locator.Some? ==> e.world.created == [e.res.status.locator.value])
      && (e.res.status.locator.Some? && !e.world.dropped ==> CanDial(e.world, e.res.status))
  {
    EachRunsAlone(f, org, cfg, events, o);
    CrashSafeCreate(View(f, org, o), cfg, Of(events, o));
    AccountStaysReachable(View(f, org, o), cfg, Of(events, o));
  }
}
