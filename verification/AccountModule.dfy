/** internal/account/modules/account as an object working on a resource in memory and on
    the systems outside, call by call. Each method does what the function of Lifecycle
    of the same name says. */
module AccountModule {
  import opened Common
  import opened DeletionGate
  import opened KeyStore
  import opened Lifecycle
  import P = Pipeline
  import Permits
  import R = Rotation

  /** The resource as one run holds it: the spec it was read with, its status to write. */
  class Cr {
    const createdAt: Time
    const generation: int
    const contact: string
    var locator: Option<Locator>
    var accountCreatedAt: Option<Time>
    var observedGeneration: int
    var ready: bool

    constructor (res: Resource)
      ensures createdAt == res.createdAt && generation == res.generation && contact == res.contact
      ensures Current() == res.status
    {
      createdAt, generation, contact := res.createdAt, res.generation, res.contact;
      locator, accountCreatedAt := res.status.locator, res.status.accountCreatedAt;
      observedGeneration, ready := res.status.observedGeneration, res.status.ready;
    }

    function Current(): Status
      reads this
    {
      Status.Status(locator, accountCreatedAt, observedGeneration, ready)
    }

    function Whole(): Resource
      reads this
    {
      Resource(createdAt, generation, contact, false, Current())
    }
  }

  /** The secret store at the resource's identifier, and Snowflake at its name. */
  class Outside {
    var secret: Slot<Key>
    var account: Option<Account>
    var nextKey: Key
    var nextLocator: Locator
    ghost var created: seq<Locator>
    ghost var issuedWhileLive: nat
    ghost var dropped: bool

    constructor (w: World)
      ensures Now() == w
    {
      secret, account, nextKey, nextLocator := w.secret, w.account, w.nextKey, w.nextLocator;
      created, issuedWhileLive, dropped := w.created, w.issuedWhileLive, w.dropped;
    }

    ghost function Now(): World
      reads this
    {
      World(secret, account, nextKey, nextLocator, created, issuedWhileLive, dropped)
    }

    /** Generates a key and stores it, create-only. */
    method CreateCredentials(c: Calls) returns (key: Key, r: StoreResult<()>)
      modifies this
      ensures key == old(nextKey)
      ensures Now() == old(Now()).(nextKey := old(nextKey) + 1,
        secret := if Happens(c.create) then CreateSlot(old(secret), key, c.storeNow).0 else old(secret))
      ensures r == if c.create.Works? then CreateSlot(old(secret), key, c.storeNow).1 else Fail(HookFailed)
    {
      key := nextKey;
      nextKey := nextKey + 1;
      var (slot, result) := CreateSlot(secret, key, c.storeNow);
      if Happens(c.create) {
        secret := slot;
      }
      return key, if c.create.Works? then result else Fail(HookFailed);
    }

    /** CREATE ACCOUNT; `taken` is the duplicate-name error. */
    method ExecCreate(key: Key, contact: string, f: Fault) returns (taken: bool)
      modifies this
      ensures Now() == ExecCreateAccount(old(Now()), key, contact, f)
      ensures taken == old(account).Some?
    {
      taken := account.Some?;
      if taken {
        issuedWhileLive := issuedWhileLive + 1;
      } else if Happens(f) {
        account := Some(Account(nextLocator, Some(key), None, contact, false));
        created := created + [nextLocator];
        nextLocator := nextLocator + 1;
      }
    }

    method ExecDrop(f: Fault)
      modifies this
      ensures Now() == if Happens(f)
        then old(Now()).(account := None, dropped := old(dropped) || old(account).Some?) else old(Now())
    {
      if Happens(f) {
        dropped := dropped || account.Some?;
        account := None;
      }
    }

    method ExecAlterEmail(contact: string, f: Fault)
      modifies this
      ensures Now() == if Happens(f) && old(account).Some?
        then old(Now()).(account := Some(old(account).value.(email := contact))) else old(Now())
    {
      if Happens(f) && account.Some? {
        account := Some(account.value.(email := contact));
      }
    }

    /** The inline rotation on the connection just obtained. */
    method MaybeRotate(cfg: Config, now: Time, c: Calls)
      modifies this
      ensures Now() == RotateInline(old(Now()), cfg, now, c)
    {
      if account.Some? && secret.Live? {
        var attempt := c.rotation.(freshKey := nextKey, now := now);
        var l := R.Rotate(LoginOf(account.value, secret), cfg.rotationInterval, attempt);
        account := Some(account.value.(slot1 := l.slot1, slot2 := l.slot2));
        secret := Live(l.stored, l.rotatedAt);
        nextKey := nextKey + 1;
      }
    }

    method ScheduleDeletion(f: Fault)
      modifies this
      ensures Now() == if Happens(f) then old(Now()).(secret := DeleteSlot(old(secret), true)) else old(Now())
    {
      if Happens(f) {
        secret := DeleteSlot(secret, true);
      }
    }
  }

  function FailedExit(f: Fault): Exit { if Crashes(f) then Crash else Answer(P.FailedOutcome(SystemError)) }

  class Module {
    const cfg: Config
    const outside: Outside

    constructor (cfg: Config, outside: Outside)
      ensures this.cfg == cfg && this.outside == outside
    {
      this.cfg := cfg;
      this.outside := outside;
    }

    method Apply(cr: Cr, now: Time, c: Calls) returns (exit: Exit)
      modifies cr, outside
      ensures Ran(outside.Now(), cr.Current(), exit) == ApplyModule(old(outside.Now()), old(cr.Whole()), cfg, now, c)
    {
      if cr.locator.Some? {
        exit := ReconcileExisting(cr, now, c);
      } else {
        exit := CreateAccount(cr, c);
      }
    }

    method ReconcileExisting(cr: Cr, now: Time, c: Calls) returns (exit: Exit)
      modifies outside
      ensures Ran(outside.Now(), cr.Current(), exit)
          == Lifecycle.ReconcileExisting(old(outside.Now()), cr.Whole(), cfg, now, c)
    {
      if WithinGracePeriod(cr.Current(), cfg, now) {
        return Answer(P.PendingOutcome("provisioning"));
      }
      exit := ConnectTenant(cr, now, c);
      if !IsDone(exit) {
        return;
      }
      exit := SyncPlatformEmail(cr, c);
    }

    method ConnectTenant(cr: Cr, now: Time, c: Calls) returns (exit: Exit)
      modifies outside
      ensures Ran(outside.Now(), cr.Current(), exit)
          == Lifecycle.ConnectTenant(old(outside.Now()), cr.Current(), cfg, now, c)
    {
      if !c.connect.Works? {
        return FailedExit(c.connect);
      }
      if outside.account.None? {
        return Answer(P.FailedOutcome(SystemError));
      }
      if !c.warm {
        var a := outside.account.value;
        var dialed := cr.locator == Some(a.locator) && outside.secret.Live?
                      && R.Holds(LoginOf(a, outside.secret), outside.secret.value);
        if !dialed {
          return Answer(P.FailedOutcome(SystemError));
        }
      }
      outside.MaybeRotate(cfg, now, c);
      return if c.rotationCrashes then Crash else Answer(P.DoneOutcome());
    }

    /** A missing row or NULL email reads as the empty text, and so as drift. */
    method SyncPlatformEmail(cr: Cr, c: Calls) returns (exit: Exit)
      modifies outside
      ensures Ran(outside.Now(), cr.Current(), exit)
          == Lifecycle.SyncPlatformEmail(old(outside.Now()), cr.Current(), cr.contact, c)
    {
      if !c.showUser.Works? {
        return FailedExit(c.showUser);
      }
      var email := if outside.account.Some? then outside.account.value.email else "";
      if email == cr.contact {
        return Answer(P.DoneOutcome());
      }
      outside.ExecAlterEmail(cr.contact, c.alterEmail);
      return if c.alterEmail.Works? then Answer(P.DoneOutcome()) else FailedExit(c.alterEmail);
    }

    method AcquireCredentials(cr: Cr, c: Calls) returns (acquired: Acquired)
      modifies outside
      ensures (outside.Now(), acquired) == Lifecycle.AcquireCredentials(old(outside.Now()), cr.createdAt, c)
    {
      var key, created := outside.CreateCredentials(c);
      if Crashes(c.create) {
        return Crashed;
      }
      if created.Done? {
        return Got(key, false);
      }
      if created == Fail(PendingDeletion) {
        return Refused(UserError);
      }
      acquired := ResumeCrashedCreate(cr, c);
    }

    method ResumeCrashedCreate(cr: Cr, c: Calls) returns (acquired: Acquired)
      ensures acquired == Lifecycle.ResumeCrashedCreate(outside.secret, cr.createdAt, c)
    {
      if !c.readBack.Works? {
        return if Crashes(c.readBack) then Crashed else Refused(SystemError);
      }
      var creds := GetSlot(outside.secret);
      if creds.Fail? || creds.value.modifiedAt < cr.createdAt - RESUME_CLOCK_SKEW_BUFFER {
        return Refused(SystemError);
      }
      return Got(creds.value.value, true);
    }

    method CreateAccount(cr: Cr, c: Calls) returns (exit: Exit)
      modifies cr, outside
      ensures Ran(outside.Now(), cr.Current(), exit) == Lifecycle.CreateAccount(old(outside.Now()), old(cr.Whole()), c)
    {
      if !c.creatable {
        return Answer(P.FailedOutcome(UserError));
      }
      var acquired := AcquireCredentials(cr, c);
      if acquired.Crashed? {
        return Crash;
      }
      if acquired.Refused? {
        return Answer(P.FailedOutcome(acquired.err));
      }
      if !c.orgAdmin.Works? {
        return FailedExit(c.orgAdmin);
      }
      if acquired.resumed {
        if !c.precheck.Works? {
          return FailedExit(c.precheck);
        }
        if outside.account.Some? {
          exit := FinishCreate(cr, outside.account.value.locator, c);
          return;
        }
      }
      var taken := outside.ExecCreate(acquired.key, cr.contact, c.createAccount);
      if !c.createAccount.Works? {
        return FailedExit(c.createAccount);
      }
      if taken {
        return Answer(P.FailedOutcome(UserError));
      }
      if !c.locate.Works? {
        return FailedExit(c.locate);
      }
      exit := FinishCreate(cr, outside.account.value.locator, c);
    }

    method FinishCreate(cr: Cr, locator: Locator, c: Calls) returns (exit: Exit)
      modifies cr`locator, cr`accountCreatedAt
      ensures Ran(outside.Now(), cr.Current(), exit)
          == Lifecycle.FinishCreate(outside.Now(), old(cr.Current()), locator, c)
    {
      cr.locator := Some(locator);
      cr.accountCreatedAt := Some(c.later);
      return Answer(P.PendingOutcome("account created"));
    }

    method Observe(cr: Cr, now: Time, c: Calls) returns (exit: Exit)
      modifies outside
      ensures Ran(outside.Now(), cr.Current(), exit) == ObserveModule(old(outside.Now()), cr.Whole(), cfg, now, c)
    {
      if cr.locator.None? {
        return Answer(P.PendingOutcome("account not created yet"));
      }
      if WithinGracePeriod(cr.Current(), cfg, now) {
        return Answer(P.PendingOutcome("provisioning"));
      }
      exit := ConnectTenant(cr, now, c);
    }

    method Teardown(cr: Cr, c: Calls) returns (exit: Exit)
      modifies cr`locator, outside
      ensures Ran(outside.Now(), cr.Current(), exit) == Lifecycle.Teardown(old(outside.Now()), old(cr.Current()), c)
    {
      if cr.locator.Some? {
        if !c.orgAdmin.Works? {
          return FailedExit(c.orgAdmin);
        }
        outside.ExecDrop(c.drop);
        if !c.drop.Works? {
          return FailedExit(c.drop);
        }
        cr.locator := None;
      }
      outside.ScheduleDeletion(c.deleteSecret);
      return if c.deleteSecret.Works? then Answer(P.DoneOutcome()) else FailedExit(c.deleteSecret);
    }
  }

  // ---- internal/controller/snowflakeaccount ----------------------------------------------------------

  class Controller {
    const accountModule: Module
    var res: Resource       // as Kubernetes holds it
    var now: Time
    var gone: bool          // the finalizer is released and the object with it

    constructor (accountModule: Module, res: Resource, now: Time)
      ensures this.accountModule == accountModule && this.res == res && this.now == now && !gone
    {
      this.accountModule := accountModule;
      this.res := res;
      this.now := now;
      gone := false;
    }

    ghost function Whole(): System
      reads this, accountModule, accountModule.outside
    {
      System(res, accountModule.outside.Now(), now, gone)
    }

    /** Observe of a resource that is not being deleted: run the pipeline on a copy of
        it, and persist the conditions it reports. */
    method Observe(c: Calls) returns (d: Decision)
      requires !res.deleting
      modifies this, accountModule.outside
      ensures (Whole(), d) == Lifecycle.Observe(old(Whole()), accountModule.cfg, c)
    {
      var start := now;
      now := c.later;
      if !c.labels.Works? {
        return Stop;
      }
      var cr := new Cr(res);
      var exit := accountModule.Observe(cr, start, c);
      if exit.Crash? || exit.outcome.state.Failed? {
        return Stop;
      }
      var status := new P.Resource(cr.generation, cr.observedGeneration, cr.ready);
      var account := P.Module(P.ACCOUNT_MODULE, exit.outcome);
      var obs := P.Observe([account], status);
      assert obs.outcomes == [exit.outcome.(mod := P.ACCOUNT_MODULE)];
      if Happens(c.persist) {
        var ready := P.Ready(obs.readyLatched, false, obs.outcomes) == P.Available;
        res := res.(status := res.status.(ready := ready));
      }
      return Decision.Run(P.Exists(obs.outcomes), P.UpToDate(obs.generationApplied, obs.outcomes));
    }

    /** Create and Update: run the pipeline on a copy of the resource, report, and
        persist its status before returning. */
    method Apply(c: Calls)
      requires !res.deleting
      modifies this, accountModule.outside
      ensures Whole() == Lifecycle.Apply(old(Whole()), accountModule.cfg, c)
    {
      var start := now;
      now := c.later;
      if !c.labels.Works? {
        return;
      }
      var cr := new Cr(res);
      var exit := accountModule.Apply(cr, start, c);
      if exit.Crash? {
        return;
      }
      var r := RunPipeline(cr, exit.outcome);
      CompleteIsDone(exit.outcome);
      cr.ready := P.Ready(res.status.ready, P.AllDone(r.outcomes), r.outcomes) == P.Available;
      if Happens(c.persist) {
        res := res.(status := cr.Current());
      }
    }

    /** The pipeline of today's one module, with the answer that module gave. */
    method RunPipeline(cr: Cr, answer: P.Outcome) returns (r: P.ApplyResult)
      modifies cr`observedGeneration
      ensures P.AllDone(r.outcomes) <==> answer.state.Done?
      ensures r.outcomes != []
      ensures cr.observedGeneration == if answer.state.Done? then cr.generation else old(cr.observedGeneration)
    {
      var status := new P.Resource(cr.generation, cr.observedGeneration, cr.ready);
      var account := P.Module(P.ACCOUNT_MODULE, P.Abort(answer));
      r := P.Apply([account], status);
      P.UntilAbortStops(P.Answers([account]), 0);
      assert P.Answers([account]) == [P.Named(account)];
      assert P.Answers([account])[..1] == [P.Named(account)];
      assert r.outcomes == [P.Named(account)];
      assert r.outcomes[0].state == answer.state;
      cr.observedGeneration := status.observedGeneration;
    }

    /** The Destroy that a deletion in this state runs returns nil. */
    ghost predicate Destroys(c: Calls)
      reads this, accountModule, accountModule.outside
    {
      c.labels.Works? && IsDone(Lifecycle.Teardown(accountModule.outside.Now(), res.status, c).exit)
    }

    /** MarkConsumed succeeds on the permit that opened the gate. */
    predicate CanConsume(g: Gating, api: Permits.ApiServer)
      reads api
      requires g.protection && GatePasses(g)
    {
      var item := Permits.EarliestActive(g.listing.value, g.account).value;
      g.consume.NoFault? && item.uid in api.permits && api.permits[item.uid].version == item.permit.version
    }

    /** The gate, the teardown, and the consumption of the permit that opened the gate:
        it is consumed only after a Destroy that returned nil, and only then can the
        whole succeed. */
    method Delete(g: Gating, api: Permits.ApiServer, c: Calls) returns (r: Result<()>)
      modifies this, accountModule.outside, api
      ensures Whole() == if GatePasses(g) then Lifecycle.Delete(old(Whole()), c)
                         else if g.listing.Ok? then Blocked(old(Whole()), c)
                         else old(Whole()).(now := c.later)
      ensures api.permits ==
        if GatePasses(g) && g.protection && old(Destroys(c)) && !g.consume.FailsBefore?
        then Permits.Consume(old(api.permits), Permits.EarliestActive(g.listing.value, g.account).value)
        else old(api.permits)
      ensures r.Ok? <==> GatePasses(g) && old(Destroys(c)) && (g.protection ==> old(CanConsume(g, api)))
      ensures !GatePasses(g) && g.listing.Ok? ==> r == Err(UserError)
    {
      now := c.later;
      var permit: Option<Permits.Item> := None;
      if g.protection {
        var found := Permits.FindActivePermit(g.listing, g.account);
        if found.Err? {
          return Err(found.error);
        }
        permit := found.value;
        if permit.None? {
          if Happens(c.persist) {
            res := res.(status := res.status.(ready := false));
          }
          return Err(UserError);
        }
      }
      if !c.labels.Works? {
        return Err(SystemError);
      }
      var cr := new Cr(res);
      var exit := accountModule.Teardown(cr, c);
      r := if IsDone(exit) then Ok(()) else Err(SystemError);
      if IsDone(exit) && permit.Some? {
        r := api.MarkConsumed(permit.value, g.consume);
      }
      if !exit.Crash? && Happens(c.persist) {
        res := res.(status := cr.Current());
      }
    }

    /** One reconcile. A resource being deleted exists as long as a locator is recorded.
        A failure to list the permits ends like a gate that stays shut, except that
        nothing is reported on the resource. */
    method Reconcile(observing: Calls, acting: Calls, g: Gating, api: Permits.ApiServer)
      modifies this, accountModule.outside, api
      ensures var shut := g.protection && g.listing.Err? && old(res).deleting;
        var a := if shut then acting.(persist := ErrBefore) else acting;
        Whole() == Lifecycle.Reconcile(old(Whole()), accountModule.cfg, observing, a, GatePasses(g))
      ensures !(old(res).deleting && GatePasses(g)) ==> api.permits == old(api.permits)
    {
      if gone {
        return;
      }
      if res.deleting {
        if res.status.locator.None? {
          gone := true;
        } else {
          var r := Delete(g, api, acting);
        }
        return;
      }
      var d := Observe(observing);
      if d.Run? && !(d.exists_ && d.upToDate) {
        Apply(acting);
      }
    }
  }
}
