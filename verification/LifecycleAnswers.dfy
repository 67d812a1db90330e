/** What single reconciles of Lifecycle do when something is in the way: which failures
    end one early, what is refused without touching anything, and what is written. */
module LifecycleAnswers {
  import opened Common
  import opened KeyStore
  import opened Lifecycle
  import P = Pipeline
  import R = Rotation

  // ---- an observation that fails ------------------------------------------------------------------

  /** The resource has an account whose grace period, if any, is over. */
  predicate PastGrace(s: System, cfg: Config) {
    && !s.res.deleting && !s.gone && s.res.status.locator.Some?
    && (s.res.status.accountCreatedAt.Some? ==> s.now >= s.res.status.accountCreatedAt.value + cfg.gracePeriod)
  }

  /** A new connection would be accepted: the account with the recorded locator is there,
      and has the live stored key in one of its slots. */
  predicate Accepts(s: System) {
    && s.world.account.Some? && s.res.status.locator == Some(s.world.account.value.locator)
    && s.world.secret.Live?
    && (s.world.account.value.slot1 == Some(s.world.secret.value)
        || s.world.account.value.slot2 == Some(s.world.secret.value))
  }

  /** The tenant connection can be had. */
  predicate Connects(s: System, c: Calls) {
    c.connect.Works? && s.world.account.Some? && (c.warm || Accepts(s))
  }

  /** If the account cannot be reached, the reconcile ends there: the account is not taken
      for missing, and nothing is applied, whatever would have followed. */
  lemma UnreachableStops(s: System, cfg: Config, o: Calls, a: Calls, permitted: bool)
    requires PastGrace(s, cfg) && o.labels.Works? && !Connects(s, o)
    ensures Reconcile(s, cfg, o, a, permitted) == s.(now := o.later)
  {
  }

  /** So does a reconcile that cannot read the namespace. */
  lemma NoLabelsStops(s: System, cfg: Config, o: Calls, a: Calls, permitted: bool)
    requires !s.res.deleting && !s.gone && !o.labels.Works?
    ensures Reconcile(s, cfg, o, a, permitted) == s.(now := o.later)
  {
  }

  /** A crash in the rotation while observing leaves what the rotation did, and no Apply. */
  lemma RotationCrashStops(s: System, cfg: Config, o: Calls, a: Calls, permitted: bool)
    requires PastGrace(s, cfg) && o.labels.Works? && Connects(s, o) && o.rotationCrashes
    ensures Reconcile(s, cfg, o, a, permitted) == s.(world := RotateInline(s.world, cfg, s.now, o), now := o.later)
  {
  }

  /** An account that is reached is applied to exactly when its generation is not. */
  lemma ReachedGoesOn(s: System, cfg: Config, o: Calls, a: Calls, permitted: bool)
    requires PastGrace(s, cfg) && o.labels.Works? && Connects(s, o) && !o.rotationCrashes
    ensures var s1 := s.(world := RotateInline(s.world, cfg, s.now, o), now := o.later);
      Reconcile(s, cfg, o, a, permitted)
      == if s.res.status.observedGeneration == s.res.generation then s1 else Apply(s1, cfg, a)
  {
    var answer := P.DoneOutcome().(mod := P.ACCOUNT_MODULE);
    assert P.Exists([answer]);
    var applied := s.res.status.observedGeneration == s.res.generation;
    assert P.UpToDate(applied, [answer]) == applied;
  }

  /** What can be wrong with reaching an account is never the tenant's mistake. */
  lemma UnreachableIsASystemError(w: World, res: Resource, cfg: Config, now: Time, c: Calls)
    requires res.status.locator.Some?
    ensures var e := ObserveModule(w, res, cfg, now, c).exit;
      e.Answer? && e.outcome.state.Failed? ==> e.outcome.err == Some(SystemError)
    ensures var e := ReconcileExisting(w, res, cfg, now, c).exit;
      e.Answer? && e.outcome.state.Failed? ==> e.outcome.err == Some(SystemError)
  {
  }

  /** Reaching an account replaces its credential if that is older than the interval and
      nothing fails: the new key is stored, and accepted next to the old one. */
  lemma ReachingRotates(w: World, cfg: Config, now: Time, c: Calls)
    requires w.account.Some? && w.secret.Live? && R.Agreed(LoginOf(w.account.value, w.secret))
    requires !R.Holds(LoginOf(w.account.value, w.secret), w.nextKey) && R.Succeeds(c.rotation)
    ensures var n := RotateInline(w, cfg, now, c);
      if now - w.secret.modifiedAt > cfg.rotationInterval then
        n.secret == Live(w.nextKey, c.rotation.storedAt) && n.account.Some?
        && {n.account.value.slot1, n.account.value.slot2} == {Some(w.secret.value), Some(w.nextKey)}
      else n == w.(nextKey := w.nextKey + 1)
  {
  }

  // ---- the grace period ---------------------------------------------------------------------------------

  /** Within the grace period, to the second, a reconcile only lets time pass. */
  lemma GraceIsQuiet(s: System, cfg: Config, o: Calls, a: Calls, permitted: bool)
    requires !s.res.deleting && !s.gone && s.res.status.locator.Some? && s.res.status.accountCreatedAt.Some?
    requires s.now <= o.later < s.res.status.accountCreatedAt.value + cfg.gracePeriod
    ensures Reconcile(s, cfg, o, a, permitted) == s.(now := if o.labels.Works? then a.later else o.later)
  {
    CompleteIsDone(P.PendingOutcome("provisioning"));
  }

  // ---- creating --------------------------------------------------------------------------------------------

  /** Nothing is recorded yet, and the reconcile gets as far as creating. */
  predicate Creates(s: System, o: Calls, a: Calls) {
    !s.res.deleting && !s.gone && s.res.status.locator.None? && o.labels.Works? && a.labels.Works?
  }

  lemma CreatingApplies(s: System, cfg: Config, o: Calls, a: Calls, permitted: bool)
    requires !s.res.deleting && !s.gone && s.res.status.locator.None? && o.labels.Works?
    ensures Reconcile(s, cfg, o, a, permitted) == Apply(s.(now := o.later), cfg, a)
  {
    var answer := P.PendingOutcome("account not created yet").(mod := P.ACCOUNT_MODULE);
    assert !P.Exists([answer]);
  }

  /** A request that is not creatable has no side effect at all. */
  lemma NotCreatableDoesNothing(s: System, cfg: Config, o: Calls, a: Calls, permitted: bool)
    requires Creates(s, o, a) && !a.creatable
    ensures Reconcile(s, cfg, o, a, permitted) == s.(now := a.later)
    ensures CreateAccount(s.world, s.res, a).exit == Answer(P.FailedOutcome(UserError))
  {
    CreatingApplies(s, cfg, o, a, permitted);
    CompleteIsDone(P.FailedOutcome(UserError));
  }

  /** Neither has one whose namespace cannot be read the second time. */
  lemma NoLabelsDoesNothing(s: System, cfg: Config, o: Calls, a: Calls, permitted: bool)
    requires !s.res.deleting && !s.gone && s.res.status.locator.None? && o.labels.Works? && !a.labels.Works?
    ensures Reconcile(s, cfg, o, a, permitted) == s.(now := a.later)
  {
    CreatingApplies(s, cfg, o, a, permitted);
  }

  /** Only the counter of keys, which a refused attempt used up, differs. */
  predicate SameButForAKey(w: World, n: World) { n == w.(nextKey := w.nextKey + 1) }

  /** A secret within its recovery window makes the create a mistake of the tenant; one
      older than the resource by more than five minutes, a matter for the operator. Either
      way CREATE ACCOUNT is not issued. */
  lemma OccupiedIdentifierIsRefused(w: World, res: Resource, c: Calls)
    requires c.creatable && c.create.Works? && c.readBack.Works?
    requires w.secret.Pending? || (w.secret.Live? && w.secret.modifiedAt < res.createdAt - 300)
    ensures var ran := CreateAccount(w, res, c);
      && SameButForAKey(w, ran.world) && ran.status == res.status
      && ran.exit == Answer(P.FailedOutcome(if w.secret.Pending? then UserError else SystemError))
  {
  }

  /** A live secret not older than that is an earlier attempt: it is resumed with the key
      in it, which CREATE ACCOUNT gets if the name is still free. */
  lemma OwnSecretIsResumed(w: World, res: Resource, c: Calls)
    requires c.creatable && c.create.Works? && c.readBack.Works? && c.orgAdmin.Works? && c.precheck.Works?
    requires c.createAccount.Works? && c.locate.Works?
    requires w.secret.Live? && w.secret.modifiedAt >= res.createdAt - 300
    ensures var ran := CreateAccount(w, res, c);
      && ran.world.secret == w.secret && ran.status.accountCreatedAt == Some(c.later)
      && ran.world.account.Some? && ran.status.locator == Some(ran.world.account.value.locator)
      && (w.account.Some? ==> ran.world.account == w.account && ran.world.created == w.created)
      && (w.account.None? ==>
            ran.world.account == Some(Account(w.nextLocator, Some(w.secret.value), None, res.contact, false)))
  {
  }

  /** A fresh attempt stores a new key, creates the account with it, and does not look for
      the name first: a name already taken is the tenant's mistake. */
  lemma FreshCreate(w: World, res: Resource, c: Calls)
    requires c.creatable && c.create.Works? && c.orgAdmin.Works? && c.createAccount.Works? && c.locate.Works?
    requires w.secret.Absent?
    ensures var ran := CreateAccount(w, res, c);
      && ran.world.secret == Live(w.nextKey, c.storeNow)
      && (w.account.None? ==>
            && ran.world.account == Some(Account(w.nextLocator, Some(w.nextKey), None, res.contact, false))
            && ran.status.locator == Some(w.nextLocator) && ran.exit.Answer? && ran.exit.outcome.state.Pending?)
      && (w.account.Some? ==>
            && ran.world.account == w.account && ran.status == res.status
            && ran.exit == Answer(P.FailedOutcome(UserError)))
  {
  }

  /** A create that fails anywhere after the credential was obtained records nothing; the
      account then exists only if CREATE ACCOUNT was sent and took effect. */
  lemma FailedCreateRecordsNothing(w: World, res: Resource, c: Calls)
    requires !c.orgAdmin.Works? || !c.createAccount.Works? || !c.locate.Works?
    requires w.account.None?
    ensures var ran := CreateAccount(w, res, c);
      && ran.status == res.status && !IsDone(ran.exit)
      && (ran.world.account.Some? ==> c.orgAdmin.Works? && Happens(c.createAccount) && c.creatable)
  {
  }

  // ---- the email ----------------------------------------------------------------------------------------------

  /** With the contact already in place no ALTER USER is issued: how one would have ended
      makes no difference, and nothing is written. */
  lemma NoDriftNoWrite(w: World, st: Status, contact: string, c: Calls, f: Fault)
    requires w.account.Some? && w.account.value.email == contact
    ensures SyncPlatformEmail(w, st, contact, c.(alterEmail := f)) == SyncPlatformEmail(w, st, contact, c)
    ensures SyncPlatformEmail(w, st, contact, c).world == w
    ensures IsDone(SyncPlatformEmail(w, st, contact, c).exit) <==> c.showUser.Works?
  {
  }

  /** With any other email, or none, it is written, and done only if that worked. */
  lemma DriftIsWritten(w: World, st: Status, contact: string, c: Calls)
    requires w.account.Some? && w.account.value.email != contact && c.showUser.Works?
    ensures var ran := SyncPlatformEmail(w, st, contact, c);
      && ran.world == (if Happens(c.alterEmail) then w.(account := Some(w.account.value.(email := contact))) else w)
      && (IsDone(ran.exit) <==> c.alterEmail.Works?)
  {
  }

  // ---- deleting -------------------------------------------------------------------------------------------------

  /** A deletion that finds its gate shut touches nothing outside, and takes Ready back. */
  lemma ShutGateIsReported(s: System, cfg: Config, o: Calls, a: Calls)
    requires s.res.deleting && !s.gone && s.res.status.locator.Some?
    ensures var n := Reconcile(s, cfg, o, a, false);
      && n == s.(res := n.res, now := a.later)
      && n.res == s.res.(status := s.res.status.(ready := s.res.status.ready && !Happens(a.persist)))
  {
  }

  /** A deletion that cannot read the namespace does nothing. */
  lemma NoLabelsNoTeardown(s: System, cfg: Config, o: Calls, a: Calls)
    requires s.res.deleting && !s.gone && s.res.status.locator.Some? && !a.labels.Works?
    ensures Reconcile(s, cfg, o, a, true) == s.(now := a.later)
  {
  }

  /** The account's drop, as far as a teardown gets with it. */
  predicate Drops(st: Status, c: Calls) { st.locator.Some? && c.orgAdmin.Works? && Happens(c.drop) }

  /** It comes to the credential. */
  predicate ComesToTheCredential(st: Status, c: Calls) {
    st.locator.Some? ==> c.orgAdmin.Works? && c.drop.Works?
  }

  /** Everything a teardown does: drop the account if one is recorded, forget it, delete
      the credential; and it succeeds only if nothing on that way failed. */
  lemma TeardownExactly(w: World, st: Status, c: Calls)
    ensures var ran := Teardown(w, st, c);
      && ran.world.account == (if Drops(st, c) then None else w.account)
      && ran.status == (if ComesToTheCredential(st, c) then st.(locator := None) else st)
      && (ran.world.secret.Live? <==> w.secret.Live? && !(ComesToTheCredential(st, c) && Happens(c.deleteSecret)))
      && (IsDone(ran.exit) <==> ComesToTheCredential(st, c) && c.deleteSecret.Works?)
      && (ran.exit.Answer? && ran.exit.outcome.state.Failed? ==> ran.exit.outcome.err == Some(SystemError))
  {
  }

  /** Behind an open gate a deletion does that, and records what it forgot whether or not
      it failed. */
  lemma OpenGateTearsDown(s: System, cfg: Config, o: Calls, a: Calls)
    requires s.res.deleting && !s.gone && s.res.status.locator.Some? && a.labels.Works?
    ensures var ran := Teardown(s.world, s.res.status, a); var n := Reconcile(s, cfg, o, a, true);
      && n.world == ran.world && n.now == a.later && !n.gone
      && n.res.status == if ran.exit.Answer? && Happens(a.persist) then ran.status else s.res.status
  {
  }
}
