/** What holds in every state of every run of Lifecycle in which nobody else creates an
    account of the resource's name. */
module LifecycleSafety {
  import opened Common
  import opened KeyStore
  import opened Lifecycle
  import R = Rotation

  // ---- the invariant --------------------------------------------------------------------------

  predicate KeysKnown(w: World) {
    && (!w.secret.Absent? ==> w.secret.value < w.nextKey)
    && (w.account.Some? ==>
          && (w.account.value.slot1.Some? ==> w.account.value.slot1.value < w.nextKey)
          && (w.account.value.slot2.Some? ==> w.account.value.slot2.value < w.nextKey))
  }

  /** The secret can be this resource's own: it was not written before it. */
  predicate Recent(secret: Slot<Key>, createdAt: Time) {
    secret.Live? && secret.modifiedAt >= createdAt - RESUME_CLOCK_SKEW_BUFFER
  }

  /** The inductive core: a live account of this resource's own is the only one ever
      created, its identifier is occupied by a recent secret, and that secret's key is
      in exactly one of the platform user's two slots. */
  predicate AccountHasItsSecret(w: World, createdAt: Time) {
    w.account.Some? ==>
      && !w.account.value.foreign
      && w.created == [w.account.value.locator]
      && !w.dropped
      && Recent(w.secret, createdAt)
      && R.Agreed(LoginOf(w.account.value, w.secret))
  }

  predicate WorldInv(w: World, createdAt: Time) {
    && KeysKnown(w)
    && AccountHasItsSecret(w, createdAt)
    && (w.account.None? ==> |w.created| <= 1 && (w.dropped <==> w.created != []))
    && w.issuedWhileLive == 0
  }

  /** A recorded locator is that of the one account ever created. */
  predicate LocatorIsOwn(w: World, st: Status) {
    st.locator.Some? ==> w.created == [st.locator.value]
  }

  /** The current generation counts as applied only if the platform user's email is
      its contact. */
  predicate AppliedMeansEmail(s: System) {
    && s.res.status.observedGeneration <= s.res.generation
    && (s.res.status.observedGeneration == s.res.generation && !s.world.dropped ==>
          s.res.status.locator.Some? && s.world.account.Some? && s.world.account.value.email == s.res.contact)
  }

  predicate Inv(s: System) {
    && WorldInv(s.world, s.res.createdAt)
    && LocatorIsOwn(s.world, s.res.status)
    && AppliedMeansEmail(s)
    && (s.world.dropped ==> s.res.deleting)
    && s.res.createdAt <= s.now
    && (s.gone ==> s.res.deleting && s.res.status.locator.None?)
    && (s.res.status.ready && !s.world.dropped ==> s.world.account.Some? && s.res.status.locator.Some?)
  }

  // ---- one run of the module --------------------------------------------------------------------

  lemma AcquireKeepsWorld(w: World, createdAt: Time, now: Time, c: Calls)
    requires WorldInv(w, createdAt) && createdAt <= now && ClocksOk(now, c)
    ensures var (w1, acquired) := AcquireCredentials(w, createdAt, c);
      && WorldInv(w1, createdAt)
      && w1 == w.(secret := w1.secret, nextKey := w1.nextKey)
      && (acquired.Got? ==> Recent(w1.secret, createdAt) && acquired.key == w1.secret.value)
      && (acquired.Got? && !acquired.resumed ==> w.account.None?)
  {
  }

  /** CREATE ACCOUNT issued while no account has the name, for the key in the store. */
  lemma CreateKeepsWorld(w: World, createdAt: Time, contact: string, f: Fault)
    requires WorldInv(w, createdAt) && w.account.None? && !w.dropped && Recent(w.secret, createdAt)
    ensures WorldInv(ExecCreateAccount(w, w.secret.value, contact, f), createdAt)
    ensures var w1 := ExecCreateAccount(w, w.secret.value, contact, f);
      (Happens(f) ==> w1.account.Some? && w1.account.value.email == contact) && (!Happens(f) ==> w1 == w)
  {
    assert w.created == [];
    assert [] + [w.nextLocator] == [w.nextLocator];
  }

  predicate RanSafely(ran: Ran, res: Resource) {
    && WorldInv(ran.world, res.createdAt)
    && LocatorIsOwn(ran.world, ran.status)
    && (ran.status.locator.Some? && !ran.world.dropped ==> ran.world.account.Some?)
    && (IsDone(ran.exit) ==> ran.status.locator.Some?)
  }

  lemma CreateAccountIsSafe(w: World, res: Resource, now: Time, c: Calls)
    requires WorldInv(w, res.createdAt) && !w.dropped && res.status.locator.None?
    requires res.createdAt <= now && ClocksOk(now, c)
    ensures RanSafely(CreateAccount(w, res, c), res)
    ensures var ran := CreateAccount(w, res, c);
      && !ran.world.dropped
      && !IsDone(ran.exit)
      && ran.status == res.status.(locator := ran.status.locator, accountCreatedAt := ran.status.accountCreatedAt)
      && (w.account.Some? ==> ran.world.account == w.account)
  {
    AcquireKeepsWorld(w, res.createdAt, now, c);
    var (w1, acquired) := AcquireCredentials(w, res.createdAt, c);
    if acquired.Got? && w1.account.None? {
      CreateKeepsWorld(w1, res.createdAt, res.contact, c.createAccount);
    }
  }

  /** An inline rotation, however far it gets, keeps the slots and the store agreed. */
  lemma RotateInlineIsSafe(w: World, createdAt: Time, cfg: Config, now: Time, c: Calls)
    requires WorldInv(w, createdAt) && createdAt <= now && ClocksOk(now, c)
    ensures WorldInv(RotateInline(w, cfg, now, c), createdAt)
    ensures var w1 := RotateInline(w, cfg, now, c);
      && w1.account.Some? == w.account.Some?
      && (w.account.Some? ==>
        w1.account.value == w.account.value.(slot1 := w1.account.value.slot1, slot2 := w1.account.value.slot2))
      && w1 == w.(account := w1.account, secret := w1.secret, nextKey := w1.nextKey)
  {
    if w.account.Some? {
      var l := LoginOf(w.account.value, w.secret);
      R.RotateKeepsAgreement(l, cfg.rotationInterval, c.rotation.(freshKey := w.nextKey, now := now));
    }
  }

  lemma ReconcileExistingIsSafe(w: World, res: Resource, cfg: Config, now: Time, c: Calls)
    requires WorldInv(w, res.createdAt) && LocatorIsOwn(w, res.status) && !w.dropped && res.status.locator.Some?
    requires res.createdAt <= now && ClocksOk(now, c)
    ensures RanSafely(ReconcileExisting(w, res, cfg, now, c), res)
    ensures var ran := ReconcileExisting(w, res, cfg, now, c);
      && !ran.world.dropped
      && ran.status == res.status
      && ran.world.account.Some?
      && (ran.world.account.value.email == w.account.value.email || ran.world.account.value.email == res.contact)
      && (IsDone(ran.exit) ==> ran.world.account.value.email == res.contact)
  {
    RotateInlineIsSafe(w, res.createdAt, cfg, now, c);
  }

  // ---- one reconcile ----------------------------------------------------------------------------------

  lemma ApplyIsSafe(s: System, cfg: Config, c: Calls)
    requires Inv(s) && ClocksOk(s.now, c) && !s.res.deleting && !s.gone
    ensures Inv(Apply(s, cfg, c))
  {
    assert !s.world.dropped;
    var ran := ApplyModule(s.world, s.res, cfg, s.now, c);
    if ran.exit.Answer? { CompleteIsDone(ran.exit.outcome); }
    if s.res.status.locator.Some? {
      ReconcileExistingIsSafe(s.world, s.res, cfg, s.now, c);
    } else {
      CreateAccountIsSafe(s.world, s.res, s.now, c);
    }
  }

  lemma ObserveModuleIsSafe(w: World, res: Resource, cfg: Config, now: Time, c: Calls)
    requires WorldInv(w, res.createdAt) && res.createdAt <= now && ClocksOk(now, c)
    ensures WorldInv(ObserveModule(w, res, cfg, now, c).world, res.createdAt)
    ensures var n := ObserveModule(w, res, cfg, now, c).world;
      && n == w.(account := n.account, secret := n.secret, nextKey := n.nextKey)
      && n.account.Some? == w.account.Some?
      && (w.account.Some? ==> n.account.value.email == w.account.value.email)
  {
    RotateInlineIsSafe(w, res.createdAt, cfg, now, c);
  }

  /** Observe changes the world as its module does, and of the resource nothing: Ready
      is written as it was. */
  lemma ObserveKeepsResource(s: System, cfg: Config, c: Calls)
    ensures var n := Observe(s, cfg, c).0;
      && n.res == s.res && n.gone == s.gone && n.now == c.later
      && n.world == if c.labels.Works? then ObserveModule(s.world, s.res, cfg, s.now, c).world else s.world
  {
  }

  lemma ObserveIsSafe(s: System, cfg: Config, c: Calls)
    requires Inv(s) && ClocksOk(s.now, c) && !s.res.deleting && !s.gone
    ensures Inv(Observe(s, cfg, c).0)
    ensures Observe(s, cfg, c).0.res == s.res
    ensures s.now <= Observe(s, cfg, c).0.now <= c.later
  {
    ObserveModuleIsSafe(s.world, s.res, cfg, s.now, c);
    ObserveKeepsResource(s, cfg, c);
  }

  lemma TeardownIsSafe(w: World, res: Resource, c: Calls)
    requires WorldInv(w, res.createdAt) && LocatorIsOwn(w, res.status) && res.status.locator.Some?
    ensures var ran := Teardown(w, res.status, c);
      && WorldInv(ran.world, res.createdAt) && LocatorIsOwn(ran.world, ran.status)
      && ran.status == res.status.(locator := ran.status.locator)
      && (ran.world.dropped || ran.world == w)
      && (ran.status.locator.None? ==> ran.world.dropped)
  {
  }

  lemma DeleteIsSafe(s: System, c: Calls)
    requires Inv(s) && ClocksOk(s.now, c) && s.res.deleting && s.res.status.locator.Some?
    ensures Inv(Delete(s, c))
  {
    TeardownIsSafe(s.world, s.res, c);
  }

  lemma ReconcileIsSafe(s: System, cfg: Config, o: Calls, a: Calls, permitted: bool)
    requires Inv(s) && Admissible(s, Reconciled(o, a, permitted))
    ensures Inv(Reconcile(s, cfg, o, a, permitted))
  {
    if s.gone {
    } else if s.res.deleting {
      if s.res.status.locator.Some? && permitted { DeleteIsSafe(s, a); }
    } else {
      ObserveIsSafe(s, cfg, o);
      var (s1, decision) := Observe(s, cfg, o);
      if decision.Run? && !(decision.exists_ && decision.upToDate) {
        ApplyIsSafe(s1, cfg, a);
      }
    }
  }

  lemma NextIsSafe(s: System, cfg: Config, e: Event)
    requires Inv(s) && Admissible(s, e) && !e.ForeignCreated?
    ensures Inv(Next(s, cfg, e))
  {
    match e
    case Reconciled(o, a, permitted) => ReconcileIsSafe(s, cfg, o, a, permitted);
    case _ =>
  }

  ghost predicate NobodyElseCreates(events: seq<Event>) {
    forall i :: 0 <= i < |events| ==> !events[i].ForeignCreated?
  }

  lemma {:induction false} InvariantOfEveryRun(s: System, cfg: Config, events: seq<Event>)
    requires Inv(s) && IsRun(s, cfg, events) && NobodyElseCreates(events)
    ensures Inv(RunAll(s, cfg, events))
    decreases |events|
  {
    if events != [] {
      NextIsSafe(s, cfg, events[0]);
      InvariantOfEveryRun(Next(s, cfg, events[0]), cfg, events[1..]);
    }
  }

  // ---- the guarantees ------------------------------------------------------------------------------------

  /** Over every run, with any call failing, failing after it took effect or followed by
      a crash: CREATE ACCOUNT is never issued while the account exists, at most one
      account is ever created, and a recorded locator is that account's. */
  lemma CrashSafeCreate(s: System, cfg: Config, events: seq<Event>)
    requires IsStart(s) && IsRun(s, cfg, events) && NobodyElseCreates(events)
    ensures var e := RunAll(s, cfg, events);
      && e.world.issuedWhileLive == 0
      && |e.world.created| <= 1
      && (e.world.account.Some? ==> e.world.created == [e.world.account.value.locator])
      && (e.res.status.locator.Some? ==> e.world.created == [e.res.status.locator.value])
      && (e.res.status.locator.Some? && !e.world.dropped ==>
            e.world.account.Some? && e.world.account.value.locator == e.res.status.locator.value)
  {
    InvariantOfEveryRun(s, cfg, events);
  }

  /** From CREATE ACCOUNT on, through any number of rotations failing anywhere, the
      stored key is in exactly one of the two slots, rotation finds its target, and the
      recorded account can be dialed with the stored credential. */
  lemma AccountStaysReachable(s: System, cfg: Config, events: seq<Event>)
    requires IsStart(s) && IsRun(s, cfg, events) && NobodyElseCreates(events)
    ensures var e := RunAll(s, cfg, events);
      e.world.account.Some? ==>
        && e.world.secret.Live?
        && R.Agreed(LoginOf(e.world.account.value, e.world.secret))
        && R.TargetSlot(LoginOf(e.world.account.value, e.world.secret)).Some?
        && (e.res.status.locator.Some? ==> CanDial(e.world, e.res.status))
  {
    InvariantOfEveryRun(s, cfg, events);
  }

  /** In every state before the account is dropped, observedGeneration equal to
      generation means the platform user's email is that generation's contact. */
  lemma GenerationMeansEmail(s: System, cfg: Config, events: seq<Event>)
    requires IsStart(s) && IsRun(s, cfg, events) && NobodyElseCreates(events)
    ensures var e := RunAll(s, cfg, events);
      && e.res.status.observedGeneration <= e.res.generation
      && (e.res.status.observedGeneration == e.res.generation && !e.world.dropped ==>
            e.world.account.Some? && e.world.account.value.email == e.res.contact)
  {
    InvariantOfEveryRun(s, cfg, events);
  }

  /** A reconcile of a resource that is not being deleted never takes Ready back, and
      turns it True only together with recording the current generation. */
  lemma ReadyOnlyWithTheGeneration(s: System, cfg: Config, o: Calls, a: Calls, permitted: bool)
    requires !s.res.deleting
    ensures var n := Reconcile(s, cfg, o, a, permitted);
      && (s.res.status.ready ==> n.res.status.ready)
      && (!s.res.status.ready && n.res.status.ready ==>
            && n.res.status.observedGeneration == n.res.generation
            && EmailOf(n.world) == n.res.contact && n.res.status.locator.Some?)
  {
    if !s.gone {
      var (s1, decision) := Observe(s, cfg, o);
      assert s1.res.status.ready == s.res.status.ready;
      if decision.Run? && !(decision.exists_ && decision.upToDate) && a.labels.Works? {
        var ran := ApplyModule(s1.world, s1.res, cfg, s1.now, a);
        if ran.exit.Answer? { CompleteIsDone(ran.exit.outcome); }
        if IsDone(ran.exit) { DoneMeansEmail(s1.world, s1.res, cfg, s1.now, a); }
      }
    }
  }

  lemma DoneMeansEmail(w: World, res: Resource, cfg: Config, now: Time, c: Calls)
    requires IsDone(ApplyModule(w, res, cfg, now, c).exit)
    ensures res.status.locator.Some?
    ensures EmailOf(ApplyModule(w, res, cfg, now, c).world) == res.contact
  {
  }

  // ---- why nobody else may take the name ---------------------------------------------------------------

  /** An Apply that records a locator records that of whatever account carries the name
      then; it is foreign exactly when a foreign account had the name before. */
  lemma RecordsWhoeverHasTheName(s: System, cfg: Config, c: Calls)
    requires s.res.status.locator.None? && Apply(s, cfg, c).res.status.locator.Some?
    ensures var n := Apply(s, cfg, c);
      && n.world.account.Some? && n.res.status.locator == Some(n.world.account.value.locator)
      && (n.world.account.value.foreign <==> s.world.account.Some? && s.world.account.value.foreign)
  {
  }

  /** A reconcile in which nothing goes wrong and no time passes. */
  function Smooth(now: Time): Calls {
    Calls(Works, true, Works, Works, Works, Works, Works, Works, Works, false,
          R.Attempt(false, false, false, R.Altered, false, 0, now, now), false,
          Works, Works, Works, Works, Works, now, now)
  }

  /** CREATE ACCOUNT is refused as a duplicate, but the credential has been stored. */
  lemma FirstCreateIsRefused(s: System, cfg: Config)
    requires s.res.status == Status.Status(None, None, 0, false) && s.world.secret.Absent? && s.world.account.Some?
    requires s.res.createdAt <= s.now && !s.res.deleting && !s.gone
    ensures var c := Smooth(s.now); var n := Next(s, cfg, Reconciled(c, c, true));
      && n.res.status.locator.None? && Recent(n.world.secret, s.res.createdAt)
      && n.world.account == s.world.account && n.world.created == s.world.created
      && n.res.createdAt == s.res.createdAt && !n.res.deleting && !n.gone && n.now == s.now
  {
  }

  /** The assumption is needed: if someone else takes the name first, the second
      undisturbed reconcile adopts their account. */
  lemma AdoptsForeignAccount(s: System, cfg: Config, email: string)
    requires IsStart(s) && s.world.secret.Absent? && !s.res.deleting
    ensures var c := Smooth(s.now);
      var events := [ForeignCreated(email), Reconciled(c, c, true), Reconciled(c, c, true)];
      var e := RunAll(s, cfg, events);
      && IsRun(s, cfg, events)
      && e.world.created == []
      && e.res.status.locator == Some(s.world.nextLocator)
      && e.world.account == Some(Account(s.world.nextLocator, None, None, email, true))
  {
    var c := Smooth(s.now);
    var s1 := Next(s, cfg, ForeignCreated(email));
    var s2 := Next(s1, cfg, Reconciled(c, c, true));
    var s3 := Next(s2, cfg, Reconciled(c, c, true));
    FirstCreateIsRefused(s1, cfg);
    assert s1.world.account == Some(Account(s.world.nextLocator, None, None, email, true));
    assert s3.res.status.locator == Some(s.world.nextLocator);
    OneEvent(s2, cfg, Reconciled(c, c, true), []);
    OneEvent(s1, cfg, Reconciled(c, c, true), [Reconciled(c, c, true)]);
    OneEvent(s, cfg, ForeignCreated(email), [Reconciled(c, c, true), Reconciled(c, c, true)]);
  }

  lemma OneEvent(s: System, cfg: Config, e: Event, rest: seq<Event>)
    ensures RunAll(s, cfg, [e] + rest) == RunAll(Next(s, cfg, e), cfg, rest)
    ensures IsRun(s, cfg, [e] + rest) <==> Admissible(s, e) && IsRun(Next(s, cfg, e), cfg, rest)
  {
    assert ([e] + rest)[1..] == rest;
  }
}
