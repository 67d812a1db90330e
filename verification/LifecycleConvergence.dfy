/** Where Lifecycle gets to once nothing goes wrong any more. */
module LifecycleConvergence {
  import opened Common
  import opened Lifecycle
  import opened LifecycleSafety
  import P = Pipeline

  /** Every call works; the inline rotation may still fail in its own way. */
  predicate FaultFree(c: Calls) {
    && c.labels.Works? && c.creatable && c.create.Works? && c.readBack.Works? && c.orgAdmin.Works? && c.precheck.Works?
    && c.createAccount.Works? && c.locate.Works? && c.connect.Works? && !c.rotationCrashes && c.showUser.Works?
    && c.alterEmail.Works? && c.persist.Works? && c.drop.Works? && c.deleteSecret.Works?
  }

  /** What stands at the identifier does not block a create: nothing, or a secret that
      can be this resource's own. */
  predicate Usable(s: System) { s.world.secret.Absent? || Recent(s.world.secret, s.res.createdAt) }

  predicate Settled(s: System, cfg: Config) {
    && s.res.status.locator.Some?
    && !WithinGracePeriod(s.res.status, cfg, s.now)
    && s.res.status.observedGeneration == s.res.generation
  }

  /** Create; wait out the rest of the grace period; apply the generation; done. */
  function Measure(s: System, cfg: Config): nat {
    if s.res.status.locator.None? then cfg.gracePeriod + 2
    else if WithinGracePeriod(s.res.status, cfg, s.now) then
      1 + cfg.gracePeriod - (s.now - s.res.status.accountCreatedAt.value)
    else if s.res.status.observedGeneration != s.res.generation then 1
    else 0
  }

  lemma ZeroIsSettled(s: System, cfg: Config)
    ensures Measure(s, cfg) == 0 <==> Settled(s, cfg)
  {
  }

  /** A fault-free Apply records the locator exactly when the identifier is usable;
      otherwise the create is refused, and stays refused until the secret is gone. */
  lemma CreateSucceedsExactly(s: System, cfg: Config, c: Calls)
    requires Inv(s) && !s.res.deleting && s.res.status.locator.None? && FaultFree(c) && ClocksOk(s.now, c)
    ensures var n := Apply(s, cfg, c);
      && (n.res.status.locator.Some? <==> Usable(s))
      && (Usable(s) ==> n.res.status.accountCreatedAt == Some(c.later))
      && (!Usable(s) ==> n.res.status == s.res.status && n.world == s.world.(nextKey := n.world.nextKey))
  {
    var ran := CreateAccount(s.world, s.res, c);
    if ran.exit.Answer? { CompleteIsDone(ran.exit.outcome); }
  }

  lemma ApplyWhenReachable(s: System, cfg: Config, c: Calls)
    requires Inv(s) && !s.res.deleting && s.res.status.locator.Some? && FaultFree(c)
    requires !WithinGracePeriod(s.res.status, cfg, s.now) && ClocksOk(s.now, c)
    ensures var n := Apply(s, cfg, c);
      && n.res.status.observedGeneration == n.res.generation && n.res.status.ready
      && n.res.status == s.res.status.(observedGeneration := s.res.generation, ready := true)
  {
    var ran := ReconcileExisting(s.world, s.res, cfg, s.now, c);
    RotateInlineIsSafe(s.world, s.res.createdAt, cfg, s.now, c);
    assert IsDone(ran.exit);
    CompleteIsDone(ran.exit.outcome);
  }

  /** While the grace period lasts, Apply touches nothing outside and learns nothing. */
  lemma GracePeriodIsQuiet(s: System, cfg: Config, c: Calls)
    requires s.res.status.locator.Some? && WithinGracePeriod(s.res.status, cfg, s.now)
    ensures Apply(s, cfg, c) == s.(now := c.later)
    ensures Observe(s, cfg, c).0 == s.(now := c.later)
    ensures Observe(s, cfg, c).1.Run? ==> !Observe(s, cfg, c).1.exists_
  {
    CompleteIsDone(P.PendingOutcome("provisioning"));
  }

  /** A fault-free reconcile: its two parts run one after the other. */
  predicate Undisturbed(s: System, o: Calls, a: Calls) {
    FaultFree(o) && FaultFree(a) && ClocksOk(s.now, o) && ClocksOk(o.later, a) && s.now < a.later
  }

  /** Until it is settled, every fault-free reconcile brings the resource nearer, from
      any state a run of crashes and errors can leave, provided the identifier is usable. */
  lemma ReconcileMakesProgress(s: System, cfg: Config, o: Calls, a: Calls, permitted: bool)
    requires Inv(s) && !s.res.deleting && !s.gone && Usable(s) && Undisturbed(s, o, a) && !Settled(s, cfg)
    ensures var n := Reconcile(s, cfg, o, a, permitted);
      && Measure(n, cfg) < Measure(s, cfg)
      && Inv(n) && Usable(n) && !n.res.deleting && !n.gone && n.now >= s.now
  {
    ReconcileIsSafe(s, cfg, o, a, permitted);
    ObserveIsSafe(s, cfg, o);
    var (s1, decision) := Observe(s, cfg, o);
    if s.res.status.locator.None? {
      assert s1.world == s.world;
      CreateSucceedsExactly(s1, cfg, a);
    } else if WithinGracePeriod(s.res.status, cfg, s.now) {
      GracePeriodIsQuiet(s, cfg, o);
      if WithinGracePeriod(s.res.status, cfg, s1.now) {
        GracePeriodIsQuiet(s1, cfg, a);
      } else {
        ApplyWhenReachable(s1, cfg, a);
      }
    } else {
      assert CanDial(s.world, s.res.status);
      ApplyWhenReachable(s1, cfg, a);
    }
  }

  /** A settled resource stays so: Observe reports it as existing and up to date, no
      Apply runs, the status is not changed, and in Snowflake and the store nothing
      but the inline rotation happens. */
  lemma SettledStaysSettled(s: System, cfg: Config, o: Calls, a: Calls, permitted: bool)
    requires Inv(s) && !s.res.deleting && !s.gone && Settled(s, cfg) && FaultFree(o) && ClocksOk(s.now, o)
    ensures Observe(s, cfg, o).1 == Run(true, true)
    ensures Reconcile(s, cfg, o, a, permitted) == s.(world := RotateInline(s.world, cfg, s.now, o), now := o.later)
    ensures Settled(Reconcile(s, cfg, o, a, permitted), cfg)
  {
    assert CanDial(s.world, s.res.status);
    var outcome := P.DoneOutcome().(mod := P.ACCOUNT_MODULE);
    assert Observe(s, cfg, o).0.res == s.res by { ObserveIsSafe(s, cfg, o); }
    assert P.Exists([outcome]);
    assert P.UpToDate(true, [outcome]);
  }

  /** Fault-free reconciles one after the other, time passing with each. */
  ghost predicate Quiet(s: System, cfg: Config, events: seq<Event>)
    decreases |events|
  {
    events == [] ||
    (events[0].Reconciled? && Undisturbed(s, events[0].observing, events[0].acting)
     && Quiet(Next(s, cfg, events[0]), cfg, events[1..]))
  }

  /** Convergence: after at most Measure of them the resource is settled, for good. */
  lemma {:induction false} Converges(s: System, cfg: Config, events: seq<Event>)
    requires Inv(s) && !s.res.deleting && !s.gone && Usable(s)
    requires Quiet(s, cfg, events) && |events| >= Measure(s, cfg)
    ensures Settled(RunAll(s, cfg, events), cfg)
    ensures RunAll(s, cfg, events).world.account.Some?
    ensures RunAll(s, cfg, events).world.account.value.email == s.res.contact
    decreases |events|
  {
    ZeroIsSettled(s, cfg);
    if events != [] {
      var o, a, permitted := events[0].observing, events[0].acting, events[0].permitted;
      ReconcileIsSafe(s, cfg, o, a, permitted);
      if Settled(s, cfg) {
        SettledStaysSettled(s, cfg, o, a, permitted);
        RotateInlineIsSafe(s.world, s.res.createdAt, cfg, s.now, o);
        ZeroIsSettled(Next(s, cfg, events[0]), cfg);
      } else {
        ReconcileMakesProgress(s, cfg, o, a, permitted);
      }
      assert Next(s, cfg, events[0]).res.contact == s.res.contact;
      Converges(Next(s, cfg, events[0]), cfg, events[1..]);
    }
  }

  // ---- crashes and errors never block the identifier -------------------------------------------------

  lemma ObserveKeepsUsable(s: System, cfg: Config, c: Calls)
    requires Inv(s) && Usable(s) && ClocksOk(s.now, c) && !s.res.deleting && !s.gone
    ensures Usable(Observe(s, cfg, c).0)
  {
    ObserveIsSafe(s, cfg, c);
    if s.world.account.None? {
      assert Observe(s, cfg, c).0.world.secret == s.world.secret;
    } else {
      RotateInlineIsSafe(s.world, s.res.createdAt, cfg, s.now, c);
    }
  }

  lemma ApplyKeepsUsable(s: System, cfg: Config, c: Calls)
    requires Inv(s) && Usable(s) && ClocksOk(s.now, c) && !s.res.deleting && !s.gone
    ensures Usable(Apply(s, cfg, c))
  {
    if s.res.status.locator.Some? {
      RotateInlineIsSafe(s.world, s.res.createdAt, cfg, s.now, c);
    } else {
      AcquireKeepsUsable(s, c);
    }
  }

  lemma AcquireKeepsUsable(s: System, c: Calls)
    requires Inv(s) && Usable(s) && ClocksOk(s.now, c)
    ensures var w := AcquireCredentials(s.world, s.res.createdAt, c).0;
      w.secret.Absent? || Recent(w.secret, s.res.createdAt)
    ensures CreateAccount(s.world, s.res, c).world.secret
         == if c.creatable then AcquireCredentials(s.world, s.res.createdAt, c).0.secret else s.world.secret
  {
  }

  lemma EventKeepsUsable(s: System, cfg: Config, e: Event)
    requires Inv(s) && Usable(s) && Admissible(s, e) && !e.ForeignCreated? && !Next(s, cfg, e).res.deleting
    ensures Usable(Next(s, cfg, e)) && !s.res.deleting
  {
    if e.Reconciled? && !s.gone {
      ObserveIsSafe(s, cfg, e.observing);
      ObserveKeepsUsable(s, cfg, e.observing);
      var (s1, decision) := Observe(s, cfg, e.observing);
      if decision.Run? && !(decision.exists_ && decision.upToDate) {
        ApplyKeepsUsable(s1, cfg, e.acting);
      }
    }
  }

  lemma {:induction false} DeletingIsForever(s: System, cfg: Config, events: seq<Event>)
    requires s.res.deleting
    ensures RunAll(s, cfg, events).res.deleting
    decreases |events|
  {
    if events != [] {
      StaysDeleting(s, cfg, events[0]);
      DeletingIsForever(Next(s, cfg, events[0]), cfg, events[1..]);
    }
  }

  lemma StaysDeleting(s: System, cfg: Config, e: Event)
    requires s.res.deleting
    ensures Next(s, cfg, e).res.deleting
  {
  }

  /** An identifier usable at the start stays usable through every run of crashes and
      errors, until the resource is deleted. */
  lemma {:induction false} UsableStaysUsable(s: System, cfg: Config, events: seq<Event>)
    requires Inv(s) && Usable(s) && IsRun(s, cfg, events) && NobodyElseCreates(events)
    requires !RunAll(s, cfg, events).res.deleting
    ensures Usable(RunAll(s, cfg, events))
    decreases |events|
  {
    if events != [] {
      var n := Next(s, cfg, events[0]);
      if n.res.deleting {
        DeletingIsForever(n, cfg, events[1..]);
      }
      NextIsSafe(s, cfg, events[0]);
      EventKeepsUsable(s, cfg, events[0]);
      UsableStaysUsable(n, cfg, events[1..]);
    }
  }

  /** Put together with every run before it: whatever crashed and failed, a resource that
      started with a usable identifier and is not being deleted is settled by fault-free
      reconciles. */
  lemma {:induction false} EveryCrashIsRecoverable(s: System, cfg: Config, before: seq<Event>, after: seq<Event>)
    requires IsStart(s) && Usable(s) && IsRun(s, cfg, before) && NobodyElseCreates(before)
    requires var m := RunAll(s, cfg, before); !m.res.deleting && Quiet(m, cfg, after) && |after| >= Measure(m, cfg)
    ensures Settled(RunAll(RunAll(s, cfg, before), cfg, after), cfg)
  {
    InvariantOfEveryRun(s, cfg, before);
    UsableStaysUsable(s, cfg, before);
    Converges(RunAll(s, cfg, before), cfg, after);
  }
}
