/** The end of a resource in Lifecycle: teardown under failures, and what the release
    of the finalizer may leave behind. */
module LifecycleDeletion {
  import opened Lifecycle
  import opened LifecycleSafety
  import P = Pipeline

  // ---- the order of teardown ------------------------------------------------------------------

  /** The credential is scheduled for deletion while the account lives only by a teardown
      that was entered without a recorded locator: with one, never, whatever fails. */
  lemma CredentialOutlivesAccount(w: World, st: Status, c: Calls)
    ensures var ran := Teardown(w, st, c);
      (ran.world.secret != w.secret && ran.world.account.Some?)
        <==> st.locator.None? && w.account.Some? && w.secret.Live? && Happens(c.deleteSecret)
  {
  }

  // ---- convergence ------------------------------------------------------------------------------

  /** What one teardown in which nothing fails makes of the world and the status. */
  function CleanTeardown(p: (World, Status)): (World, Status) {
    var ran := Teardown(p.0, p.1, Smooth(0));
    (ran.world, ran.status)
  }

  /** What a teardown leaves that may fail anywhere, its status write kept or lost. */
  function AttemptTeardown(p: (World, Status), c: Calls, kept: bool): (World, Status) {
    var ran := Teardown(p.0, p.1, c);
    (ran.world, if kept then ran.status else p.1)
  }

  /** A teardown that failed, anywhere, kept or lost, is finished by the next one to
      the same end as if it had never been tried. */
  lemma AttemptIsRetryable(p: (World, Status), c: Calls, kept: bool)
    ensures CleanTeardown(AttemptTeardown(p, c, kept)) == CleanTeardown(p)
  {
  }

  function AttemptAll(p: (World, Status), attempts: seq<(Calls, bool)>): (World, Status)
    decreases |attempts|
  {
    if attempts == [] then p
    else AttemptAll(AttemptTeardown(p, attempts[0].0, attempts[0].1), attempts[1..])
  }

  lemma {:induction false} FailedTeardownsConverge(p: (World, Status), attempts: seq<(Calls, bool)>)
    ensures CleanTeardown(AttemptAll(p, attempts)) == CleanTeardown(p)
    decreases |attempts|
  {
    if attempts != [] {
      var n := AttemptTeardown(p, attempts[0].0, attempts[0].1);
      AttemptIsRetryable(p, attempts[0].0, attempts[0].1);
      FailedTeardownsConverge(n, attempts[1..]);
    }
  }

  const DOWN: (nat, (World, Status)) -> (World, Status) := (i, p) => CleanTeardown(p)

  /** The account module meets what Pipeline.TeardownConverges asks of a module. */
  lemma AccountModuleIsRetryable(p: (World, Status), c: Calls, kept: bool)
    ensures P.Repeatable(DOWN)
    ensures P.Retryable([p], DOWN, P.FailsAt(0, AttemptTeardown(p, c, kept)))
  {
    forall i: nat, q: (World, Status) ensures DOWN(i, DOWN(i, q)) == DOWN(i, q) {
      assert DOWN(i, q) == AttemptTeardown(q, Smooth(0), true);
      AttemptIsRetryable(q, Smooth(0), true);
    }
    AttemptIsRetryable(p, c, kept);
  }

  // ---- what the finalizer's release leaves behind ------------------------------------------------

  /** At some event `e` of the run, in the state `s` before it, `p(s, e, n)` holds, where
      `n` is the state after it. */
  predicate SomeStep(s: System, cfg: Config, events: seq<Event>, p: (System, Event, System) -> bool)
    decreases |events|
  {
    events != [] &&
    (p(s, events[0], Next(s, cfg, events[0])) || SomeStep(Next(s, cfg, events[0]), cfg, events[1..], p))
  }

  /** A CREATE ACCOUNT took effect. */
  predicate CreatesAccount(s: System, e: Event, n: System) { |n.world.created| > |s.world.created| }

  /** A status write recorded a locator. */
  predicate RecordsLocator(s: System, e: Event, n: System) {
    s.res.status.locator.None? && n.res.status.locator.Some?
  }

  /** A reconcile without a recorded locator got as far as storing a credential, and the
      identifier was free. */
  predicate StoresCredential(s: System, e: Event, n: System) {
    && e.Reconciled? && !s.gone && !s.res.deleting && s.res.status.locator.None? && s.world.secret.Absent?
    && e.observing.labels.Works? && e.acting.labels.Works? && e.acting.creatable && Happens(e.acting.create)
  }

  /** A permitted teardown got past its drop, and its call to delete the credential took
      effect. */
  predicate DeletesCredential(s: System, e: Event, n: System) {
    && e.Reconciled? && !s.gone && s.res.deleting && s.res.status.locator.Some? && e.permitted
    && e.acting.labels.Works? && e.acting.orgAdmin.Works? && e.acting.drop.Works? && Happens(e.acting.deleteSecret)
  }

  /** An account comes only from CREATE ACCOUNT; it is dropped only with a locator
      recorded, and the locator forgotten only with the account dropped. */
  predicate AccountMoves(s: System, n: System) {
    && |n.world.created| >= |s.world.created|
    && (s.world.dropped ==> n.world.dropped)
    && (n.world.dropped ==> s.world.dropped || s.res.status.locator.Some?)
    && (s.res.status.locator.Some? && n.res.status.locator.None? ==> n.world.dropped)
  }

  /** A credential becomes live, outside of a deletion, only by being stored, and stops
      being live only by being deleted. */
  predicate CredentialMoves(s: System, e: Event, n: System) {
    && (s.res.deleting ==> n.res.deleting)
    && (s.world.secret.Live? ==> (n.world.secret.Live? <==> !DeletesCredential(s, e, n)))
    && (!s.world.secret.Live? ==> (n.world.secret.Live? <==> StoresCredential(s, e, n)))
  }

  lemma ObserveMoves(s: System, cfg: Config, c: Calls)
    ensures var n := Observe(s, cfg, c).0;
      && n.world.created == s.world.created && n.world.dropped == s.world.dropped && n.res == s.res
      && (n.world.secret.Live? <==> s.world.secret.Live?) && (n.world.secret.Absent? <==> s.world.secret.Absent?)
    ensures s.res.status.locator.None? ==> (Observe(s, cfg, c).1.Run? <==> c.labels.Works?)
    ensures s.res.status.locator.None? && Observe(s, cfg, c).1.Run? ==> !Observe(s, cfg, c).1.exists_
  {
    ObserveKeepsResource(s, cfg, c);
    if s.res.status.locator.None? && c.labels.Works? {
      var o := P.PendingOutcome("account not created yet").(mod := P.ACCOUNT_MODULE);
      assert !P.Exists([o]);
    }
  }

  lemma ModuleMovesAccount(w: World, res: Resource, cfg: Config, now: Time, c: Calls)
    ensures var ran := ApplyModule(w, res, cfg, now, c);
      && |ran.world.created| >= |w.created| && ran.world.dropped == w.dropped
      && (res.status.locator.Some? ==> ran.status.locator.Some?)
  {
  }

  lemma ModuleMovesCredential(w: World, res: Resource, cfg: Config, now: Time, c: Calls)
    ensures var ran := ApplyModule(w, res, cfg, now, c);
      && (w.secret.Live? ==> ran.world.secret.Live?)
      && (!w.secret.Live? ==>
            (ran.world.secret.Live? <==>
              res.status.locator.None? && w.secret.Absent? && c.creatable && Happens(c.create)))
  {
  }

  /** Apply leaves the world as its module does, and its status, if it is written at all. */
  lemma ApplyIsItsModule(s: System, cfg: Config, c: Calls)
    ensures var n := Apply(s, cfg, c); var ran := ApplyModule(s.world, s.res, cfg, s.now, c);
      && n.world == (if c.labels.Works? then ran.world else s.world)
      && n.res.deleting == s.res.deleting
      && (n.res.status.locator == s.res.status.locator || n.res.status.locator == ran.status.locator)
  {
  }

  lemma ApplyMoves(s: System, cfg: Config, c: Calls)
    requires !s.res.deleting
    ensures AccountMoves(s, Apply(s, cfg, c)) && !Apply(s, cfg, c).res.deleting
    ensures s.world.secret.Live? ==> Apply(s, cfg, c).world.secret.Live?
    ensures !s.world.secret.Live? ==>
      (Apply(s, cfg, c).world.secret.Live? <==>
        s.res.status.locator.None? && s.world.secret.Absent? && c.labels.Works? && c.creatable && Happens(c.create))
  {
    ApplyIsItsModule(s, cfg, c);
    ModuleMovesAccount(s.world, s.res, cfg, s.now, c);
    ModuleMovesCredential(s.world, s.res, cfg, s.now, c);
  }

  lemma DeleteMoves(s: System, e: Event, cfg: Config)
    requires Inv(s) && s.res.deleting && s.res.status.locator.Some? && !s.gone && e.Reconciled? && e.permitted
    ensures AccountMoves(s, Delete(s, e.acting)) && CredentialMoves(s, e, Delete(s, e.acting))
  {
  }

  lemma ReconcileMoves(s: System, cfg: Config, e: Event)
    requires Inv(s) && Admissible(s, e) && e.Reconciled? && !s.res.deleting && !s.gone
    ensures AccountMoves(s, Next(s, cfg, e)) && CredentialMoves(s, e, Next(s, cfg, e))
  {
    ObserveMoves(s, cfg, e.observing);
    ApplyMoves(Observe(s, cfg, e.observing).0, cfg, e.acting);
  }

  lemma EventMoves(s: System, cfg: Config, e: Event)
    requires Inv(s) && Admissible(s, e) && !e.ForeignCreated?
    ensures AccountMoves(s, Next(s, cfg, e)) && CredentialMoves(s, e, Next(s, cfg, e))
  {
    if e.Reconciled? && !s.gone {
      if !s.res.deleting {
        ReconcileMoves(s, cfg, e);
      } else if s.res.status.locator.Some? && e.permitted {
        DeleteMoves(s, e, cfg);
      }
    }
  }

  lemma {:induction false} AccountHistory(s: System, cfg: Config, events: seq<Event>)
    requires Inv(s) && IsRun(s, cfg, events) && NobodyElseCreates(events)
    ensures var e := RunAll(s, cfg, events);
      && Inv(e)
      && (e.world.created != [] <==> s.world.created != [] || SomeStep(s, cfg, events, CreatesAccount))
      && (e.world.dropped ==> s.world.dropped || s.res.status.locator.Some? || SomeStep(s, cfg, events, RecordsLocator))
      && (e.res.status.locator.None? && (s.res.status.locator.Some? || SomeStep(s, cfg, events, RecordsLocator)) ==>
        e.world.dropped)
      && (s.world.dropped ==> e.world.dropped)
    decreases |events|
  {
    if events != [] {
      NextIsSafe(s, cfg, events[0]);
      EventMoves(s, cfg, events[0]);
      AccountHistory(Next(s, cfg, events[0]), cfg, events[1..]);
    }
  }

  lemma {:induction false} CredentialHistory(s: System, cfg: Config, events: seq<Event>)
    requires Inv(s) && IsRun(s, cfg, events) && NobodyElseCreates(events)
    ensures var e := RunAll(s, cfg, events);
      && (s.res.deleting && !s.world.secret.Live? ==>
        !e.world.secret.Live? && !SomeStep(s, cfg, events, StoresCredential))
      && (e.world.secret.Live? <==>
            (s.world.secret.Live? || SomeStep(s, cfg, events, StoresCredential))
            && !SomeStep(s, cfg, events, DeletesCredential))
    decreases |events|
  {
    if events != [] {
      NextIsSafe(s, cfg, events[0]);
      EventMoves(s, cfg, events[0]);
      CredentialHistory(Next(s, cfg, events[0]), cfg, events[1..]);
    }
  }

  /** A released resource leaves its account behind exactly when a CREATE ACCOUNT took
      effect and no status write ever recorded a locator; in every other run that created
      an account it was dropped. */
  lemma ReleaseLeavesTheAccountExactly(s: System, cfg: Config, events: seq<Event>)
    requires IsStart(s) && IsRun(s, cfg, events) && NobodyElseCreates(events)
    requires RunAll(s, cfg, events).gone
    ensures RunAll(s, cfg, events).world.account.Some?
       <==> SomeStep(s, cfg, events, CreatesAccount) && !SomeStep(s, cfg, events, RecordsLocator)
  {
    AccountHistory(s, cfg, events);
  }

  /** And it leaves the credential live exactly when there was one and no deletion of it
      ever took effect, whether or not an account went with it. */
  lemma ReleaseLeavesTheCredentialExactly(s: System, cfg: Config, events: seq<Event>)
    requires IsStart(s) && IsRun(s, cfg, events) && NobodyElseCreates(events)
    requires RunAll(s, cfg, events).gone
    ensures RunAll(s, cfg, events).world.secret.Live?
       <==> (s.world.secret.Live? || SomeStep(s, cfg, events, StoresCredential))
            && !SomeStep(s, cfg, events, DeletesCredential)
  {
    CredentialHistory(s, cfg, events);
  }

  /** The reason, one reconcile before the release: a teardown that records the empty
      locator is the last one there is, so a deletion of the credential that did not take
      effect in it never will. */
  lemma ForgottenLocatorEndsTeardown(s: System, cfg: Config, o: Calls, a: Calls, o2: Calls, a2: Calls)
    requires Inv(s) && s.res.deleting && !s.gone && s.res.status.locator.Some?
    requires Reconcile(s, cfg, o, a, true).res.status.locator.None?
    ensures var n := Reconcile(s, cfg, o, a, true); var r := Reconcile(n, cfg, o2, a2, true);
      r.gone && r.world == n.world && r.world.account.None?
      && (r.world.secret.Live? <==> s.world.secret.Live? && !Happens(a.deleteSecret))
  {
  }

  /** This happens: the status write after a create is refused, as it is when the
      deletion request came in between, and the account stays. */
  lemma LostStatusLeavesTheAccount(s: System, cfg: Config)
    requires IsStart(s) && s.world.secret.Absent? && !s.res.deleting
    ensures var c := Smooth(s.now);
      var lost := Reconciled(c, c.(persist := ErrBefore), true);
      var events := [lost, DeletionRequested, Reconciled(c, c, true)];
      var e := RunAll(s, cfg, events);
      IsRun(s, cfg, events) && e.gone && e.world.account.Some? && e.world.created == [e.world.account.value.locator]
  {
    var c := Smooth(s.now);
    var lost := Reconciled(c, c.(persist := ErrBefore), true);
    var s1 := Next(s, cfg, lost);
    assert s1.res == s.res && s1.world.account.Some? && s1.world.created == [] + [s.world.nextLocator] by {
      assert Observe(s, cfg, c) == (s, Run(false, false)) by { ObserveNothing(s, cfg, c); }
    }
    var s2 := Next(s1, cfg, DeletionRequested);
    OneEvent(s2, cfg, Reconciled(c, c, true), []);
    OneEvent(s1, cfg, DeletionRequested, [Reconciled(c, c, true)]);
    OneEvent(s, cfg, lost, [DeletionRequested, Reconciled(c, c, true)]);
  }

  /** So does this: the account is created, then deleted, the deletion of its credential
      fails, and the next reconcile releases the resource all the same. */
  lemma FailedDeletionLeavesTheCredential(s: System, cfg: Config)
    requires IsStart(s) && s.world.secret.Absent? && !s.res.deleting
    ensures var c := Smooth(s.now);
      var failed := Reconciled(c, c.(deleteSecret := ErrBefore), true);
      var events := [Reconciled(c, c, true), DeletionRequested, failed, Reconciled(c, c, true)];
      var e := RunAll(s, cfg, events);
      IsRun(s, cfg, events) && e.gone && e.world.dropped && e.world.account.None? && e.world.secret.Live?
  {
    var c := Smooth(s.now);
    var create := Reconciled(c, c, true);
    var failed := Reconciled(c, c.(deleteSecret := ErrBefore), true);
    SmoothCreates(s, cfg);
    var s1 := Next(s, cfg, create);
    var s2 := Next(s1, cfg, DeletionRequested);
    var s3 := Next(s2, cfg, failed);
    OneEvent(s3, cfg, create, []);
    OneEvent(s2, cfg, failed, [create]);
    OneEvent(s1, cfg, DeletionRequested, [failed, create]);
    OneEvent(s, cfg, create, [DeletionRequested, failed, create]);
  }

  lemma SmoothCreates(s: System, cfg: Config)
    requires IsStart(s) && s.world.secret.Absent? && !s.res.deleting
    ensures var c := Smooth(s.now); var n := Next(s, cfg, Reconciled(c, c, true));
      && n.res.status.locator.Some? && n.world.account.Some? && n.world.secret.Live?
      && !n.res.deleting && !n.gone && n.now == s.now
  {
    ObserveNothing(s, cfg, Smooth(s.now));
  }

  lemma ObserveNothing(s: System, cfg: Config, c: Calls)
    requires IsStart(s) && c == Smooth(s.now)
    ensures Observe(s, cfg, c) == (s, Run(false, false))
  {
    var o := P.PendingOutcome("account not created yet").(mod := P.ACCOUNT_MODULE);
    assert !P.Exists([o]);
  }
}
