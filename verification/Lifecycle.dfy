/** The life of one SnowflakeAccount (internal/account/modules/account and
    internal/controller/snowflakeaccount): what each reconcile does to the resource's
    status, the secret store and Snowflake, when any call may fail, fail after taking
    effect, or be the last thing the controller does before it crashes. */
module Lifecycle {
  import opened Common
  import opened KeyStore
  import opened Pipeline
  import R = Rotation

  type Key = R.Key
  type Locator = nat
  type Time = int

  /** Seconds by which the secret store's clock may lag Kubernetes'. */
  const RESUME_CLOCK_SKEW_BUFFER := 300

  /** The fixed settings of the controller. */
  datatype Config = Config(gracePeriod: nat, rotationInterval: nat)

  // ---- the three systems a reconcile touches --------------------------------------------------

  /** status of the resource; an empty accountLocator is None. */
  datatype Status = Status(locator: Option<Locator>, accountCreatedAt: Option<Time>, observedGeneration: int,
        ready: bool)

  datatype Resource = Resource(createdAt: Time, generation: int, contact: string, deleting: bool, status: Status)

  /** An account with its platform user, whose email is empty if it has none; `foreign` if
      this resource did not create it. */
  datatype Account = Account(locator: Locator, slot1: Option<Key>, slot2: Option<Key>, email: string, foreign: bool)

  /** The secret at this resource's identifier, and the account that carries its
      resolved name. The rest records the past: every locator CREATE ACCOUNT produced
      for it, how often CREATE ACCOUNT was issued while an account had the name, and
      whether a DROP ACCOUNT took effect. That a resource may have both to itself among
      many is Fleet.EachRunsAlone. */
  datatype World = World(
    secret: Slot<Key>,
    account: Option<Account>,
    nextKey: Key,
    nextLocator: Locator,
    created: seq<Locator>,
    issuedWhileLive: nat,
    dropped: bool)

  /** How one call to another system ends. */
  datatype Fault = Works | ErrBefore | ErrAfter | CrashBefore | CrashAfter

  predicate Happens(f: Fault) { f.Works? || f.ErrAfter? || f.CrashAfter? }

  predicate Crashes(f: Fault) { f.CrashBefore? || f.CrashAfter? }

  /** Everything the environment decides during one run: how each call ends, whether
      the request is creatable, whether the pool has a warm connection, the inline
      rotation, and the clocks. */
  datatype Calls = Calls(
    labels: Fault, creatable: bool,
    create: Fault, readBack: Fault, orgAdmin: Fault, precheck: Fault, createAccount: Fault, locate: Fault,
    connect: Fault, warm: bool, rotation: R.Attempt, rotationCrashes: bool, showUser: Fault, alterEmail: Fault,
    persist: Fault,
    drop: Fault, deleteSecret: Fault,
    storeNow: Time, later: Time)

  /** How a run of the module ends: with an answer, or not at all. */
  datatype Exit = Crash | Answer(outcome: Outcome)

  predicate IsDone(e: Exit) { e.Answer? && e.outcome.state.Done? }

  /** What it leaves: the outside world, and the status in memory. */
  datatype Ran = Ran(world: World, status: Status, exit: Exit)

  function Fails(w: World, st: Status, f: Fault): Ran {
    Ran(w, st, if Crashes(f) then Crash else Answer(FailedOutcome(SystemError)))
  }

  // ---- apply.go: creating ------------------------------------------------------------------------

  datatype Acquired = Crashed | Refused(err: Error) | Got(key: Key, resumed: bool)

  function ResumeCrashedCreate(secret: Slot<Key>, createdAt: Time, c: Calls): Acquired {
    if Crashes(c.readBack) then Crashed
    else if !c.readBack.Works? then Refused(SystemError)
    else match GetSlot(secret)
      case Fail(_) => Refused(SystemError)
      case Done(r) =>
        if r.modifiedAt < createdAt - RESUME_CLOCK_SKEW_BUFFER then Refused(SystemError) else Got(r.value, true)
  }

  /** Stores a new key, create-only, or recovers the one an earlier attempt stored. */
  function AcquireCredentials(w: World, createdAt: Time, c: Calls): (World, Acquired) {
    var (slot, result) := CreateSlot(w.secret, w.nextKey, c.storeNow);
    var w1 := w.(secret := if Happens(c.create) then slot else w.secret, nextKey := w.nextKey + 1);
    if Crashes(c.create) then (w1, Crashed)
    else if c.create.Works? && result.Done? then (w1, Got(w.nextKey, false))
    else if c.create.Works? && result == Fail(PendingDeletion) then (w1, Refused(UserError))
    else (w1, ResumeCrashedCreate(w1.secret, createdAt, c))
  }

  /** CREATE ACCOUNT as Snowflake answers it: a name already taken is refused. Issuing
      it counts whether or not it gets that far. */
  function ExecCreateAccount(w: World, key: Key, contact: string, f: Fault): World {
    if w.account.Some? then w.(issuedWhileLive := w.issuedWhileLive + 1)
    else if !Happens(f) then w
    else w.(account := Some(Account(w.nextLocator, Some(key), None, contact, false)),
            nextLocator := w.nextLocator + 1, created := w.created + [w.nextLocator])
  }

  function FinishCreate(w: World, st: Status, locator: Locator, c: Calls): Ran {
    Ran(w, st.(locator := Some(locator), accountCreatedAt := Some(c.later)), Answer(PendingOutcome("account created")))
  }

  /** CREATE ACCOUNT, then the lookup of the locator it produced. */
  function IssueCreate(w: World, st: Status, key: Key, contact: string, c: Calls): Ran {
    var taken := w.account.Some?;
    var w1 := ExecCreateAccount(w, key, contact, c.createAccount);
    if !c.createAccount.Works? then Fails(w1, st, c.createAccount)
    else if taken then Ran(w1, st, Answer(FailedOutcome(UserError)))
    else if !c.locate.Works? then Fails(w1, st, c.locate)
    else FinishCreate(w1, st, w1.account.value.locator, c)
  }

  function CreateAccount(w: World, res: Resource, c: Calls): Ran {
    var st := res.status;
    if !c.creatable then Ran(w, st, Answer(FailedOutcome(UserError))) else
    var (w1, acquired) := AcquireCredentials(w, res.createdAt, c);
    match acquired
    case Crashed => Ran(w1, st, Crash)
    case Refused(err) => Ran(w1, st, Answer(FailedOutcome(err)))
    case Got(key, resumed) =>
      if !c.orgAdmin.Works? then Fails(w1, st, c.orgAdmin)
      else if resumed && !c.precheck.Works? then Fails(w1, st, c.precheck)
      else if resumed && w1.account.Some? then FinishCreate(w1, st, w1.account.value.locator, c)
      else IssueCreate(w1, st, key, res.contact, c)
  }

  // ---- module.go, apply.go: an account whose locator is known ----------------------------------------

  predicate WithinGracePeriod(st: Status, cfg: Config, now: Time) {
    st.accountCreatedAt.Some? && now - st.accountCreatedAt.value < cfg.gracePeriod
  }

  /** The credential the store holds, against the two slots of the platform user. */
  function LoginOf(a: Account, secret: Slot<Key>): R.Login
    requires secret.Live?
  {
    R.Login(a.slot1, a.slot2, secret.value, secret.modifiedAt)
  }

  /** A new connection can be opened: the recorded account is there, and the stored key
      is one of the two its platform user accepts. */
  predicate CanDial(w: World, st: Status) {
    && w.account.Some? && st.locator == Some(w.account.value.locator)
    && w.secret.Live? && R.Holds(LoginOf(w.account.value, w.secret), w.secret.value)
  }

  /** The inline rotation of TenantDB. */
  function RotateInline(w: World, cfg: Config, now: Time, c: Calls): World {
    if w.account.None? || !w.secret.Live? then w
    else
      var attempt := c.rotation.(freshKey := w.nextKey, now := now);
      var l := R.Rotate(LoginOf(w.account.value, w.secret), cfg.rotationInterval, attempt);
      w.(account := Some(w.account.value.(slot1 := l.slot1, slot2 := l.slot2)),
         secret := Live(l.stored, l.rotatedAt), nextKey := w.nextKey + 1)
  }

  /** connectTenant: a warm connection or a new one, to an account that is still there,
      and then the rotation. */
  function ConnectTenant(w: World, st: Status, cfg: Config, now: Time, c: Calls): Ran {
    if !c.connect.Works? then Fails(w, st, c.connect)
    else if w.account.None? || (!c.warm && !CanDial(w, st)) then Ran(w, st, Answer(FailedOutcome(SystemError)))
    else Ran(RotateInline(w, cfg, now, c), st, if c.rotationCrashes then Crash else Answer(DoneOutcome()))
  }

  function EmailOf(w: World): string { if w.account.Some? then w.account.value.email else "" }

  /** Writes the contact only when reading it back shows that it differs. */
  function SyncPlatformEmail(w: World, st: Status, contact: string, c: Calls): Ran {
    if !c.showUser.Works? then Fails(w, st, c.showUser)
    else if EmailOf(w) == contact then Ran(w, st, Answer(DoneOutcome()))
    else
      var w1 := if Happens(c.alterEmail) && w.account.Some?
        then w.(account := Some(w.account.value.(email := contact))) else w;
      if c.alterEmail.Works? then Ran(w1, st, Answer(DoneOutcome())) else Fails(w1, st, c.alterEmail)
  }

  function ReconcileExisting(w: World, res: Resource, cfg: Config, now: Time, c: Calls): Ran {
    if WithinGracePeriod(res.status, cfg, now) then Ran(w, res.status, Answer(PendingOutcome("provisioning"))) else
    var connected := ConnectTenant(w, res.status, cfg, now, c);
    if IsDone(connected.exit) then SyncPlatformEmail(connected.world, res.status, res.contact, c)
    else connected
  }

  function ApplyModule(w: World, res: Resource, cfg: Config, now: Time, c: Calls): Ran {
    if res.status.locator.Some? then ReconcileExisting(w, res, cfg, now, c) else CreateAccount(w, res, c)
  }

  // ---- reconciler.go -----------------------------------------------------------------------------------

  /** The resource, the world around it, the clock, and whether the finalizer is gone. */
  datatype System = System(res: Resource, world: World, now: Time, gone: bool)

  /** What the pipeline writes into the status in memory once its one module answered. */
  function Reported(res: Resource, st: Status, o: Outcome): Status {
    var outcomes := [Abort(o)];
    st.(ready := Ready(res.status.ready, AllDone(outcomes), outcomes) == Available,
        observedGeneration := if AllDone(outcomes) then res.generation else st.observedGeneration)
  }

  /** A run of one module is complete exactly when that module is done. */
  lemma CompleteIsDone(o: Outcome)
    ensures AllDone([Abort(o)]) <==> o.state.Done?
  {
    assert [Abort(o)][0].state == o.state;
  }

  /** Create and Update: apply, report, and persist the status before returning. */
  function Apply(s: System, cfg: Config, c: Calls): System {
    if !c.labels.Works? then s.(now := c.later) else
    var ran := ApplyModule(s.world, s.res, cfg, s.now, c);
    var s1 := s.(world := ran.world, now := c.later);
    if ran.exit.Crash? || !Happens(c.persist) then s1
    else s1.(res := s.res.(status := Reported(s.res, ran.status, ran.exit.outcome)))
  }

  /** Observe of the account module. */
  function ObserveModule(w: World, res: Resource, cfg: Config, now: Time, c: Calls): Ran {
    if res.status.locator.None? then Ran(w, res.status, Answer(PendingOutcome("account not created yet")))
    else if WithinGracePeriod(res.status, cfg, now) then Ran(w, res.status, Answer(PendingOutcome("provisioning")))
    else ConnectTenant(w, res.status, cfg, now, c)
  }

  /** The answer of Observe: `Stop` on an error or a crash. */
  datatype Decision = Stop | Run(exists_: bool, upToDate: bool)

  function Observe(s: System, cfg: Config, c: Calls): (System, Decision) {
    if !c.labels.Works? then (s.(now := c.later), Stop) else
    var ran := ObserveModule(s.world, s.res, cfg, s.now, c);
    var s1 := s.(world := ran.world, now := c.later);
    if ran.exit.Crash? || ran.exit.outcome.state.Failed? then (s1, Stop)
    else
      var outcomes := [ran.exit.outcome.(mod := ACCOUNT_MODULE)];
      var ready := Ready(s.res.status.ready, false, outcomes) == Available;
      var s2 := if Happens(c.persist)
        then s1.(res := s.res.(status := s.res.status.(ready := ready))) else s1;
      (s2, Run(Exists(outcomes), UpToDate(s.res.status.observedGeneration == s.res.generation, outcomes)))
  }

  // ---- teardown.go ---------------------------------------------------------------------------------------

  /** Drop, evict, forget the locator, delete the credential: in this order, stopping
      at the first failure. */
  function Teardown(w: World, st: Status, c: Calls): Ran {
    if st.locator.None? then DeleteCredential(w, st, c)
    else if !c.orgAdmin.Works? then Fails(w, st, c.orgAdmin)
    else
      var w1 := if Happens(c.drop) then w.(account := None, dropped := w.dropped || w.account.Some?) else w;
      if !c.drop.Works? then Fails(w1, st, c.drop) else DeleteCredential(w1, st.(locator := None), c)
  }

  function DeleteCredential(w: World, st: Status, c: Calls): Ran {
    var w1 := w.(secret := if Happens(c.deleteSecret) then DeleteSlot(w.secret, true) else w.secret);
    if c.deleteSecret.Works? then Ran(w1, st, Answer(DoneOutcome())) else Fails(w1, st, c.deleteSecret)
  }

  /** Delete, once its gate is open. The status is persisted whether or not it failed. */
  function Delete(s: System, c: Calls): System {
    if !c.labels.Works? then s.(now := c.later) else
    var ran := Teardown(s.world, s.res.status, c);
    var s1 := s.(world := ran.world, now := c.later);
    if ran.exit.Crash? || !Happens(c.persist) then s1 else s1.(res := s.res.(status := ran.status))
  }

  /** A deletion that finds no open gate. */
  function Blocked(s: System, c: Calls): System {
    if Happens(c.persist) then s.(res := s.res.(status := s.res.status.(ready := false)), now := c.later)
      else s.(now := c.later)
  }

  /** One reconcile: observe, then whatever the observation calls for. `permitted` is
      the answer of the deletion gate. */
  function Reconcile(s: System, cfg: Config, observing: Calls, acting: Calls, permitted: bool): System {
    if s.gone then s
    else if s.res.deleting then
      if s.res.status.locator.None? then s.(gone := true)
      else if permitted then Delete(s, acting)
      else Blocked(s, acting)
    else
      var (s1, decision) := Observe(s, cfg, observing);
      match decision
      case Stop => s1
      case Run(exists_, upToDate) => if exists_ && upToDate then s1 else Apply(s1, cfg, acting)
  }

  // ---- every run --------------------------------------------------------------------------------------------

  datatype Event =
    | Reconciled(observing: Calls, acting: Calls, permitted: bool)
    | Ticked(d: nat)
    | Edited(contact: string)
    | DeletionRequested
    | Purged                             // the recovery window of a deleted secret ended
    | ForeignCreated(email: string)      // someone else created an account of this name

  /** What is assumed of the environment's clocks. */
  predicate ClocksOk(now: Time, c: Calls) {
    && now <= c.later
    && c.storeNow >= now - RESUME_CLOCK_SKEW_BUFFER
    && c.rotation.storedAt >= now - RESUME_CLOCK_SKEW_BUFFER
  }

  predicate Admissible(s: System, e: Event) {
    match e
    case Reconciled(o, a, _) => ClocksOk(s.now, o) && ClocksOk(o.later, a)
    case ForeignCreated(_) => s.world.account.None?
    case Purged => s.world.secret.Pending?
    case _ => true
  }

  function Next(s: System, cfg: Config, e: Event): System {
    match e
    case Reconciled(o, a, permitted) => Reconcile(s, cfg, o, a, permitted)
    case Ticked(d) => s.(now := s.now + d)
    case Edited(contact) => s.(res := s.res.(contact := contact, generation := s.res.generation + 1))
    case DeletionRequested => s.(res := s.res.(deleting := true))
    case Purged => s.(world := s.world.(secret := Absent))
    case ForeignCreated(email) =>
      s.(world := s.world.(account := Some(Account(s.world.nextLocator, None, None, email, true)),
                           nextLocator := s.world.nextLocator + 1))
  }

  ghost predicate IsRun(s: System, cfg: Config, events: seq<Event>)
    decreases |events|
  {
    events == [] || (Admissible(s, events[0]) && IsRun(Next(s, cfg, events[0]), cfg, events[1..]))
  }

  function RunAll(s: System, cfg: Config, events: seq<Event>): System
    decreases |events|
  {
    if events == [] then s else RunAll(Next(s, cfg, events[0]), cfg, events[1..])
  }

  /** A resource just created: nothing recorded, no account of its name, and any secret
      at all at its identifier, left over or not. */
  predicate IsStart(s: System) {
    && s.res.status == Status(None, None, 0, false)
    && s.res.generation >= 1 && s.res.createdAt <= s.now && !s.gone
    && s.world.account.None? && s.world.created == [] && s.world.issuedWhileLive == 0 && !s.world.dropped
    && (!s.world.secret.Absent? ==> s.world.secret.value < s.world.nextKey)
  }
}
