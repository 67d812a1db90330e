/** internal/snowflake/pool/pool.go as any number of threads calling OrgAdminDB,
    TenantDB, EvictTenant and Close: one atomic step per critical section, per dial and
    per close. The org-admin connection is one more key, whose lock is orgAdminMu. */
module PoolThreads {
  import opened Common

  type Thread = nat
  type Conn = nat
  type Lock = nat

  datatype PoolKey = OrgAdmin | Tenant(namespace: string, accountName: string)
  datatype Target = Target(locator: string, region: string)
  datatype Entry = Entry(conn: Conn, target: Target)
  datatype Dialed = Dialed(key: PoolKey, target: Target)

  /** The cached connections, what every connection was dialed for, and every close. */
  datatype Core = Core(entries: map<PoolKey, Entry>, dialed: map<Conn, Dialed>, closes: multiset<Conn>, next: Conn)

  datatype Call = Get(key: PoolKey, target: Target) | Evict(key: PoolKey)

  /** How far a call has come. */
  datatype Stage =
    | Wanting                                 // about to fetch its key's mutex
    | Waiting(lock: Lock)                     // about to lock it
    | Locked                                  // holds it
    | Dialing                                 // nothing usable was cached
    | Opened(conn: Conn)                      // dialed, not yet in the map
    | Swapped(conn: Conn, stale: Option<Conn>) // in the map, the displaced one still open
    | Returning(conn: Conn)                   // about to rotate, return and unlock
    | Removed(victim: Option<Conn>)           // evicted from the map, still open
    | Leaving                                 // about to unlock with nothing to return

  datatype Pc = Pc(call: Call, stage: Stage)

  datatype Return = Return(key: PoolKey, target: Target, conn: Conn)

  /** `calls` holds the calls in flight, by thread. */
  datatype State = State(
    core: Core,
    keyLocks: map<PoolKey, Lock>,
    nextLock: Lock,
    holder: map<Lock, Thread>,
    calls: map<Thread, Pc>,
    returned: seq<Return>)

  datatype Action =
    | Begin(t: Thread, call: Call)
    | FetchLock(t: Thread)
    | Acquire(t: Thread)
    | Look(t: Thread)
    | DialOk(t: Thread)
    | DialFails(t: Thread)
    | Swap(t: Thread)
    | CloseStale(t: Thread)
    | Finish(t: Thread)
    | Remove(t: Thread)
    | CloseVictim(t: Thread)
    | Leave(t: Thread)
    | CloseTenants
    | CloseOrgAdmin

  // ---- the connections ----------------------------------------------------------------------

  /** cachedTenant: an entry serves the call only if its locator and region match. */
  predicate Hit(c: Core, k: PoolKey, target: Target) { k in c.entries && c.entries[k].target == target }

  function CachedConn(c: Core, k: PoolKey): Option<Conn> {
    if k in c.entries then Some(c.entries[k].conn) else None
  }

  function Dial(c: Core, k: PoolKey, target: Target): Core {
    c.(dialed := c.dialed[c.next := Dialed(k, target)], next := c.next + 1)
  }

  function Publish(c: Core, k: PoolKey, conn: Conn, target: Target): Core {
    c.(entries := c.entries[k := Entry(conn, target)])
  }

  function Forget(c: Core, k: PoolKey): Core { c.(entries := c.entries - {k}) }

  function CloseOne(c: Core, conn: Option<Conn>): Core {
    if conn.None? then c else c.(closes := c.closes[conn.value := c.closes[conn.value] + 1])
  }

  function TenantConns(c: Core): set<Conn> { set k | k in c.entries && k.Tenant? :: c.entries[k].conn }

  /** The loop of Close over the tenant entries, and the map it leaves behind. */
  function CloseAllTenants(c: Core): Core {
    c.(entries := map k | k in c.entries && !k.Tenant? :: c.entries[k],
       closes := c.closes + multiset(TenantConns(c)))
  }

  // ---- the steps ------------------------------------------------------------------------------

  /** keyLock: the key's mutex, created on first use. */
  function KeyLock(s: State, k: PoolKey): Lock { if k in s.keyLocks then s.keyLocks[k] else s.nextLock }

  predicate Ready(pc: Pc, a: Action, s: State) {
    match a
    case FetchLock(t) => pc.stage.Wanting?
    case Acquire(t) => pc.stage.Waiting? && pc.stage.lock !in s.holder
    case Look(t) => pc.stage.Locked? && pc.call.Get?
    case DialOk(t) => pc.stage.Dialing? && pc.call.Get?
    case DialFails(t) => pc.stage.Dialing?
    case Swap(t) => pc.stage.Opened? && pc.call.Get?
    case CloseStale(t) => pc.stage.Swapped?
    case Finish(t) => pc.stage.Returning? && pc.call.Get?
    case Remove(t) => pc.stage.Locked? && pc.call.Evict?
    case CloseVictim(t) => pc.stage.Removed?
    case Leave(t) => pc.stage.Leaving?
    case _ => false
  }

  predicate OfThread(a: Action) { !a.Begin? && !a.CloseTenants? && !a.CloseOrgAdmin? }

  predicate Enabled(s: State, a: Action) {
    match a
    case Begin(t, call) => t !in s.calls && (call.Evict? ==> call.key.Tenant?)
    case CloseTenants => true
    case CloseOrgAdmin => KeyLock(s, OrgAdmin) !in s.holder
    case _ => a.t in s.calls && Ready(s.calls[a.t], a, s)
  }

  function Move(s: State, t: Thread, stage: Stage): State
    requires t in s.calls
  {
    s.(calls := s.calls[t := Pc(s.calls[t].call, stage)])
  }

  /** The deferred Unlock at the end of a call. */
  function Exit(s: State, t: Thread): State
    requires t in s.calls
  {
    s.(calls := s.calls - {t}, holder := s.holder - {KeyLock(s, s.calls[t].call.key)})
  }

  function StepOf(s: State, a: Action, t: Thread, call: Call, stage: Stage): State
    requires t in s.calls && s.calls[t] == Pc(call, stage)
    requires OfThread(a) && Ready(s.calls[t], a, s)
  {
    match a
    case FetchLock(_) =>
      Move(s, t, Waiting(KeyLock(s, call.key)))
        .(keyLocks := s.keyLocks[call.key := KeyLock(s, call.key)],
          nextLock := if call.key in s.keyLocks then s.nextLock else s.nextLock + 1)
    case Acquire(_) => Move(s, t, Locked).(holder := s.holder[stage.lock := t])
    case Look(_) =>
      Move(s, t, if Hit(s.core, call.key, call.target) then Returning(s.core.entries[call.key].conn) else Dialing)
    case DialOk(_) => Move(s, t, Opened(s.core.next)).(core := Dial(s.core, call.key, call.target))
    case DialFails(_) => Move(s, t, Leaving)
    case Swap(_) =>
      Move(s, t, Swapped(stage.conn, CachedConn(s.core, call.key)))
        .(core := Publish(s.core, call.key, stage.conn, call.target))
    case CloseStale(_) => Move(s, t, Returning(stage.conn)).(core := CloseOne(s.core, stage.stale))
    case Finish(_) => Exit(s, t).(returned := s.returned + [Return(call.key, call.target, stage.conn)])
    case Remove(_) => Move(s, t, Removed(CachedConn(s.core, call.key))).(core := Forget(s.core, call.key))
    case CloseVictim(_) => Move(s, t, Leaving).(core := CloseOne(s.core, stage.victim))
    case Leave(_) => Exit(s, t)
  }

  function Step(s: State, a: Action): State
    requires Enabled(s, a)
  {
    match a
    case Begin(t, call) => s.(calls := s.calls[t := Pc(call, Wanting)])
    case CloseTenants => s.(core := CloseAllTenants(s.core))
    case CloseOrgAdmin => s.(core := Forget(CloseOne(s.core, CachedConn(s.core, OrgAdmin)), OrgAdmin))
    case _ => StepOf(s, a, a.t, s.calls[a.t].call, s.calls[a.t].stage)
  }

  function Start(): State { State(Core(map[], map[], multiset{}, 0), map[], 0, map[], map[], []) }

  ghost predicate IsRun(s: State, actions: seq<Action>)
    decreases |actions|
  {
    actions == [] || (Enabled(s, actions[0]) && IsRun(Step(s, actions[0]), actions[1..]))
  }

  function Run(s: State, actions: seq<Action>): State
    requires IsRun(s, actions)
    decreases |actions|
  {
    if actions == [] then s else Run(Step(s, actions[0]), actions[1..])
  }

  // ---- locks ------------------------------------------------------------------------------

  /** The call is between Lock and Unlock of its key's mutex. */
  predicate Inside(pc: Pc) { !pc.stage.Wanting? && !pc.stage.Waiting? }

  ghost predicate LocksDistinct(s: State) {
    && (forall k :: k in s.keyLocks ==> s.keyLocks[k] < s.nextLock)
    && (forall j, k :: j in s.keyLocks && k in s.keyLocks && s.keyLocks[j] == s.keyLocks[k] ==> j == k)
  }

  predicate LockOk(s: State, t: Thread)
    requires t in s.calls
  {
    var pc, k := s.calls[t], s.calls[t].call.key;
    && (pc.stage.Waiting? ==> k in s.keyLocks && s.keyLocks[k] == pc.stage.lock)
    && (Inside(pc) ==> k in s.keyLocks && s.keyLocks[k] in s.holder && s.holder[s.keyLocks[k]] == t)
  }

  predicate HolderOk(s: State, l: Lock)
    requires l in s.holder
  {
    var t := s.holder[l];
    t in s.calls && Inside(s.calls[t]) && s.calls[t].call.key in s.keyLocks && s.keyLocks[s.calls[t].call.key] == l
  }

  /** Each key has a mutex of its own, and it is held exactly by the call inside the key. */
  ghost predicate LockInv(s: State) {
    && LocksDistinct(s)
    && (forall t :: t in s.calls ==> LockOk(s, t))
    && (forall l :: l in s.holder ==> HolderOk(s, l))
  }

  lemma FetchKeepsLocks(s: State, t: Thread)
    requires LockInv(s) && Enabled(s, FetchLock(t))
    ensures LockInv(Step(s, FetchLock(t)))
  {
    var n := Step(s, FetchLock(t));
    forall u | u in n.calls ensures LockOk(n, u) { assert u in s.calls && LockOk(s, u); }
    forall l | l in n.holder ensures HolderOk(n, l) { assert HolderOk(s, l); }
  }

  lemma AcquireKeepsLocks(s: State, t: Thread)
    requires LockInv(s) && Enabled(s, Acquire(t))
    ensures LockInv(Step(s, Acquire(t)))
  {
    var n := Step(s, Acquire(t));
    assert LockOk(s, t);
    forall u | u in n.calls ensures LockOk(n, u) { assert u in s.calls && LockOk(s, u); }
    forall l | l in n.holder ensures HolderOk(n, l) { if l in s.holder { assert HolderOk(s, l); } }
  }

  lemma ExitKeepsLocks(s: State, t: Thread)
    requires LockInv(s) && t in s.calls && Inside(s.calls[t])
    ensures LockInv(Exit(s, t))
  {
    var n := Exit(s, t);
    assert LockOk(s, t);
    forall u | u in n.calls ensures LockOk(n, u) { assert u in s.calls && LockOk(s, u); }
    forall l | l in n.holder ensures HolderOk(n, l) { assert HolderOk(s, l); }
  }

  lemma MoveKeepsLocks(s: State, t: Thread, stage: Stage)
    requires LockInv(s) && t in s.calls && Inside(s.calls[t]) && !stage.Wanting? && !stage.Waiting?
    ensures LockInv(Move(s, t, stage))
  {
    var n := Move(s, t, stage);
    assert LockOk(s, t);
    forall u | u in n.calls ensures LockOk(n, u) { assert u in s.calls && LockOk(s, u); }
    forall l | l in n.holder ensures HolderOk(n, l) { assert HolderOk(s, l); }
  }

  /** Only the locks and the calls matter to LockInv. */
  lemma SameLocks(s: State, n: State)
    requires LockInv(s) && n.calls == s.calls
    requires n.keyLocks == s.keyLocks && n.nextLock == s.nextLock && n.holder == s.holder
    ensures LockInv(n)
  {
    forall u | u in n.calls ensures LockOk(n, u) { assert LockOk(s, u); }
    forall l | l in n.holder ensures HolderOk(n, l) { assert HolderOk(s, l); }
  }

  lemma BeginKeepsLocks(s: State, t: Thread, call: Call)
    requires LockInv(s) && Enabled(s, Begin(t, call))
    ensures LockInv(Step(s, Begin(t, call)))
  {
    var n := Step(s, Begin(t, call));
    forall u | u in n.calls ensures LockOk(n, u) { if u != t { assert LockOk(s, u); } }
    forall l | l in n.holder ensures HolderOk(n, l) { assert HolderOk(s, l); }
  }

  /** A step of a call inside its key that does not leave it. */
  lemma InnerStepKeepsLocks(s: State, a: Action)
    requires LockInv(s) && Enabled(s, a) && OfThread(a)
    requires !a.FetchLock? && !a.Acquire? && !a.Finish? && !a.Leave?
    ensures LockInv(Step(s, a))
  {
    var n := Step(s, a);
    MoveKeepsLocks(s, a.t, n.calls[a.t].stage);
    SameLocks(Move(s, a.t, n.calls[a.t].stage), n);
  }

  lemma StepKeepsLocks(s: State, a: Action)
    requires LockInv(s) && Enabled(s, a)
    ensures LockInv(Step(s, a))
  {
    match a
    case Begin(t, call) => BeginKeepsLocks(s, t, call);
    case FetchLock(t) => FetchKeepsLocks(s, t);
    case Acquire(t) => AcquireKeepsLocks(s, t);
    case Finish(t) => ExitKeepsLocks(s, t); SameLocks(Exit(s, t), Step(s, a));
    case Leave(t) => ExitKeepsLocks(s, t);
    case CloseTenants => SameLocks(s, Step(s, a));
    case CloseOrgAdmin => SameLocks(s, Step(s, a));
    case _ => InnerStepKeepsLocks(s, a);
  }

  lemma OneInsideEachKey(s: State, t: Thread, u: Thread)
    requires LockInv(s) && t in s.calls && u in s.calls
    requires Inside(s.calls[t]) && Inside(s.calls[u]) && s.calls[t].call.key == s.calls[u].call.key
    ensures t == u
  {
    assert LockOk(s, t) && LockOk(s, u);
  }

  // ---- ownership ----------------------------------------------------------------------------

  /** The connection a call in flight alone is responsible for. */
  function HeldBy(stage: Stage): Option<Conn> {
    match stage
    case Opened(c) => Some(c)
    case Swapped(_, stale) => stale
    case Removed(victim) => victim
    case _ => None
  }

  /** The connection a call is going to hand out. */
  function Carried(stage: Stage): Option<Conn> {
    match stage
    case Opened(c) => Some(c)
    case Swapped(c, _) => Some(c)
    case Returning(c) => Some(c)
    case _ => None
  }

  predicate CloseOk(c: Core, conn: Conn) { conn in c.closes ==> conn in c.dialed && c.closes[conn] == 1 }

  predicate EntryOk(c: Core, k: PoolKey)
    requires k in c.entries
  {
    var e := c.entries[k];
    e.conn in c.dialed && c.dialed[e.conn] == Dialed(k, e.target) && e.conn !in c.closes
  }

  predicate CallOk(c: Core, pc: Pc) {
    && (var carried := Carried(pc.stage); carried.Some? ==>
          pc.call.Get? && carried.value in c.dialed && c.dialed[carried.value] == Dialed(pc.call.key, pc.call.target))
    && (var held := HeldBy(pc.stage); held.Some? ==>
          && held.value in c.dialed && c.dialed[held.value].key == pc.call.key && held.value !in c.closes
          && CachedConn(c, pc.call.key) != held)
  }

  predicate ReturnOk(c: Core, r: Return) { r.conn in c.dialed && c.dialed[r.conn] == Dialed(r.key, r.target) }

  ghost predicate CoreInv(c: Core) {
    && (forall conn :: conn in c.dialed ==> conn < c.next)
    && (forall conn :: CloseOk(c, conn))
    && (forall k :: k in c.entries ==> EntryOk(c, k))
  }

  ghost predicate Owned(s: State) {
    && CoreInv(s.core)
    && (forall t :: t in s.calls ==> CallOk(s.core, s.calls[t]))
    && (forall i :: 0 <= i < |s.returned| ==> ReturnOk(s.core, s.returned[i]))
  }

  predicate HeldAt(s: State, t: Thread, conn: Conn) { t in s.calls && HeldBy(s.calls[t].stage) == Some(conn) }

  predicate CachedAt(s: State, k: PoolKey, conn: Conn) { k in s.core.entries && s.core.entries[k].conn == conn }

  /** The three places a dialed connection can be. */
  ghost predicate Held(s: State, conn: Conn) { exists t :: t in s.calls && HeldBy(s.calls[t].stage) == Some(conn) }

  ghost predicate Cached(s: State, conn: Conn) { exists k :: k in s.core.entries && s.core.entries[k].conn == conn }

  predicate IsClosed(s: State, conn: Conn) { conn in s.core.closes }

  /** No dialed connection is ever lost. */
  ghost predicate Accounted(s: State) {
    forall conn :: conn in s.core.dialed ==> Held(s, conn) || Cached(s, conn) || IsClosed(s, conn)
  }

  ghost predicate Inv(s: State) { LockInv(s) && Owned(s) && Accounted(s) }

  /** A step of the call of `t`, all inside its own key, leaves every other call's
      connections as they were. */
  lemma OthersKeepTheirs(s: State, n: Core, t: Thread, u: Thread)
    requires LockInv(s) && Owned(s)
    requires t in s.calls && u in s.calls && u != t && Inside(s.calls[t])
    requires forall conn :: conn in s.core.dialed ==> conn in n.dialed && n.dialed[conn] == s.core.dialed[conn]
    requires forall k :: k != s.calls[t].call.key ==> CachedConn(n, k) == CachedConn(s.core, k)
    requires forall conn :: conn in n.closes && conn !in s.core.closes ==>
      conn in s.core.dialed && s.core.dialed[conn].key == s.calls[t].call.key
    ensures CallOk(n, s.calls[u])
  {
    assert CallOk(s.core, s.calls[u]);
    var held := HeldBy(s.calls[u].stage);
    if held.Some? && s.calls[u].call.key == s.calls[t].call.key {
      OneInsideEachKey(s, t, u);
    }
  }

  lemma CloseKeepsCore(c: Core, conn: Option<Conn>)
    requires CoreInv(c)
    requires conn.Some? ==> conn.value in c.dialed && conn.value !in c.closes
    requires conn.Some? ==> forall k :: k in c.entries ==> c.entries[k].conn != conn.value
    ensures CoreInv(CloseOne(c, conn))
  {
    var n := CloseOne(c, conn);
    forall x ensures CloseOk(n, x) { assert CloseOk(c, x); }
    forall k | k in n.entries ensures EntryOk(n, k) { assert EntryOk(c, k); }
  }

  /** A connection held by a call is in no entry at all. */
  lemma HeldIsNotCached(s: State, t: Thread)
    requires Owned(s) && t in s.calls && HeldBy(s.calls[t].stage).Some?
    ensures !Cached(s, HeldBy(s.calls[t].stage).value)
  {
    assert CallOk(s.core, s.calls[t]);
    forall k | k in s.core.entries ensures s.core.entries[k].conn != HeldBy(s.calls[t].stage).value {
      assert EntryOk(s.core, k);
    }
  }

  lemma DialKeepsCore(c: Core, k: PoolKey, target: Target)
    requires CoreInv(c)
    ensures CoreInv(Dial(c, k, target))
    ensures c.next !in c.dialed && c.next !in c.closes && (forall j :: j in c.entries ==> c.entries[j].conn != c.next)
  {
    var n := Dial(c, k, target);
    assert CloseOk(c, c.next);
    forall x ensures CloseOk(n, x) { assert CloseOk(c, x); }
    forall j | j in c.entries ensures EntryOk(n, j) { assert EntryOk(c, j); }
  }

  lemma PublishKeepsCore(c: Core, k: PoolKey, conn: Conn, target: Target)
    requires CoreInv(c)
    requires conn in c.dialed && c.dialed[conn] == Dialed(k, target) && conn !in c.closes
    ensures CoreInv(Publish(c, k, conn, target))
  {
    var n := Publish(c, k, conn, target);
    forall x ensures CloseOk(n, x) { assert CloseOk(c, x); }
    forall j | j in n.entries ensures EntryOk(n, j) { if j != k { assert EntryOk(c, j); } }
  }

  lemma ForgetKeepsCore(c: Core, k: PoolKey)
    requires CoreInv(c)
    ensures CoreInv(Forget(c, k))
    ensures k in c.entries ==> forall j :: j in Forget(c, k).entries ==> c.entries[j].conn != c.entries[k].conn
  {
    var n := Forget(c, k);
    forall x ensures CloseOk(n, x) { assert CloseOk(c, x); }
    forall j | j in n.entries ensures EntryOk(n, j) { assert EntryOk(c, j); }
    if k in c.entries {
      assert EntryOk(c, k);
      forall j | j in n.entries ensures c.entries[j].conn != c.entries[k].conn { assert EntryOk(c, j); }
    }
  }

  lemma CloseTenantsKeepsCore(c: Core)
    requires CoreInv(c)
    ensures CoreInv(CloseAllTenants(c))
  {
    var n := CloseAllTenants(c);
    forall x ensures CloseOk(n, x) {
      assert CloseOk(c, x);
      if x in TenantConns(c) {
        var k :| k in c.entries && k.Tenant? && c.entries[k].conn == x;
        assert EntryOk(c, k);
      }
    }
    forall k | k in n.entries ensures EntryOk(n, k) {
      assert EntryOk(c, k);
      forall j | j in c.entries && j.Tenant? ensures c.entries[j].conn != c.entries[k].conn {
        assert EntryOk(c, j);
      }
    }
  }

  lemma CloseOrgAdminKeepsCore(c: Core)
    requires CoreInv(c)
    ensures CoreInv(Forget(CloseOne(c, CachedConn(c, OrgAdmin)), OrgAdmin))
  {
    ForgetKeepsCore(c, OrgAdmin);
    if OrgAdmin in c.entries { assert EntryOk(c, OrgAdmin); }
    CloseKeepsCore(Forget(c, OrgAdmin), CachedConn(c, OrgAdmin));
    assert Forget(CloseOne(c, CachedConn(c, OrgAdmin)), OrgAdmin)
        == CloseOne(Forget(c, OrgAdmin), CachedConn(c, OrgAdmin));
  }

  lemma StepKeepsCore(s: State, a: Action)
    requires Inv(s) && Enabled(s, a)
    ensures CoreInv(Step(s, a).core)
  {
    if a.CloseOrgAdmin? {
      CloseOrgAdminKeepsCore(s.core);
    } else if a.CloseTenants? {
      CloseTenantsKeepsCore(s.core);
    } else if OfThread(a) {
      CallKeepsCore(s, a);
    }
  }

  lemma CallKeepsCore(s: State, a: Action)
    requires Inv(s) && Enabled(s, a) && OfThread(a)
    ensures CoreInv(Step(s, a).core)
  {
    var call, stage := s.calls[a.t].call, s.calls[a.t].stage;
    assert CallOk(s.core, s.calls[a.t]);
    match a
    case DialOk(t) => DialKeepsCore(s.core, call.key, call.target);
    case Swap(t) => PublishKeepsCore(s.core, call.key, stage.conn, call.target);
    case Remove(t) => ForgetKeepsCore(s.core, call.key);
    case CloseStale(t) =>
      if stage.stale.Some? { HeldIsNotCached(s, t); }
      CloseKeepsCore(s.core, stage.stale);
    case CloseVictim(t) =>
      if stage.victim.Some? { HeldIsNotCached(s, t); }
      CloseKeepsCore(s.core, stage.victim);
    case _ =>
  }

  /** Steps of Close: every connection closed was cached, so no call holds it. */
  lemma ClosingCachedKeepsCalls(s: State, n: Core, t: Thread)
    requires Owned(s) && t in s.calls
    requires n.dialed == s.core.dialed
    requires forall k :: CachedConn(n, k) == CachedConn(s.core, k) || CachedConn(n, k).None?
    requires forall conn :: conn in n.closes && conn !in s.core.closes ==> Cached(s, conn)
    ensures CallOk(n, s.calls[t])
  {
    assert CallOk(s.core, s.calls[t]);
    if HeldBy(s.calls[t].stage).Some? {
      HeldIsNotCached(s, t);
    }
  }

  lemma CloseKeepsCalls(s: State, a: Action, t: Thread)
    requires Owned(s) && Enabled(s, a) && (a.CloseTenants? || a.CloseOrgAdmin?) && t in s.calls
    ensures CallOk(Step(s, a).core, s.calls[t])
  {
    ClosingCachedKeepsCalls(s, Step(s, a).core, t);
  }

  lemma LookStaysOk(s: State, t: Thread)
    requires Owned(s) && Enabled(s, Look(t))
    ensures CallOk(s.core, Step(s, Look(t)).calls[t])
  {
    var key := s.calls[t].call.key;
    if key in s.core.entries {
      assert EntryOk(s.core, key);
    }
  }

  lemma SwapStaysOk(s: State, t: Thread)
    requires Owned(s) && Enabled(s, Swap(t))
    ensures CallOk(Step(s, Swap(t)).core, Step(s, Swap(t)).calls[t])
  {
    var key := s.calls[t].call.key;
    assert CallOk(s.core, s.calls[t]);
    if key in s.core.entries {
      assert EntryOk(s.core, key);
    }
  }

  lemma RemoveStaysOk(s: State, t: Thread)
    requires Owned(s) && Enabled(s, Remove(t))
    ensures CallOk(Step(s, Remove(t)).core, Step(s, Remove(t)).calls[t])
  {
    var key := s.calls[t].call.key;
    if key in s.core.entries {
      assert EntryOk(s.core, key);
    }
  }

  lemma DialStaysOk(s: State, t: Thread)
    requires Owned(s) && Enabled(s, DialOk(t))
    ensures CallOk(Step(s, DialOk(t)).core, Step(s, DialOk(t)).calls[t])
  {
    DialKeepsCore(s.core, s.calls[t].call.key, s.calls[t].call.target);
  }

  lemma CloseStaleStaysOk(s: State, t: Thread)
    requires Owned(s) && Enabled(s, CloseStale(t))
    ensures CallOk(Step(s, CloseStale(t)).core, Step(s, CloseStale(t)).calls[t])
  {
    assert CallOk(s.core, s.calls[t]);
  }

  lemma OwnCallStaysOk(s: State, a: Action)
    requires Owned(s) && Enabled(s, a) && OfThread(a) && a.t in Step(s, a).calls
    ensures CallOk(Step(s, a).core, Step(s, a).calls[a.t])
  {
    match a
    case DialOk(t) => DialStaysOk(s, t);
    case Look(t) => LookStaysOk(s, t);
    case Swap(t) => SwapStaysOk(s, t);
    case Remove(t) => RemoveStaysOk(s, t);
    case CloseStale(t) => CloseStaleStaysOk(s, t);
    case _ =>
  }

  /** A step touches at most its own thread's call. */
  lemma OtherCallsFramed(s: State, a: Action, u: Thread)
    requires Enabled(s, a) && u in Step(s, a).calls
    ensures (a.CloseTenants? || a.CloseOrgAdmin? || u != a.t) ==> u in s.calls && Step(s, a).calls[u] == s.calls[u]
    ensures a.Begin? && u == a.t ==> Step(s, a).calls[u] == Pc(a.call, Wanting)
    ensures a.Begin? ==> Step(s, a).core == s.core
  {
  }

  /** What a step does to the connections: it may dial one, and otherwise stays inside
      the key of its own call. */
  ghost predicate CoreFramed(c: Core, n: Core, k: PoolKey) {
    && (forall conn :: conn in c.dialed ==> conn in n.dialed && n.dialed[conn] == c.dialed[conn])
    && (forall j :: j != k ==> CachedConn(n, j) == CachedConn(c, j))
    && (forall conn :: conn in n.closes && conn !in c.closes ==> conn in c.dialed && c.dialed[conn].key == k)
  }

  lemma DialFrames(c: Core, k: PoolKey, target: Target)
    requires CoreInv(c)
    ensures CoreFramed(c, Dial(c, k, target), k)
  {
  }

  lemma EntryFrames(c: Core, k: PoolKey, conn: Conn, target: Target)
    ensures CoreFramed(c, Publish(c, k, conn, target), k) && CoreFramed(c, Forget(c, k), k)
  {
  }

  lemma CloseFrames(c: Core, k: PoolKey, conn: Option<Conn>)
    requires conn.Some? ==> conn.value in c.dialed && c.dialed[conn.value].key == k
    ensures CoreFramed(c, CloseOne(c, conn), k)
  {
  }

  lemma CallFramesCore(s: State, a: Action)
    requires Enabled(s, a) && OfThread(a) && CoreInv(s.core) && CallOk(s.core, s.calls[a.t])
    ensures CoreFramed(s.core, Step(s, a).core, s.calls[a.t].call.key)
  {
    var call, stage := s.calls[a.t].call, s.calls[a.t].stage;
    match a
    case DialOk(_) => DialFrames(s.core, call.key, call.target);
    case Swap(_) => EntryFrames(s.core, call.key, stage.conn, call.target);
    case Remove(_) => EntryFrames(s.core, call.key, 0, Target("", ""));
    case CloseStale(_) => CloseFrames(s.core, call.key, stage.stale);
    case CloseVictim(_) => CloseFrames(s.core, call.key, stage.victim);
    case _ =>
  }

  lemma OutsideKeepsCore(s: State, a: Action)
    requires Enabled(s, a) && OfThread(a) && !Inside(s.calls[a.t])
    ensures Step(s, a).core == s.core
  {
  }

  lemma OtherCallStaysOk(s: State, a: Action, u: Thread)
    requires Inv(s) && Enabled(s, a) && OfThread(a) && u in s.calls && u != a.t
    ensures CallOk(Step(s, a).core, s.calls[u])
  {
    assert CallOk(s.core, s.calls[a.t]) && CallOk(s.core, s.calls[u]);
    if Inside(s.calls[a.t]) {
      CallFramesCore(s, a);
      OthersKeepTheirs(s, Step(s, a).core, a.t, u);
    } else {
      OutsideKeepsCore(s, a);
    }
  }

  lemma StepKeepsCalls(s: State, a: Action)
    requires Inv(s) && Enabled(s, a)
    ensures forall u :: u in Step(s, a).calls ==> CallOk(Step(s, a).core, Step(s, a).calls[u])
  {
    forall u | u in Step(s, a).calls ensures CallOk(Step(s, a).core, Step(s, a).calls[u]) {
      OtherCallsFramed(s, a, u);
      if a.Begin? {
        if u != a.t { assert CallOk(s.core, s.calls[u]); }
      } else if !OfThread(a) {
        CloseKeepsCalls(s, a, u);
      } else if u != a.t {
        OtherCallStaysOk(s, a, u);
      } else {
        OwnCallStaysOk(s, a);
      }
    }
  }

  lemma StepKeepsReturns(s: State, a: Action)
    requires Inv(s) && Enabled(s, a)
    ensures forall i :: 0 <= i < |Step(s, a).returned| ==> ReturnOk(Step(s, a).core, Step(s, a).returned[i])
  {
    var n := Step(s, a);
    forall i | 0 <= i < |n.returned| ensures ReturnOk(n.core, n.returned[i]) {
      if i < |s.returned| {
        assert ReturnOk(s.core, s.returned[i]);
      } else {
        assert CallOk(s.core, s.calls[a.t]);
      }
    }
  }

  lemma StepKeepsAccount(s: State, a: Action)
    requires Inv(s) && Enabled(s, a)
    ensures Accounted(Step(s, a))
  {
    var n := Step(s, a);
    forall conn | conn in n.core.dialed ensures Held(n, conn) || Cached(n, conn) || IsClosed(n, conn) {
      if conn !in s.core.dialed {
        assert a.DialOk? && HeldBy(n.calls[a.t].stage) == Some(conn);
      } else if IsClosed(s, conn) {
        assert IsClosed(n, conn);
      } else if Held(s, conn) {
        var t :| t in s.calls && HeldBy(s.calls[t].stage) == Some(conn);
        HeldStaysAccounted(s, a, t);
      } else {
        var k :| k in s.core.entries && s.core.entries[k].conn == conn;
        CachedStaysAccounted(s, a, k);
      }
    }
  }

  lemma OthersStay(s: State, a: Action, t: Thread)
    requires Enabled(s, a) && t in s.calls && (OfThread(a) ==> a.t != t)
    ensures t in Step(s, a).calls && Step(s, a).calls[t] == s.calls[t]
  {
  }

  /** Whoever holds a connection publishes or closes it with its next step. */
  lemma HolderMoves(s: State, a: Action)
    requires Enabled(s, a) && OfThread(a) && HeldBy(s.calls[a.t].stage).Some?
    ensures var c := HeldBy(s.calls[a.t].stage);
      CachedConn(Step(s, a).core, s.calls[a.t].call.key) == c || IsClosed(Step(s, a), c.value)
  {
  }

  /** What a call held it still holds, or has just published or closed. */
  lemma HeldStaysAccounted(s: State, a: Action, t: Thread)
    requires Enabled(s, a) && t in s.calls && HeldBy(s.calls[t].stage).Some?
    ensures var c := HeldBy(s.calls[t].stage).value; var n := Step(s, a);
      Held(n, c) || Cached(n, c) || IsClosed(n, c)
  {
    var c, n := HeldBy(s.calls[t].stage).value, Step(s, a);
    if OfThread(a) && a.t == t {
      HolderMoves(s, a);
      var k := s.calls[t].call.key;
      if CachedConn(n.core, k) == Some(c) {
        assert n.core.entries[k].conn == c;
      }
    } else {
      OthersStay(s, a, t);
      assert HeldBy(n.calls[t].stage) == Some(c);
    }
  }

  /** A call moves its key's connection only by displacing or evicting it, and then
      holds it. */
  lemma DisplacedIsHeld(s: State, a: Action, k: PoolKey)
    requires Enabled(s, a) && OfThread(a) && k in s.core.entries
    ensures Step(s, a).core.entries == s.core.entries || a.Swap? || a.Remove?
    ensures (a.Swap? || a.Remove?) ==> k != s.calls[a.t].call.key ==>
      CachedConn(Step(s, a).core, k) == CachedConn(s.core, k)
    ensures (a.Swap? || a.Remove?) && k == s.calls[a.t].call.key ==>
      a.t in Step(s, a).calls && HeldBy(Step(s, a).calls[a.t].stage) == Some(s.core.entries[k].conn)
  {
  }

  lemma ClosedByClose(s: State, a: Action, k: PoolKey)
    requires Enabled(s, a) && (a.CloseTenants? || a.CloseOrgAdmin?) && k in s.core.entries
    ensures CachedConn(Step(s, a).core, k) == CachedConn(s.core, k) || IsClosed(Step(s, a), s.core.entries[k].conn)
  {
    if a.CloseTenants? && k.Tenant? {
      assert s.core.entries[k].conn in TenantConns(s.core);
    }
  }

  /** A cached connection stays cached, or passes to the call that displaced it, or
      has just been closed. */
  lemma CachedStaysAccounted(s: State, a: Action, k: PoolKey)
    requires Inv(s) && Enabled(s, a) && k in s.core.entries
    ensures var c := s.core.entries[k].conn; var n := Step(s, a);
      Held(n, c) || Cached(n, c) || IsClosed(n, c)
  {
    var c, n := s.core.entries[k].conn, Step(s, a);
    if a.CloseTenants? || a.CloseOrgAdmin? {
      ClosedByClose(s, a, k);
    } else if OfThread(a) {
      DisplacedIsHeld(s, a, k);
    }
    if CachedConn(n.core, k) == Some(c) {
      assert n.core.entries[k].conn == c;
    }
  }

  lemma StepKeepsInv(s: State, a: Action)
    requires Inv(s) && Enabled(s, a)
    ensures Inv(Step(s, a))
  {
    StepKeepsLocks(s, a);
    StepKeepsCore(s, a);
    StepKeepsCalls(s, a);
    StepKeepsReturns(s, a);
    StepKeepsAccount(s, a);
  }

  lemma {:induction false} RunKeepsInv(s: State, actions: seq<Action>)
    requires Inv(s) && IsRun(s, actions)
    ensures Inv(Run(s, actions))
    decreases |actions|
  {
    if actions != [] {
      StepKeepsInv(s, actions[0]);
      RunKeepsInv(Step(s, actions[0]), actions[1..]);
    }
  }

  function Count(b: bool): nat { if b then 1 else 0 }

  /** Under every interleaving, each connection ever dialed is in exactly one place:
      held by one call in flight, cached under one key, or closed, and then once. */
  lemma EveryConnectionHasOneOwner(actions: seq<Action>, conn: Conn)
    requires IsRun(Start(), actions) && conn in Run(Start(), actions).core.dialed
    ensures var s := Run(Start(), actions);
      && Count(Held(s, conn)) + Count(Cached(s, conn)) + Count(IsClosed(s, conn)) == 1
      && s.core.closes[conn] <= 1
      && (forall t, u :: HeldAt(s, t, conn) && HeldAt(s, u, conn) ==> t == u)
      && (forall j, k :: CachedAt(s, j, conn) && CachedAt(s, k, conn) ==> j == k)
  {
    RunKeepsInv(Start(), actions);
    var s := Run(Start(), actions);
    assert CloseOk(s.core, conn);
    forall t | t in s.calls && HeldBy(s.calls[t].stage) == Some(conn) ensures !Cached(s, conn) && !IsClosed(s, conn) {
      HeldIsNotCached(s, t);
      assert CallOk(s.core, s.calls[t]);
    }
    forall k | k in s.core.entries && s.core.entries[k].conn == conn ensures !IsClosed(s, conn) {
      assert EntryOk(s.core, k);
    }
    forall t, u | HeldAt(s, t, conn) && HeldAt(s, u, conn) ensures t == u {
      assert CallOk(s.core, s.calls[t]) && CallOk(s.core, s.calls[u]);
      OneInsideEachKey(s, t, u);
    }
    forall j, k | CachedAt(s, j, conn) && CachedAt(s, k, conn) ensures j == k {
      assert EntryOk(s.core, j) && EntryOk(s.core, k);
    }
  }

  /** Self-healing: every connection ever handed out was dialed for exactly the key,
      locator and region its caller asked for, and no entry visible in the map is closed. */
  lemma ReturnsMatchTheRequest(actions: seq<Action>, i: nat, k: PoolKey)
    requires IsRun(Start(), actions)
    ensures var s := Run(Start(), actions);
      && (i < |s.returned| ==> ReturnOk(s.core, s.returned[i]))
      && (k in s.core.entries ==> !IsClosed(s, s.core.entries[k].conn))
  {
    RunKeepsInv(Start(), actions);
    var s := Run(Start(), actions);
    assert i < |s.returned| ==> ReturnOk(s.core, s.returned[i]);
    assert k in s.core.entries ==> EntryOk(s.core, k);
  }
}
