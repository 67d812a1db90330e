/** internal/snowflake/pool/pool.go: the pool as one object. Each method, run without
    interference, does what the thread of PoolThreads making that call alone does. */
module Pool {
  import opened Common
  import opened PoolThreads
  import KM = KeyManager
  import R = Rotation

  // ---- one call at a time -------------------------------------------------------------------

  /** OrgAdminDB or TenantDB: a hit, a failed dial, or a dial that replaces the entry. */
  function GetAlone(c: Core, k: PoolKey, target: Target, dialWorks: bool): (Core, Option<Conn>) {
    if Hit(c, k, target) then (c, Some(c.entries[k].conn))
    else if !dialWorks then (c, None)
    else (CloseOne(Publish(Dial(c, k, target), k, c.next, target), CachedConn(c, k)), Some(c.next))
  }

  function EvictAlone(c: Core, k: PoolKey): Core { CloseOne(Forget(c, k), CachedConn(c, k)) }

  /** A request gets a connection exactly when the cached one fits or a dial works: the
      cached one, with nothing changed, or a new one, which takes its place and closes it. */
  lemma GetOutcome(c: Core, k: PoolKey, target: Target, dialWorks: bool)
    requires CoreInv(c)
    ensures var hit := k in c.entries && c.entries[k].target.locator == target.locator
                       && c.entries[k].target.region == target.region;
      var (n, r) := GetAlone(c, k, target, dialWorks);
      && (r.Some? <==> hit || dialWorks)
      && (hit ==> r == Some(c.entries[k].conn))
      && (hit || !dialWorks ==> n == c)
      && (!hit && dialWorks ==>
            && r.value !in c.dialed && n.entries == c.entries[k := Entry(r.value, target)]
            && n.dialed == c.dialed[r.value := Dialed(k, target)]
            && n.closes == if k in c.entries then c.closes + multiset{c.entries[k].conn} else c.closes)
  {
    if k in c.entries {
      assert EntryOk(c, k);
    }
  }

  /** After an eviction the key has no entry, what was cached for it has been closed once
      more, and nothing else is different. */
  lemma EvictOutcome(c: Core, k: PoolKey)
    ensures EvictAlone(c, k).entries == c.entries - {k} && EvictAlone(c, k).dialed == c.dialed
    ensures EvictAlone(c, k).closes == if k in c.entries then c.closes + multiset{c.entries[k].conn} else c.closes
  {
  }

  /** What Close leaves: nothing cached, and everything that was cached closed exactly once. */
  lemma CloseOutcome(c: Core, conn: Conn)
    requires CoreInv(c)
    ensures var n := CloseAllTenants(Forget(CloseOne(c, CachedConn(c, OrgAdmin)), OrgAdmin));
      && n.entries == map[] && n.dialed == c.dialed
      && ((exists k :: CachedUnder(c, k, conn)) ==> n.closes[conn] == 1)
      && ((forall k :: !CachedUnder(c, k, conn)) ==> n.closes[conn] == c.closes[conn])
  {
    var m := Forget(CloseOne(c, CachedConn(c, OrgAdmin)), OrgAdmin);
    CloseOrgAdminKeepsCore(c);
    CloseTenantsKeepsCore(m);
    assert conn in TenantConns(m) <==> exists k: PoolKey :: k.Tenant? && CachedUnder(c, k, conn);
    assert CachedConn(c, OrgAdmin) == Some(conn) <==> CachedUnder(c, OrgAdmin, conn);
    assert CloseOk(c, conn);
    if k :| CachedUnder(c, k, conn) {
      assert EntryOk(c, k);
    }
    if OrgAdmin in c.entries {
      assert EntryOk(c, OrgAdmin);
    }
  }

  predicate CachedUnder(c: Core, k: PoolKey, conn: Conn) { k in c.entries && c.entries[k].conn == conn }

  lemma {:induction false} OneMore(s: State, actions: seq<Action>, a: Action)
    requires IsRun(s, actions) && Enabled(Run(s, actions), a)
    ensures IsRun(s, actions + [a]) && Run(s, actions + [a]) == Step(Run(s, actions), a)
    decreases |actions|
  {
    if actions == [] {
      assert actions + [a] == [a];
    } else {
      assert (actions + [a])[1..] == actions[1..] + [a];
      OneMore(Step(s, actions[0]), actions[1..], a);
    }
  }

  /** The calling thread of `s` takes its key's lock. */
  lemma TakesTheLock(s: State, t: Thread, call: Call) returns (actions: seq<Action>)
    requires t !in s.calls && KeyLock(s, call.key) !in s.holder && (call.Evict? ==> call.key.Tenant?)
    ensures IsRun(s, actions)
    ensures Run(s, actions).core == s.core && Run(s, actions).returned == s.returned
    ensures Run(s, actions).calls == s.calls[t := Pc(call, Locked)]
  {
    actions := [];
    OneMore(s, actions, Begin(t, call));
    actions := actions + [Begin(t, call)];
    OneMore(s, actions, FetchLock(t));
    actions := actions + [FetchLock(t)];
    OneMore(s, actions, Acquire(t));
    actions := actions + [Acquire(t)];
  }

  /** The rest of a call that found nothing usable and whose dial works. */
  lemma DialsAlone(s: State, before: seq<Action>, t: Thread, k: PoolKey, target: Target) returns (actions: seq<Action>)
    requires IsRun(s, before)
    requires t in Run(s, before).calls && Run(s, before).calls[t] == Pc(Get(k, target), Dialing)
    ensures IsRun(s, actions)
    ensures Run(s, actions).core
         == CloseOne(Publish(Dial(Run(s, before).core, k, target), k, Run(s, before).core.next, target),
               CachedConn(Run(s, before).core, k))
    ensures Run(s, actions).calls == Run(s, before).calls - {t}
    ensures Run(s, actions).returned == Run(s, before).returned + [Return(k, target, Run(s, before).core.next)]
  {
    actions := before;
    OneMore(s, actions, DialOk(t));
    actions := actions + [DialOk(t)];
    OneMore(s, actions, Swap(t));
    actions := actions + [Swap(t)];
    OneMore(s, actions, CloseStale(t));
    actions := actions + [CloseStale(t)];
    OneMore(s, actions, Finish(t));
    actions := actions + [Finish(t)];
  }

  /** The rest of a call that found its connection cached, or whose dial fails. */
  lemma EndsAlone(s: State, before: seq<Action>, t: Thread, k: PoolKey, target: Target) returns (actions: seq<Action>)
    requires IsRun(s, before) && t in Run(s, before).calls
    requires Run(s, before).calls[t].call == Get(k, target)
    requires Run(s, before).calls[t].stage.Returning? || Run(s, before).calls[t].stage.Dialing?
    ensures IsRun(s, actions)
    ensures Run(s, actions).core == Run(s, before).core && Run(s, actions).calls == Run(s, before).calls - {t}
    ensures Run(s, actions).returned == Run(s, before).returned + if Run(s, before).calls[t].stage.Returning?
      then [Return(k, target, Run(s, before).calls[t].stage.conn)] else []
  {
    actions := before;
    if Run(s, before).calls[t].stage.Returning? {
      OneMore(s, actions, Finish(t));
      actions := actions + [Finish(t)];
    } else {
      OneMore(s, actions, DialFails(t));
      actions := actions + [DialFails(t)];
      OneMore(s, actions, Leave(t));
      actions := actions + [Leave(t)];
    }
  }

  /** There is a run of the one thread `t`, with everyone else standing still, that
      does exactly GetAlone and returns its connection. */
  lemma GetAloneIsARun(s: State, t: Thread, k: PoolKey, target: Target, dialWorks: bool) returns (actions: seq<Action>)
    requires t !in s.calls && KeyLock(s, k) !in s.holder
    ensures IsRun(s, actions)
    ensures var e := Run(s, actions); var alone := GetAlone(s.core, k, target, dialWorks);
      && e.core == alone.0 && e.calls == s.calls
      && e.returned == if alone.1.Some? then s.returned + [Return(k, target, alone.1.value)] else s.returned
  {
    actions := TakesTheLock(s, t, Get(k, target));
    OneMore(s, actions, Look(t));
    actions := actions + [Look(t)];
    if Hit(s.core, k, target) || !dialWorks {
      actions := EndsAlone(s, actions, t, k, target);
    } else {
      actions := DialsAlone(s, actions, t, k, target);
    }
    assert Run(s, actions).calls == s.calls;
  }

  lemma EvictAloneIsARun(s: State, t: Thread, k: PoolKey) returns (actions: seq<Action>)
    requires t !in s.calls && KeyLock(s, k) !in s.holder && k.Tenant?
    ensures IsRun(s, actions)
    ensures Run(s, actions).core == EvictAlone(s.core, k) && Run(s, actions).calls == s.calls
    ensures Run(s, actions).returned == s.returned
  {
    actions := TakesTheLock(s, t, Evict(k));
    OneMore(s, actions, Remove(t));
    actions := actions + [Remove(t)];
    OneMore(s, actions, CloseVictim(t));
    actions := actions + [CloseVictim(t)];
    OneMore(s, actions, Leave(t));
    actions := actions + [Leave(t)];
    assert Run(s, actions).calls == s.calls;
  }

  // ---- the object ------------------------------------------------------------------------------

  /** What has been dialed and closed through the SQL driver. */
  class Driver {
    var dialed: map<Conn, Dialed>
    var closes: multiset<Conn>
    var next: Conn

    constructor ()
      ensures dialed == map[] && closes == multiset{} && next == 0
    {
      dialed, closes, next := map[], multiset{}, 0;
    }

    method Open(k: PoolKey, target: Target, works: bool) returns (conn: Option<Conn>)
      modifies this
      ensures conn == if works then Some(old(next)) else None
      ensures dialed == if works then old(dialed)[old(next) := Dialed(k, target)] else old(dialed)
      ensures next == if works then old(next) + 1 else old(next)
      ensures closes == old(closes)
    {
      if !works {
        return None;
      }
      dialed := dialed[next := Dialed(k, target)];
      conn := Some(next);
      next := next + 1;
    }

    method Close(conn: Conn)
      modifies this`closes
      ensures closes == old(closes)[conn := old(closes)[conn] + 1]
    {
      closes := closes[conn := closes[conn] + 1];
    }
  }

  /** What one call meets if it has to dial: whether the host name can be built, how the
      credential's read ends and when it is, and whether the key parses and the probe of
      the connection succeeds. */
  datatype DialCalls = DialCalls(hostOk: bool, readFails: bool, now: int, later: int, works: bool)

  function Got(r: Result<Conn>): Option<Conn> { if r.Ok? then Some(r.value) else None }

  class Pool {
    const driver: Driver
    const keyManager: KM.KeyManager<R.Key>
    const orgAdminTarget: Target
    var orgAdminDB: Option<Conn>
    var entries: map<PoolKey, Entry>

    constructor (driver: Driver, keyManager: KM.KeyManager<R.Key>, orgAdminTarget: Target)
      ensures this.driver == driver && this.keyManager == keyManager && this.orgAdminTarget == orgAdminTarget
      ensures orgAdminDB == None && entries == map[]
    {
      this.driver := driver;
      this.keyManager := keyManager;
      this.orgAdminTarget := orgAdminTarget;
      orgAdminDB, entries := None, map[];
    }

    ghost predicate Valid()
      reads this, driver
    {
      OrgAdmin !in entries && CoreInv(CoreOf())
    }

    /** The pool and its driver as one value, the org-admin connection under its own key. */
    ghost function CoreOf(): Core
      reads this, driver
    {
      Core(if orgAdminDB.Some? then entries[OrgAdmin := Entry(orgAdminDB.value, orgAdminTarget)] else entries,
           driver.dialed, driver.closes, driver.next)
    }

    /** The user behind a connection, with the same secrets as the pool. */
    ghost predicate Serves(rotator: R.Rotator, rows: seq<R.DescRow>)
      reads this, rotator, rotator.keyManager, rotator.keyManager.store, rotator.user
    {
      rotator.keyManager == keyManager && rotator.Valid() && rotator.Described(rows)
    }

    /** A dial would succeed: the host name can be built, the credential is there and can
        be read, from the cache or the store, and the connection answers. */
    ghost predicate CanDial(id: string, d: DialCalls, rotator: R.Rotator)
      reads this, rotator, rotator.keyManager, rotator.keyManager.store
    {
      d.hostOk && rotator.HasCredential(id) && (rotator.Cached(id, d.now) || !d.readFails) && d.works
    }

    /** Nothing but the cache of credentials has changed. */
    twostate predicate SecretsUntouched(rotator: R.Rotator)
      reads rotator, rotator.keyManager, rotator.keyManager.store, rotator.user
    {
      && rotator.keyManager.store.entries == old(rotator.keyManager.store.entries)
      && rotator.user.slot1 == old(rotator.user.slot1) && rotator.user.slot2 == old(rotator.user.slot2)
    }

    /** The connection handed out was rotated over first: store and slots are as Rotate
        leaves them. `cached`: the credential can be read back from the cache. */
    twostate predicate Rotated(id: string, rotator: R.Rotator, a: R.Attempt, cached: bool)
      reads rotator, rotator.keyManager, rotator.keyManager.store, rotator.user
    {
      && (rotator.HasCredential(id) <==> old(rotator.HasCredential(id)))
      && (rotator.HasCredential(id) ==>
            rotator.LoginAt(id)
            == R.Rotate(old(rotator.LoginAt(id)), rotator.interval, a.(readFails := a.readFails && !cached)))
      && (!rotator.HasCredential(id) ==> SecretsUntouched(rotator))
    }

    /** The credential is in the cache at `now`, after a call that dialed if it did not
        `hit`: the dial's read leaves the entry it found or caches a new one. */
    ghost predicate CachedAfter(hit: bool, id: string, d: DialCalls, rotator: R.Rotator, now: int)
      reads rotator, rotator.keyManager
    {
      if hit || rotator.Cached(id, d.now) then rotator.Cached(id, now) else now < d.later + rotator.keyManager.ttl
    }

    /** The inline rotation, under the lock of the connection's target. */
    method MaybeRotate(id: string, rotator: R.Rotator, rows: seq<R.DescRow>, a: R.Attempt)
      requires Serves(rotator, rows)
      modifies keyManager`entries, keyManager.store`entries, rotator.user
      ensures rotator.Valid() && Rotated(id, rotator, a, old(rotator.Cached(id, a.now)))
    {
      rotator.MaybeRotateLocked(id, rows, a);
    }

    method ReadCredentials(id: string, d: DialCalls, rotator: R.Rotator) returns (ok: bool)
      requires rotator.keyManager == keyManager && rotator.Valid() && d.now <= d.later
      modifies keyManager`entries
      ensures rotator.Valid()
      ensures ok <==> old(rotator.HasCredential(id) && (rotator.Cached(id, d.now) || !d.readFails))
      ensures ok ==> forall now :: rotator.Cached(id, now) <==> old(CachedAfter(false, id, d, rotator, now))
    {
      var creds := keyManager.GetCredentials(id, d.now, d.later, d.readFails);
      return creds.Done?;
    }

    method OrgAdminDB(id: Result<string>, d: DialCalls, rotator: R.Rotator, rows: seq<R.DescRow>, a: R.Attempt)
        returns (r: Result<Conn>)
      requires Valid() && Serves(rotator, rows) && d.now <= d.later
      modifies this`orgAdminDB, driver, keyManager`entries, keyManager.store`entries, rotator.user
      ensures Valid() && rotator.Valid()
      ensures id.Err? ==> r == Err(id.error) && CoreOf() == old(CoreOf())
      ensures id.Ok? ==>
        (CoreOf(), Got(r)) == GetAlone(old(CoreOf()), OrgAdmin, orgAdminTarget, old(CanDial(id.value, d, rotator)))
      ensures id.Ok? && r.Err? ==> r.error == if d.hostOk then SystemError else UserError
      ensures r.Ok? ==> id.Ok?
      ensures r.Ok? ==>
        Rotated(id.value, rotator, a, old(CachedAfter(orgAdminDB.Some?, id.value, d, rotator, a.now)))
      ensures r.Err? ==> SecretsUntouched(rotator)
    {
      if id.Err? {
        return Err(id.error);
      }
      r := ObtainOrgAdmin(id.value, d, rotator);
      if r.Ok? {
        MaybeRotate(id.value, rotator, rows, a);
      }
    }

    /** The cached org-admin connection, or a new one. */
    method ObtainOrgAdmin(id: string, d: DialCalls, rotator: R.Rotator) returns (r: Result<Conn>)
      requires Valid() && rotator.keyManager == keyManager && rotator.Valid() && d.now <= d.later
      modifies this`orgAdminDB, driver, keyManager`entries
      ensures Valid() && rotator.Valid()
      ensures (CoreOf(), Got(r)) == GetAlone(old(CoreOf()), OrgAdmin, orgAdminTarget, old(CanDial(id, d, rotator)))
      ensures r.Err? ==> r.error == if d.hostOk then SystemError else UserError
      ensures r.Ok? ==>
        forall now :: rotator.Cached(id, now) <==> old(CachedAfter(orgAdminDB.Some?, id, d, rotator, now))
    {
      if orgAdminDB.Some? {
        return Ok(orgAdminDB.value);
      }
      if !d.hostOk {
        return Err(UserError);
      }
      var read := ReadCredentials(id, d, rotator);
      if !read {
        return Err(SystemError);
      }
      ghost var before := CoreOf();
      var db := driver.Open(OrgAdmin, orgAdminTarget, d.works);
      if db.None? {
        return Err(SystemError);
      }
      DialKeepsCore(before, OrgAdmin, orgAdminTarget);
      PublishKeepsCore(Dial(before, OrgAdmin, orgAdminTarget), OrgAdmin, before.next, orgAdminTarget);
      orgAdminDB := db;
      return Ok(db.value);
    }

    method TenantDB(
        k: PoolKey, target: Target, id: Result<string>, d: DialCalls,
        rotator: R.Rotator, rows: seq<R.DescRow>, a: R.Attempt)
        returns (r: Result<Conn>)
      requires Valid() && k.Tenant? && Serves(rotator, rows) && d.now <= d.later
      modifies this`entries, driver, keyManager`entries, keyManager.store`entries, rotator.user
      ensures Valid() && rotator.Valid()
      ensures id.Err? ==> r == Err(id.error) && CoreOf() == old(CoreOf())
      ensures id.Ok? ==>
        (CoreOf(), Got(r)) == GetAlone(old(CoreOf()), k, target, old(CanDial(id.value, d, rotator)))
      ensures id.Ok? && r.Err? ==> r.error == if d.hostOk then SystemError else UserError
      ensures r.Ok? ==> id.Ok?
      ensures r.Ok? ==>
        Rotated(id.value, rotator, a, old(CachedAfter(Hit(CoreOf(), k, target), id.value, d, rotator, a.now)))
      ensures r.Err? ==> SecretsUntouched(rotator)
    {
      if id.Err? {
        return Err(id.error);
      }
      r := ObtainTenant(k, target, id.value, d, rotator);
      if r.Ok? {
        MaybeRotate(id.value, rotator, rows, a);
      }
    }

    /** The cached connection of the tenant, or a new one. */
    method ObtainTenant(k: PoolKey, target: Target, id: string, d: DialCalls, rotator: R.Rotator)
        returns (r: Result<Conn>)
      requires Valid() && k.Tenant? && rotator.keyManager == keyManager && rotator.Valid() && d.now <= d.later
      modifies this`entries, driver, keyManager`entries
      ensures Valid() && rotator.Valid()
      ensures (CoreOf(), Got(r)) == GetAlone(old(CoreOf()), k, target, old(CanDial(id, d, rotator)))
      ensures r.Err? ==> r.error == if d.hostOk then SystemError else UserError
      ensures r.Ok? ==>
        forall now :: rotator.Cached(id, now) <==> old(CachedAfter(Hit(CoreOf(), k, target), id, d, rotator, now))
    {
      if k in entries && entries[k].target == target {
        return Ok(entries[k].conn);
      }
      if !d.hostOk {
        return Err(UserError);
      }
      var read := ReadCredentials(id, d, rotator);
      if !read {
        return Err(SystemError);
      }
      var db := DialTenant(k, target, d.works);
      return if db.Some? then Ok(db.value) else Err(SystemError);
    }

    /** The part of TenantDB that dials, publishes the new entry and closes the stale one. */
    method DialTenant(k: PoolKey, target: Target, works: bool) returns (db: Option<Conn>)
      requires Valid() && k.Tenant? && !Hit(CoreOf(), k, target)
      modifies this`entries, driver
      ensures Valid()
      ensures (CoreOf(), db) == GetAlone(old(CoreOf()), k, target, works)
    {
      ghost var before := CoreOf();
      db := driver.Open(k, target, works);
      if db.None? {
        return;
      }
      var hadStale := k in entries;
      var stale := if hadStale then entries[k].conn else db.value;
      entries := entries[k := Entry(db.value, target)];
      ghost var published := Publish(Dial(before, k, target), k, before.next, target);
      assert CoreOf() == published;
      DialKeepsCore(before, k, target);
      PublishKeepsCore(Dial(before, k, target), k, before.next, target);
      if hadStale { StaleIsUncached(before, k, target); }
      CloseKeepsCore(published, CachedConn(before, k));
      if hadStale {
        driver.Close(stale);
      }
      assert CoreOf() == CloseOne(published, CachedConn(before, k));
    }

    method EvictTenant(k: PoolKey)
      requires Valid() && k.Tenant?
      modifies this`entries, driver
      ensures Valid()
      ensures CoreOf() == EvictAlone(old(CoreOf()), k)
    {
      ghost var before := CoreOf();
      ForgetKeepsCore(before, k);
      var ok := k in entries;
      var victim := if ok then Some(entries[k].conn) else None;
      entries := entries - {k};
      assert CoreOf() == Forget(before, k);
      assert ok ==> EntryOk(before, k);
      CloseKeepsCore(Forget(before, k), CachedConn(before, k));
      if ok {
        driver.Close(victim.value);
      }
    }

    /** The loop of Close: every entry is closed once, whichever of the closes fail. */
    method CloseEntries(closeFails: set<Conn>) returns (failed: bool)
      requires forall j, k :: j in entries && k in entries && entries[j].conn == entries[k].conn ==> j == k
      modifies driver
      ensures driver.dialed == old(driver.dialed) && driver.next == old(driver.next)
      ensures driver.closes == old(driver.closes) + multiset(set k | k in entries :: entries[k].conn)
      ensures failed <==> exists k :: k in entries && entries[k].conn in closeFails
    {
      failed := false;
      var todo := entries.Keys;
      ghost var closed: set<Conn> := {};
      while todo != {}
        invariant todo <= entries.Keys
        invariant driver.dialed == old(driver.dialed) && driver.next == old(driver.next)
        invariant forall c :: c in closed <==> exists k :: k in entries && k !in todo && entries[k].conn == c
        invariant driver.closes == old(driver.closes) + multiset(closed)
        invariant failed <==> exists k :: k in entries && k !in todo && entries[k].conn in closeFails
      {
        var k :| k in todo;
        driver.Close(entries[k].conn);
        failed := failed || entries[k].conn in closeFails;
        assert entries[k].conn !in closed;
        closed := closed + {entries[k].conn};
        todo := todo - {k};
      }
      assert closed == set k | k in entries :: entries[k].conn;
    }

    /** The half of Close under orgAdminMu. */
    method CloseOrgAdminDB(closeFails: set<Conn>) returns (failed: bool)
      requires Valid()
      modifies this`orgAdminDB, driver
      ensures Valid()
      ensures CoreOf() == Forget(CloseOne(old(CoreOf()), CachedConn(old(CoreOf()), OrgAdmin)), OrgAdmin)
      ensures failed <==> old(orgAdminDB).Some? && old(orgAdminDB).value in closeFails
      ensures orgAdminDB == None
    {
      ghost var before := CoreOf();
      CloseOrgAdminKeepsCore(before);
      failed := false;
      if orgAdminDB.Some? {
        driver.Close(orgAdminDB.value);
        failed := orgAdminDB.value in closeFails;
        orgAdminDB := None;
      }
      assert CoreOf() == Forget(CloseOne(before, CachedConn(before, OrgAdmin)), OrgAdmin);
    }

    /** The half of Close under entriesMu. */
    method CloseTenantDBs(closeFails: set<Conn>) returns (failed: bool)
      requires Valid()
      modifies this`entries, driver
      ensures Valid()
      ensures CoreOf() == CloseAllTenants(old(CoreOf()))
      ensures failed <==> exists k :: k in old(entries) && old(entries)[k].conn in closeFails
    {
      ghost var before := CoreOf();
      CloseTenantsKeepsCore(before);
      ClosedTenants(before, entries);
      forall j, k | j in entries && k in entries && entries[j].conn == entries[k].conn ensures j == k {
        assert EntryOk(before, j) && EntryOk(before, k);
      }
      failed := CloseEntries(closeFails);
      entries := map[];
      assert CoreOf().entries == CloseAllTenants(before).entries;
    }

    /** Closes everything cached, whichever of the closes fail, and reports whether any did. */
    method Close(closeFails: set<Conn>) returns (failed: bool)
      requires Valid()
      modifies this`orgAdminDB, this`entries, driver
      ensures Valid()
      ensures CoreOf()
          == CloseAllTenants(Forget(CloseOne(old(CoreOf()), CachedConn(old(CoreOf()), OrgAdmin)), OrgAdmin))
      ensures failed <==>
        (old(orgAdminDB).Some? && old(orgAdminDB).value in closeFails)
        || exists k :: k in old(entries) && old(entries)[k].conn in closeFails
    {
      var orgAdminFailed := CloseOrgAdminDB(closeFails);
      var tenantFailed := CloseTenantDBs(closeFails);
      return orgAdminFailed || tenantFailed;
    }
  }

  lemma ClosedTenants(c: Core, tenants: map<PoolKey, Entry>)
    requires OrgAdmin !in tenants && tenants == c.entries - {OrgAdmin}
    ensures CloseAllTenants(c).entries == if OrgAdmin in c.entries then map[OrgAdmin := c.entries[OrgAdmin]] else map[]
    ensures TenantConns(c) == set k | k in tenants :: tenants[k].conn
  {
    forall k | k in tenants ensures k.Tenant? && c.entries[k] == tenants[k] { }
  }

  /** A displaced entry's connection is in no entry once the new one is published. */
  lemma StaleIsUncached(c: Core, k: PoolKey, target: Target)
    requires CoreInv(c) && k in c.entries
    ensures forall j :: j in Publish(Dial(c, k, target), k, c.next, target).entries ==>
      Publish(Dial(c, k, target), k, c.next, target).entries[j].conn != c.entries[k].conn
    ensures c.entries[k].conn in c.dialed && c.entries[k].conn !in c.closes
  {
    assert EntryOk(c, k);
    forall j | j in c.entries ensures j != k ==> c.entries[j].conn != c.entries[k].conn {
      assert EntryOk(c, j);
    }
  }
}
