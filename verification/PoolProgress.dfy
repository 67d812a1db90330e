/** What the locking of internal/snowflake/pool/pool.go buys: concurrent callers share
    one dial, and no key ever waits for another. */
module PoolProgress {
  import opened Common
  import opened PoolThreads

  // ---- single flight ------------------------------------------------------------------------

  ghost function DialedFor(c: Core, k: PoolKey): set<Conn> {
    set conn | conn in c.dialed && c.dialed[conn].key == k
  }

  /** Nothing but requests for this one target happens to key `k`: no eviction, no
      other locator or region, no Close. Other keys are free. */
  predicate Undisturbed(a: Action, k: PoolKey, target: Target) {
    match a
    case Begin(_, call) => call.key == k ==> call == Get(k, target)
    case CloseTenants => k.OrgAdmin?
    case CloseOrgAdmin => k.Tenant?
    case _ => true
  }

  ghost predicate IsQuietRun(s: State, actions: seq<Action>, k: PoolKey, target: Target)
    decreases |actions|
  {
    actions == [] || (Enabled(s, actions[0]) && Undisturbed(actions[0], k, target)
                      && IsQuietRun(Step(s, actions[0]), actions[1..], k, target))
  }

  ghost predicate NobodyOn(s: State, k: PoolKey) {
    forall t :: t in s.calls ==> s.calls[t].call.key != k
  }

  /** A call on `k` asks for the target, carries nothing but `c`, and is dialing only
      as long as there is no `c`. */
  predicate SharesOne(pc: Pc, k: PoolKey, target: Target, c: Option<Conn>) {
    pc.call.key == k ==>
      && pc.call == Get(k, target)
      && (Carried(pc.stage).Some? ==> Carried(pc.stage) == c)
      && (pc.stage.Dialing? ==> c.None?)
  }

  ghost predicate OpenedBySome(s: State, k: PoolKey, c: Conn) {
    exists t :: t in s.calls && s.calls[t].call.key == k && s.calls[t].stage == Opened(c)
  }

  /** Since the state `b`, key `k` has been served by the connection `c` alone. */
  ghost predicate ServedByOne(b: State, s: State, k: PoolKey, target: Target, c: Option<Conn>) {
    && (forall t :: t in s.calls ==> SharesOne(s.calls[t], k, target, c))
    && |b.returned| <= |s.returned|
    && (forall i :: |b.returned| <= i < |s.returned| && s.returned[i].key == k ==> c == Some(s.returned[i].conn))
    && (c.None? ==> DialedFor(s.core, k) == DialedFor(b.core, k) && !Hit(s.core, k, target))
    && (c.Some? ==>
          && DialedFor(s.core, k) == DialedFor(b.core, k) + {c.value}
          && ((Hit(s.core, k, target) && s.core.entries[k].conn == c.value) || OpenedBySome(s, k, c.value)))
  }

  /** What it takes for a step from `s` to `n` to keep `k` served by one connection: at
      most one return on the key, of that connection, and a dial only if there was none. */
  lemma StillServedByOne(b: State, s: State, n: State, k: PoolKey, target: Target, c: Option<Conn>, d: Option<Conn>,
        r: seq<Return>)
    requires ServedByOne(b, s, k, target, c) && (c.Some? ==> d == c)
    requires forall t :: t in n.calls ==> SharesOne(n.calls[t], k, target, d)
    requires n.returned == s.returned + r && forall i :: 0 <= i < |r| && r[i].key == k ==> c == Some(r[i].conn)
    requires DialedFor(n.core, k) == DialedFor(s.core, k) + if d != c then {d.value} else {}
    requires d.None? ==> !Hit(n.core, k, target)
    requires d.Some? ==> (Hit(n.core, k, target) && n.core.entries[k].conn == d.value) || OpenedBySome(n, k, d.value)
    ensures ServedByOne(b, n, k, target, d)
  {
  }

  lemma DialedMoves(s: State, a: Action)
    requires Enabled(s, a)
    ensures Step(s, a).core.dialed == if a.DialOk?
      then s.core.dialed[s.core.next := Dialed(s.calls[a.t].call.key, s.calls[a.t].call.target)] else s.core.dialed
  {
  }

  lemma OneMoreDialed(c: Core, n: Core, d: Dialed, k: PoolKey)
    requires c.next !in c.dialed && n.dialed == c.dialed[c.next := d]
    ensures DialedFor(n, k) == DialedFor(c, k) + if d.key == k then {c.next} else {}
  {
  }

  lemma DialedForGrows(s: State, a: Action, k: PoolKey)
    requires Owned(s) && Enabled(s, a)
    ensures DialedFor(Step(s, a).core, k) ==
      DialedFor(s.core, k) + if a.DialOk? && s.calls[a.t].call.key == k then {s.core.next} else {}
  {
    assert s.core.next !in s.core.dialed;
    DialedMoves(s, a);
    if a.DialOk? {
      OneMoreDialed(s.core, Step(s, a).core, Dialed(s.calls[a.t].call.key, s.calls[a.t].call.target), k);
    }
  }

  predicate Elsewhere(s: State, a: Action, k: PoolKey)
    requires Enabled(s, a)
  {
    OfThread(a) ==> s.calls[a.t].call.key != k
  }

  /** A step on another key, or of Close on the other kind of key, leaves the entry and
      the calls of `k` alone; it may begin one more call. */
  lemma EntryFramed(s: State, a: Action, k: PoolKey, target: Target)
    requires Enabled(s, a) && Undisturbed(a, k, target) && Elsewhere(s, a, k)
    ensures k in Step(s, a).core.entries <==> k in s.core.entries
    ensures k in s.core.entries ==> Step(s, a).core.entries[k] == s.core.entries[k]
  {
  }

  lemma CallsFramed(s: State, a: Action, k: PoolKey, target: Target, t: Thread)
    requires Enabled(s, a) && Undisturbed(a, k, target) && Elsewhere(s, a, k)
    ensures t in s.calls && s.calls[t].call.key == k ==> t in Step(s, a).calls && Step(s, a).calls[t] == s.calls[t]
    ensures t in Step(s, a).calls && Step(s, a).calls[t].call.key == k ==>
      (t in s.calls && Step(s, a).calls[t] == s.calls[t]) || Step(s, a).calls[t] == Pc(Get(k, target), Wanting)
  {
  }

  lemma ReturnsFramed(s: State, a: Action)
    requires Enabled(s, a)
    ensures Step(s, a).returned == if a.Finish?
      then s.returned + [Return(s.calls[a.t].call.key, s.calls[a.t].call.target, s.calls[a.t].stage.conn)]
      else s.returned
  {
  }

  lemma CallsElsewhereShare(s: State, a: Action, k: PoolKey, target: Target, c: Option<Conn>)
    requires Enabled(s, a) && Undisturbed(a, k, target) && Elsewhere(s, a, k)
    requires forall t :: t in s.calls ==> SharesOne(s.calls[t], k, target, c)
    ensures forall t :: t in Step(s, a).calls ==> SharesOne(Step(s, a).calls[t], k, target, c)
  {
    forall t | t in Step(s, a).calls ensures SharesOne(Step(s, a).calls[t], k, target, c) {
      CallsFramed(s, a, k, target, t);
      if t in s.calls { assert SharesOne(s.calls[t], k, target, c); }
    }
  }

  lemma OpenedElsewhereStays(s: State, a: Action, k: PoolKey, target: Target, c: Conn)
    requires Enabled(s, a) && Undisturbed(a, k, target) && Elsewhere(s, a, k) && OpenedBySome(s, k, c)
    ensures OpenedBySome(Step(s, a), k, c)
  {
    var t :| t in s.calls && s.calls[t].call.key == k && s.calls[t].stage == Opened(c);
    CallsFramed(s, a, k, target, t);
  }

  lemma ElsewhereIsIrrelevant(b: State, s: State, a: Action, k: PoolKey, target: Target, c: Option<Conn>)
    requires Owned(s) && Enabled(s, a) && Undisturbed(a, k, target) && Elsewhere(s, a, k)
    requires ServedByOne(b, s, k, target, c)
    ensures ServedByOne(b, Step(s, a), k, target, c)
  {
    DialedForGrows(s, a, k);
    EntryFramed(s, a, k, target);
    ReturnsFramed(s, a);
    CallsElsewhereShare(s, a, k, target, c);
    if c.Some? && OpenedBySome(s, k, c.value) {
      OpenedElsewhereStays(s, a, k, target, c.value);
    }
  }

  /** What `c` is after one more step: set by the first dial that succeeds. */
  function After(s: State, a: Action, k: PoolKey, c: Option<Conn>): Option<Conn> {
    if a.DialOk? && a.t in s.calls && s.calls[a.t].call.key == k then Some(s.core.next) else c
  }

  /** The other calls on the key are outside its lock while one of them is inside. */
  lemma OthersStayOutside(s: State, a: Action, u: Thread)
    requires LockInv(s) && Enabled(s, a) && OfThread(a) && u in Step(s, a).calls && u != a.t
    ensures u in s.calls && Step(s, a).calls[u] == s.calls[u]
    ensures Inside(s.calls[a.t]) && s.calls[u].call.key == s.calls[a.t].call.key ==> !Inside(s.calls[u])
  {
    OtherCallsFramed(s, a, u);
    if Inside(s.calls[a.t]) && Inside(s.calls[u]) && s.calls[u].call.key == s.calls[a.t].call.key {
      OneInsideEachKey(s, a.t, u);
    }
  }

  lemma OwnCallSharesOne(b: State, s: State, a: Action, k: PoolKey, target: Target, c: Option<Conn>)
    requires Enabled(s, a) && ServedByOne(b, s, k, target, c)
    requires OfThread(a) && s.calls[a.t].call.key == k && a.t in Step(s, a).calls
    requires a.Look? ==> c == if Hit(s.core, k, target) then Some(s.core.entries[k].conn) else None
    ensures SharesOne(Step(s, a).calls[a.t], k, target, After(s, a, k, c))
  {
    assert SharesOne(s.calls[a.t], k, target, c);
  }

  /** Looking at the map happens inside the lock, so nobody has an unpublished one. */
  lemma LookSeesIt(b: State, s: State, t: Thread, k: PoolKey, target: Target, c: Option<Conn>)
    requires LockInv(s) && Enabled(s, Look(t)) && ServedByOne(b, s, k, target, c) && s.calls[t].call.key == k
    ensures c == if Hit(s.core, k, target) then Some(s.core.entries[k].conn) else None
  {
    if c.Some? && OpenedBySome(s, k, c.value) {
      var u :| u in s.calls && s.calls[u].call.key == k && s.calls[u].stage == Opened(c.value);
      OneInsideEachKey(s, t, u);
    }
  }

  /** The call that opened the connection is still there, unless it is the one moving. */
  lemma OpenerStays(s: State, a: Action, k: PoolKey, c: Conn)
    requires LockInv(s) && Enabled(s, a) && OfThread(a) && s.calls[a.t].call.key == k && OpenedBySome(s, k, c)
    ensures OpenedBySome(Step(s, a), k, c) || (a.Swap? && s.calls[a.t].stage == Opened(c))
    ensures Inside(s.calls[a.t]) ==> s.calls[a.t].stage == Opened(c)
  {
    var u :| u in s.calls && s.calls[u].call.key == k && s.calls[u].stage == Opened(c);
    if u != a.t {
      OthersStay(s, a, u);
      if Inside(s.calls[a.t]) { OneInsideEachKey(s, a.t, u); }
    }
  }

  /** The entry of the moving call's key changes only by Swap and Remove. */
  lemma EntryMoves(s: State, a: Action, k: PoolKey)
    requires Enabled(s, a) && OfThread(a) && s.calls[a.t].call.key == k
    ensures Step(s, a).core.entries
         == if a.Swap? then s.core.entries[k := Entry(s.calls[a.t].stage.conn, s.calls[a.t].call.target)]
                                       else if a.Remove? then s.core.entries - {k} else s.core.entries
    ensures a.Remove? ==> s.calls[a.t].call.Evict?
    ensures a.DialOk? ==> a.t in Step(s, a).calls && Step(s, a).calls[a.t] == Pc(s.calls[a.t].call, Opened(s.core.next))
  {
  }

  lemma DialOpens(s: State, t: Thread, k: PoolKey)
    requires Enabled(s, DialOk(t)) && s.calls[t].call.key == k
    ensures OpenedBySome(Step(s, DialOk(t)), k, s.core.next)
  {
    assert Step(s, DialOk(t)).calls[t] == Pc(s.calls[t].call, Opened(s.core.next));
  }

  /** The entry of the key after a step of a call on it that dials nothing. */
  lemma EntryAfterOther(b: State, s: State, a: Action, k: PoolKey, target: Target, c: Option<Conn>)
    requires LockInv(s) && Enabled(s, a) && ServedByOne(b, s, k, target, c)
    requires OfThread(a) && s.calls[a.t].call.key == k && !a.DialOk?
    ensures c.None? ==> !Hit(Step(s, a).core, k, target)
    ensures c.Some? ==>
      || (Hit(Step(s, a).core, k, target) && Step(s, a).core.entries[k].conn == c.value)
      || OpenedBySome(Step(s, a), k, c.value)
  {
    assert SharesOne(s.calls[a.t], k, target, c);
    EntryMoves(s, a, k);
    if c.Some? && OpenedBySome(s, k, c.value) {
      OpenerStays(s, a, k, c.value);
    }
  }

  lemma EntryAfterCall(b: State, s: State, a: Action, k: PoolKey, target: Target, c: Option<Conn>)
    requires LockInv(s) && Owned(s) && Enabled(s, a) && ServedByOne(b, s, k, target, c)
    requires OfThread(a) && s.calls[a.t].call.key == k
    ensures var n, d := Step(s, a), After(s, a, k, c);
      && (d.None? ==> !Hit(n.core, k, target))
      && (d.Some? ==> (Hit(n.core, k, target) && n.core.entries[k].conn == d.value) || OpenedBySome(n, k, d.value))
  {
    if a.DialOk? {
      DialOpens(s, a.t, k);
    } else {
      EntryAfterOther(b, s, a, k, target, c);
    }
  }

  lemma CallsOnKeyShare(b: State, s: State, a: Action, k: PoolKey, target: Target, c: Option<Conn>)
    requires LockInv(s) && Enabled(s, a) && ServedByOne(b, s, k, target, c)
    requires OfThread(a) && s.calls[a.t].call.key == k
    ensures forall u :: u in Step(s, a).calls ==> SharesOne(Step(s, a).calls[u], k, target, After(s, a, k, c))
    ensures c.Some? ==> After(s, a, k, c) == c
  {
    assert SharesOne(s.calls[a.t], k, target, c);
    if a.Look? { LookSeesIt(b, s, a.t, k, target, c); }
    forall u | u in Step(s, a).calls ensures SharesOne(Step(s, a).calls[u], k, target, After(s, a, k, c)) {
      if u == a.t {
        OwnCallSharesOne(b, s, a, k, target, c);
      } else {
        OthersStayOutside(s, a, u);
        assert SharesOne(s.calls[u], k, target, c);
      }
    }
  }

  /** What the step of a call on the key returns, if it ends it. */
  lemma ReturnsOnKey(b: State, s: State, a: Action, k: PoolKey, target: Target, c: Option<Conn>)
      returns (r: seq<Return>)
    requires Enabled(s, a) && ServedByOne(b, s, k, target, c) && OfThread(a) && s.calls[a.t].call.key == k
    ensures Step(s, a).returned == s.returned + r
    ensures forall i :: 0 <= i < |r| && r[i].key == k ==> c == Some(r[i].conn)
  {
    assert SharesOne(s.calls[a.t], k, target, c);
    ReturnsFramed(s, a);
    r := if a.Finish? then [Return(k, s.calls[a.t].call.target, s.calls[a.t].stage.conn)] else [];
  }

  lemma CallOnKeySharesOne(b: State, s: State, a: Action, k: PoolKey, target: Target, c: Option<Conn>)
    requires LockInv(s) && Owned(s) && Enabled(s, a) && ServedByOne(b, s, k, target, c)
    requires OfThread(a) && s.calls[a.t].call.key == k
    ensures ServedByOne(b, Step(s, a), k, target, After(s, a, k, c))
    ensures c.Some? ==> After(s, a, k, c) == c
  {
    CallsOnKeyShare(b, s, a, k, target, c);
    assert SharesOne(s.calls[a.t], k, target, c);
    DialedForGrows(s, a, k);
    var r := ReturnsOnKey(b, s, a, k, target, c);
    EntryAfterCall(b, s, a, k, target, c);
    StillServedByOne(b, s, Step(s, a), k, target, c, After(s, a, k, c), r);
  }

  lemma {:induction false} QuietRunServesOne(b: State, s: State, actions: seq<Action>, k: PoolKey, target: Target,
        c: Option<Conn>)
      returns (d: Option<Conn>)
    requires Inv(s) && IsQuietRun(s, actions, k, target) && ServedByOne(b, s, k, target, c)
    ensures IsRun(s, actions) && ServedByOne(b, Run(s, actions), k, target, d)
    ensures c.Some? ==> d == c
    decreases |actions|
  {
    d := c;
    if actions != [] {
      var a := actions[0];
      if OfThread(a) && s.calls[a.t].call.key == k {
        CallOnKeySharesOne(b, s, a, k, target, c);
        d := After(s, a, k, c);
      } else {
        ElsewhereIsIrrelevant(b, s, a, k, target, c);
      }
      StepKeepsInv(s, a);
      d := QuietRunServesOne(b, Step(s, a), actions[1..], k, target, d);
    }
  }

  lemma ServedFromTheStart(s: State, k: PoolKey, target: Target)
    requires Inv(s) && NobodyOn(s, k)
    ensures ServedByOne(s, s, k, target, if Hit(s.core, k, target) then Some(s.core.entries[k].conn) else None)
  {
    if Hit(s.core, k, target) { assert EntryOk(s.core, k); }
  }

  /** Callers asking for the same key, locator and region, however many and however
      interleaved with work on other keys, cause at most one successful dial, none at
      all if the entry was already there, and all receive the same connection. */
  lemma SingleFlight(s: State, actions: seq<Action>, k: PoolKey, target: Target)
    requires Inv(s) && NobodyOn(s, k) && IsQuietRun(s, actions, k, target)
    ensures IsRun(s, actions)
    ensures var e := Run(s, actions); var dials := DialedFor(e.core, k) - DialedFor(s.core, k);
      && |dials| <= (if Hit(s.core, k, target) then 0 else 1)
      && |s.returned| <= |e.returned|
      && forall i, j | |s.returned| <= i < |e.returned| && |s.returned| <= j < |e.returned| ::
           e.returned[i].key == k && e.returned[j].key == k ==>
             && e.returned[i] == e.returned[j] == Return(k, target, e.returned[i].conn)
             && (dials != {} ==> e.returned[i].conn in dials)
  {
    var c := if Hit(s.core, k, target) then Some(s.core.entries[k].conn) else None;
    ServedFromTheStart(s, k, target);
    var d := QuietRunServesOne(s, s, actions, k, target, c);
    var e := Run(s, actions);
    var dials := DialedFor(e.core, k) - DialedFor(s.core, k);
    if d.Some? {
      assert dials <= {d.value};
      AtMostOne(dials, d.value);
    } else {
      assert dials == {};
    }
    forall i | |s.returned| <= i < |e.returned| && e.returned[i].key == k
      ensures e.returned[i] == Return(k, target, e.returned[i].conn) && d == Some(e.returned[i].conn)
    {
      ReturnedForTarget(s, s, actions, k, target, i);
    }
  }

  lemma AtMostOne(s: set<Conn>, c: Conn)
    requires s <= {c}
    ensures s == {} || s == {c}
    ensures |s| <= 1
  {
    if c in s { assert s == {c}; } else { assert s == {}; }
  }

  lemma CallsStayForTarget(s: State, a: Action, k: PoolKey, target: Target)
    requires Enabled(s, a) && Undisturbed(a, k, target)
    requires forall t :: t in s.calls && s.calls[t].call.key == k ==> s.calls[t].call == Get(k, target)
    ensures forall t :: t in Step(s, a).calls && Step(s, a).calls[t].call.key == k ==>
      Step(s, a).calls[t].call == Get(k, target)
  {
    var n := Step(s, a);
    forall t | t in n.calls && n.calls[t].call.key == k ensures n.calls[t].call == Get(k, target) {
      if t in s.calls { assert n.calls[t].call == s.calls[t].call; }
    }
  }

  /** Every return on `k` during the run is to a call for the target. */
  lemma {:induction false} ReturnedForTarget(b: State, s: State, actions: seq<Action>, k: PoolKey, target: Target,
        i: nat)
    requires IsQuietRun(s, actions, k, target) && IsRun(s, actions)
    requires forall t :: t in s.calls && s.calls[t].call.key == k ==> s.calls[t].call == Get(k, target)
    requires |b.returned| <= |s.returned|
    requires forall j :: |b.returned| <= j < |s.returned| && s.returned[j].key == k ==> s.returned[j].target == target
    ensures |b.returned| <= i < |Run(s, actions).returned| && Run(s, actions).returned[i].key == k ==>
      Run(s, actions).returned[i].target == target
    decreases |actions|
  {
    if actions != [] {
      CallsStayForTarget(s, actions[0], k, target);
      ReturnsFramed(s, actions[0]);
      ReturnedForTarget(b, Step(s, actions[0]), actions[1..], k, target, i);
    }
  }

  // ---- progress --------------------------------------------------------------------------------

  /** How many steps of its own a call is away from its end, at most. */
  function Remaining(stage: Stage): nat {
    match stage
    case Wanting => 7
    case Waiting(_) => 6
    case Locked => 5
    case Dialing => 4
    case Opened(_) => 3
    case Swapped(_, _) => 2
    case Removed(_) => 2
    case Returning(_) => 1
    case Leaving => 1
  }

  /** Every step of a call brings it nearer its end, and the last one ends it. */
  lemma EveryStepAdvances(s: State, a: Action)
    requires Enabled(s, a) && OfThread(a)
    ensures a.t in Step(s, a).calls ==> Remaining(Step(s, a).calls[a.t].stage) < Remaining(s.calls[a.t].stage)
    ensures Remaining(s.calls[a.t].stage) == 1 ==> a.t !in Step(s, a).calls
  {
  }

  /** The step the call of `t` would take next, a dial being allowed to fail. */
  function NextStep(pc: Pc, t: Thread): Action {
    match pc.stage
    case Wanting => FetchLock(t)
    case Waiting(_) => Acquire(t)
    case Locked => if pc.call.Get? then Look(t) else Remove(t)
    case Dialing => DialFails(t)
    case Opened(_) => Swap(t)
    case Swapped(_, _) => CloseStale(t)
    case Removed(_) => CloseVictim(t)
    case Returning(_) => Finish(t)
    case Leaving => Leave(t)
  }

  /** Who holds the mutex the call of `t` is waiting for. */
  function LockOf(s: State, t: Thread): Option<Thread>
    requires t in s.calls
  {
    var stage := s.calls[t].stage;
    if stage.Waiting? && stage.lock in s.holder then Some(s.holder[stage.lock]) else None
  }

  lemma OnlyALockStops(s: State, t: Thread)
    requires t in s.calls && CallOk(s.core, s.calls[t]) && LockOf(s, t).None?
    ensures Enabled(s, NextStep(s.calls[t], t))
  {
  }

  /** A call can be stopped by nothing but a mutex, and that mutex is held by a call
      on its own key which can itself move: a dial for one key never holds up another,
      and no call waits in a cycle. */
  lemma NoKeyWaitsForAnother(s: State, t: Thread) returns (u: Thread)
    requires Inv(s) && t in s.calls
    ensures u in s.calls && s.calls[u].call.key == s.calls[t].call.key
    ensures Enabled(s, NextStep(s.calls[u], u))
    ensures u != t ==> s.calls[t].stage.Waiting? && LockOf(s, t) == Some(u)
  {
    assert LockOk(s, t);
    u := t;
    if s.calls[t].stage.Waiting? && s.calls[t].stage.lock in s.holder {
      u := s.holder[s.calls[t].stage.lock];
      assert HolderOk(s, s.calls[t].stage.lock);
    }
    assert CallOk(s.core, s.calls[u]);
    OnlyALockStops(s, u);
  }
}
