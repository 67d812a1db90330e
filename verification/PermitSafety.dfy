/** What holds in every state of every run of Permits, and what the permits mean for the
    deletions behind them. */
module PermitSafety {
  import opened Common
  import opened Permits

  // ---- the invariant ------------------------------------------------------------------------------------

  /** A permit the user, the permit controller and a consumption could have produced. */
  predicate GoodPermit(p: Permit, now: Time) {
    && p.created <= now && p.duration <= MAX_DURATION
    && (p.state.Unset? <==> p.validUntil.None?)
    && (p.validUntil.Some? ==> p.validUntil.value <= p.created + MAX_DURATION)
    && (p.state.Expired? ==> p.validUntil.Some? && now > p.validUntil.value)
  }

  /** The API holds nothing older than what was read from it, and at the same version
      exactly that. */
  predicate ReadFrom(s: State, u: Uid, base: Permit) {
    && u in s.used && GoodPermit(base, s.now)
    && (u in s.permits ==>
          && base.version <= s.permits[u].version
          && (base.version == s.permits[u].version ==> s.permits[u] == base)
          && (s.permits[u].state.Unset? ==> base.state.Unset?))
  }

  predicate GoodCopy(s: State, u: Uid, c: Copy) {
    && ReadFrom(s, u, c.base) && GoodPermit(c.next, s.now)
    && c.next == c.base.(state := c.next.state, validUntil := c.next.validUntil)
    && (Terminal(c.base) ==> c.next == c.base)
    && (c.next.state.Consumed? ==> c.base.state.Consumed?)
    && (c.next.state.Unset? ==> c.base.state.Unset?)
  }

  /** The gate found the earliest active permit for that account among everything the
      API held. */
  ghost predicate GateHeld(gate: Gate, account: Target) {
    && gate.item.Some?
    && gate.item.value.uid in gate.seen && gate.seen[gate.item.value.uid] == gate.item.value.permit
    && gate.item.value.permit.state == Active && gate.item.value.permit.target == account
    && forall u :: u in gate.seen && gate.seen[u].state == Active && gate.seen[u].target == account ==>
      gate.item.value.permit.created <= gate.seen[u].created
  }

  ghost predicate GoodGate(s: State, protection: bool, account: Target, gate: Gate) {
    && (protection ==> GateHeld(gate, account))
    && (gate.item.Some? ==>
      ReadFrom(s, gate.item.value.uid, gate.item.value.permit) && gate.item.value.permit.state.Active?)
  }

  /** A Destroy that returned nil ran behind this permit. */
  ghost predicate DestroyedBehind(s: State, u: Uid) {
    exists i :: 0 <= i < |s.destroyed| && s.destroyed[i].gate.item.Some? && s.destroyed[i].gate.item.value.uid == u
  }

  ghost predicate PermitsGood(s: State) {
    forall u :: u in s.permits ==>
      u in s.used && GoodPermit(s.permits[u], s.now) && (s.permits[u].state.Consumed? ==> DestroyedBehind(s, u))
  }

  ghost predicate CopiesGood(s: State) {
    forall u :: u in s.reconciling ==> GoodCopy(s, u, s.reconciling[u])
  }

  ghost predicate DeletionsGood(s: State, protection: bool) {
    forall t :: t in s.deletions ==>
      && GoodGate(s, protection, t, s.deletions[t].gate)
      && (s.deletions[t].Destroyed? && s.deletions[t].gate.item.Some? ==>
        DestroyedBehind(s, s.deletions[t].gate.item.value.uid))
  }

  ghost predicate DropsGood(s: State, protection: bool) {
    && (protection ==> forall i :: 0 <= i < |s.drops| ==> GateHeld(s.drops[i].gate, s.drops[i].account))
    && (forall i :: 0 <= i < |s.destroyed| ==> s.destroyed[i] in s.drops)
  }

  ghost predicate Inv(s: State, protection: bool) {
    PermitsGood(s) && CopiesGood(s) && DeletionsGood(s, protection) && DropsGood(s, protection)
  }

  lemma ListFindsTheEarliest(items: seq<Item>, permits: map<Uid, Permit>, t: Target, now: Time)
    requires Lists(items, permits)
    ensures EarliestActive(items, t).Some? ==> GateHeld(Gate(EarliestActive(items, t), permits, now), t)
    ensures EarliestActive(items, t).None? <==> forall u :: u in permits ==> !Matches(permits[u], t)
  {
    var i := EarliestExists(items, t);
    forall u | u in permits && Matches(permits[u], t)
      ensures EarliestActive(items, t).Some? && items[i].permit.created <= permits[u].created
    {
      var k :| 0 <= k < |items| && items[k] == Item(u, permits[u]);
    }
  }

  lemma DestroyedStays(s: State, s1: State)
    requires s.destroyed <= s1.destroyed
    ensures forall u :: DestroyedBehind(s, u) ==> DestroyedBehind(s1, u)
  {
    forall u | DestroyedBehind(s, u)
      ensures DestroyedBehind(s1, u)
    {
      var i :| 0 <= i < |s.destroyed| && s.destroyed[i].gate.item.Some? && s.destroyed[i].gate.item.value.uid == u;
      assert s1.destroyed[i] == s.destroyed[i];
    }
  }

  /** A write of one permit makes every copy of it stale and leaves the others current. */
  lemma WriteKeepsInv(s: State, protection: bool, u: Uid, p: Permit)
    requires Inv(s, protection) && u in s.permits && p.version > s.permits[u].version
    requires GoodPermit(p, s.now)
    requires (p.state.Consumed? ==> DestroyedBehind(s, u)) && (p.state.Unset? ==> s.permits[u].state.Unset?)
    ensures Inv(s.(permits := s.permits[u := p]), protection)
  {
    var s1 := s.(permits := s.permits[u := p]);
    forall v, q | ReadFrom(s, v, q)
      ensures ReadFrom(s1, v, q)
    {
    }
    DestroyedStays(s, s1);
    assert CopiesGood(s1);
    assert DeletionsGood(s1, protection);
  }

  lemma EditKeepsInv(s: State, protection: bool, u: Uid, p: Permit)
    requires Inv(s, protection) && u in s.permits && p.version > s.permits[u].version && GoodPermit(p, s.now)
    requires (p.state.Consumed? ==> DestroyedBehind(s, u)) && (p.state.Unset? ==> s.permits[u].state.Unset?)
    ensures Inv(s.(permits := s.permits[u := p], edited := s.edited + {u}), protection)
  {
    WriteKeepsInv(s, protection, u, p);
    EditedIsIrrelevant(s.(permits := s.permits[u := p]), protection, s.edited + {u});
  }

  lemma EditedIsIrrelevant(s: State, protection: bool, edited: set<Uid>)
    requires Inv(s, protection)
    ensures Inv(s.(edited := edited), protection)
  {
    DestroyedStays(s, s.(edited := edited));
  }

  lemma StatusUpdateKeepsInv(s: State, protection: bool, u: Uid, base: Permit, next: Permit)
    requires Inv(s, protection) && ReadFrom(s, u, base)
    requires GoodPermit(next, s.now) && next == base.(state := next.state, validUntil := next.validUntil)
    requires next.state.Consumed? ==> base.state.Consumed? || DestroyedBehind(s, u)
    requires next.state.Unset? ==> base.state.Unset?
    ensures Inv(s.(permits := UpdateStatus(s.permits, u, base, next)), protection)
  {
    var after := UpdateStatus(s.permits, u, base, next);
    if after == s.permits {
      assert s.(permits := after) == s;
    } else {
      assert s.permits[u] == base;
      WriteKeepsInv(s, protection, u, after[u]);
    }
  }

  lemma RemovalKeepsInv(s: State, protection: bool, u: Uid)
    requires Inv(s, protection)
    ensures Inv(s.(permits := s.permits - {u}), protection)
  {
    var s1 := s.(permits := s.permits - {u});
    DestroyedStays(s, s1);
    assert CopiesGood(s1);
  }

  lemma CreationKeepsInv(s: State, protection: bool, u: Uid, t: Target, d: nat)
    requires Inv(s, protection) && u !in s.used && d <= MAX_DURATION
    ensures Inv(s.(permits := s.permits[u := Permit(t, s.now, d, Unset, None, 0)], used := s.used + {u}), protection)
  {
    var s1 := s.(permits := s.permits[u := Permit(t, s.now, d, Unset, None, 0)], used := s.used + {u});
    DestroyedStays(s, s1);
    assert CopiesGood(s1);
  }

  lemma TickKeepsInv(s: State, protection: bool, d: nat)
    requires Inv(s, protection)
    ensures Inv(s.(now := s.now + d), protection)
  {
    var s1 := s.(now := s.now + d);
    DestroyedStays(s, s1);
    assert CopiesGood(s1);
  }

  /** Neither the copies in flight nor a deletion step touch the permits. */
  lemma DeletionKeepsInv(s: State, protection: bool, s1: State)
    requires Inv(s, protection) && s1 == s.(deletions := s1.deletions, drops := s1.drops, destroyed := s1.destroyed)
    requires s.destroyed <= s1.destroyed && DeletionsGood(s1, protection) && DropsGood(s1, protection)
    ensures Inv(s1, protection)
  {
    DestroyedStays(s, s1);
    assert CopiesGood(s1);
  }

  lemma CopyKeepsInv(s: State, protection: bool, reconciling: map<Uid, Copy>, observed: map<Uid, Time>)
    requires Inv(s, protection) && CopiesGood(s.(reconciling := reconciling))
    ensures Inv(s.(reconciling := reconciling, observed := observed), protection)
  {
    DestroyedStays(s, s.(reconciling := reconciling, observed := observed));
  }

  lemma DestroyKeepsInv(s: State, protection: bool, t: Target, ok: bool)
    requires Inv(s, protection) && Enabled(s, DeleteDestroy(t, ok))
    ensures Inv(Step(s, protection, DeleteDestroy(t, ok)), protection)
  {
    var s1 := Step(s, protection, DeleteDestroy(t, ok));
    DestroyedStays(s, s1);
    if ok {
      assert s1.destroyed[|s.destroyed|].gate == s.deletions[t].gate;
    }
    DeletionKeepsInv(s, protection, s1);
  }

  lemma UserStepKeepsInv(s: State, protection: bool, a: Action)
    requires Inv(s, protection) && Enabled(s, a)
    requires a.Tick? || a.UserCreates? || a.UserEdits? || a.UserDeletes?
    ensures Inv(Step(s, protection, a), protection)
  {
    match a
    case Tick(d) => TickKeepsInv(s, protection, d);
    case UserCreates(u, t, d) => CreationKeepsInv(s, protection, u, t, d);
    case UserEdits(u, _, _) => EditKeepsInv(s, protection, u, Step(s, protection, a).permits[u]);
    case UserDeletes(u) => RemovalKeepsInv(s, protection, u);
  }

  lemma CopyStepKeepsInv(s: State, protection: bool, a: Action)
    requires Inv(s, protection) && Enabled(s, a)
    requires a.PermitRead? || a.PermitObserve? || a.PermitCrash?
    ensures Inv(Step(s, protection, a), protection)
  {
    CopyKeepsInv(s, protection, Step(s, protection, a).reconciling, s.observed);
  }

  lemma PermitWriteKeepsInv(s: State, protection: bool, u: Uid)
    requires Inv(s, protection) && Enabled(s, PermitWrite(u))
    ensures Inv(Step(s, protection, PermitWrite(u)), protection)
  {
    var c := s.reconciling[u];
    StatusUpdateKeepsInv(s, protection, u, c.base, c.next);
    var s1 := s.(permits := UpdateStatus(s.permits, u, c.base, c.next));
    CopyKeepsInv(s1, protection, s1.reconciling - {u}, Step(s, protection, PermitWrite(u)).observed);
  }

  lemma NewGateIsGood(s: State, protection: bool, t: Target, items: seq<Item>, gate: Gate)
    requires Inv(s, protection) && Lists(items, s.permits) && PassGate(s, protection, items, t) == Some(gate)
    ensures GoodGate(s, protection, t, gate)
  {
    ListFindsTheEarliest(items, s.permits, t, s.now);
  }

  lemma GatedKeepsInv(s: State, protection: bool, t: Target, gate: Gate)
    requires Inv(s, protection) && GoodGate(s, protection, t, gate)
    ensures Inv(s.(deletions := s.deletions[t := Gated(gate)]), protection)
  {
    var s1 := s.(deletions := s.deletions[t := Gated(gate)]);
    DestroyedStays(s, s1);
    forall u | u in s1.deletions ensures GoodGate(s1, protection, u, s1.deletions[u].gate) {
      if u != t { assert GoodGate(s, protection, u, s.deletions[u].gate); }
    }
    DeletionKeepsInv(s, protection, s1);
  }

  lemma GateKeepsInv(s: State, protection: bool, t: Target, items: seq<Item>)
    requires Inv(s, protection) && Enabled(s, DeleteGate(t, items))
    ensures Inv(Step(s, protection, DeleteGate(t, items)), protection)
  {
    var gate := PassGate(s, protection, items, t);
    if gate.Some? {
      NewGateIsGood(s, protection, t, items, gate.value);
      GatedKeepsInv(s, protection, t, gate.value);
    }
  }

  lemma ConsumeKeepsInv(s: State, protection: bool, t: Target)
    requires Inv(s, protection) && Enabled(s, DeleteConsume(t))
    ensures Inv(Step(s, protection, DeleteConsume(t)), protection)
  {
    var item := s.deletions[t].gate.item;
    if item.Some? {
      var p := item.value.permit;
      StatusUpdateKeepsInv(s, protection, item.value.uid, p, p.(state := Consumed));
      var s1 := s.(permits := Consume(s.permits, item.value));
      DeletionKeepsInv(s1, protection, s1.(deletions := s1.deletions - {t}));
    } else {
      DeletionKeepsInv(s, protection, s.(deletions := s.deletions - {t}));
    }
  }

  lemma StepKeepsInv(s: State, protection: bool, a: Action)
    requires Inv(s, protection) && Enabled(s, a)
    ensures Inv(Step(s, protection, a), protection)
  {
    match a
    case DeleteGate(t, items) => GateKeepsInv(s, protection, t, items);
    case DeleteDestroy(t, ok) => DestroyKeepsInv(s, protection, t, ok);
    case DeleteConsume(t) => ConsumeKeepsInv(s, protection, t);
    case DeleteCrash(t) => DeletionKeepsInv(s, protection, Step(s, protection, a));
    case Tick(_) => UserStepKeepsInv(s, protection, a);
    case UserCreates(_, _, _) => UserStepKeepsInv(s, protection, a);
    case UserEdits(_, _, _) => UserStepKeepsInv(s, protection, a);
    case UserDeletes(_) => UserStepKeepsInv(s, protection, a);
    case PermitWrite(u) => PermitWriteKeepsInv(s, protection, u);
    case _ => CopyStepKeepsInv(s, protection, a);
  }

  lemma {:induction false} RunKeepsInv(s: State, protection: bool, actions: seq<Action>)
    requires Inv(s, protection) && IsRun(s, protection, actions)
    ensures Inv(Run(s, protection, actions), protection)
    decreases |actions|
  {
    if actions != [] {
      StepKeepsInv(s, protection, actions[0]);
      RunKeepsInv(Step(s, protection, actions[0]), protection, actions[1..]);
    }
  }

  lemma StartIsGood(s: State, protection: bool)
    requires IsStart(s)
    ensures Inv(s, protection)
  {
  }

  // ---- over whole runs ------------------------------------------------------------------------------------

  /** A run is a shorter run and one more step. */
  lemma {:induction false} LastStep(s: State, protection: bool, actions: seq<Action>)
    requires IsRun(s, protection, actions) && actions != []
    ensures IsRun(s, protection, actions[..|actions| - 1])
    ensures Enabled(Run(s, protection, actions[..|actions| - 1]), actions[|actions| - 1])
    ensures Run(s, protection, actions)
         == Step(Run(s, protection, actions[..|actions| - 1]), protection, actions[|actions| - 1])
    decreases |actions|
  {
    if |actions| > 1 {
      var rest := actions[1..];
      LastStep(Step(s, protection, actions[0]), protection, rest);
      assert actions[..|actions| - 1][1..] == rest[..|rest| - 1];
    }
  }

  /** The `j`-th action of the run is the gate of this deletion, and `gate` records the
      permits and the clock of the state it was taken in. */
  ghost predicate TakenAt(s: State, protection: bool, actions: seq<Action>, j: nat, account: Target, gate: Gate) {
    && j < |actions| && actions[j].DeleteGate? && actions[j].account == account
    && IsRun(s, protection, actions[..j])
    && Enabled(Run(s, protection, actions[..j]), actions[j])
    && PassGate(Run(s, protection, actions[..j]), protection, actions[j].items, account) == Some(gate)
  }

  ghost predicate Taken(s: State, protection: bool, actions: seq<Action>, account: Target, gate: Gate) {
    exists j: nat :: TakenAt(s, protection, actions, j, account, gate)
  }

  lemma TakenStays(s: State, protection: bool, actions: seq<Action>, account: Target, gate: Gate)
    requires actions != [] && Taken(s, protection, actions[..|actions| - 1], account, gate)
    ensures Taken(s, protection, actions, account, gate)
  {
    var init := actions[..|actions| - 1];
    var j: nat :| TakenAt(s, protection, init, j, account, gate);
    assert init[..j] == actions[..j];
    assert TakenAt(s, protection, actions, j, account, gate);
  }

  /** What the step of `a` adds to the deletions in flight and to the drops. */
  lemma GatesMove(s: State, protection: bool, a: Action)
    requires Enabled(s, a)
    ensures var n := Step(s, protection, a);
      && (forall t :: t in n.deletions ==>
            (t in s.deletions && n.deletions[t].gate == s.deletions[t].gate)
            || (a.DeleteGate? && a.account == t && PassGate(s, protection, a.items, t) == Some(n.deletions[t].gate)))
      && (n.drops == s.drops
          || (a.DeleteDestroy? && a.account in s.deletions
              && n.drops == s.drops + [Drop(a.account, s.deletions[a.account].gate, s.now)]))
  {
  }

  /** Every gate a deletion or a drop refers to was taken in some state of the run. */
  lemma {:induction false} GatesWereTaken(s: State, protection: bool, actions: seq<Action>)
    requires IsStart(s) && IsRun(s, protection, actions)
    ensures var e := Run(s, protection, actions);
      && (forall t :: t in e.deletions ==> Taken(s, protection, actions, t, e.deletions[t].gate))
      && (forall i :: 0 <= i < |e.drops| ==> Taken(s, protection, actions, e.drops[i].account, e.drops[i].gate))
    decreases |actions|
  {
    if actions != [] {
      var init, a := actions[..|actions| - 1], actions[|actions| - 1];
      LastStep(s, protection, actions);
      GatesWereTaken(s, protection, init);
      var m, e := Run(s, protection, init), Run(s, protection, actions);
      GatesMove(m, protection, a);
      forall t | t in e.deletions ensures Taken(s, protection, actions, t, e.deletions[t].gate) {
        if t in m.deletions && e.deletions[t].gate == m.deletions[t].gate {
          TakenStays(s, protection, actions, t, e.deletions[t].gate);
        } else {
          assert TakenAt(s, protection, actions, |init|, t, e.deletions[t].gate);
        }
      }
      forall i | 0 <= i < |e.drops| ensures Taken(s, protection, actions, e.drops[i].account, e.drops[i].gate) {
        if i < |m.drops| {
          assert e.drops[i] == m.drops[i];
        }
        TakenStays(s, protection, actions, e.drops[i].account, e.drops[i].gate);
      }
    }
  }

  /** In every run: a Destroy ran only behind a gate taken earlier in the run, and with
      protection on that gate found the earliest active permit for the account among all
      the API held in that state; a permit is Consumed only after a Destroy that returned
      nil ran behind it, and Expired only once its window, eight hours at most, is over. */
  lemma PermitsGateEveryRun(s: State, protection: bool, actions: seq<Action>)
    requires IsStart(s) && IsRun(s, protection, actions)
    ensures var e := Run(s, protection, actions);
      && (forall i :: 0 <= i < |e.drops| ==> Taken(s, protection, actions, e.drops[i].account, e.drops[i].gate))
      && (protection ==> forall i :: 0 <= i < |e.drops| ==> GateHeld(e.drops[i].gate, e.drops[i].account))
      && (forall u :: u in e.permits && e.permits[u].state.Consumed? ==> DestroyedBehind(e, u))
      && (forall u :: u in e.permits ==> GoodPermit(e.permits[u], e.now))
  {
    StartIsGood(s, protection);
    RunKeepsInv(s, protection, actions);
    GatesWereTaken(s, protection, actions);
  }

  /** The permit is gone, or has this state and validUntil. */
  predicate Closed(s: State, u: Uid, state: PermitState, validUntil: Option<Time>) {
    && u in s.used
    && (u in s.permits ==> s.permits[u].state == state && s.permits[u].validUntil == validUntil)
  }

  lemma StatusUpdateKeepsClosed(s: State, v: Uid, base: Permit, next: Permit, u: Uid, state: PermitState,
        validUntil: Option<Time>)
    requires ReadFrom(s, v, base) && (Terminal(base) ==> next == base)
    requires Closed(s, u, state, validUntil) && (state.Expired? || state.Consumed?)
    ensures Closed(s.(permits := UpdateStatus(s.permits, v, base, next)), u, state, validUntil)
  {
  }

  lemma ConsumeKeepsClosed(s: State, protection: bool, t: Target, u: Uid, state: PermitState, validUntil: Option<Time>)
    requires Inv(s, protection) && Enabled(s, DeleteConsume(t))
    requires Closed(s, u, state, validUntil) && (state.Expired? || state.Consumed?)
    ensures Closed(Step(s, protection, DeleteConsume(t)), u, state, validUntil)
  {
    assert GoodGate(s, protection, t, s.deletions[t].gate);
    var item := s.deletions[t].gate.item;
    if item.Some? {
      var p := item.value.permit;
      StatusUpdateKeepsClosed(s, item.value.uid, p, p.(state := Consumed), u, state, validUntil);
    }
  }

  lemma WriteKeepsClosed(s: State, protection: bool, v: Uid, u: Uid, state: PermitState, validUntil: Option<Time>)
    requires Inv(s, protection) && Enabled(s, PermitWrite(v))
    requires Closed(s, u, state, validUntil) && (state.Expired? || state.Consumed?)
    ensures Closed(Step(s, protection, PermitWrite(v)), u, state, validUntil)
  {
    assert GoodCopy(s, v, s.reconciling[v]);
    StatusUpdateKeepsClosed(s, v, s.reconciling[v].base, s.reconciling[v].next, u, state, validUntil);
  }

  lemma StepKeepsClosed(s: State, protection: bool, a: Action, u: Uid, state: PermitState, validUntil: Option<Time>)
    requires Inv(s, protection) && Enabled(s, a)
    requires Closed(s, u, state, validUntil) && (state.Expired? || state.Consumed?)
    ensures Closed(Step(s, protection, a), u, state, validUntil)
  {
    match a
    case PermitWrite(v) => WriteKeepsClosed(s, protection, v, u, state, validUntil);
    case DeleteConsume(t) => ConsumeKeepsClosed(s, protection, t, u, state, validUntil);
    case _ =>
  }

  /** Once terminal, a permit keeps its state and its validUntil, whatever either
      controller still has in flight, for as long as it exists, and it never returns
      once deleted. */
  lemma {:induction false} ClosedStaysClosed(s: State, protection: bool, actions: seq<Action>, u: Uid,
        state: PermitState, validUntil: Option<Time>)
    requires Inv(s, protection) && IsRun(s, protection, actions)
    requires Closed(s, u, state, validUntil) && (state.Expired? || state.Consumed?)
    ensures Closed(Run(s, protection, actions), u, state, validUntil)
    decreases |actions|
  {
    if actions != [] {
      StepKeepsInv(s, protection, actions[0]);
      StepKeepsClosed(s, protection, actions[0], u, state, validUntil);
      ClosedStaysClosed(Step(s, protection, actions[0]), protection, actions[1..], u, state, validUntil);
    }
  }

  /** A permit that could still authorize a deletion. */
  predicate Open(s: State, u: Uid) { u in s.permits && !Terminal(s.permits[u]) }

  /** Only an open permit gets a deletion through its gate. */
  lemma OnlyOpenPermitsPass(s: State, t: Target, items: seq<Item>, u: Uid)
    requires Lists(items, s.permits) && !Open(s, u)
    ensures EarliestActive(items, t).Some? ==> EarliestActive(items, t).value.uid != u
  {
    ListFindsTheEarliest(items, s.permits, t, s.now);
  }

  /** No run from here leads to a gate that finds the permit. */
  ghost predicate OutForGood(s: State, protection: bool, u: Uid) {
    forall actions, t, items ::
      IsRun(s, protection, actions) && Enabled(Run(s, protection, actions), DeleteGate(t, items)) ==>
        EarliestActive(items, t).None? || EarliestActive(items, t).value.uid != u
  }

  lemma ClosedIsOutForGood(s: State, protection: bool, u: Uid, state: PermitState, validUntil: Option<Time>)
    requires Inv(s, protection) && Closed(s, u, state, validUntil) && (state.Expired? || state.Consumed?)
    ensures OutForGood(s, protection, u)
  {
    forall actions, t, items
      | IsRun(s, protection, actions) && Enabled(Run(s, protection, actions), DeleteGate(t, items))
      ensures EarliestActive(items, t).Some? ==> EarliestActive(items, t).value.uid != u
    {
      ClosedStaysClosed(s, protection, actions, u, state, validUntil);
      OnlyOpenPermitsPass(Run(s, protection, actions), t, items, u);
    }
  }

  lemma OneMore(s: State, protection: bool, a: Action, rest: seq<Action>)
    requires Enabled(s, a) && IsRun(Step(s, protection, a), protection, rest)
    ensures IsRun(s, protection, [a] + rest)
    ensures Run(s, protection, [a] + rest) == Run(Step(s, protection, a), protection, rest)
  {
    assert ([a] + rest)[1..] == rest;
  }

  /** All other permits may be deleted by their users. */
  lemma {:induction false} OthersMayGo(s: State, protection: bool, u: Uid) returns (actions: seq<Action>)
    requires u in s.permits
    ensures IsRun(s, protection, actions)
    ensures Run(s, protection, actions) == s.(permits := map[u := s.permits[u]])
    decreases |s.permits.Keys|
  {
    actions := [];
    if v :| v in s.permits && v != u {
      var n := Step(s, protection, UserDeletes(v));
      assert n.permits.Keys == s.permits.Keys - {v};
      var rest := OthersMayGo(n, protection, u);
      OneMore(s, protection, UserDeletes(v), rest);
      actions := [UserDeletes(v)] + rest;
    } else {
      assert s.permits == map[u := s.permits[u]];
    }
  }

  lemma GateOnOnePermit(s: State, u: Uid, p: Permit)
    requires p.state.Active? && s.permits == map[u := p] && p.target !in s.deletions
    ensures Enabled(s, DeleteGate(p.target, [Item(u, p)]))
    ensures EarliestActive([Item(u, p)], p.target) == Some(Item(u, p))
  {
    var items := [Item(u, p)];
    assert Item(u, p) in items;
    assert items[..0] == [];
  }

  /** An active permit is found by some gate to come. */
  lemma ActiveIsNotOut(s: State, protection: bool, u: Uid)
    requires u in s.permits && s.permits[u].state.Active?
    ensures !OutForGood(s, protection, u)
  {
    var p := s.permits[u];
    var actions := OthersMayGo(s, protection, u);
    if p.target in s.deletions {
      var n := Step(s, protection, DeleteCrash(p.target));
      var rest := OthersMayGo(n, protection, u);
      OneMore(s, protection, DeleteCrash(p.target), rest);
      actions := [DeleteCrash(p.target)] + rest;
    }
    GateOnOnePermit(Run(s, protection, actions), u, p);
  }

  /** A deletion whose Destroy returned nil ends with MarkConsumed, or without it: by a
      crash, or because the call failed before it took effect. */
  predicate Ends(a: Action, t: Target) { a == DeleteConsume(t) || a == DeleteCrash(t) }

  /** What ends the deletion finds at the API when it closes the permit. */
  predicate Closes(s: State, item: Item, a: Action) {
    || item.uid !in s.permits
    || Terminal(s.permits[item.uid])
    || (a.DeleteConsume? && s.permits[item.uid].version == item.permit.version)
  }

  /** "If deletion succeeds, the permit cannot be used again": however a deletion ends
      whose Destroy returned nil, its permit is out of use for good exactly when it was
      deleted meanwhile, had already reached a terminal state, or MarkConsumed ran and
      found it still as the gate had read it. After a crash before MarkConsumed, or a
      write by somebody else during the Destroy, it can let another deletion through. */
  lemma ConsumedForGood(s: State, protection: bool, t: Target, a: Action)
    requires Inv(s, protection) && Ends(a, t)
    requires t in s.deletions && s.deletions[t].Destroyed? && s.deletions[t].gate.item.Some?
    ensures OutForGood(Step(s, protection, a), protection, s.deletions[t].gate.item.value.uid)
       <==> Closes(s, s.deletions[t].gate.item.value, a)
  {
    var item := s.deletions[t].gate.item.value;
    var u, s1 := item.uid, Step(s, protection, a);
    assert GoodGate(s, protection, t, s.deletions[t].gate);
    StepKeepsInv(s, protection, a);
    if u !in s1.permits {
      ClosedIsOutForGood(s1, protection, u, Consumed, None);
    } else if Terminal(s1.permits[u]) {
      ClosedIsOutForGood(s1, protection, u, s1.permits[u].state, s1.permits[u].validUntil);
    } else {
      ActiveIsNotOut(s1, protection, u);
    }
  }
}
