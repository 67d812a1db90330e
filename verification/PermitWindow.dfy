/** When, against its permit's window, a deletion may run its Destroy. Nothing after the
    gate looks at validUntil, and the gate itself trusts a state the permit controller
    recomputes only from time to time. */
module PermitWindow {
  import opened Common
  import opened Permits
  import opened PermitSafety

  // ---- past the gate ----------------------------------------------------------------------------

  predicate OfDeletion(a: Action, t: Target) {
    (a.DeleteGate? || a.DeleteDestroy? || a.DeleteConsume? || a.DeleteCrash?) && a.account == t
  }

  /** Anything but the deletion of `t` itself may happen. */
  predicate Waits(actions: seq<Action>, t: Target) {
    forall i :: 0 <= i < |actions| ==> !OfDeletion(actions[i], t)
  }

  lemma {:induction false} WaitingKeepsTheGate(s: State, protection: bool, actions: seq<Action>, t: Target)
    requires IsRun(s, protection, actions) && Waits(actions, t) && t in s.deletions
    ensures t in Run(s, protection, actions).deletions && Run(s, protection, actions).deletions[t] == s.deletions[t]
    decreases |actions|
  {
    if actions != [] {
      assert !OfDeletion(actions[0], t);
      WaitingKeepsTheGate(Step(s, protection, actions[0]), protection, actions[1..], t);
    }
  }

  /** The Destroy of `t`, run now, falls inside the window its gate read. */
  predicate InWindow(d: Drop) {
    d.gate.item.Some? && d.gate.item.value.permit.validUntil.Some? && d.at <= d.gate.item.value.permit.validUntil.value
  }

  ghost predicate DestroysInside(s: State, protection: bool, t: Target) {
    && Enabled(s, DeleteDestroy(t, true))
    && Step(s, protection, DeleteDestroy(t, true)).drops == s.drops + [Drop(t, s.deletions[t].gate, s.now)]
    && InWindow(Drop(t, s.deletions[t].gate, s.now))
  }

  /** Every way of reaching the Destroy by the time `limit` runs it inside the window. */
  ghost predicate InsideUntil(s: State, protection: bool, t: Target, limit: Time) {
    forall actions :: IsRun(s, protection, actions) && Waits(actions, t) && Run(s, protection, actions).now <= limit ==>
      DestroysInside(Run(s, protection, actions), protection, t)
  }

  /** Nothing but time need pass for the Destroy to be late. */
  lemma TickPastTheWindow(s: State, t: Target, d: nat)
    requires t in s.deletions && !InWindow(Drop(t, s.deletions[t].gate, s.now + d))
    ensures !InsideUntil(s, true, t, s.now + d)
  {
    OneMore(s, true, Tick(d), []);
    var late := [Tick(d)] + [];
    assert Waits(late, t);
    assert !DestroysInside(Run(s, true, late), true, t);
  }

  /** Past the gate, every continuation that reaches the Destroy within `d` seconds runs
      it inside the window exactly when the permit then has at least that long to live. */
  lemma WindowHoldsExactly(s: State, t: Target, items: seq<Item>, d: nat)
    requires Inv(s, true) && Enabled(s, DeleteGate(t, items)) && EarliestActive(items, t).Some?
    ensures EarliestActive(items, t).value.permit.validUntil.Some?
    ensures InsideUntil(Step(s, true, DeleteGate(t, items)), true, t, s.now + d)
       <==> s.now + d <= EarliestActive(items, t).value.permit.validUntil.value
  {
    ListFindsTheEarliest(items, s.permits, t, s.now);
    var s1 := Step(s, true, DeleteGate(t, items));
    var gate := s1.deletions[t].gate;
    var validUntil := gate.item.value.permit.validUntil.value;
    if s.now + d <= validUntil {
      forall actions | IsRun(s1, true, actions) && Waits(actions, t) && Run(s1, true, actions).now <= s.now + d
        ensures DestroysInside(Run(s1, true, actions), true, t)
      {
        WaitingKeepsTheGate(s1, true, actions, t);
      }
    } else {
      TickPastTheWindow(s1, t, d);
    }
  }

  // ---- before the gate -----------------------------------------------------------------------------

  /** A computed copy is what Observe made of it at the time it records. */
  predicate CopyTimed(c: Copy) {
    if c.at.Some? then c.next == ObservePermit(c.base, c.at.value) else c.next == c.base
  }

  /** An active permit was observed, last, before its window ended. */
  predicate ActiveTimed(s: State, u: Uid)
    requires u in s.permits
  {
    s.permits[u].state.Active? ==>
      u in s.observed && s.permits[u].validUntil.Some? && s.observed[u] <= s.permits[u].validUntil.value
  }

  ghost predicate TimeInv(s: State) {
    && (forall u :: u in s.reconciling ==> CopyTimed(s.reconciling[u]))
    && (forall u :: u in s.permits ==> ActiveTimed(s, u))
  }

  lemma WriteKeepsTime(s: State, protection: bool, u: Uid)
    requires Inv(s, protection) && TimeInv(s) && Enabled(s, PermitWrite(u))
    ensures TimeInv(Step(s, protection, PermitWrite(u)))
  {
    var c := s.reconciling[u];
    assert GoodCopy(s, u, c) && CopyTimed(c);
    var n := Step(s, protection, PermitWrite(u));
    forall v | v in n.permits
      ensures ActiveTimed(n, v)
    {
      assert ActiveTimed(s, v);
    }
  }

  lemma ConsumeKeepsTime(s: State, protection: bool, t: Target)
    requires TimeInv(s) && Enabled(s, DeleteConsume(t))
    ensures TimeInv(Step(s, protection, DeleteConsume(t)))
  {
    var n := Step(s, protection, DeleteConsume(t));
    forall v | v in n.permits
      ensures ActiveTimed(n, v)
    {
      assert ActiveTimed(s, v);
    }
  }

  lemma CopyStepKeepsTime(s: State, protection: bool, a: Action)
    requires TimeInv(s) && Enabled(s, a) && (a.PermitRead? || a.PermitObserve? || a.PermitCrash?)
    ensures TimeInv(Step(s, protection, a))
  {
    var n := Step(s, protection, a);
    forall v | v in n.permits ensures ActiveTimed(n, v) { assert ActiveTimed(s, v); }
  }

  lemma UserStepKeepsTime(s: State, protection: bool, a: Action)
    requires TimeInv(s) && Enabled(s, a) && (a.Tick? || a.UserCreates? || a.UserEdits? || a.UserDeletes?)
    ensures TimeInv(Step(s, protection, a))
  {
    var n := Step(s, protection, a);
    forall v | v in n.permits ensures ActiveTimed(n, v) { if v in s.permits { assert ActiveTimed(s, v); } }
  }

  lemma DeletionStepKeepsTime(s: State, protection: bool, a: Action)
    requires TimeInv(s) && Enabled(s, a) && (a.DeleteGate? || a.DeleteDestroy? || a.DeleteCrash?)
    ensures TimeInv(Step(s, protection, a))
  {
    var n := Step(s, protection, a);
    assert n.permits == s.permits && n.observed == s.observed && n.reconciling == s.reconciling;
    forall v | v in n.permits ensures ActiveTimed(n, v) { assert ActiveTimed(s, v); }
  }

  lemma StepKeepsTime(s: State, protection: bool, a: Action)
    requires Inv(s, protection) && TimeInv(s) && Enabled(s, a)
    ensures TimeInv(Step(s, protection, a))
  {
    if a.PermitWrite? {
      WriteKeepsTime(s, protection, a.uid);
    } else if a.DeleteConsume? {
      ConsumeKeepsTime(s, protection, a.account);
    } else if a.DeleteGate? || a.DeleteDestroy? || a.DeleteCrash? {
      DeletionStepKeepsTime(s, protection, a);
    } else if a.PermitRead? || a.PermitObserve? || a.PermitCrash? {
      CopyStepKeepsTime(s, protection, a);
    } else {
      UserStepKeepsTime(s, protection, a);
    }
  }

  lemma {:induction false} RunKeepsTime(s: State, protection: bool, actions: seq<Action>)
    requires Inv(s, protection) && TimeInv(s) && IsRun(s, protection, actions)
    ensures TimeInv(Run(s, protection, actions))
    decreases |actions|
  {
    if actions != [] {
      StepKeepsInv(s, protection, actions[0]);
      StepKeepsTime(s, protection, actions[0]);
      RunKeepsTime(Step(s, protection, actions[0]), protection, actions[1..]);
    }
  }

  /** The permit controller's last completed reconcile of every active permit is at most
      `lag` old. */
  predicate Punctual(s: State, lag: nat) {
    forall u :: u in s.permits && s.permits[u].state.Active? ==> u in s.observed && s.now <= s.observed[u] + lag
  }

  /** A run in which the permit controller is punctual whenever a deletion passes its gate. */
  ghost predicate IsPunctualRun(s: State, protection: bool, actions: seq<Action>, lag: nat)
    decreases |actions|
  {
    actions == [] ||
    (Enabled(s, actions[0]) && (actions[0].DeleteGate? ==> Punctual(s, lag))
     && IsPunctualRun(Step(s, protection, actions[0]), protection, actions[1..], lag))
  }

  lemma {:induction false} PunctualIsRun(s: State, protection: bool, actions: seq<Action>, lag: nat)
    requires IsPunctualRun(s, protection, actions, lag)
    ensures IsRun(s, protection, actions)
    decreases |actions|
  {
    if actions != [] {
      PunctualIsRun(Step(s, protection, actions[0]), protection, actions[1..], lag);
    }
  }

  lemma {:induction false} PunctualAtTheGate(s: State, protection: bool, actions: seq<Action>, lag: nat, j: nat)
    requires IsPunctualRun(s, protection, actions, lag) && j < |actions| && actions[j].DeleteGate?
    requires IsRun(s, protection, actions[..j])
    ensures Punctual(Run(s, protection, actions[..j]), lag)
    decreases |actions|
  {
    if j > 0 {
      assert actions[..j][1..] == actions[1..][..j - 1];
      PunctualAtTheGate(Step(s, protection, actions[0]), protection, actions[1..], lag, j - 1);
    }
  }

  /** With protection on, if the permit controller is never more than `lag` behind at a
      gate and no deletion takes more than `gap` from its gate to its Destroy, then every
      Destroy runs at most `lag + gap` after its permit's window. */
  lemma LateByLagAndGap(s: State, actions: seq<Action>, lag: nat, gap: nat, i: nat)
    requires IsStart(s) && IsPunctualRun(s, true, actions, lag)
    ensures IsRun(s, true, actions)
    ensures var e := Run(s, true, actions);
      i < |e.drops| && e.drops[i].at - e.drops[i].gate.at <= gap ==>
        && e.drops[i].gate.item.Some? && e.drops[i].gate.item.value.permit.validUntil.Some?
        && e.drops[i].at <= e.drops[i].gate.item.value.permit.validUntil.value + lag + gap
  {
    PunctualIsRun(s, true, actions, lag);
    PermitsGateEveryRun(s, true, actions);
    var e := Run(s, true, actions);
    if i < |e.drops| {
      var drop := e.drops[i];
      assert GateHeld(drop.gate, drop.account);
      var j: nat :| TakenAt(s, true, actions, j, drop.account, drop.gate);
      var m := Run(s, true, actions[..j]);
      StartIsGood(s, true);
      RunKeepsTime(s, true, actions[..j]);
      PunctualAtTheGate(s, true, actions, lag, j);
      assert ActiveTimed(m, drop.gate.item.value.uid);
    }
  }

  // ---- a permit's own window ---------------------------------------------------------------------------

  /** The validUntil of a permit follows from its own creation and duration, and it is
      Expired only past it. */
  predicate OwnWindow(p: Permit, now: Time) {
    && (p.validUntil.Some? ==> p.validUntil.value == p.created + p.duration)
    && (p.state.Expired? ==> now > p.created + p.duration)
  }

  /** That holds of every permit nobody edited, and of every copy of one. */
  ghost predicate OwnInv(s: State) {
    && (forall u :: u in s.permits && u !in s.edited ==> OwnWindow(s.permits[u], s.now))
    && (forall u :: u in s.reconciling && u !in s.edited ==>
          OwnWindow(s.reconciling[u].base, s.now) && OwnWindow(s.reconciling[u].next, s.now))
    && (forall t :: t in s.deletions && s.deletions[t].gate.item.Some? ==>
          s.deletions[t].gate.item.value.uid in s.edited || OwnWindow(s.deletions[t].gate.item.value.permit, s.now))
  }

  lemma ObserveOwns(p: Permit, now: Time)
    requires OwnWindow(p, now)
    ensures OwnWindow(ObservePermit(p, now), now)
  {
  }

  lemma UpdateOwns(s: State, u: Uid, base: Permit, next: Permit)
    requires ReadFrom(s, u, base) && next == base.(state := next.state, validUntil := next.validUntil)
    requires OwnWindow(next, s.now) && (u in s.permits ==> OwnWindow(s.permits[u], s.now))
    ensures u in s.permits ==> OwnWindow(UpdateStatus(s.permits, u, base, next)[u], s.now)
    ensures UpdateStatus(s.permits, u, base, next).Keys == s.permits.Keys
    ensures forall v :: v in s.permits && v != u ==> UpdateStatus(s.permits, u, base, next)[v] == s.permits[v]
  {
  }

  lemma WriteOwns(s: State, protection: bool, u: Uid)
    requires Inv(s, protection) && OwnInv(s) && Enabled(s, PermitWrite(u))
    ensures OwnInv(Step(s, protection, PermitWrite(u)))
  {
    var c := s.reconciling[u];
    assert GoodCopy(s, u, c);
    if u !in s.edited {
      UpdateOwns(s, u, c.base, c.next);
    }
  }

  lemma ConsumeOwns(s: State, protection: bool, t: Target)
    requires Inv(s, protection) && OwnInv(s) && Enabled(s, DeleteConsume(t))
    ensures OwnInv(Step(s, protection, DeleteConsume(t)))
  {
    var item := s.deletions[t].gate.item;
    assert GoodGate(s, protection, t, s.deletions[t].gate);
    if item.Some? && item.value.uid !in s.edited {
      UpdateOwns(s, item.value.uid, item.value.permit, item.value.permit.(state := Consumed));
    }
  }

  lemma ReadOwns(s: State, protection: bool, a: Action)
    requires OwnInv(s) && Enabled(s, a) && (a.PermitRead? || a.PermitObserve? || a.PermitCrash?)
    ensures OwnInv(Step(s, protection, a))
  {
    if a.PermitObserve? && a.uid !in s.edited {
      ObserveOwns(s.reconciling[a.uid].base, s.now);
    }
  }

  lemma UserOwns(s: State, protection: bool, a: Action)
    requires Inv(s, protection) && OwnInv(s) && Enabled(s, a)
    requires a.Tick? || a.UserCreates? || a.UserEdits? || a.UserDeletes?
    ensures OwnInv(Step(s, protection, a))
  {
  }

  lemma GateOwns(s: State, protection: bool, t: Target, items: seq<Item>)
    requires OwnInv(s) && Enabled(s, DeleteGate(t, items))
    ensures OwnInv(Step(s, protection, DeleteGate(t, items)))
  {
    ListFindsTheEarliest(items, s.permits, t, s.now);
  }

  lemma DestroyOwns(s: State, protection: bool, a: Action)
    requires OwnInv(s) && Enabled(s, a) && (a.DeleteDestroy? || a.DeleteCrash?)
    ensures OwnInv(Step(s, protection, a))
  {
    var n := Step(s, protection, a);
    assert n.permits == s.permits && n.reconciling == s.reconciling && n.edited == s.edited && n.now == s.now;
    assert forall t :: t in n.deletions ==> t in s.deletions && n.deletions[t].gate == s.deletions[t].gate;
  }

  lemma StepOwns(s: State, protection: bool, a: Action)
    requires Inv(s, protection) && OwnInv(s) && Enabled(s, a)
    ensures OwnInv(Step(s, protection, a))
  {
    if a.PermitWrite? {
      WriteOwns(s, protection, a.uid);
    } else if a.DeleteConsume? {
      ConsumeOwns(s, protection, a.account);
    } else if a.DeleteGate? {
      GateOwns(s, protection, a.account, a.items);
    } else if a.DeleteDestroy? || a.DeleteCrash? {
      DestroyOwns(s, protection, a);
    } else if a.PermitRead? || a.PermitObserve? || a.PermitCrash? {
      ReadOwns(s, protection, a);
    } else {
      UserOwns(s, protection, a);
    }
  }

  lemma {:induction false} RunOwns(s: State, protection: bool, actions: seq<Action>)
    requires Inv(s, protection) && OwnInv(s) && IsRun(s, protection, actions)
    ensures OwnInv(Run(s, protection, actions))
    decreases |actions|
  {
    if actions != [] {
      StepKeepsInv(s, protection, actions[0]);
      StepOwns(s, protection, actions[0]);
      RunOwns(Step(s, protection, actions[0]), protection, actions[1..]);
    }
  }

  /** Over every run, a permit whose spec nobody changed is valid until its creation plus
      its own duration, from its first observation on, and Expired only past that. */
  lemma WindowIsThePermitsOwn(s: State, protection: bool, actions: seq<Action>, u: Uid)
    requires IsStart(s) && IsRun(s, protection, actions)
    requires u in Run(s, protection, actions).permits && u !in Run(s, protection, actions).edited
    ensures var e := Run(s, protection, actions); var p := e.permits[u];
      && (p.state.Unset? <==> p.validUntil.None?)
      && (!p.state.Unset? ==> p.validUntil == Some(p.created + p.duration))
      && (p.state.Expired? ==> e.now > p.created + p.duration)
  {
    StartIsGood(s, protection);
    RunKeepsInv(s, protection, actions);
    RunOwns(s, protection, actions);
    assert GoodPermit(Run(s, protection, actions).permits[u], Run(s, protection, actions).now);
  }

  // ---- the bound is attained --------------------------------------------------------------------------

  lemma OneMorePunctual(s: State, a: Action, rest: seq<Action>, lag: nat)
    requires Enabled(s, a) && (a.DeleteGate? ==> Punctual(s, lag))
    requires IsPunctualRun(Step(s, true, a), true, rest, lag)
    ensures IsPunctualRun(s, true, [a] + rest, lag) && IsRun(s, true, [a] + rest)
    ensures IsRun(Step(s, true, a), true, rest)
    ensures Run(s, true, [a] + rest) == Run(Step(s, true, a), true, rest)
  {
    assert ([a] + rest)[1..] == rest;
    PunctualIsRun(Step(s, true, a), true, rest, lag);
  }

  const HOUR := 3600

  /** A permit of one hour, found Active in the very second its window ends. */
  function LastSecond(): State {
    var p := Permit(ACCOUNT, 0, HOUR, Active, Some(HOUR), 1);
    State(HOUR, map[0 := p], {0}, {}, map[0 := HOUR], map[], map[], [], [])
  }

  const UNSET := Permit(ACCOUNT, 0, HOUR, Unset, None, 0)

  /** The same permit, not yet observed. */
  function Unobserved(): State { State(HOUR, map[0 := UNSET], {0}, {}, map[], map[], map[], [], []) }

  lemma ObservedInTheLastSecond(rest: seq<Action>, lag: nat) returns (actions: seq<Action>)
    requires IsPunctualRun(LastSecond(), true, rest, lag)
    ensures IsPunctualRun(Unobserved(), true, actions, lag) && IsRun(Unobserved(), true, actions)
    ensures IsRun(LastSecond(), true, rest) && Run(Unobserved(), true, actions) == Run(LastSecond(), true, rest)
  {
    var a0, a1, a2 := PermitRead(0), PermitObserve(0), PermitWrite(0);
    var s1 := Unobserved().(reconciling := map[0 := Copy(UNSET, UNSET, None)]);
    var s2 := Unobserved().(reconciling := map[0 := Copy(UNSET, ObservePermit(UNSET, HOUR), Some(HOUR))]);
    assert Step(Unobserved(), true, a0) == s1 && Step(s1, true, a1) == s2 && Step(s2, true, a2) == LastSecond();
    OneMorePunctual(s2, a2, rest, lag);
    OneMorePunctual(s1, a1, [a2] + rest, lag);
    OneMorePunctual(Unobserved(), a0, [a1] + ([a2] + rest), lag);
    actions := [a0] + ([a1] + ([a2] + rest));
  }

  lemma LastSecondIsReachable(rest: seq<Action>, lag: nat) returns (start: State, actions: seq<Action>)
    requires IsPunctualRun(LastSecond(), true, rest, lag)
    ensures IsRun(LastSecond(), true, rest)
    ensures IsStart(start) && IsPunctualRun(start, true, actions, lag) && IsRun(start, true, actions)
    ensures Run(start, true, actions) == Run(LastSecond(), true, rest)
  {
    var later := ObservedInTheLastSecond(rest, lag);
    var a0, a1 := UserCreates(0, ACCOUNT, HOUR), Tick(HOUR);
    start := State(0, map[], {}, {}, map[], map[], map[], [], []);
    var s1 := Unobserved().(now := 0);
    assert Step(start, true, a0) == s1 && Step(s1, true, a1) == Unobserved();
    OneMorePunctual(s1, a1, later, lag);
    OneMorePunctual(start, a0, [a1] + later, lag);
    actions := [a0] + ([a1] + later);
  }

  /** Whatever the lag and the gap, some run is exactly that late. With a lag, the gate
      itself is passed after the window has ended, by a permit still shown as Active. */
  lemma TheBoundIsAttained(lag: nat, gap: nat) returns (start: State, actions: seq<Action>)
    ensures IsStart(start) && IsPunctualRun(start, true, actions, lag) && IsRun(start, true, actions)
    ensures var e := Run(start, true, actions);
      && |e.drops| == 1 && e.drops[0].gate.item.Some? && e.drops[0].gate.item.value.permit.validUntil.Some?
      && e.drops[0].gate.item.value.permit.state.Active?
      && e.drops[0].gate.at == e.drops[0].gate.item.value.permit.validUntil.value + lag
      && e.drops[0].at == e.drops[0].gate.at + gap
  {
    var s0 := LastSecond();
    var p := s0.permits[0];
    var a0, a1, a2, a3 := Tick(lag), DeleteGate(ACCOUNT, [Item(0, p)]), Tick(gap), DeleteDestroy(ACCOUNT, true);
    var s1 := s0.(now := HOUR + lag);
    GateOnOnePermit(s1, 0, p);
    var s2 := Step(s1, true, a1);
    var s3 := s2.(now := HOUR + lag + gap);
    assert Step(s0, true, a0) == s1 && Step(s2, true, a2) == s3;
    OneMorePunctual(s3, a3, [], lag);
    OneMorePunctual(s2, a2, [a3] + [], lag);
    OneMorePunctual(s1, a1, [a2] + ([a3] + []), lag);
    OneMorePunctual(s0, a0, [a1] + ([a2] + ([a3] + [])), lag);
    start, actions := LastSecondIsReachable([a0] + ([a1] + ([a2] + ([a3] + []))), lag);
  }
}
