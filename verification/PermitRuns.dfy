/** Runs of Permits in which something a reader of its documentation would not expect
    happens. */
module PermitRuns {
  import opened Common
  import opened Permits
  import opened PermitSafety

  /** A permit of one hour, activated. */
  const ACTIVE := Permit(ACCOUNT, 0, 3600, Active, Some(3600), 1)

  /** A state with the permit `p` and nothing in flight. */
  function TheState(p: Permit): State { State(0, map[0 := p], {0}, {}, map[0 := 0], map[], map[], [], []) }

  lemma ActiveIsReachable(rest: seq<Action>) returns (start: State, actions: seq<Action>)
    requires IsRun(TheState(ACTIVE), true, rest)
    ensures IsStart(start) && IsRun(start, true, actions)
    ensures Run(start, true, actions) == Run(TheState(ACTIVE), true, rest)
  {
    var created := Permit(ACCOUNT, 0, 3600, Unset, None, 0);
    var a0, a1, a2, a3 := UserCreates(0, ACCOUNT, 3600), PermitRead(0), PermitObserve(0), PermitWrite(0);
    start := State(0, map[], {}, {}, map[], map[], map[], [], []);
    var s1 := TheState(created).(observed := map[]);
    var s2 := s1.(reconciling := map[0 := Copy(created, created, None)]);
    var s3 := s1.(reconciling := map[0 := Copy(created, ObservePermit(created, 0), Some(0))]);
    assert Step(start, true, a0) == s1 && Step(s1, true, a1) == s2;
    assert Step(s2, true, a2) == s3 && Step(s3, true, a3) == TheState(ACTIVE);
    OneMore(s3, true, a3, rest);
    OneMore(s2, true, a2, [a3] + rest);
    OneMore(s1, true, a1, [a2] + ([a3] + rest));
    OneMore(start, true, a0, [a1] + ([a2] + ([a3] + rest)));
    actions := [a0] + ([a1] + ([a2] + ([a3] + rest)));
  }

  const GATE := Gate(Some(Item(0, ACTIVE)), map[0 := ACTIVE], 0)

  /** A deletion just past its gate. */
  function GatedState(): State { TheState(ACTIVE).(deletions := map[ACCOUNT := Gated(GATE)]) }

  lemma GatedStateIsReachable(rest: seq<Action>) returns (start: State, actions: seq<Action>)
    requires IsRun(GatedState(), true, rest)
    ensures IsStart(start) && IsRun(start, true, actions) && Run(start, true, actions) == Run(GatedState(), true, rest)
  {
    var a := DeleteGate(ACCOUNT, [Item(0, ACTIVE)]);
    GateOnOnePermit(TheState(ACTIVE), 0, ACTIVE);
    assert Step(TheState(ACTIVE), true, a) == GatedState();
    OneMore(TheState(ACTIVE), true, a, rest);
    start, actions := ActiveIsReachable([a] + rest);
  }

  // ---- the window ends between gate and Destroy ---------------------------------------------------

  /** The same deletion an hour later, the permit found expired in between. */
  function ExpiredState(): State {
    var expired := Permit(ACCOUNT, 0, 3600, Expired, Some(3600), 2);
    GatedState().(now := 3601, permits := map[0 := expired], observed := map[0 := 3601])
  }

  lemma ExpiryAfterTheGate(rest: seq<Action>) returns (actions: seq<Action>)
    requires IsRun(ExpiredState(), true, rest)
    ensures IsRun(GatedState(), true, actions) && Run(GatedState(), true, actions) == Run(ExpiredState(), true, rest)
  {
    var s0 := GatedState();
    var a0, a1, a2, a3 := Tick(3601), PermitRead(0), PermitObserve(0), PermitWrite(0);
    var s1 := s0.(now := 3601);
    var s2 := s1.(reconciling := map[0 := Copy(ACTIVE, ACTIVE, None)]);
    var s3 := s1.(reconciling := map[0 := Copy(ACTIVE, ACTIVE.(state := Expired), Some(3601))]);
    assert Step(s0, true, a0) == s1 && Step(s1, true, a1) == s2 && Step(s2, true, a2) == s3;
    assert Step(s3, true, a3) == ExpiredState();
    OneMore(s3, true, a3, rest);
    OneMore(s2, true, a2, [a3] + rest);
    OneMore(s1, true, a1, [a2] + ([a3] + rest));
    OneMore(s0, true, a0, [a1] + ([a2] + ([a3] + rest)));
    actions := [a0] + ([a1] + ([a2] + ([a3] + rest)));
  }

  /** The window may close between the gate and the DROP ACCOUNT; the permit then ends
      Expired although an account was destroyed behind it. */
  lemma DropMayFollowExpiry() returns (start: State, actions: seq<Action>)
    ensures IsStart(start) && IsRun(start, true, actions)
    ensures 0 in Run(start, true, actions).permits && Run(start, true, actions).permits[0].state.Expired?
    ensures DestroyedBehind(Run(start, true, actions), 0)
  {
    var s0 := ExpiredState();
    var a0, a1 := DeleteDestroy(ACCOUNT, true), DeleteConsume(ACCOUNT);
    var s1 := Step(s0, true, a0);
    var s2 := Step(s1, true, a1);
    OneMore(s1, true, a1, []);
    OneMore(s0, true, a0, [a1] + []);
    assert s2.destroyed[0].gate.item == Some(Item(0, ACTIVE));
    assert DestroyedBehind(s2, 0);
    var later := ExpiryAfterTheGate([a0] + ([a1] + []));
    start, actions := GatedStateIsReachable(later);
  }

  // ---- one permit, two Destroys -----------------------------------------------------------------------

  const DROP := Drop(ACCOUNT, GATE, 0)

  /** Two Destroys of the account that returned nil, both behind permit 0. */
  predicate ServedTwice(s: State) {
    && |s.destroyed| == 2
    && forall i :: 0 <= i < 2 ==>
         s.destroyed[i].account == ACCOUNT && s.destroyed[i].gate.item.Some? && s.destroyed[i].gate.item.value.uid == 0
  }

  /** The deletion of GatedState is over, and the permit `p` is still active. */
  function OpenAgain(p: Permit, edited: set<Uid>): State {
    TheState(p).(edited := edited, drops := [DROP], destroyed := [DROP])
  }

  lemma AndAgain(p: Permit, edited: set<Uid>) returns (rest: seq<Action>)
    requires p.state.Active? && p.target == ACCOUNT
    ensures IsRun(OpenAgain(p, edited), true, rest) && ServedTwice(Run(OpenAgain(p, edited), true, rest))
  {
    var s0 := OpenAgain(p, edited);
    var a0, a1 := DeleteGate(ACCOUNT, [Item(0, p)]), DeleteDestroy(ACCOUNT, true);
    GateOnOnePermit(s0, 0, p);
    var s1 := Step(s0, true, a0);
    OneMore(s1, true, a1, []);
    OneMore(s0, true, a0, [a1] + []);
    rest := [a0] + ([a1] + []);
  }

  /** A permit edited while the Destroy runs is not consumed, and lets a second Destroy
      of the same account through. */
  lemma OnePermitMayServeTwice() returns (start: State, actions: seq<Action>)
    ensures IsStart(start) && IsRun(start, true, actions) && ServedTwice(Run(start, true, actions))
  {
    var edited := ACTIVE.(duration := 7200, version := 2);
    var s0, s3 := GatedState(), OpenAgain(edited, {0});
    var a0, a1, a2 := UserEdits(0, ACCOUNT, 7200), DeleteDestroy(ACCOUNT, true), DeleteConsume(ACCOUNT);
    var s1 := s0.(permits := s3.permits, edited := {0});
    var s2 := s3.(deletions := map[ACCOUNT := Destroyed(GATE)]);
    assert Step(s0, true, a0) == s1 && Step(s1, true, a1) == s2 && Step(s2, true, a2) == s3;
    var rest := AndAgain(edited, {0});
    OneMore(s2, true, a2, rest);
    OneMore(s1, true, a1, [a2] + rest);
    OneMore(s0, true, a0, [a1] + ([a2] + rest));
    start, actions := GatedStateIsReachable([a0] + ([a1] + ([a2] + rest)));
  }

  /** So does a crash between the Destroy and MarkConsumed, with the permit exactly as the
      gate read it. */
  lemma CrashMayLetItServeTwice() returns (start: State, actions: seq<Action>)
    ensures IsStart(start) && IsRun(start, true, actions) && ServedTwice(Run(start, true, actions))
    ensures Run(start, true, actions).permits == map[0 := ACTIVE]
  {
    var s0, s2 := GatedState(), OpenAgain(ACTIVE, {});
    var a0, a1 := DeleteDestroy(ACCOUNT, true), DeleteCrash(ACCOUNT);
    var s1 := s2.(deletions := map[ACCOUNT := Destroyed(GATE)]);
    assert Step(s0, true, a0) == s1 && Step(s1, true, a1) == s2;
    var b0, b1 := DeleteGate(ACCOUNT, [Item(0, ACTIVE)]), DeleteDestroy(ACCOUNT, true);
    GateOnOnePermit(s2, 0, ACTIVE);
    var s3 := Step(s2, true, b0);
    OneMore(s3, true, b1, []);
    OneMore(s2, true, b0, [b1] + []);
    OneMore(s1, true, a1, [b0] + ([b1] + []));
    OneMore(s0, true, a0, [a1] + ([b0] + ([b1] + [])));
    start, actions := GatedStateIsReachable([a0] + ([a1] + ([b0] + ([b1] + []))));
  }
}
