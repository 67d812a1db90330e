/** internal/account/pipeline: running an ordered list of modules, and what the
    resource's status says afterwards. A module is represented, for one call, by the
    answer it gives in that call. */
module Pipeline {
  import opened Common

  // ---- module.go -------------------------------------------------------------------------

  datatype Progress = Done | Pending | Drifted | Failed

  datatype Outcome = Outcome(mod: string, state: Progress, reason: string, err: Option<Error>, aborted: bool)

  function DoneOutcome(): Outcome { Outcome("", Done, "", None, false) }

  function PendingOutcome(reason: string): Outcome { Outcome("", Pending, reason, None, false) }

  function FailedOutcome(err: Error): Outcome { Outcome("", Failed, "", Some(err), false) }

  /** Abort marks every outcome but Done. */
  function Abort(o: Outcome): Outcome { if o.state.Done? then o else o.(aborted := true) }

  /** Outcomes as the constructors and Abort build them. */
  predicate WellFormed(o: Outcome) { (o.aborted ==> !o.state.Done?) && (o.state.Failed? <==> o.err.Some?) }

  /** Done, Pending and Failed say what they are called, with an error exactly if failed;
      none stops the pipeline by itself. Abort makes every one of them stop it but Done,
      and changes nothing else. */
  lemma OutcomesExactly(reason: string, err: Error, o: Outcome)
    ensures var done, pending, failed := DoneOutcome(), PendingOutcome(reason), FailedOutcome(err);
      && done.state == Done && done.err == None && !done.aborted
      && pending.state == Pending && pending.reason == reason && pending.err == None && !pending.aborted
      && failed.state == Failed && failed.err == Some(err) && !failed.aborted
    ensures o.state != Done ==> Abort(o).aborted
    ensures o.state == Done ==> Abort(o).aborted == o.aborted
    ensures Abort(o).(aborted := o.aborted) == o
  {
  }

  const ACCOUNT_MODULE := "account"

  /** One registered module and its answer to the call at hand. */
  datatype Module = Module(name: string, answer: Outcome)

  function Named(m: Module): Outcome { m.answer.(mod := m.name) }

  // ---- derived values -----------------------------------------------------------------------

  predicate AllDone(o: seq<Outcome>) {
    o != [] && forall i :: 0 <= i < |o| ==> o[i].state.Done?
  }

  function PendingReason(o: seq<Outcome>): string {
    if o == [] then ""
    else if o[0].state.Pending? then o[0].reason
    else PendingReason(o[1..])
  }

  datatype Condition = Available | Unavailable(message: string)

  function Ready(latched: bool, satisfied: bool, o: seq<Outcome>): Condition {
    if latched || satisfied then Available else Unavailable(PendingReason(o))
  }

  /** The account module's outcome alone decides existence. */
  function Exists(o: seq<Outcome>): bool {
    if o == [] then false
    else if o[0].mod == ACCOUNT_MODULE then o[0].state.Done? || o[0].state.Drifted?
    else Exists(o[1..])
  }

  predicate UpToDate(generationApplied: bool, o: seq<Outcome>) {
    generationApplied && forall i :: 0 <= i < |o| ==> !o[i].state.Drifted?
  }

  /** Which answer is the account module's: the first of that name. */
  predicate IsAccountAnswer(o: seq<Outcome>, k: nat) {
    k < |o| && o[k].mod == "account" && forall i :: 0 <= i < k ==> o[i].mod != "account"
  }

  /** The resource exists exactly when the account module answered Done or Drifted: not
      when it is pending or failed, and not when it gave no answer. */
  lemma {:induction false} ExistsExactly(o: seq<Outcome>)
    ensures Exists(o) <==> exists k: nat :: IsAccountAnswer(o, k) && (o[k].state.Done? || o[k].state.Drifted?)
  {
    if o != [] {
      if o[0].mod == "account" {
        assert IsAccountAnswer(o, 0);
      } else {
        ExistsExactly(o[1..]);
        if k: nat :| IsAccountAnswer(o[1..], k) && (o[1..][k].state.Done? || o[1..][k].state.Drifted?) {
          assert forall i :: 0 < i < |o| ==> o[i] == o[1..][i - 1];
          assert IsAccountAnswer(o, k + 1);
        }
        if k: nat :| IsAccountAnswer(o, k) && (o[k].state.Done? || o[k].state.Drifted?) {
          assert forall i :: 0 <= i < |o[1..]| ==> o[1..][i] == o[i + 1];
          assert IsAccountAnswer(o[1..], k - 1);
        }
      }
    }
  }

  /** It is up to date exactly when its generation was applied and no module found drift;
      a pending or failed one does not matter. */
  lemma UpToDateExactly(generationApplied: bool, o: seq<Outcome>)
    ensures UpToDate(generationApplied, o) <==> generationApplied && !exists i :: 0 <= i < |o| && o[i].state == Drifted
  {
  }

  /** Ready is True exactly when it was before or the run was complete. */
  lemma ReadyExactly(latched: bool, satisfied: bool, o: seq<Outcome>)
    ensures Ready(latched, satisfied, o) == Available <==> latched || satisfied
  {
  }

  /** The message of an unready resource is the reason of the first pending module. */
  lemma {:induction false} PendingReasonIsFirst(o: seq<Outcome>, k: nat)
    requires k < |o| && o[k].state.Pending? && forall i :: 0 <= i < k ==> !o[i].state.Pending?
    ensures PendingReason(o) == o[k].reason
    ensures Ready(false, false, o) == Unavailable(o[k].reason)
  {
    if k > 0 {
      PendingReasonIsFirst(o[1..], k - 1);
    }
  }

  lemma {:induction false} NoPendingNoReason(o: seq<Outcome>)
    requires forall i :: 0 <= i < |o| ==> !o[i].state.Pending?
    ensures PendingReason(o) == "" && Ready(false, false, o) == Unavailable("")
  {
    if o != [] {
      NoPendingNoReason(o[1..]);
    }
  }

  // ---- Observe, Apply ----------------------------------------------------------------------

  datatype Observation = Observation(outcomes: seq<Outcome>, generationApplied: bool, readyLatched: bool)

  datatype ApplyResult = ApplyResult(outcomes: seq<Outcome>, readyLatched: bool)

  function Answers(modules: seq<Module>): seq<Outcome> {
    seq(|modules|, i requires 0 <= i < |modules| => Named(modules[i]))
  }

  /** Apply's outcomes: every answer up to and including the first aborted one. */
  function UntilAbort(o: seq<Outcome>): seq<Outcome> {
    if o == [] then []
    else if o[0].aborted then [o[0]]
    else [o[0]] + UntilAbort(o[1..])
  }

  /** The part of the resource the pipeline reads and writes. */
  class Resource {
    const generation: int
    var observedGeneration: int
    var ready: bool

    constructor (generation: int, observedGeneration: int, ready: bool)
      ensures this.generation == generation && this.observedGeneration == observedGeneration && this.ready == ready
    {
      this.generation := generation;
      this.observedGeneration := observedGeneration;
      this.ready := ready;
    }
  }

  /** Never stops early and changes nothing. */
  method Observe(modules: seq<Module>, cr: Resource) returns (obs: Observation)
    ensures obs == Observation(Answers(modules), cr.observedGeneration == cr.generation, cr.ready)
  {
    var outcomes: seq<Outcome> := [];
    for k := 0 to |modules|
      invariant outcomes == Answers(modules)[..k]
    {
      outcomes := outcomes + [Named(modules[k])];
    }
    return Observation(outcomes, cr.observedGeneration == cr.generation, cr.ready);
  }

  lemma {:induction false} UntilAbortStops(o: seq<Outcome>, k: nat)
    requires k < |o| && forall i :: 0 <= i < k ==> !o[i].aborted
    ensures o[k].aborted ==> UntilAbort(o) == o[..k + 1]
    ensures (k + 1 == |o| && !o[k].aborted) ==> UntilAbort(o) == o
  {
    if k == 0 {
      assert o[..1] == [o[0]];
      if |o| == 1 { assert o == [o[0]] + o[1..]; }
    } else {
      UntilAbortStops(o[1..], k - 1);
      assert o == [o[0]] + o[1..];
      assert o[..k + 1] == [o[0]] + o[1..][..k];
    }
  }

  /** Stops after an aborted outcome; records the generation only for a complete run. */
  method Apply(modules: seq<Module>, cr: Resource) returns (r: ApplyResult)
    modifies cr`observedGeneration
    ensures r == ApplyResult(UntilAbort(Answers(modules)), cr.ready)
    ensures cr.observedGeneration == if AllDone(r.outcomes) then cr.generation else old(cr.observedGeneration)
  {
    ghost var all := Answers(modules);
    var outcomes: seq<Outcome> := [];
    var k := 0;
    while k < |modules|
      invariant 0 <= k <= |modules| && outcomes == all[..k]
      invariant forall i :: 0 <= i < k ==> !all[i].aborted
    {
      var out := Named(modules[k]);
      outcomes := outcomes + [out];
      if out.aborted {
        UntilAbortStops(all, k);
        break;
      }
      k := k + 1;
    }
    if k == |modules| && k > 0 {
      UntilAbortStops(all, k - 1);
    }
    assert outcomes == UntilAbort(all);
    if AllDone(outcomes) {
      cr.observedGeneration := cr.generation;
    }
    return ApplyResult(outcomes, cr.ready);
  }

  /** A stopped run is never complete: the run counts as applied exactly when every
      registered module, not only those reached, is done. */
  lemma {:induction false} CompleteMeansEveryModule(modules: seq<Module>)
    requires forall i :: 0 <= i < |modules| ==> WellFormed(modules[i].answer)
    ensures AllDone(UntilAbort(Answers(modules))) <==>
      modules != [] && forall i :: 0 <= i < |modules| ==> modules[i].answer.state.Done?
  {
    var o := Answers(modules);
    assert forall i :: 0 <= i < |o| ==> WellFormed(o[i]);
    CompleteSuffix(o);
    assert |o| == |modules| && forall i :: 0 <= i < |o| ==> o[i].state == modules[i].answer.state;
  }

  lemma AllDoneCons(x: Outcome, rest: seq<Outcome>)
    ensures AllDone([x] + rest) <==> x.state.Done? && (rest == [] || AllDone(rest))
  {
    if AllDone([x] + rest) {
      assert ([x] + rest)[0] == x;
      forall i | 0 <= i < |rest| ensures rest[i].state.Done? { assert ([x] + rest)[i + 1] == rest[i]; }
    }
  }

  lemma {:induction false} CompleteSuffix(o: seq<Outcome>)
    requires forall i :: 0 <= i < |o| ==> WellFormed(o[i])
    ensures AllDone(UntilAbort(o)) <==> AllDone(o)
  {
    if o != [] && !o[0].aborted {
      CompleteSuffix(o[1..]);
      AllDoneCons(o[0], o[1..]);
      AllDoneCons(o[0], UntilAbort(o[1..]));
      assert o == [o[0]] + o[1..];
    } else if o != [] {
      assert UntilAbort(o)[0] == o[0];
    }
  }

  // ---- the status over a whole history ---------------------------------------------------------

  datatype Tracked = Tracked(generation: int, observedGeneration: int, ready: bool)

  /** What happens to a resource before its deletion: its spec is edited, or a run of
      Observe or Apply reports on it and the status write succeeds or is lost. */
  datatype Event =
    | SpecEdited
    | Observed(outcomes: seq<Outcome>, persisted: bool)
    | Applied(outcomes: seq<Outcome>, persisted: bool)

  predicate CompleteRun(e: Event) { e.Applied? && AllDone(e.outcomes) }

  function After(s: Tracked, e: Event): Tracked {
    match e
    case SpecEdited => s.(generation := s.generation + 1)
    case Observed(o, persisted) =>
      if persisted then s.(ready := Ready(s.ready, false, o) == Available) else s
    case Applied(o, persisted) =>
      if !persisted then s
      else s.(ready := Ready(s.ready, AllDone(o), o) == Available,
              observedGeneration := if AllDone(o) then s.generation else s.observedGeneration)
  }

  function AfterAll(s: Tracked, events: seq<Event>): Tracked
    decreases |events|
  {
    if events == [] then s else AfterAll(After(s, events[0]), events[1..])
  }

  ghost predicate Recorded(events: seq<Event>) {
    exists i :: 0 <= i < |events| && CompleteRun(events[i]) && events[i].persisted
  }

  /** Ready is True exactly when some complete Apply was recorded, ever: nothing that
      any later Observe or Apply reports takes it back. */
  lemma {:induction false} ReadyIsLatched(s: Tracked, events: seq<Event>)
    ensures AfterAll(s, events).ready <==> s.ready || Recorded(events)
    decreases |events|
  {
    if events != [] {
      ReadyIsLatched(After(s, events[0]), events[1..]);
      if Recorded(events[1..]) {
        var i :| 0 <= i < |events[1..]| && CompleteRun(events[1..][i]) && events[1..][i].persisted;
        assert events[i + 1] == events[1..][i];
      }
      if Recorded(events) {
        var i :| 0 <= i < |events| && CompleteRun(events[i]) && events[i].persisted;
        assert i > 0 ==> events[1..][i - 1] == events[i];
      }
    }
  }

  /** A complete Apply was recorded with no edit of the spec after it. */
  ghost predicate RecordedSinceEdit(events: seq<Event>) {
    exists i :: 0 <= i < |events| && RecordsLast(events, i)
  }

  ghost predicate Edited(events: seq<Event>) {
    exists i :: 0 <= i < |events| && events[i].SpecEdited?
  }

  lemma EditedCons(events: seq<Event>)
    requires events != []
    ensures Edited(events) <==> events[0].SpecEdited? || Edited(events[1..])
  {
    if i :| 0 <= i < |events[1..]| && events[1..][i].SpecEdited? {
      assert events[i + 1].SpecEdited?;
    }
    if i :| 0 < i < |events| && events[i].SpecEdited? {
      assert events[1..][i - 1].SpecEdited?;
    }
  }

  predicate RecordsLast(events: seq<Event>, i: nat) {
    && i < |events| && CompleteRun(events[i]) && events[i].persisted
    && forall j :: i < j < |events| ==> !events[j].SpecEdited?
  }

  lemma RecordedSinceEditCons(events: seq<Event>)
    requires events != []
    ensures RecordedSinceEdit(events) <==>
      RecordedSinceEdit(events[1..]) || (CompleteRun(events[0]) && events[0].persisted && !Edited(events[1..]))
  {
    var tail := events[1..];
    if RecordedSinceEdit(tail) {
      var i :| 0 <= i < |tail| && RecordsLast(tail, i);
      forall j | i + 1 < j < |events| ensures !events[j].SpecEdited? { assert events[j] == tail[j - 1]; }
      assert RecordsLast(events, i + 1);
    }
    if CompleteRun(events[0]) && events[0].persisted && !Edited(tail) {
      forall j | 0 < j < |events| ensures !events[j].SpecEdited? { assert events[j] == tail[j - 1]; }
      assert RecordsLast(events, 0);
    }
    if RecordedSinceEdit(events) {
      var i :| 0 <= i < |events| && RecordsLast(events, i);
      forall j | i <= j < |tail| ensures !tail[j].SpecEdited? { assert tail[j] == events[j + 1]; }
      if i > 0 {
        assert RecordsLast(tail, i - 1);
      }
    }
  }

  /** The recorded generation is current exactly when a complete Apply was recorded
      after the last edit, or it was current to begin with and nothing was edited. */
  lemma {:induction false} GenerationMeansApplied(s: Tracked, events: seq<Event>)
    requires s.observedGeneration <= s.generation
    ensures AfterAll(s, events).observedGeneration <= AfterAll(s, events).generation
    ensures AfterAll(s, events).observedGeneration == AfterAll(s, events).generation <==>
      RecordedSinceEdit(events) || (s.observedGeneration == s.generation && !Edited(events))
    decreases |events|
  {
    if events != [] {
      GenerationMeansApplied(After(s, events[0]), events[1..]);
      EditedCons(events);
      RecordedSinceEditCons(events);
    }
  }

  // ---- Destroy ------------------------------------------------------------------------------------

  /** One call of Destroy: it runs to the end, or the teardown of module `at` fails and
      leaves that module's external state as `partial`. */
  datatype Attempt<S> = Succeeds | FailsAt(at: nat, partial: S)

  /** The modules whose teardown an attempt on `n` modules calls, in the order of the calls. */
  function CallOrder(n: nat, a: Attempt): seq<nat> {
    if n == 0 then []
    else if a.FailsAt? && a.at == n - 1 then [n - 1]
    else [n - 1] + CallOrder(n - 1, a)
  }

  /** Those of them that succeed: all but the one that fails. */
  function Accepted(n: nat, a: Attempt): set<nat> {
    set i | i in CallOrder(n, a) && !(a.FailsAt? && i == a.at)
  }

  /** External states per module, after these calls. */
  function DestroySpec<S>(states: seq<S>, down: (nat, S) -> S, a: Attempt<S>): seq<S> {
    seq(|states|, i requires 0 <= i < |states| =>
      if i in Accepted(|states|, a) then down(i, states[i])
      else if a.FailsAt? && i == a.at then a.partial
      else states[i])
  }

  /** The calls go from the last module down, one by one, to the first one or to the one
      that fails. */
  lemma {:induction false} CallsGoDown<S>(n: nat, a: Attempt<S>)
    requires a.FailsAt? ==> a.at < n
    ensures |CallOrder(n, a)| == if a.FailsAt? then n - a.at else n
    ensures forall j :: 0 <= j < |CallOrder(n, a)| ==> CallOrder(n, a)[j] == n - 1 - j
  {
    if n > 0 && !(a.FailsAt? && a.at == n - 1) {
      CallsGoDown(n - 1, a);
      forall j | 0 < j < |CallOrder(n, a)| ensures CallOrder(n, a)[j] == n - 1 - j {
        assert CallOrder(n, a)[j] == CallOrder(n - 1, a)[j - 1];
      }
    }
  }

  lemma AcceptedExactly<S>(n: nat, a: Attempt<S>, i: nat)
    requires a.FailsAt? ==> a.at < n
    ensures i in Accepted(n, a) <==> i < n && (a.FailsAt? ==> i > a.at)
  {
    CallsGoDown(n, a);
    if i < n && (a.FailsAt? ==> i > a.at) {
      assert CallOrder(n, a)[n - 1 - i] == i;
    }
  }

  /** The first module, the account, is torn down only after every other one has been,
      without a failure. */
  lemma AccountGoesLast<S>(n: nat, a: Attempt<S>, i: nat)
    requires (a.FailsAt? ==> a.at < n) && 0 in CallOrder(n, a) && 0 < i < n
    ensures i in Accepted(n, a)
    ensures |CallOrder(n, a)| == n && CallOrder(n, a)[n - 1] == 0 && CallOrder(n, a)[n - 1 - i] == i
  {
    CallsGoDown(n, a);
    AcceptedExactly(n, a, i);
  }

  /** The state of every module after an attempt, in terms of where it failed. */
  lemma DestroyedExactly<S>(states: seq<S>, down: (nat, S) -> S, a: Attempt<S>, i: nat)
    requires (a.FailsAt? ==> a.at < |states|) && i < |states|
    ensures DestroySpec(states, down, a)[i]
         == if a.FailsAt? && i < a.at then states[i]
            else if a.FailsAt? && i == a.at then a.partial
            else down(i, states[i])
  {
    AcceptedExactly(|states|, a, i);
  }

  lemma IsDestroyed<S>(states: seq<S>, down: (nat, S) -> S, a: Attempt<S>, after: seq<S>)
    requires (a.FailsAt? ==> a.at < |states|) && |after| == |states|
    requires forall i :: 0 <= i < |states| && (a.FailsAt? ==> i > a.at) ==> after[i] == down(i, states[i])
    requires a.FailsAt? ==> after[a.at] == a.partial && forall i :: 0 <= i < a.at ==> after[i] == states[i]
    ensures after == DestroySpec(states, down, a)
  {
    forall i | 0 <= i < |states| ensures after[i] == DestroySpec(states, down, a)[i] {
      DestroyedExactly(states, down, a, i);
    }
  }

  /** `order` is the sequence of teardowns as they are called. */
  method Destroy<S>(states: seq<S>, down: (nat, S) -> S, a: Attempt<S>)
      returns (after: seq<S>, ok: bool, order: seq<nat>)
    requires a.FailsAt? ==> a.at < |states|
    ensures after == DestroySpec(states, down, a) && order == CallOrder(|states|, a)
    ensures |order| == if a.FailsAt? then |states| - a.at else |states|
    ensures forall j :: 0 <= j < |order| ==> order[j] == |states| - 1 - j
    ensures a.FailsAt? ==> forall i :: 0 <= i < a.at ==> after[i] == states[i]
    ensures forall i :: 0 <= i < |states| && (a.FailsAt? ==> i > a.at) ==> after[i] == down(i, states[i])
    ensures ok <==> a.Succeeds?
  {
    after, order := states, [];
    CallsGoDown(|states|, a);
    var i := |states|;
    while i > 0
      invariant 0 <= i <= |states| && |after| == |states|
      invariant a.FailsAt? ==> a.at < i
      invariant |order| == |states| - i && forall j :: 0 <= j < |order| ==> order[j] == |states| - 1 - j
      invariant forall j :: 0 <= j < |states| ==> after[j] == if j < i then states[j] else down(j, states[j])
    {
      i := i - 1;
      order := order + [i];
      if a.FailsAt? && a.at == i {
        after := after[i := a.partial];
        IsDestroyed(states, down, a, after);
        return after, false, order;
      }
      after := after[i := down(i, after[i])];
    }
    IsDestroyed(states, down, a, after);
    return after, true, order;
  }

  /** A module's teardown may be repeated, and what a failed one leaves behind is
      finished by the next. */
  ghost predicate Repeatable<S(!new)>(down: (nat, S) -> S) {
    forall i: nat, s: S :: down(i, down(i, s)) == down(i, s)
  }

  ghost predicate Retryable<S>(states: seq<S>, down: (nat, S) -> S, a: Attempt<S>) {
    a.FailsAt? && a.at < |states| && down(a.at, a.partial) == down(a.at, states[a.at])
  }

  /** States, and the modules whose teardown was called and succeeded at least once. */
  datatype Torn<S> = Torn(states: seq<S>, accepted: set<nat>)

  function TryOnce<S>(t: Torn<S>, down: (nat, S) -> S, a: Attempt<S>): Torn<S> {
    Torn(DestroySpec(t.states, down, a), t.accepted + Accepted(|t.states|, a))
  }

  function TryAll<S>(t: Torn<S>, down: (nat, S) -> S, attempts: seq<Attempt<S>>): Torn<S>
    decreases |attempts|
  {
    if attempts == [] then t else TryAll(TryOnce(t, down, attempts[0]), down, attempts[1..])
  }

  ghost predicate AllRetryable<S>(t: Torn<S>, down: (nat, S) -> S, attempts: seq<Attempt<S>>)
    decreases |attempts|
  {
    attempts == [] || (Retryable(t.states, down, attempts[0])
                       && AllRetryable(TryOnce(t, down, attempts[0]), down, attempts[1..]))
  }

  /** The accepted modules are the last ones, in registration order. */
  predicate IsSuffix(accepted: set<nat>, n: nat) {
    && (forall i :: i in accepted ==> i < n)
    && forall i, j :: i in accepted && i <= j < n ==> j in accepted
  }

  lemma TryKeepsSuffix<S>(t: Torn<S>, down: (nat, S) -> S, a: Attempt<S>)
    requires IsSuffix(t.accepted, |t.states|) && (a.FailsAt? ==> a.at < |t.states|)
    ensures IsSuffix(TryOnce(t, down, a).accepted, |t.states|)
  {
    forall i | i in Accepted(|t.states|, a) ensures i < |t.states| { AcceptedExactly(|t.states|, a, i); }
    forall i, j | i in Accepted(|t.states|, a) && i <= j < |t.states| ensures j in Accepted(|t.states|, a) {
      AcceptedExactly(|t.states|, a, i);
      AcceptedExactly(|t.states|, a, j);
    }
  }

  /** One attempt, then a clean one, ends where a clean one alone ends. */
  lemma TryThenSucceed<S(!new)>(states: seq<S>, down: (nat, S) -> S, a: Attempt<S>)
    requires Repeatable(down) && Retryable(states, down, a)
    ensures DestroySpec(DestroySpec(states, down, a), down, Succeeds) == DestroySpec(states, down, Succeeds)
  {
    var n := DestroySpec(states, down, a);
    forall i | 0 <= i < |states| ensures DestroySpec(n, down, Succeeds)[i] == DestroySpec(states, down, Succeeds)[i] {
      DestroyedExactly(states, down, a, i);
      DestroyedExactly(states, down, Succeeds, i);
      DestroyedExactly(n, down, Succeeds, i);
    }
  }

  /** Whatever happens, the modules torn down are the last ones; none of the others has
      been touched, except the one an attempt failed at; and any number of failed attempts
      followed by a successful one end where one clean call ends. */
  lemma {:induction false} TeardownConverges<S(!new)>(t: Torn<S>, down: (nat, S) -> S, failures: seq<Attempt<S>>)
    requires Repeatable(down) && AllRetryable(t, down, failures) && IsSuffix(t.accepted, |t.states|)
    ensures var e := TryAll(t, down, failures);
      && |e.states| == |t.states|
      && IsSuffix(e.accepted, |t.states|)
      && DestroySpec(e.states, down, Succeeds) == DestroySpec(t.states, down, Succeeds)
    decreases |failures|
  {
    if failures != [] {
      TryKeepsSuffix(t, down, failures[0]);
      TryThenSucceed(t.states, down, failures[0]);
      TeardownConverges(TryOnce(t, down, failures[0]), down, failures[1..]);
    }
  }

  /** A module is touched only once every later one has been torn down: as long as some
      later module has not, its state is the one it had to begin with. */
  lemma {:induction false} EarlierModulesWait<S>(
      t: Torn<S>, down: (nat, S) -> S, failures: seq<Attempt<S>>, i: nat, later: nat)
    requires AllRetryable(t, down, failures) && i < later < |t.states|
    requires later !in TryAll(t, down, failures).accepted
    ensures |TryAll(t, down, failures).states| == |t.states|
    ensures TryAll(t, down, failures).states[i] == t.states[i]
    decreases |failures|
  {
    if failures != [] {
      var n := TryOnce(t, down, failures[0]);
      if later in n.accepted {
        AcceptedGrows(n, down, failures[1..], later);
      }
      AcceptedExactly(|t.states|, failures[0], later);
      DestroyedExactly(t.states, down, failures[0], i);
      EarlierModulesWait(n, down, failures[1..], i, later);
    }
  }

  lemma {:induction false} AcceptedGrows<S>(t: Torn<S>, down: (nat, S) -> S, attempts: seq<Attempt<S>>, i: nat)
    requires i in t.accepted
    ensures i in TryAll(t, down, attempts).accepted
    decreases |attempts|
  {
    if attempts != [] {
      AcceptedGrows(TryOnce(t, down, attempts[0]), down, attempts[1..], i);
    }
  }
}
