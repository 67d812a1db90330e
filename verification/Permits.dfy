/** internal/deletion and internal/controller/deletionpermit: permits that two
    controllers write through versioned updates, and the gate they form in front of
    DROP ACCOUNT (internal/controller/snowflakeaccount). */
module Permits {
  import opened Common

  type Time = int
  type Uid = nat

  /** The longest window admission accepts on any write of a permit: eight hours. */
  const MAX_DURATION := 28800

  datatype PermitState = Unset | Active | Expired | Consumed

  /** The resource a permit authorizes destroying. */
  datatype Target = Target(kind: string, name: string, namespace: string)

  /** The account of the runs given as examples. */
  const ACCOUNT := Target("SnowflakeAccount", "sales", "team-a")

  /** `version` is the resourceVersion, which every effective write changes. */
  datatype Permit = Permit(target: Target, created: Time, duration: nat, state: PermitState,
        validUntil: Option<Time>, version: nat)

  predicate Terminal(p: Permit) { p.state.Expired? || p.state.Consumed? }

  // ---- deletionpermit/reconciler.go ---------------------------------------------------------

  /** Observe of the permit controller: recomputed until it reaches a terminal state. */
  function ObservePermit(p: Permit, now: Time): Permit {
    if Terminal(p) then p
    else
      var validUntil := p.created + p.duration;
      p.(validUntil := Some(validUntil), state := if now > validUntil then Expired else Active)
  }

  class PermitCr {
    const created: Time
    const duration: nat
    const deleting: bool
    var state: PermitState
    var validUntil: Option<Time>

    constructor (p: Permit, deleting: bool)
      ensures this.deleting == deleting && Holds(p)
    {
      created, duration, state, validUntil := p.created, p.duration, p.state, p.validUntil;
      this.deleting := deleting;
    }

    predicate Holds(p: Permit)
      reads this
    {
      created == p.created && duration == p.duration && state == p.state && validUntil == p.validUntil
    }

    /** A permit being deleted is left as it is and reported as gone. */
    method Observe(now: Time, ghost p: Permit) returns (resourceExists: bool)
      requires Holds(p)
      modifies this
      ensures resourceExists <==> !deleting
      ensures Holds(if deleting then p else ObservePermit(p, now))
      ensures !deleting && !old(state).Expired? && !old(state).Consumed? ==>
        validUntil == Some(created + duration) && state == (if now > created + duration then Expired else Active)
      ensures deleting || old(state).Expired? || old(state).Consumed? ==>
        state == old(state) && validUntil == old(validUntil)
    {
      if deleting {
        return false;
      }
      if state != Expired && state != Consumed {
        var until := created + duration;
        var next := Active;
        if now > until {
          next := Expired;
        }
        validUntil := Some(until);
        state := next;
      }
      return true;
    }
  }

  // ---- lookup.go ----------------------------------------------------------------------------------

  /** One listed object: its identity and contents. */
  datatype Item = Item(uid: Uid, permit: Permit)

  predicate Matches(p: Permit, t: Target) { p.state.Active? && p.target == t }

  /** The item at `i` matches, was created no later than any other match, and comes
      before every other match created at the same time. */
  predicate IsEarliest(items: seq<Item>, t: Target, i: nat) {
    && i < |items| && Matches(items[i].permit, t)
    && items[i].permit.state == Active && items[i].permit.target == t
    && forall j :: 0 <= j < |items| && Matches(items[j].permit, t) ==>
         items[i].permit.created <= items[j].permit.created
         && (items[i].permit.created == items[j].permit.created ==> i <= j)
  }

  /** `listing` is the answer of the API: the permits, or a failure to list them. */
  method FindActivePermit(listing: Result<seq<Item>>, t: Target) returns (r: Result<Option<Item>>)
    ensures listing.Err? ==> r == Err(SystemError)
    ensures listing.Ok? ==> r == Ok(EarliestActive(listing.value, t))
    ensures listing.Ok? ==>
      (r == Ok(None) <==> forall i :: 0 <= i < |listing.value| ==>
        listing.value[i].permit.state != Active || listing.value[i].permit.target != t)
    ensures r.Ok? && r.value.Some? ==>
      exists i: nat :: IsEarliest(listing.value, t, i) && r == Ok(Some(listing.value[i]))
  {
    if listing.Err? {
      return Err(SystemError);
    }
    var items := listing.value;
    var earliest: Option<Item> := None;
    ghost var at := 0;
    for k := 0 to |items|
      invariant earliest.None? ==> forall i :: 0 <= i < k ==> !Matches(items[i].permit, t)
      invariant earliest.Some? ==> IsEarliest(items[..k], t, at) && earliest == Some(items[at])
    {
      var permit := items[k].permit;
      if !permit.state.Active? || permit.target != t {
        continue;
      }
      if earliest.None? || permit.created < earliest.value.permit.created {
        earliest := Some(items[k]);
        at := k;
      }
    }
    assert items[..|items|] == items;
    if earliest.Some? {
      EarliestIsUnique(items, t, at);
    } else {
      NoneActive(items, t);
    }
    return Ok(earliest);
  }

  /** The same choice as a function of the list. */
  function EarliestActive(items: seq<Item>, t: Target): Option<Item>
    decreases |items|
  {
    if items == [] then None
    else
      var before := EarliestActive(items[..|items| - 1], t);
      var last := items[|items| - 1];
      if Matches(last.permit, t) && (before.None? || last.permit.created < before.value.permit.created) then Some(last)
      else before
  }

  lemma {:induction false} NoneActive(items: seq<Item>, t: Target)
    requires forall i :: 0 <= i < |items| ==> !Matches(items[i].permit, t)
    ensures EarliestActive(items, t).None?
    decreases |items|
  {
    if items != [] {
      NoneActive(items[..|items| - 1], t);
    }
  }

  lemma {:induction false} EarliestExists(items: seq<Item>, t: Target) returns (i: nat)
    ensures EarliestActive(items, t).Some? ==> IsEarliest(items, t, i) && EarliestActive(items, t) == Some(items[i])
    ensures EarliestActive(items, t).None? ==> forall j :: 0 <= j < |items| ==> !Matches(items[j].permit, t)
    decreases |items|
  {
    i := 0;
    if items != [] {
      var init, last := items[..|items| - 1], |items| - 1;
      i := EarliestExists(init, t);
      assert forall j :: 0 <= j < last ==> items[j] == init[j];
      if EarliestActive(items, t) != EarliestActive(init, t) {
        i := last;
      }
    }
  }

  lemma EarliestIsUnique(items: seq<Item>, t: Target, i: nat)
    requires IsEarliest(items, t, i)
    ensures EarliestActive(items, t) == Some(items[i])
  {
    var j := EarliestExists(items, t);
  }

  // ---- consume.go, against the API server --------------------------------------------------------

  /** Status().Update: refused if the object is gone or its version has moved on; only
      the status is taken over, and writing what is there changes nothing. */
  function UpdateStatus(permits: map<Uid, Permit>, u: Uid, base: Permit, next: Permit): map<Uid, Permit> {
    if u !in permits || permits[u].version != base.version then permits
    else if permits[u].state == next.state && permits[u].validUntil == next.validUntil then permits
    else permits[u := permits[u].(state := next.state, validUntil := next.validUntil,
          version := permits[u].version + 1)]
  }

  /** A status write takes over the status and nothing else, of that permit and no other,
      and gives it a new version exactly when it changes it. */
  lemma OnlyTheStatus(permits: map<Uid, Permit>, u: Uid, base: Permit, next: Permit, v: Uid)
    ensures var after := UpdateStatus(permits, u, base, next);
      && after.Keys == permits.Keys
      && (v in permits && v != u ==> after[v] == permits[v])
      && (u in permits ==>
            && after[u].target == permits[u].target && after[u].created == permits[u].created
            && after[u].duration == permits[u].duration
            && (after[u].version == permits[u].version <==> after[u] == permits[u])
            && (base.version == permits[u].version ==>
                  after[u].state == next.state && after[u].validUntil == next.validUntil)
            && (base.version != permits[u].version ==> after[u] == permits[u]))
  {
  }

  /** MarkConsumed on the copy found at the gate. */
  function Consume(permits: map<Uid, Permit>, item: Item): map<Uid, Permit> {
    UpdateStatus(permits, item.uid, item.permit, item.permit.(state := Consumed))
  }

  /** How a write to the API may go wrong: reported without having happened, or
      reported although it has happened. */
  datatype ApiFault = NoFault | FailsBefore | FailsAfter

  class ApiServer {
    var permits: map<Uid, Permit>

    constructor (held: map<Uid, Permit>)
      ensures permits == held
    {
      permits := held;
    }

    method StatusUpdate(u: Uid, version: nat, state: PermitState, validUntil: Option<Time>, fault: ApiFault,
          ghost base: Permit)
        returns (ok: bool)
      requires version == base.version
      modifies this
      ensures permits == if fault.FailsBefore? then old(permits)
                         else UpdateStatus(old(permits), u, base, base.(state := state, validUntil := validUntil))
      ensures ok <==> fault.NoFault? && u in old(permits) && old(permits)[u].version == version
    {
      if fault.FailsBefore? || u !in permits || permits[u].version != version {
        return false;
      }
      var held := permits[u];
      if held.state != state || held.validUntil != validUntil {
        permits := permits[u := held.(state := state, validUntil := validUntil, version := held.version + 1)];
      }
      return fault.NoFault?;
    }

    /** Succeeds exactly when the API answers and nobody wrote the permit since it was
        read; then it is Consumed with the validUntil it had. A failure changes nothing
        unless the write took effect and only its answer was lost. */
    method MarkConsumed(item: Item, fault: ApiFault) returns (r: Result<()>)
      modifies this
      ensures permits == if fault.FailsBefore? then old(permits) else Consume(old(permits), item)
      ensures r.Ok? <==>
        fault.NoFault? && item.uid in old(permits) && old(permits)[item.uid].version == item.permit.version
      ensures r.Ok? ==> item.uid in permits && permits[item.uid].state.Consumed?
      ensures r.Ok? ==> permits[item.uid].validUntil == item.permit.validUntil
      ensures r.Err? ==> r.error.SystemError? && (permits == old(permits) || fault.FailsAfter?)
    {
      var ok := StatusUpdate(item.uid, item.permit.version, Consumed, item.permit.validUntil, fault, item.permit);
      if !ok {
        return Err(SystemError);
      }
      return Ok(());
    }
  }

  // ---- the API server and the two controllers, interleaved --------------------------------------------

  /** A copy read from the API, the status to be written back from it, and when that was
      computed, if it was. */
  datatype Copy = Copy(base: Permit, next: Permit, at: Option<Time>)

  /** What a deletion found at its gate: the permit it will consume, everything the API
      held at that moment, and when it was. */
  datatype Gate = Gate(item: Option<Item>, seen: map<Uid, Permit>, at: Time)

  datatype Deletion = Gated(gate: Gate) | Destroyed(gate: Gate)

  /** One Destroy, and with it possibly a DROP ACCOUNT, behind the gate it passed. */
  datatype Drop = Drop(account: Target, gate: Gate, at: Time)

  /** `used` holds every uid the API has ever given out; `observed`, for each permit, the
      time of the permit controller's last Observe of it whose status write succeeded. */
  datatype State = State(
    now: Time,
    permits: map<Uid, Permit>,
    used: set<Uid>,
    edited: set<Uid>,                   // those whose spec was ever changed
    observed: map<Uid, Time>,
    reconciling: map<Uid, Copy>,        // the permit controller's reconciles in flight
    deletions: map<Target, Deletion>,   // the account controller's, by account
    drops: seq<Drop>,
    destroyed: seq<Drop>)               // those whose Destroy returned nil

  datatype Action =
    | Tick(d: nat)
    | UserCreates(uid: Uid, target: Target, duration: nat)
    | UserEdits(uid: Uid, target: Target, duration: nat)
    | UserDeletes(uid: Uid)
    | PermitRead(uid: Uid)
    | PermitObserve(uid: Uid)
    | PermitWrite(uid: Uid)
    | PermitCrash(uid: Uid)
    | DeleteGate(account: Target, items: seq<Item>)
    | DeleteDestroy(account: Target, ok: bool)
    | DeleteConsume(account: Target)
    | DeleteCrash(account: Target)

  /** A list call returns every permit, once, as it is. */
  ghost predicate Lists(items: seq<Item>, permits: map<Uid, Permit>) {
    && (forall i :: 0 <= i < |items| ==> items[i].uid in permits && permits[items[i].uid] == items[i].permit)
    && (forall u :: u in permits ==> Item(u, permits[u]) in items)
  }

  ghost predicate Enabled(s: State, a: Action) {
    match a
    case Tick(_) => true
    case UserCreates(u, _, d) => u !in s.used && 0 < d <= MAX_DURATION
    case UserEdits(u, _, d) => u in s.permits && 0 < d <= MAX_DURATION
    case UserDeletes(u) => u in s.permits
    case PermitRead(u) => u in s.permits && u !in s.reconciling
    case PermitObserve(u) => u in s.reconciling
    case PermitWrite(u) => u in s.reconciling
    case PermitCrash(u) => u in s.reconciling
    case DeleteGate(t, items) => t !in s.deletions && Lists(items, s.permits)
    case DeleteDestroy(t, _) => t in s.deletions && s.deletions[t].Gated?
    case DeleteConsume(t) => t in s.deletions && s.deletions[t].Destroyed?
    case DeleteCrash(t) => t in s.deletions
  }

  /** Phase 2 of Delete: the permit it goes on with, if it may go on at all. */
  function PassGate(s: State, protection: bool, items: seq<Item>, t: Target): Option<Gate> {
    if !protection then Some(Gate(None, s.permits, s.now))
    else
      var found := EarliestActive(items, t);
      if found.None? then None else Some(Gate(found, s.permits, s.now))
  }

  /** The API takes the write of `c`. */
  predicate Lands(s: State, u: Uid, c: Copy) { u in s.permits && s.permits[u].version == c.base.version }

  ghost function Step(s: State, protection: bool, a: Action): State
    requires Enabled(s, a)
  {
    match a
    case Tick(d) => s.(now := s.now + d)
    case UserCreates(u, t, d) => s.(permits := s.permits[u := Permit(t, s.now, d, Unset, None, 0)],
          used := s.used + {u})
    case UserEdits(u, t, d) =>
      var p := s.permits[u].(target := t, duration := d, version := s.permits[u].version + 1);
      s.(permits := s.permits[u := p], edited := s.edited + {u})
    case UserDeletes(u) => s.(permits := s.permits - {u})
    case PermitRead(u) => s.(reconciling := s.reconciling[u := Copy(s.permits[u], s.permits[u], None)])
    case PermitObserve(u) =>
      var c := s.reconciling[u];
      s.(reconciling := s.reconciling[u := c.(next := ObservePermit(c.base, s.now), at := Some(s.now))])
    case PermitWrite(u) =>
      var c := s.reconciling[u];
      s.(permits := UpdateStatus(s.permits, u, c.base, c.next), reconciling := s.reconciling - {u},
         observed := if c.at.Some? && Lands(s, u, c) then s.observed[u := c.at.value] else s.observed)
    case PermitCrash(u) => s.(reconciling := s.reconciling - {u})
    case DeleteGate(t, items) =>
      var gate := PassGate(s, protection, items, t);
      if gate.None? then s else s.(deletions := s.deletions[t := Gated(gate.value)])
    case DeleteDestroy(t, ok) =>
      var drop := Drop(t, s.deletions[t].gate, s.now);
      var s1 := s.(drops := s.drops + [drop]);
      if ok then s1.(deletions := s.deletions[t := Destroyed(drop.gate)], destroyed := s.destroyed + [drop])
      else s1.(deletions := s.deletions - {t})
    case DeleteConsume(t) =>
      var item := s.deletions[t].gate.item;
      s.(permits := if item.Some? then Consume(s.permits, item.value) else s.permits, deletions := s.deletions - {t})
    case DeleteCrash(t) => s.(deletions := s.deletions - {t})
  }

  ghost predicate IsRun(s: State, protection: bool, actions: seq<Action>)
    decreases |actions|
  {
    actions == [] || (Enabled(s, actions[0]) && IsRun(Step(s, protection, actions[0]), protection, actions[1..]))
  }

  ghost function Run(s: State, protection: bool, actions: seq<Action>): State
    requires IsRun(s, protection, actions)
    decreases |actions|
  {
    if actions == [] then s else Run(Step(s, protection, actions[0]), protection, actions[1..])
  }

  predicate IsStart(s: State) {
    && s.permits == map[] && s.used == {} && s.edited == {} && s.observed == map[] && s.reconciling == map[]
    && s.deletions == map[] && s.drops == [] && s.destroyed == []
  }
}
