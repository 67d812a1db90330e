/** internal/controller/snowflakeaccount's Delete, where the permits of Permits decide
    what Lifecycle may do. */
module DeletionGate {
  import opened Common
  import opened Lifecycle
  import opened LifecycleDeletion
  import Permits

  /** What a deletion meets at its gate and after its Destroy: whether protection is on,
      the permits the API lists for this account, or a failure to list them, and how the
      write of MarkConsumed ends. */
  datatype Gating = Gating(
    protection: bool, listing: Result<seq<Permits.Item>>, account: Permits.Target, consume: Permits.ApiFault)

  /** The gate lets a deletion pass: protection is off, or the listed permits hold an
      active one for the account. */
  predicate GatePasses(g: Gating) {
    !g.protection || (g.listing.Ok? && Permits.EarliestActive(g.listing.value, g.account).Some?)
  }

  /** An event of Lifecycle, and for a reconcile what its gate meets if it comes to that. */
  datatype GatedEvent = GatedEvent(event: Event, g: Gating)

  /** The gate decides what the event says was permitted. */
  predicate Decided(e: GatedEvent) { e.event.Reconciled? ==> (e.event.permitted <==> GatePasses(e.g)) }

  function Events(es: seq<GatedEvent>): seq<Event> { seq(|es|, i requires 0 <= i < |es| => es[i].event) }

  /** The listing at this gate shows an active permit for the account. */
  ghost predicate ListsAPermit(g: Gating) {
    g.listing.Ok? && exists i :: 0 <= i < |g.listing.value| && Permits.Matches(g.listing.value[i].permit, g.account)
  }

  /** At the `i`-th event, in the state before it, a reconcile of the resource being
      deleted finds its account's locator recorded, and an active permit. */
  ghost predicate PermittedAt(s: System, cfg: Config, es: seq<GatedEvent>, i: nat) {
    && i < |es| && es[i].event.Reconciled? && ListsAPermit(es[i].g)
    && RunAll(s, cfg, Events(es[..i])).res.deleting && RunAll(s, cfg, Events(es[..i])).res.status.locator.Some?
  }

  lemma PassedMeansListed(g: Gating)
    requires g.protection && GatePasses(g)
    ensures ListsAPermit(g)
  {
    var i := Permits.EarliestExists(g.listing.value, g.account);
    assert Permits.Matches(g.listing.value[i].permit, g.account);
  }

  lemma OnlyDeletionsDrop(s: System, cfg: Config, e: Event)
    requires !s.world.dropped && !s.res.deleting
    ensures !Next(s, cfg, e).world.dropped
  {
    if e.Reconciled? {
      var s1 := Observe(s, cfg, e.observing).0;
      ObserveMoves(s, cfg, e.observing);
      ApplyIsItsModule(s1, cfg, e.acting);
      ModuleMovesAccount(s1.world, s1.res, cfg, s1.now, e.acting);
    }
  }

  /** An account is dropped only by a permitted reconcile of a resource being deleted. */
  lemma DropIsADeletion(s: System, cfg: Config, e: Event)
    requires !s.world.dropped && Next(s, cfg, e).world.dropped
    ensures e.Reconciled? && e.permitted && s.res.deleting && s.res.status.locator.Some?
  {
    if !s.res.deleting {
      OnlyDeletionsDrop(s, cfg, e);
    }
  }

  lemma {:induction false} LastEvent(s: System, cfg: Config, events: seq<Event>)
    requires events != []
    ensures RunAll(s, cfg, events) == Next(RunAll(s, cfg, events[..|events| - 1]), cfg, events[|events| - 1])
    decreases |events|
  {
    if |events| > 1 {
      assert events[..|events| - 1][1..] == events[1..][..|events| - 2];
      LastEvent(Next(s, cfg, events[0]), cfg, events[1..]);
    } else {
      assert RunAll(s, cfg, events) == RunAll(Next(s, cfg, events[0]), cfg, events[1..]);
    }
  }

  /** Over every run, whatever fails and crashes: with protection on, an account is
      dropped only if some reconcile of its resource, while that was being deleted, listed
      an active permit for it. */
  lemma {:induction false} DropNeedsAPermit(s: System, cfg: Config, es: seq<GatedEvent>) returns (i: nat)
    requires !s.world.dropped && RunAll(s, cfg, Events(es)).world.dropped
    requires forall j :: 0 <= j < |es| ==> Decided(es[j]) && es[j].g.protection
    ensures PermittedAt(s, cfg, es, i)
    decreases |es|
  {
    var last := |es| - 1;
    LastEvent(s, cfg, Events(es));
    assert Events(es)[..last] == Events(es[..last]);
    var m := RunAll(s, cfg, Events(es[..last]));
    if m.world.dropped {
      i := DropNeedsAPermit(s, cfg, es[..last]);
      assert es[..last][..i] == es[..i];
    } else {
      DropIsADeletion(m, cfg, es[last].event);
      PassedMeansListed(es[last].g);
      i := last;
    }
  }
}
