/** internal/secrets/manager.go run by any number of unsynchronised threads: the
    cache of one identifier as interleaved atomic steps. */
module CacheThreads {
  import opened Common

  type Secret = nat

  /** What one store read returned: the value and the time it was last written. */
  datatype Content = Content(value: Secret, modifiedAt: int)

  /** A cache entry, with the instants of its read and its insertion for the record. */
  datatype Entry = Entry(content: Content, expires: int, readAt: int, insertedAt: int)

  /** The store's content from `since` until the next version. */
  datatype Version = Version(since: int, content: Option<Content>)

  /** Where a thread stands between two atomic steps of `get` or of a write. */
  datatype Pc =
    | Idle
    | Copied(entry: Option<Entry>)              // get: the entry was copied under the mutex
    | Missed                                    // get: about to read the store
    | Fetched(content: Content, readAt: int)    // get: about to insert what it read
    | Wrote                                     // write: stored, about to invalidate

  /** A value handed to a caller: when, from which read and insertion, and what the
      store held at that moment. */
  datatype Served = Served(content: Content, at: int, readAt: int, insertedAt: int, current: Option<Content>)

  datatype State = State(
    now: int, ttl: nat,
    history: seq<Version>,
    entry: Option<Entry>,
    pcs: map<nat, Pc>,
    served: seq<Served>)

  datatype Action =
    | Tick(d: nat)
    | Copy(t: nat)
    | Decide(t: nat)
    | ReadStore(t: nat)
    | ReadFails(t: nat)
    | Insert(t: nat)
    | Write(t: nat, content: Option<Content>)   // Create, Update or Delete took effect
    | Invalidate(t: nat)
    | Foreign(content: Option<Content>)         // another process wrote the store

  function PcOf(s: State, t: nat): Pc { if t in s.pcs then s.pcs[t] else Idle }

  /** What the store holds now. */
  function Now(s: State): Option<Content> {
    if s.history == [] then None else s.history[|s.history| - 1].content
  }

  function Move(s: State, t: nat, pc: Pc): State { s.(pcs := s.pcs[t := pc]) }

  function Stored(s: State, c: Option<Content>): State { s.(history := s.history + [Version(s.now, c)]) }

  predicate Enabled(s: State, a: Action) {
    match a
    case Tick(_) => true
    case Foreign(_) => true
    case Copy(t) => PcOf(s, t).Idle?
    case Write(t, _) => PcOf(s, t).Idle?
    case Decide(t) => PcOf(s, t).Copied?
    case ReadStore(t) => PcOf(s, t).Missed? && Now(s).Some?
    case ReadFails(t) => PcOf(s, t).Missed?
    case Insert(t) => PcOf(s, t).Fetched?
    case Invalidate(t) => PcOf(s, t).Wrote?
  }

  function Step(s: State, a: Action): State
    requires Enabled(s, a)
  {
    match a
    case Tick(d) => s.(now := s.now + d)
    case Copy(t) => Move(s, t, Copied(s.entry))
    case Decide(t) =>
      var e := PcOf(s, t).entry;
      if e.Some? && s.now < e.value.expires then
        var hit := Served(e.value.content, s.now, e.value.readAt, e.value.insertedAt, Now(s));
        Move(s, t, Idle).(served := s.served + [hit])
      else Move(s, t, Missed)
    case ReadStore(t) => Move(s, t, Fetched(Now(s).value, s.now))
    case ReadFails(t) => Move(s, t, Idle)
    case Insert(t) =>
      var pc := PcOf(s, t);
      Move(s, t, Idle).(entry := Some(Entry(pc.content, s.now + s.ttl, pc.readAt, s.now)),
                        served := s.served + [Served(pc.content, s.now, pc.readAt, s.now, Now(s))])
    case Write(t, c) => Move(Stored(s, c), t, Wrote)
    case Invalidate(t) => Move(s, t, Idle).(entry := None)
    case Foreign(c) => Stored(s, c)
  }

  function Start(now: int, ttl: nat, content: Option<Content>): State {
    State(now, ttl, [Version(now, content)], None, map[], [])
  }

  ghost predicate IsRun(s: State, actions: seq<Action>)
    decreases |actions|
  {
    actions == [] || (Enabled(s, actions[0]) && IsRun(Step(s, actions[0]), actions[1..]))
  }

  function Run(s: State, actions: seq<Action>): State
    requires IsRun(s, actions)
    decreases |actions|
  {
    if actions == [] then s else Run(Step(s, actions[0]), actions[1..])
  }

  // ---- staleness is bounded, under every interleaving -----------------------------------

  /** The store held exactly `c`, value and time together, at the instant `t`. */
  ghost predicate HeldAt(h: seq<Version>, c: Content, t: int) {
    exists i :: 0 <= i < |h| && HeldBy(h, i, c, t)
  }

  predicate HeldBy(h: seq<Version>, i: nat, c: Content, t: int) {
    i < |h| && h[i].content == Some(c) && h[i].since <= t && (i + 1 < |h| ==> t <= h[i + 1].since)
  }

  ghost predicate GoodHistory(h: seq<Version>, now: int) {
    h != [] && h[|h| - 1].since <= now
  }

  ghost predicate GoodEntry(s: State, e: Entry) {
    && HeldAt(s.history, e.content, e.readAt)
    && e.readAt <= e.insertedAt <= s.now
    && e.expires == e.insertedAt + s.ttl
  }

  ghost predicate GoodPc(s: State, pc: Pc) {
    && (pc.Copied? && pc.entry.Some? ==> GoodEntry(s, pc.entry.value))
    && (pc.Fetched? ==> HeldAt(s.history, pc.content, pc.readAt) && pc.readAt <= s.now)
  }

  /** A served value was the store's at the instant of its read, and that instant is
      at most the entry's lifetime plus its read-to-insert gap in the past; a hit comes
      strictly before the lifetime is over. */
  ghost predicate BoundedStale(s: State, v: Served) {
    && HeldAt(s.history, v.content, v.readAt)
    && v.readAt <= v.insertedAt <= v.at <= s.now
    && v.readAt >= v.at - s.ttl - (v.insertedAt - v.readAt)
    && (v.at == v.insertedAt || v.at < v.insertedAt + s.ttl)
  }

  ghost predicate Inv(s: State) {
    && GoodHistory(s.history, s.now)
    && (s.entry.Some? ==> GoodEntry(s, s.entry.value))
    && (forall t :: t in s.pcs ==> GoodPc(s, s.pcs[t]))
    && (forall i :: 0 <= i < |s.served| ==> BoundedStale(s, s.served[i]))
  }

  lemma HeldSurvivesWrite(h: seq<Version>, now: int, w: Option<Content>, c: Content, t: int)
    requires h != [] && h[|h| - 1].since <= now && t <= now && HeldAt(h, c, t)
    ensures HeldAt(h + [Version(now, w)], c, t)
  {
    var i :| 0 <= i < |h| && HeldBy(h, i, c, t);
    assert HeldBy(h + [Version(now, w)], i, c, t);
  }

  lemma StoredKeepsInv(s: State, c: Option<Content>)
    requires Inv(s)
    ensures Inv(Stored(s, c))
  {
    var n := Stored(s, c);
    forall v: Content, t | HeldAt(s.history, v, t) && t <= s.now ensures HeldAt(n.history, v, t) {
      HeldSurvivesWrite(s.history, s.now, c, v, t);
    }
  }

  lemma TickKeepsInv(s: State, d: nat)
    requires Inv(s)
    ensures Inv(Step(s, Tick(d)))
  {
  }

  lemma WriteKeepsInv(s: State, t: nat, c: Option<Content>)
    requires Inv(s) && Enabled(s, Write(t, c))
    ensures Inv(Step(s, Write(t, c)))
  {
    StoredKeepsInv(s, c);
  }

  lemma ReadKeepsInv(s: State, t: nat)
    requires Inv(s) && Enabled(s, ReadStore(t))
    ensures Inv(Step(s, ReadStore(t)))
  {
    assert HeldBy(s.history, |s.history| - 1, Now(s).value, s.now);
  }

  lemma InsertKeepsInv(s: State, t: nat)
    requires Inv(s) && Enabled(s, Insert(t))
    ensures Inv(Step(s, Insert(t)))
  {
  }

  lemma DecideKeepsInv(s: State, t: nat)
    requires Inv(s) && Enabled(s, Decide(t))
    ensures Inv(Step(s, Decide(t)))
  {
  }

  /** Steps that move a thread and at most empty the cache. */
  lemma MoveKeepsInv(s: State, a: Action)
    requires Inv(s) && Enabled(s, a) && (a.Copy? || a.ReadFails? || a.Invalidate?)
    ensures Inv(Step(s, a))
  {
  }

  lemma StepKeepsInv(s: State, a: Action)
    requires Inv(s) && Enabled(s, a)
    ensures Inv(Step(s, a))
  {
    match a
    case Tick(d) => TickKeepsInv(s, d);
    case Foreign(c) => StoredKeepsInv(s, c);
    case Write(t, c) => WriteKeepsInv(s, t, c);
    case ReadStore(t) => ReadKeepsInv(s, t);
    case Insert(t) => InsertKeepsInv(s, t);
    case Decide(t) => DecideKeepsInv(s, t);
    case _ => MoveKeepsInv(s, a);
  }

  lemma {:induction false} RunKeepsInv(s: State, actions: seq<Action>)
    requires Inv(s) && IsRun(s, actions)
    ensures Inv(Run(s, actions))
    decreases |actions|
  {
    if actions != [] {
      StepKeepsInv(s, actions[0]);
      RunKeepsInv(Step(s, actions[0]), actions[1..]);
    }
  }

  /** Whatever threads do and in whatever order, every value the cache ever serves is
      one the store held, with the time of that same read, no longer ago than the
      lifetime plus the gap between that read and its insertion. */
  lemma EveryServedValueIsRecent(now: int, ttl: nat, content: Option<Content>, actions: seq<Action>, i: nat)
    requires IsRun(Start(now, ttl, content), actions) && i < |Run(Start(now, ttl, content), actions).served|
    ensures BoundedStale(Run(Start(now, ttl, content), actions), Run(Start(now, ttl, content), actions).served[i])
  {
    RunKeepsInv(Start(now, ttl, content), actions);
  }

  // ---- serialised operations: no staleness at all -----------------------------------------

  /** A thread starts an operation only while no other is in one, as under the lock
      the pool takes for its target, and nobody else writes the store. */
  ghost predicate Serialised(s: State, a: Action) {
    && !a.Foreign?
    && (a.Copy? || a.Write? ==> forall t :: t in s.pcs ==> s.pcs[t].Idle?)
  }

  ghost predicate IsSerialRun(s: State, actions: seq<Action>)
    decreases |actions|
  {
    actions == [] ||
    (Enabled(s, actions[0]) && Serialised(s, actions[0]) && IsSerialRun(Step(s, actions[0]), actions[1..]))
  }

  ghost predicate SerialInv(s: State) {
    && s.history != []
    && (forall t, u :: t in s.pcs && u in s.pcs && !s.pcs[t].Idle? && !s.pcs[u].Idle? ==> t == u)
    && (NoneWrote(s) && s.entry.Some? ==> Now(s) == Some(s.entry.value.content))
    && (forall t :: t in s.pcs && s.pcs[t].Copied? ==> s.pcs[t].entry == s.entry)
    && (forall t :: t in s.pcs && s.pcs[t].Fetched? ==> Now(s) == Some(s.pcs[t].content))
    && (forall i :: 0 <= i < |s.served| ==> s.served[i].current == Some(s.served[i].content))
  }

  ghost predicate NoneWrote(s: State) {
    forall t :: t in s.pcs ==> !s.pcs[t].Wrote?
  }

  lemma OnlyActive(s: State, t: nat, u: nat)
    requires SerialInv(s) && t in s.pcs && !s.pcs[t].Idle? && u in s.pcs && u != t
    ensures s.pcs[u].Idle?
  {
  }

  /** While another operation runs, no write is waiting to invalidate. */
  lemma ReaderMeansNoneWrote(s: State, t: nat)
    requires SerialInv(s) && t in s.pcs && !s.pcs[t].Idle? && !s.pcs[t].Wrote?
    ensures NoneWrote(s)
  {
    forall u | u in s.pcs ensures !s.pcs[u].Wrote? {
      if u != t { OnlyActive(s, t, u); }
    }
  }

  lemma ReadStep(s: State, a: Action)
    requires SerialInv(s) && Enabled(s, a) && (a.Decide? || a.ReadStore? || a.ReadFails?)
    ensures SerialInv(Step(s, a))
  {
    ReaderMeansNoneWrote(s, a.t);
  }

  lemma InsertStep(s: State, t: nat)
    requires SerialInv(s) && Enabled(s, Insert(t))
    ensures SerialInv(Step(s, Insert(t)))
  {
    forall u | u in s.pcs && u != t ensures s.pcs[u].Idle? { OnlyActive(s, t, u); }
  }

  lemma InvalidateStep(s: State, t: nat)
    requires SerialInv(s) && Enabled(s, Invalidate(t))
    ensures SerialInv(Step(s, Invalidate(t)))
  {
    forall u | u in s.pcs && u != t ensures s.pcs[u].Idle? { OnlyActive(s, t, u); }
  }

  lemma BeginStep(s: State, a: Action)
    requires SerialInv(s) && Enabled(s, a) && Serialised(s, a) && (a.Copy? || a.Write?)
    ensures SerialInv(Step(s, a))
  {
    assert NoneWrote(s);
    if a.Write? {
      assert Step(s, a).pcs[a.t].Wrote?;
    }
  }

  lemma SerialStep(s: State, a: Action)
    requires SerialInv(s) && Enabled(s, a) && Serialised(s, a)
    ensures SerialInv(Step(s, a))
  {
    match a
    case Tick(d) => assert NoneWrote(Step(s, a)) ==> NoneWrote(s);
    case Copy(_) => BeginStep(s, a);
    case Write(_, _) => BeginStep(s, a);
    case Insert(t) => InsertStep(s, t);
    case Invalidate(t) => InvalidateStep(s, t);
    case _ => ReadStep(s, a);
  }

  lemma {:induction false} SerialRunKeepsInv(s: State, actions: seq<Action>)
    requires SerialInv(s) && IsSerialRun(s, actions)
    ensures IsRun(s, actions) && SerialInv(Run(s, actions))
    decreases |actions|
  {
    if actions != [] {
      SerialStep(s, actions[0]);
      SerialRunKeepsInv(Step(s, actions[0]), actions[1..]);
    }
  }

  /** With operations on the identifier serialised, every value is served at a moment
      when it is exactly what the store holds: the cache is invisible. */
  lemma SerialRunServesTheStore(now: int, ttl: nat, content: Option<Content>, actions: seq<Action>, i: nat)
    requires IsSerialRun(Start(now, ttl, content), actions)
    ensures IsRun(Start(now, ttl, content), actions)
    ensures var e := Run(Start(now, ttl, content), actions); i < |e.served| ==>
      e.served[i].current == Some(e.served[i].content)
  {
    SerialRunKeepsInv(Start(now, ttl, content), actions);
  }

  ghost predicate Leads(s: State, actions: seq<Action>, end: State) {
    IsRun(s, actions) && Run(s, actions) == end
  }

  lemma Before(s: State, a: Action, rest: seq<Action>, end: State)
    requires Enabled(s, a) && Leads(Step(s, a), rest, end)
    ensures Leads(s, [a] + rest, end)
  {
    assert ([a] + rest)[1..] == rest;
  }

  /** The state in which thread 1 has read `c1` and thread 2 has finished writing `c2`. */
  function Overtaken(c1: Content, c2: Content, now: int, ttl: nat): State {
    State(now, ttl, [Version(now, Some(c1)), Version(now, Some(c2))], None, map[1 := Fetched(c1, now), 2 := Idle], [])
  }

  function Stale(c1: Content, c2: Content, now: int, ttl: nat): State {
    var served := Served(c1, now, now, now, Some(c2));
    State(now, ttl, [Version(now, Some(c1)), Version(now, Some(c2))], Some(Entry(c1, now + ttl, now, now)),
          map[1 := Idle, 2 := Idle, 3 := Idle], [served, served])
  }

  lemma {:induction false} Joined(s: State, first: seq<Action>, middle: State, second: seq<Action>, end: State)
    requires Leads(s, first, middle) && Leads(middle, second, end)
    ensures Leads(s, first + second, end)
    decreases |first|
  {
    if first == [] {
      assert first + second == second;
    } else {
      Joined(Step(s, first[0]), first[1..], middle, second, end);
      assert (first + second)[1..] == first[1..] + second;
    }
  }

  /** Thread 1 has found nothing cached and read the store. */
  function HasRead(c1: Content, now: int, ttl: nat): State {
    Start(now, ttl, Some(c1)).(pcs := map[1 := Fetched(c1, now)])
  }

  lemma ReadsFirst(c1: Content, now: int, ttl: nat)
    ensures Leads(Start(now, ttl, Some(c1)), [Copy(1), Decide(1), ReadStore(1)], HasRead(c1, now, ttl))
  {
    var end := HasRead(c1, now, ttl);
    var s0 := Start(now, ttl, Some(c1));
    var s1 := s0.(pcs := map[1 := Copied(None)]);
    var s2 := s0.(pcs := map[1 := Missed]);
    assert Step(s0, Copy(1)) == s1 && Step(s1, Decide(1)) == s2 && Step(s2, ReadStore(1)) == end;
    Before(s2, ReadStore(1), [], end);
    Before(s1, Decide(1), [ReadStore(1)], end);
    Before(s0, Copy(1), [Decide(1), ReadStore(1)], end);
  }

  lemma ThenOvertaken(c1: Content, c2: Content, now: int, ttl: nat)
    ensures Leads(HasRead(c1, now, ttl), [Write(2, Some(c2)), Invalidate(2)], Overtaken(c1, c2, now, ttl))
  {
    var end := Overtaken(c1, c2, now, ttl);
    var s4 := end.(pcs := map[1 := Fetched(c1, now), 2 := Wrote]);
    assert Step(HasRead(c1, now, ttl), Write(2, Some(c2))) == s4 && Step(s4, Invalidate(2)) == end;
    Before(s4, Invalidate(2), [], end);
    Before(HasRead(c1, now, ttl), Write(2, Some(c2)), [Invalidate(2)], end);
  }

  lemma SecondHalf(c1: Content, c2: Content, now: int, ttl: nat)
    requires ttl > 0
    ensures Leads(Overtaken(c1, c2, now, ttl), [Insert(1), Copy(3), Decide(3)], Stale(c1, c2, now, ttl))
  {
    var s5 := Overtaken(c1, c2, now, ttl);
    var s6 := Step(s5, Insert(1));
    var s7 := Step(s6, Copy(3));
    assert Leads(Step(s7, Decide(3)), [], Stale(c1, c2, now, ttl));
    Before(s7, Decide(3), [], Stale(c1, c2, now, ttl));
    Before(s6, Copy(3), [Decide(3)], Stale(c1, c2, now, ttl));
    Before(s5, Insert(1), [Copy(3), Decide(3)], Stale(c1, c2, now, ttl));
  }

  /** Serialisation is needed: thread 1 reads while thread 2 updates, and the next
      hit, by thread 3, returns the overwritten credential although the update has
      completed and no operation is in flight. */
  lemma UnserialisedReadMayBeOverwritten(c1: Content, c2: Content, now: int, ttl: nat)
    requires c1 != c2 && ttl > 0
    ensures Leads(Start(now, ttl, Some(c1)),
                  [Copy(1), Decide(1), ReadStore(1), Write(2, Some(c2)), Invalidate(2), Insert(1), Copy(3), Decide(3)],
                  Stale(c1, c2, now, ttl))
    ensures Now(Stale(c1, c2, now, ttl)) == Some(c2) && Stale(c1, c2, now, ttl).served[1].content == c1
  {
    var start, end := Start(now, ttl, Some(c1)), Stale(c1, c2, now, ttl);
    var writes, hits := [Write(2, Some(c2)), Invalidate(2)], [Insert(1), Copy(3), Decide(3)];
    ReadsFirst(c1, now, ttl);
    ThenOvertaken(c1, c2, now, ttl);
    SecondHalf(c1, c2, now, ttl);
    Joined(HasRead(c1, now, ttl), writes, Overtaken(c1, c2, now, ttl), hits, end);
    Joined(start, [Copy(1), Decide(1), ReadStore(1)], HasRead(c1, now, ttl), writes + hits, end);
    assert [Copy(1), Decide(1), ReadStore(1)] + (writes + hits)
        == [Copy(1), Decide(1), ReadStore(1), Write(2, Some(c2)), Invalidate(2), Insert(1), Copy(3), Decide(3)];
  }
}
