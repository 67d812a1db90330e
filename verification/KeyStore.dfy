/** internal/secrets/keystore.go and fake.go: the contract of a secret store and its
    executable reference. */
module KeyStore {
  /** What an identifier holds. A pending value is unreadable but still occupies it. */
  datatype Slot<V> =
    | Absent
    | Live(value: V, modifiedAt: int)
    | Pending(value: V, modifiedAt: int)

  datatype Read<V> = Read(value: V, modifiedAt: int)

  datatype Failure = HookFailed | NotFound | Occupied | PendingDeletion

  datatype StoreResult<T> = Done(value: T) | Fail(reason: Failure)

  // ---- the contract, one identifier at a time ----------------------------------------

  function GetSlot<V>(s: Slot<V>): StoreResult<Read<V>> {
    match s
    case Absent => Fail(NotFound)
    case Live(v, t) => Done(Read(v, t))
    case Pending(_, _) => Fail(PendingDeletion)
  }

  function CreateSlot<V>(s: Slot<V>, v: V, now: int): (Slot<V>, StoreResult<()>) {
    match s
    case Absent => (Live(v, now), Done(()))
    case Live(_, _) => (s, Fail(Occupied))
    case Pending(_, _) => (s, Fail(PendingDeletion))
  }

  function UpdateSlot<V>(s: Slot<V>, v: V, now: int): (Slot<V>, StoreResult<()>) {
    match s
    case Absent => (s, Fail(NotFound))
    case Live(_, _) => (Live(v, now), Done(()))
    case Pending(_, _) => (s, Fail(PendingDeletion))
  }

  function DeleteSlot<V>(s: Slot<V>, schedules: bool): Slot<V> {
    match s
    case Absent => Absent
    case Live(v, t) => if schedules then Pending(v, t) else Absent
    case Pending(_, _) => if schedules then s else Absent
  }

  function RestoreSlot<V>(s: Slot<V>): (Slot<V>, StoreResult<()>) {
    match s
    case Pending(v, t) => (Live(v, t), Done(()))
    case _ => (s, Fail(NotFound))
  }

  /** Create succeeds exactly on an unoccupied identifier, Update exactly on a readable
      one; what either wrote is read back, and when either fails nothing has changed. */
  lemma WritesReadBack<V>(s: Slot<V>, v: V, now: int)
    ensures CreateSlot(s, v, now).1.Done? <==> s == Absent
    ensures UpdateSlot(s, v, now).1.Done? <==> GetSlot(s).Done?
    ensures GetSlot(s).Done? <==> s.Live? && GetSlot(s) == Done(Read(s.value, s.modifiedAt))
    ensures CreateSlot(s, v, now).1.Done? ==> GetSlot(CreateSlot(s, v, now).0) == Done(Read(v, now))
    ensures UpdateSlot(s, v, now).1.Done? ==> GetSlot(UpdateSlot(s, v, now).0) == Done(Read(v, now))
    ensures CreateSlot(s, v, now).1.Fail? ==> CreateSlot(s, v, now).0 == s
    ensures UpdateSlot(s, v, now).1.Fail? ==> UpdateSlot(s, v, now).0 == s
  {
  }

  /** After a deletion nothing can be read. If deletions are scheduled, the identifier of a
      live value stays occupied, says why, and is as it was once restored; if not, it is
      free again. */
  lemma DeletionHides<V>(s: Slot<V>, schedules: bool, v: V, now: int)
    ensures GetSlot(DeleteSlot(s, schedules)).Fail?
    ensures var gone := DeleteSlot(s, schedules);
      s.Live? && schedules ==>
        && GetSlot(gone) == Fail(PendingDeletion) && CreateSlot(gone, v, now) == (gone, Fail(PendingDeletion))
        && UpdateSlot(gone, v, now) == (gone, Fail(PendingDeletion)) && RestoreSlot(gone) == (s, Done(()))
    ensures !schedules ==> CreateSlot(DeleteSlot(s, schedules), v, now) == (Live(v, now), Done(()))
    ensures !s.Pending? ==> RestoreSlot(s) == (s, Fail(NotFound))
    ensures s.Live? ==> CreateSlot(s, v, now).1 == Fail(Occupied)
    ensures s.Absent? ==> GetSlot(s) == Fail(NotFound) && UpdateSlot(s, v, now).1 == Fail(NotFound)
  {
  }

  /** The operations a client may issue against one identifier. */
  datatype Op<V> = DoCreate(v: V, at: int) | DoUpdate(v: V, at: int) | DoDelete | DoRestore

  function Perform<V>(s: Slot<V>, op: Op<V>): Slot<V> {
    match op
    case DoCreate(v, at) => CreateSlot(s, v, at).0
    case DoUpdate(v, at) => UpdateSlot(s, v, at).0
    case DoDelete => DeleteSlot(s, true)
    case DoRestore => RestoreSlot(s).0
  }

  function PerformAll<V>(s: Slot<V>, ops: seq<Op<V>>): Slot<V>
    decreases |ops|
  {
    if ops == [] then s else PerformAll(Perform(s, ops[0]), ops[1..])
  }

  /** The last value an Update wrote, or the original one. */
  function LastUpdate<V>(v: V, t: int, ops: seq<Op<V>>, live: bool): (V, int)
    decreases |ops|
  {
    if ops == [] then (v, t)
    else match ops[0]
      case DoUpdate(w, at) => if live then LastUpdate(w, at, ops[1..], true) else LastUpdate(v, t, ops[1..], false)
      case DoDelete => LastUpdate(v, t, ops[1..], false)
      case DoRestore => LastUpdate(v, t, ops[1..], true)
      case DoCreate(_, _) => LastUpdate(v, t, ops[1..], live)
  }

  /** Once occupied, an identifier stays occupied through any sequence of operations
      of a store that schedules deletions, and only Update ever changes its value: no
      Create overwrites a credential, and a Restore brings back what Delete hid. */
  lemma {:induction false} OccupiedStaysOccupied<V>(s: Slot<V>, ops: seq<Op<V>>)
    requires !s.Absent?
    ensures !PerformAll(s, ops).Absent?
    ensures (PerformAll(s, ops).value, PerformAll(s, ops).modifiedAt) == LastUpdate(s.value, s.modifiedAt, ops, s.Live?)
    decreases |ops|
  {
    if ops != [] {
      OccupiedStaysOccupied(Perform(s, ops[0]), ops[1..]);
    }
  }

  // ---- FakeKeyStore --------------------------------------------------------------------

  function SlotOf<V>(entries: map<string, Slot<V>>, id: string): Slot<V> {
    if id in entries then entries[id] else Absent
  }

  /** `Absent` is never stored: it is the absence of a map entry. */
  function Put<V>(entries: map<string, Slot<V>>, id: string, s: Slot<V>): map<string, Slot<V>> {
    if s.Absent? then entries - {id} else entries[id := s]
  }

  /** In memory; each call's hook may fail it before it touches anything. */
  class FakeKeyStore<V> {
    const schedulesDeletion: bool
    var entries: map<string, Slot<V>>

    constructor (schedulesDeletion: bool)
      ensures this.schedulesDeletion == schedulesDeletion && entries == map[]
    {
      this.schedulesDeletion := schedulesDeletion;
      entries := map[];
    }

    ghost predicate Valid()
      reads this
    {
      forall id :: id in entries ==> !entries[id].Absent?
    }

    method Get(id: string, hookFails: bool) returns (r: StoreResult<Read<V>>)
      requires Valid()
      ensures r == if hookFails then Fail(HookFailed) else GetSlot(SlotOf(entries, id))
    {
      if hookFails {
        return Fail(HookFailed);
      }
      if id !in entries {
        return Fail(NotFound);
      }
      var entry := entries[id];
      if entry.Pending? {
        return Fail(PendingDeletion);
      }
      return Done(Read(entry.value, entry.modifiedAt));
    }

    method Create(id: string, value: V, now: int, hookFails: bool) returns (r: StoreResult<()>)
      requires Valid()
      modifies this`entries
      ensures Valid()
      ensures r == if hookFails then Fail(HookFailed) else CreateSlot(SlotOf(old(entries), id), value, now).1
      ensures entries == if hookFails then old(entries)
                         else Put(old(entries), id, CreateSlot(SlotOf(old(entries), id), value, now).0)
    {
      if hookFails {
        return Fail(HookFailed);
      }
      if id in entries {
        assert entries == entries[id := entries[id]];
        if entries[id].Pending? {
          return Fail(PendingDeletion);
        }
        return Fail(Occupied);
      }
      entries := entries[id := Live(value, now)];
      return Done(());
    }

    method Update(id: string, value: V, now: int, hookFails: bool) returns (r: StoreResult<()>)
      requires Valid()
      modifies this`entries
      ensures Valid()
      ensures r == if hookFails then Fail(HookFailed) else UpdateSlot(SlotOf(old(entries), id), value, now).1
      ensures entries == if hookFails then old(entries)
                         else Put(old(entries), id, UpdateSlot(SlotOf(old(entries), id), value, now).0)
    {
      if hookFails {
        return Fail(HookFailed);
      }
      if id !in entries {
        assert entries == entries - {id};
        return Fail(NotFound);
      }
      if entries[id].Pending? {
        assert entries == entries[id := entries[id]];
        return Fail(PendingDeletion);
      }
      entries := entries[id := Live(value, now)];
      return Done(());
    }

    method Delete(id: string, hookFails: bool) returns (r: StoreResult<()>)
      requires Valid()
      modifies this`entries
      ensures Valid()
      ensures r == if hookFails then Fail(HookFailed) else Done(())
      ensures entries == if hookFails then old(entries)
                         else Put(old(entries), id, DeleteSlot(SlotOf(old(entries), id), schedulesDeletion))
    {
      if hookFails {
        return Fail(HookFailed);
      }
      if !schedulesDeletion {
        entries := entries - {id};
        return Done(());
      }
      if id !in entries {
        assert entries == entries - {id};
        return Done(());
      }
      var entry := entries[id];
      entries := entries[id := Pending(entry.value, entry.modifiedAt)];
      return Done(());
    }

    method Restore(id: string) returns (r: StoreResult<()>)
      requires Valid()
      modifies this`entries
      ensures Valid()
      ensures r == RestoreSlot(SlotOf(old(entries), id)).1
      ensures entries == Put(old(entries), id, RestoreSlot(SlotOf(old(entries), id)).0)
    {
      if id !in entries {
        assert entries == entries - {id};
        return Fail(NotFound);
      }
      if !entries[id].Pending? {
        assert entries == entries[id := entries[id]];
        return Fail(NotFound);
      }
      var entry := entries[id];
      entries := entries[id := Live(entry.value, entry.modifiedAt)];
      return Done(());
    }
  }
}
