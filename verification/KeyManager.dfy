/** internal/secrets/manager.go: a time-limited cache in front of a secret store, run
    with the operations on one identifier serialised. */
module KeyManager {
  import opened KeyStore

  datatype CacheEntry<V> = CacheEntry(value: V, modifiedAt: int, expires: int)

  /** How a store write may go wrong: reported without having happened, or reported
      although it has happened. */
  datatype WriteFault = NoFault | FailsBefore | FailsAfter

  /** Every cached value is what the store holds, live, at that identifier. */
  ghost predicate Coherent<V(!new)>(cache: map<string, CacheEntry<V>>, entries: map<string, Slot<V>>) {
    forall id :: id in cache ==> SlotOf(entries, id) == Live(cache[id].value, cache[id].modifiedAt)
  }

  class KeyManager<V(!new)> {
    const store: FakeKeyStore<V>
    const ttl: nat
    var entries: map<string, CacheEntry<V>>

    constructor (store: FakeKeyStore<V>, ttl: nat)
      ensures this.store == store && this.ttl == ttl && entries == map[]
    {
      this.store := store;
      this.ttl := ttl;
      entries := map[];
    }

    ghost predicate Valid()
      reads this, store
    {
      store.Valid() && Coherent(entries, store.entries)
    }

    /** A hit is served without reading the store; still it is exactly what the store
        would have returned. `now` is read before and `later` after the store call. */
    method GetCredentials(id: string, now: int, later: int, readFails: bool) returns (r: StoreResult<Read<V>>)
      requires Valid() && now <= later
      modifies this`entries
      ensures Valid()
      ensures var hit := id in old(entries) && now < old(entries)[id].expires;
        && (hit ==> entries == old(entries))
        && (!hit && r.Done? ==>
          entries == old(entries)[id := CacheEntry(r.value.value, r.value.modifiedAt, later + ttl)])
        && (r.Fail? ==> entries == old(entries))
        && r == if readFails && !hit then Fail(HookFailed) else GetSlot(SlotOf(store.entries, id))
    {
      if id in entries && now < entries[id].expires {
        return Done(Read(entries[id].value, entries[id].modifiedAt));
      }
      r := store.Get(id, readFails);
      if r.Fail? {
        return;
      }
      entries := entries[id := CacheEntry(r.value.value, r.value.modifiedAt, later + ttl)];
    }

    method Invalidate(id: string)
      modifies this`entries
      ensures entries == old(entries) - {id}
    {
      entries := entries - {id};
    }

    /** Creates only. A failure reported after the fact leaves the cache coherent: a
        Create that happened found the identifier empty, so nothing was cached for it. */
    method CreateCredentials(id: string, value: V, now: int, fault: WriteFault) returns (r: StoreResult<()>)
      requires Valid()
      modifies this`entries, store`entries
      ensures Valid()
      ensures SlotOf(store.entries, id) == if fault.FailsBefore? then SlotOf(old(store.entries), id)
                                           else CreateSlot(SlotOf(old(store.entries), id), value, now).0
      ensures forall other :: other != id ==> SlotOf(store.entries, other) == SlotOf(old(store.entries), other)
      ensures fault.NoFault? ==> r == CreateSlot(SlotOf(old(store.entries), id), value, now).1
      ensures !fault.NoFault? ==> r.Fail?
      ensures entries == if r.Done? then old(entries) - {id} else old(entries)
    {
      r := store.Create(id, value, now, fault.FailsBefore?);
      if fault.FailsAfter? && r.Done? {
        r := Fail(HookFailed);
      }
      if r.Done? {
        Invalidate(id);
      }
    }

    /** Overwrites only. The cache stays coherent except in one case, where the
        overwritten credential keeps being served: the write took effect but was
        reported as failed, so the cached value was not dropped. */
    method UpdateCredentials(id: string, value: V, now: int, fault: WriteFault) returns (r: StoreResult<()>)
      requires Valid()
      modifies this`entries, store`entries
      ensures store.Valid()
      ensures Coherent(entries, store.entries) <==>
        !(fault.FailsAfter? && id in old(entries)
          && (old(entries)[id].value != value || old(entries)[id].modifiedAt != now))
      ensures SlotOf(store.entries, id) == if fault.FailsBefore? then SlotOf(old(store.entries), id)
                                           else UpdateSlot(SlotOf(old(store.entries), id), value, now).0
      ensures forall other :: other != id ==> SlotOf(store.entries, other) == SlotOf(old(store.entries), other)
      ensures fault.NoFault? ==> r == UpdateSlot(SlotOf(old(store.entries), id), value, now).1
      ensures !fault.NoFault? ==> r.Fail?
      ensures entries == if r.Done? then old(entries) - {id} else old(entries)
    {
      assert id in entries ==> SlotOf(store.entries, id).Live?;
      r := store.Update(id, value, now, fault.FailsBefore?);
      if fault.FailsAfter? && r.Done? {
        r := Fail(HookFailed);
      }
      if r.Done? {
        Invalidate(id);
      }
    }

    /** Deletes. As for an update, only a deletion that took effect but was reported
        as failed leaves a cached credential behind. */
    method DeleteCredentials(id: string, fault: WriteFault) returns (r: StoreResult<()>)
      requires Valid()
      modifies this`entries, store`entries
      ensures store.Valid()
      ensures Coherent(entries, store.entries) <==> !(fault.FailsAfter? && id in old(entries))
      ensures r == if fault.NoFault? then Done(()) else Fail(HookFailed)
      ensures SlotOf(store.entries, id) == if fault.FailsBefore? then SlotOf(old(store.entries), id)
                                           else DeleteSlot(SlotOf(old(store.entries), id), store.schedulesDeletion)
      ensures forall other :: other != id ==> SlotOf(store.entries, other) == SlotOf(old(store.entries), other)
      ensures entries == if r.Done? then old(entries) - {id} else old(entries)
    {
      assert id in entries ==> SlotOf(store.entries, id).Live?;
      r := store.Delete(id, fault.FailsBefore?);
      if fault.FailsAfter? && r.Done? {
        r := Fail(HookFailed);
      }
      if r.Done? {
        Invalidate(id);
      }
    }
  }
}
