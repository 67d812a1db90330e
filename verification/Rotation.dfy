/** internal/snowflake/pool/rotate.go: rotating a credential through a user's two key
    slots, with no atomic commit between Snowflake and the secret store. */
module Rotation {
  import opened Common
  import opened KeyStore
  import KM = KeyManager

  /** A key pair, known by a number; equal numbers are the same pair. */
  type Key = nat

  datatype Target = One | Two

  /** A service user's two public-key slots, and the credential the store holds for it. */
  datatype Login = Login(slot1: Option<Key>, slot2: Option<Key>, stored: Key, rotatedAt: int)

  datatype AlterOutcome = Altered | AlterFailsBefore | AlterFailsAfter

  /** One call of maybeRotateLocked: what each external call does, the key that would
      be generated, and the clock readings. A store write is all or nothing. */
  datatype Attempt = Attempt(
    readFails: bool, describeFails: bool, generateFails: bool, alter: AlterOutcome, storeFails: bool,
    freshKey: Key, now: int, storedAt: int)

  predicate CredentialDue(rotatedAt: int, interval: nat, now: int) { rotatedAt < now - interval }

  /** The slot that does not hold the stored key. */
  function TargetSlot(l: Login): Option<Target> {
    if l.slot1 == Some(l.stored) then Some(Two)
    else if l.slot2 == Some(l.stored) then Some(One)
    else None
  }

  /** The attempt gets as far as overwriting a slot in Snowflake. */
  predicate Applies(l: Login, interval: nat, a: Attempt) {
    && !a.readFails
    && CredentialDue(l.rotatedAt, interval, a.now)
    && !a.describeFails && TargetSlot(l).Some?
    && !a.generateFails
    && !a.alter.AlterFailsBefore?
  }

  /** The attempt also stores the new key. */
  predicate Completes(l: Login, interval: nat, a: Attempt) {
    Applies(l, interval, a) && a.alter.Altered? && !a.storeFails
  }

  function Rotate(l: Login, interval: nat, a: Attempt): Login {
    if !Applies(l, interval, a) then l
    else
      var pushed := if TargetSlot(l).value == One then l.(slot1 := Some(a.freshKey)) else l.(slot2 := Some(a.freshKey));
      if Completes(l, interval, a) then pushed.(stored := a.freshKey, rotatedAt := a.storedAt) else pushed
  }

  // ---- agreement ----------------------------------------------------------------------

  predicate Holds(l: Login, k: Key) { l.slot1 == Some(k) || l.slot2 == Some(k) }

  /** The stored key is in exactly one of the two slots. */
  predicate Agreed(l: Login) {
    (l.slot1 == Some(l.stored)) != (l.slot2 == Some(l.stored))
  }

  /** No attempt, however it ends, separates the store from Snowflake; the slot in use
      is never written. */
  lemma RotateKeepsAgreement(l: Login, interval: nat, a: Attempt)
    requires Agreed(l) && !Holds(l, a.freshKey)
    ensures Agreed(Rotate(l, interval, a))
    ensures Holds(Rotate(l, interval, a), l.stored)
  {
  }

  /** The state after the attempts, in order. */
  function RotateAll(l: Login, interval: nat, attempts: seq<Attempt>): Login
    decreases |attempts|
  {
    if attempts == [] then l
    else Rotate(RotateAll(l, interval, attempts[..|attempts| - 1]), interval, attempts[|attempts| - 1])
  }

  predicate KeysAreFresh(l: Login, attempts: seq<Attempt>) {
    && (forall i :: 0 <= i < |attempts| ==> !Holds(l, attempts[i].freshKey) && attempts[i].freshKey != l.stored)
    && (forall i, j :: 0 <= i < j < |attempts| ==> attempts[i].freshKey != attempts[j].freshKey)
  }

  predicate CompletesAt(l: Login, interval: nat, attempts: seq<Attempt>, i: nat)
    requires i < |attempts|
  {
    Completes(RotateAll(l, interval, attempts[..i]), interval, attempts[i])
  }

  predicate AppliesAt(l: Login, interval: nat, attempts: seq<Attempt>, i: nat)
    requires i < |attempts|
  {
    Applies(RotateAll(l, interval, attempts[..i]), interval, attempts[i])
  }

  ghost predicate SomeCompleted(l: Login, interval: nat, attempts: seq<Attempt>) {
    exists i :: 0 <= i < |attempts| && CompletesAt(l, interval, attempts, i)
  }

  /** Some ALTER was applied after a completed rotation. */
  ghost predicate AppliedAfterCompleted(l: Login, interval: nat, attempts: seq<Attempt>) {
    exists i, j ::
      0 <= i < j < |attempts| && CompletesAt(l, interval, attempts, i) && AppliesAt(l, interval, attempts, j)
  }

  predicate KnownKey(l: Login, attempts: seq<Attempt>, k: Key) {
    Holds(l, k) || k == l.stored || exists i :: 0 <= i < |attempts| && attempts[i].freshKey == k
  }

  lemma {:induction false} HistoryGrows(l: Login, interval: nat, attempts: seq<Attempt>)
    requires attempts != []
    ensures var init, last := attempts[..|attempts| - 1], |attempts| - 1;
      && (SomeCompleted(l, interval, attempts) <==>
            SomeCompleted(l, interval, init) || CompletesAt(l, interval, attempts, last))
      && (AppliedAfterCompleted(l, interval, attempts) <==>
            || AppliedAfterCompleted(l, interval, init)
            || (SomeCompleted(l, interval, init) && AppliesAt(l, interval, attempts, last)))
  {
    var init, last := attempts[..|attempts| - 1], |attempts| - 1;
    forall i | 0 <= i < last
      ensures CompletesAt(l, interval, attempts, i) == CompletesAt(l, interval, init, i)
      ensures AppliesAt(l, interval, attempts, i) == AppliesAt(l, interval, init, i)
    {
      assert attempts[..i] == init[..i];
    }
    if SomeCompleted(l, interval, init) && AppliesAt(l, interval, attempts, last) {
      var i :| 0 <= i < |init| && CompletesAt(l, interval, init, i);
      assert CompletesAt(l, interval, attempts, i);
    }
    if SomeCompleted(l, interval, init) {
      var i :| 0 <= i < |init| && CompletesAt(l, interval, init, i);
      assert CompletesAt(l, interval, attempts, i);
    }
    if AppliedAfterCompleted(l, interval, init) {
      var i, j :| 0 <= i < j < |init| && CompletesAt(l, interval, init, i) && AppliesAt(l, interval, init, j);
      assert CompletesAt(l, interval, attempts, i) && AppliesAt(l, interval, attempts, j);
    }
  }

  /** Everything there is to say about a run of attempts. The stored key and the slots
      agree throughout: a connection dialed with the stored key is accepted, and the
      next rotation finds the other slot. The key a connection was dialed with, the stored key at the
      start, stays installed through failed attempts and the first completed rotation,
      and is gone exactly once an ALTER has been applied after a completed one. */
  lemma {:induction false} RotationHistory(l: Login, interval: nat, attempts: seq<Attempt>)
    requires Agreed(l) && KeysAreFresh(l, attempts)
    ensures var e := RotateAll(l, interval, attempts);
      && Agreed(e) && Holds(e, e.stored) && TargetSlot(e) == Some(if e.slot1 == Some(e.stored) then Two else One)
      && (Holds(e, l.stored) <==> !AppliedAfterCompleted(l, interval, attempts))
      && (e.stored == l.stored <==> !SomeCompleted(l, interval, attempts))
      && (forall k :: Holds(e, k) || k == e.stored ==> KnownKey(l, attempts, k))
    decreases |attempts|
  {
    if attempts != [] {
      var init, a := attempts[..|attempts| - 1], attempts[|attempts| - 1];
      RotationHistory(l, interval, init);
      HistoryGrows(l, interval, attempts);
      var m := RotateAll(l, interval, init);
      assert !KnownKey(l, init, a.freshKey);
      RotateKeepsAgreement(m, interval, a);
      forall k | KnownKey(l, init, k) ensures KnownKey(l, attempts, k) {
        if i :| 0 <= i < |init| && init[i].freshKey == k { assert attempts[i].freshKey == k; }
      }
    }
  }

  // ---- when a credential is rotated ---------------------------------------------------------

  /** No call of the attempt fails. */
  predicate Succeeds(a: Attempt) {
    !a.readFails && !a.describeFails && !a.generateFails && a.alter.Altered? && !a.storeFails
  }

  /** An attempt in which nothing fails replaces the stored key exactly when that is older
      than the interval; no attempt before that changes anything. */
  lemma RotatesExactlyWhenDue(l: Login, interval: nat, a: Attempt)
    requires Agreed(l) && !Holds(l, a.freshKey)
    ensures Succeeds(a) ==> (Rotate(l, interval, a).stored == a.freshKey <==> a.now - l.rotatedAt > interval)
    ensures a.now - l.rotatedAt <= interval ==> Rotate(l, interval, a) == l
  {
  }

  /** What a completed rotation leaves: the fresh key stored, with the time of the write,
      and installed next to the key that was in use. */
  lemma CompletedRotation(l: Login, interval: nat, a: Attempt)
    requires Agreed(l) && !Holds(l, a.freshKey) && Succeeds(a) && a.now - l.rotatedAt > interval
    ensures var n := Rotate(l, interval, a);
      && n.stored == a.freshKey && n.rotatedAt == a.storedAt
      && ((n.slot1 == Some(a.freshKey) && n.slot2 == l.slot2 == Some(l.stored))
          || (n.slot2 == Some(a.freshKey) && n.slot1 == l.slot1 == Some(l.stored)))
  {
  }

  /** What an attempt leaves that goes wrong on the way: nothing if Snowflake was not
      changed, and otherwise the new key in the slot not in use, the old one still stored. */
  lemma BrokenRotation(l: Login, interval: nat, a: Attempt)
    requires Agreed(l) && !Holds(l, a.freshKey) && !Succeeds(a) && a.now - l.rotatedAt > interval
    ensures var n := Rotate(l, interval, a);
      if a.readFails || a.describeFails || a.generateFails || a.alter.AlterFailsBefore? then n == l
      else if l.slot1 == Some(l.stored) then n == l.(slot2 := Some(a.freshKey))
      else n == l.(slot1 := Some(a.freshKey))
  {
  }

  /** A key stored at `rotatedAt` is in use, and nothing in Snowflake changes, until some
      attempt comes later than the interval after that. */
  lemma {:induction false} InUseUntilDue(l: Login, interval: nat, attempts: seq<Attempt>)
    requires forall i :: 0 <= i < |attempts| ==> attempts[i].now <= l.rotatedAt + interval
    ensures RotateAll(l, interval, attempts) == l
    decreases |attempts|
  {
    if attempts != [] {
      InUseUntilDue(l, interval, attempts[..|attempts| - 1]);
    }
  }

  // ---- targetSlot: reading the slots back -------------------------------------------------

  /** One row of DESC USER: columns as the driver's nullable strings. */
  type DescRow = seq<Option<string>>

  const FP1 := "RSA_PUBLIC_KEY_FP"
  const FP2 := "RSA_PUBLIC_KEY_2_FP"

  function Text(c: Option<string>): string { if c.Some? then c.value else "" }

  /** The second column of the last row whose first column is `name`; rows with fewer
      than two columns are skipped. */
  function LastNamed(rows: seq<DescRow>, name: string): string
    decreases |rows|
  {
    if rows == [] then ""
    else
      var row := rows[|rows| - 1];
      if |row| >= 2 && Text(row[0]) == name then Text(row[1]) else LastNamed(rows[..|rows| - 1], name)
  }

  /** Of the rows with that name and two columns or more, the last one counts. */
  lemma {:induction false} LastNamedIsLast(rows: seq<DescRow>, name: string, k: nat)
    requires k < |rows| && |rows[k]| >= 2 && rows[k][0] == Some(name)
    requires name != ""
    requires forall i :: k < i < |rows| && |rows[i]| >= 2 ==> rows[i][0] != Some(name)
    ensures LastNamed(rows, name) == if rows[k][1].Some? then rows[k][1].value else ""
    decreases |rows|
  {
    if k < |rows| - 1 {
      LastNamedIsLast(rows[..|rows| - 1], name, k);
    }
  }

  method FindTargetSlot(rows: seq<DescRow>, currentFingerprint: string) returns (t: Option<Target>)
    ensures t == if LastNamed(rows, "RSA_PUBLIC_KEY_FP") == currentFingerprint then Some(Two)
                 else if LastNamed(rows, "RSA_PUBLIC_KEY_2_FP") == currentFingerprint then Some(One)
                 else None
  {
    var slot1FP, slot2FP := "", "";
    for k := 0 to |rows|
      invariant slot1FP == LastNamed(rows[..k], FP1)
      invariant slot2FP == LastNamed(rows[..k], FP2)
    {
      assert rows[..k + 1][..k] == rows[..k];
      var raw := rows[k];
      if |raw| >= 2 {
        if Text(raw[0]) == FP1 {
          slot1FP := Text(raw[1]);
        } else if Text(raw[0]) == FP2 {
          slot2FP := Text(raw[1]);
        }
      }
    }
    assert rows[..|rows|] == rows;
    if slot1FP == currentFingerprint {
      return Some(Two);
    } else if slot2FP == currentFingerprint {
      return Some(One);
    }
    return None;
  }

  /** Fingerprints tell keys apart. */
  ghost predicate Injective(fp: Key -> string) {
    forall j: Key, k: Key :: fp(j) == fp(k) ==> j == k
  }

  /** An empty slot is shown as a text that is no key's fingerprint. */
  ghost predicate Shows(text: string, slot: Option<Key>, fp: Key -> string) {
    if slot.Some? then text == fp(slot.value) else forall k: Key :: fp(k) != text
  }

  ghost predicate Describes(rows: seq<DescRow>, slot1: Option<Key>, slot2: Option<Key>, fp: Key -> string) {
    Shows(LastNamed(rows, FP1), slot1, fp) && Shows(LastNamed(rows, FP2), slot2, fp)
  }

  // ---- maybeRotateLocked and rotateCredential --------------------------------------------------

  class SnowflakeUser {
    var slot1: Option<Key>
    var slot2: Option<Key>

    constructor (k: Key)
      ensures slot1 == Some(k) && slot2 == None
    {
      slot1, slot2 := Some(k), None;
    }

    /** ALTER USER ... SET <slot> = <key>. */
    method Alter(slot: Target, key: Key, outcome: AlterOutcome) returns (ok: bool)
      modifies this
      ensures ok <==> outcome.Altered?
      ensures slot1 == if slot.One? && !outcome.AlterFailsBefore? then Some(key) else old(slot1)
      ensures slot2 == if slot.Two? && !outcome.AlterFailsBefore? then Some(key) else old(slot2)
    {
      if !outcome.AlterFailsBefore? {
        match slot
        case One => slot1 := Some(key);
        case Two => slot2 := Some(key);
      }
      return outcome.Altered?;
    }
  }

  class Rotator {
    const keyManager: KM.KeyManager<Key>
    const user: SnowflakeUser
    const interval: nat
    const fingerprint: Key -> string

    constructor (keyManager: KM.KeyManager<Key>, user: SnowflakeUser, interval: nat, fingerprint: Key -> string)
      ensures this.keyManager == keyManager && this.user == user && this.interval == interval
      ensures this.fingerprint == fingerprint
    {
      this.keyManager := keyManager;
      this.user := user;
      this.interval := interval;
      this.fingerprint := fingerprint;
    }

    /** The cache in front of the store is coherent. */
    ghost predicate Valid()
      reads this, keyManager, keyManager.store
    {
      keyManager.Valid() && Injective(fingerprint)
    }

    ghost predicate HasCredential(id: string)
      reads this, keyManager, keyManager.store
    {
      SlotOf(keyManager.store.entries, id).Live?
    }

    /** `rows` is what DESC USER answers. */
    ghost predicate Described(rows: seq<DescRow>)
      reads this, user
    {
      Describes(rows, user.slot1, user.slot2, fingerprint)
    }

    ghost function LoginAt(id: string): Login
      reads this, keyManager, keyManager.store, user
      requires HasCredential(id)
    {
      var s := SlotOf(keyManager.store.entries, id);
      Login(user.slot1, user.slot2, s.value, s.modifiedAt)
    }

    /** The read is answered from the cache. */
    ghost predicate Cached(id: string, now: int)
      reads keyManager
    {
      id in keyManager.entries && now < keyManager.entries[id].expires
    }

    /** Any failure is swallowed; what the call leaves behind is Rotate of what it
        found, although it reads the credential through the cache. Without a live
        credential it does nothing. */
    method MaybeRotateLocked(id: string, rows: seq<DescRow>, a: Attempt)
      requires Valid() && Described(rows)
      modifies keyManager`entries, keyManager.store`entries, user
      ensures Valid()
      ensures HasCredential(id) <==> old(HasCredential(id))
      ensures HasCredential(id) ==>
        LoginAt(id) == Rotate(old(LoginAt(id)), interval, a.(readFails := a.readFails && !old(Cached(id, a.now))))
      ensures HasCredential(id) && a.now <= old(LoginAt(id)).rotatedAt + interval ==> LoginAt(id) == old(LoginAt(id))
      ensures !HasCredential(id) ==> keyManager.store.entries == old(keyManager.store.entries)
      ensures !HasCredential(id) ==> user.slot1 == old(user.slot1) && user.slot2 == old(user.slot2)
      ensures forall other :: other != id ==>
        SlotOf(keyManager.store.entries, other) == SlotOf(old(keyManager.store.entries), other)
    {
      var creds := keyManager.GetCredentials(id, a.now, a.now, a.readFails);
      if creds.Fail? || !CredentialDue(creds.value.modifiedAt, interval, a.now) {
        return;
      }
      RotateCredential(id, rows, creds.value.value, a);
    }

    method RotateCredential(id: string, rows: seq<DescRow>, currentKey: Key, a: Attempt)
      requires Valid() && Described(rows) && HasCredential(id)
      requires currentKey == LoginAt(id).stored && CredentialDue(LoginAt(id).rotatedAt, interval, a.now)
      modifies keyManager`entries, keyManager.store`entries, user
      ensures Valid() && HasCredential(id)
      ensures LoginAt(id) == Rotate(old(LoginAt(id)), interval, a.(readFails := false))
      ensures forall other :: other != id ==>
        SlotOf(keyManager.store.entries, other) == SlotOf(old(keyManager.store.entries), other)
    {
      if a.describeFails {
        return;
      }
      var slot := FindTargetSlot(rows, fingerprint(currentKey));
      assert slot == TargetSlot(LoginAt(id));
      if slot.None? || a.generateFails {
        return;
      }
      var altered := user.Alter(slot.value, a.freshKey, a.alter);
      if !altered {
        return;
      }
      var fault := if a.storeFails then KM.FailsBefore else KM.NoFault;
      var stored := keyManager.UpdateCredentials(id, a.freshKey, a.storedAt, fault);
    }
  }
}
