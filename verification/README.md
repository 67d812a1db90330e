# Yukimi: model and proofs

Yukimi is a Kubernetes controller that keeps Snowflake accounts in step with
`SnowflakeAccount` resources. It works through systems that offer no transactions: a
secret store, a Snowflake organization, pooled connections, and the API server. This
project models the parts where that is hard, and proves what they keep.

`dafny verify dfyconfig.toml` checks everything.

| files | what they model |
|---|---|
| `Lifecycle`, `LifecycleSafety`, `LifecycleConvergence`, `LifecycleDeletion`, `LifecycleAnswers` | the life of one resource as a transition system: create, grace period, email sync, teardown. Each external call may fail, fail after taking effect, or be followed by a crash; status writes may be lost |
| `AccountModule` | the account module and its controller as objects that work call by call, each method proved equal to the `Lifecycle` function of the same name |
| `Pipeline` | the ordered list of modules, `Ready`, `observedGeneration`, teardown in reverse |
| `KeyStore`, `KeyManager`, `CacheThreads` | the secret store's contract and its in-memory reference; the cache in front of it, first with operations on one identifier serialised, then as unsynchronised threads |
| `Rotation` | the two key slots of a service user against the stored credential |
| `PoolThreads`, `PoolProgress`, `Pool` | the connection pool as interleaved threads with program counters, and as one object refining them |
| `Fleet`, `FleetCollision` | many resources over one secret store and one organization: when each runs as if it were alone, and what a shared account name leads to |
| `Permits`, `PermitSafety`, `PermitWindow`, `PermitRuns` | deletion permits: the permit controller and the deletions of the account controller, interleaved, writing through versioned updates; what that guarantees, how late against its window a deletion may run, and runs that surprise |
| `DeletionGate` | the permits as the gate of the lifecycle's deletions |
| `Backplane` | CIDR containment over bits, and the validation of a region |
| `Identifiers` | secret identifiers with a decoder, resolved names, the length budget |
| `Quoting`, `Lookup` | SQL quoting with the lexers that invert it; the LIKE-then-exact account lookup |
| `Common`, `Text` | result types, strings |

Where the source updates fields in place (`FakeKeyStore`, `KeyManager`, `Pool`, the
resource, the permit), the model is a class, and each of its methods is proved against
a function of the old state. The theorems over whole runs are about those functions.

## Assumptions

- One reconcile at a time per object, with current reads. An edit of the spec while a
  reconcile is in flight is a lost status write.
- `SHOW ACCOUNTS` is consistent, and no locator is empty.
- The secret store's clock lags Kubernetes' by at most `resumeClockSkewBuffer`.
- Nobody else takes the resolved account name. `AdoptsForeignAccount` shows that
  without this the controller adopts the other account.
- `Lifecycle` gives each resource a secret and an account name of its own.
  `Fleet.EachRunsAlone` proves that a resource among many, over one store and one
  organization, sees just that as long as no other resource has its name in a namespace
  with the same five-character suffix; `FleetCollision.RunsAloneExactly` that it is so
  only then.
- A generated key is new, and fingerprints tell keys apart. The store's write during a
  rotation is all or nothing: a write reported as failed did not happen.
- `CREATE ACCOUNT` refuses a taken name; a pool connection to an account that is gone
  does not answer.
- Convergence (`Converges`, `EveryCrashIsRecoverable`) presupposes that Crossplane lets the
  next reconcile happen: after a crash inside Create its create-pending annotation stops
  the resource until it is removed. The safety results need no such assumption.

## Where the code does less than its documentation says

- Release of the finalizer means neither that the account is gone nor that the credential
  is. `ReleaseLeavesTheAccountExactly` and `ReleaseLeavesTheCredentialExactly` say, over
  whole runs, exactly when each is left behind; `LostStatusLeavesTheAccount` and
  `FailedDeletionLeavesTheCredential` are runs in which it happens.
- The permit specification promises that after a successful deletion the permit cannot
  be used again. `ConsumedForGood` gives the exact condition, whichever way a deletion whose
  Destroy succeeded ends. It fails in two ways: the permit is written by somebody else
  during the Destroy (`OnePermitMayServeTwice`), or the controller crashes before
  `MarkConsumed` (`CrashMayLetItServeTwice`).
- A deletion may run outside its permit's window. `WindowHoldsExactly` says when it cannot,
  seen from the gate; `LateByLagAndGap` bounds how late it can be by the permit
  controller's lag and the time from gate to Destroy, and `TheBoundIsAttained` shows that
  no smaller bound holds. In `DropMayFollowExpiry` the window ends after the gate and the
  permit ends Expired.
- "Accounts from different namespaces never collide" (specs/012-account-module.md): they do
  if their names are equal and their namespaces' digests begin with the same five base32
  characters, and only then (`Fleet.NamesMeetExactly`, `FleetCollision.RunsAloneExactly`).
  `CollisionDropsTheOthersAccount` is a run in which the second resource adopts the first
  one's account, and its deletion drops it under the first.
- A store write that takes effect but reports failure leaves the overwritten credential
  in the cache: `KeyManager.UpdateCredentials` says exactly when.

## Model

| member | source | states |
|---|---|---|
| `LifecycleSafety.CrashSafeCreate` | `internal/account/modules/account/apply.go:130-273` | Over every run, with any call failing, failing after its effect, or followed by a crash: `CREATE ACCOUNT` is never issued, successfully or not, while the account exists, at most one account is ever created, and a recorded locator is that account's |
| `LifecycleSafety.InvariantOfEveryRun` | `internal/account/modules/account/apply.go:233-246` | The inductive core of all lifecycle claims, over every run: a live own account implies that its identifier is occupied by a recent secret whose key is in exactly one slot |
| `LifecycleSafety.AccountStaysReachable` | `internal/snowflake/pool/rotate.go:50-138` | From `CREATE ACCOUNT` on, through any crashes and failed rotations, the stored key is in exactly one slot, rotation finds its target, and a cold dial of the recorded account authenticates |
| `LifecycleSafety.GenerationMeansEmail` | `internal/account/modules/account/apply.go:82-120` | In every state before the drop, observedGeneration equal to generation means that the platform user's email is that generation's contact |
| `LifecycleSafety.ReadyOnlyWithTheGeneration` | `internal/controller/snowflakeaccount/reconciler.go:170-244` | No reconcile before deletion takes Ready back, and one that sets it also records the current generation and has the email in place |
| `LifecycleSafety.AdoptsForeignAccount` | `internal/account/modules/account/apply.go:152-160` | The assumption about the name is needed: a concrete run in which the second undisturbed reconcile records somebody else's account |
| `LifecycleSafety.RecordsWhoeverHasTheName` | `internal/account/modules/account/apply.go:152-169` | A locator recorded by Apply is foreign exactly when a foreign account had the name before |
| `LifecycleConvergence.Converges` | `internal/account/modules/account/apply.go:71-95` | Fault-free reconciles, as many as the measure says, settle the resource from every state of the invariant with a usable identifier, with the contact as the account's email |
| `LifecycleConvergence.EveryCrashIsRecoverable` | `internal/account/modules/account/apply.go:204-260` | Whatever run of crashes and errors came before, a resource that started with a usable identifier and is not being deleted is settled by enough fault-free reconciles; that Crossplane admits them is assumed |
| `LifecycleConvergence.UsableStaysUsable` | `internal/account/modules/account/apply.go:233-260` | No run of crashes and errors ever blocks the identifier: usable at the start, it is usable until the resource is deleted |
| `LifecycleConvergence.CreateSucceedsExactly` | `internal/account/modules/account/apply.go:210-260` | A fault-free Apply records a locator if and only if the identifier is empty or holds a live secret recent enough to be the resource's own |
| `LifecycleConvergence.ReconcileMakesProgress` | `internal/controller/snowflakeaccount/reconciler.go:178-244` | Every fault-free reconcile of an unsettled resource strictly decreases the measure (stage, remaining grace time) and keeps its precondition |
| `LifecycleConvergence.SettledStaysSettled` | `internal/account/pipeline/pipeline.go:143-174` | A settled resource is observed as existing and up to date, no Apply runs, and nothing outside changes but the inline rotation |
| `LifecycleConvergence.GracePeriodIsQuiet` | `internal/account/modules/account/apply.go:82-86` | During the grace period neither Observe nor Apply touches anything outside or changes the status |
| `LifecycleAnswers.UnreachableStops` | `internal/controller/snowflakeaccount/reconciler.go:194-203` | An account past its grace period that cannot be reached (connection down, account gone, or neither a warm connection nor an accepted credential) is not taken for missing: the reconcile ends with nothing changed and no Apply |
| `LifecycleAnswers.NoLabelsStops` | `internal/controller/snowflakeaccount/reconciler.go:188-191` | So does one that cannot read the namespace |
| `LifecycleAnswers.RotationCrashStops` | `internal/snowflake/pool/rotate.go:50-60` | A crash in the rotation while observing leaves what the rotation did, and no Apply |
| `LifecycleAnswers.ReachedGoesOn` | `internal/account/pipeline/pipeline.go:143-174` | An account that is reached is applied to exactly when its generation is not recorded |
| `LifecycleAnswers.UnreachableIsASystemError` | `internal/account/modules/account/module.go:100-111` | Nothing that goes wrong with reaching an account is the tenant's mistake |
| `LifecycleAnswers.ReachingRotates` | `internal/snowflake/pool/pool.go:177-201` | Reaching an account replaces its credential if and only if that is older than the interval, when nothing fails; the new key is then stored and accepted next to the old one |
| `LifecycleAnswers.GraceIsQuiet` | `internal/account/modules/account/module.go:95-98` | Until the second the grace period ends, a reconcile only lets time pass |
| `LifecycleAnswers.NotCreatableDoesNothing` | `internal/account/modules/account/apply.go:130-136` | A request that fails its checks has no side effect, and is the tenant's mistake |
| `LifecycleAnswers.NoLabelsDoesNothing` | `internal/controller/snowflakeaccount/reconciler.go:215-221` | Neither has one whose namespace cannot be read when applying |
| `LifecycleAnswers.OccupiedIdentifierIsRefused` | `internal/account/modules/account/apply.go:216-259` | A secret in its recovery window is the tenant's mistake, one more than five minutes older than the resource the operator's, and `CREATE ACCOUNT` is not issued |
| `LifecycleAnswers.OwnSecretIsResumed` | `internal/account/modules/account/apply.go:149-169` | A secret not older than that is resumed: an account of the name is taken over, or created with the key in it |
| `LifecycleAnswers.FreshCreate` | `internal/account/modules/account/apply.go:149-170` | A fresh attempt stores a new key and creates the account with it, without looking first; a taken name is the tenant's mistake |
| `LifecycleAnswers.FailedCreateRecordsNothing` | `internal/account/modules/account/apply.go:143-169` | A create that fails after the credential was obtained records nothing, and an account then exists only if `CREATE ACCOUNT` took effect |
| `LifecycleAnswers.NoDriftNoWrite` | `internal/account/modules/account/apply.go:97-113` | With the contact in place no `ALTER USER` is issued |
| `LifecycleAnswers.DriftIsWritten` | `internal/account/modules/account/apply.go:108-119` | With any other email, or none, it is written, and done only if that worked |
| `LifecycleDeletion.CredentialOutlivesAccount` | `internal/account/modules/account/teardown.go:35-89` | A teardown leaves the account live and its credential scheduled for deletion if and only if it was entered without a recorded locator and the deletion took effect; never with one |
| `LifecycleDeletion.FailedTeardownsConverge` | `internal/account/modules/account/teardown.go:35-89` | Any sequence of teardowns failing anywhere, status kept or lost, followed by a clean one ends where one clean teardown ends |
| `LifecycleDeletion.AccountModuleIsRetryable` | `internal/account/modules/account/teardown.go:35-50` | The account module meets the two conditions under which teardown of a whole pipeline converges |
| `LifecycleDeletion.ReleaseLeavesTheAccountExactly` | `internal/controller/snowflakeaccount/reconciler.go:178-186` | Over every run that ends with the resource released: its account is left behind if and only if a `CREATE ACCOUNT` took effect and no status write ever recorded a locator |
| `LifecycleDeletion.LostStatusLeavesTheAccount` | `internal/controller/snowflakeaccount/reconciler.go:215-244` | A concrete run that leaves one: the status write after the create is refused, then the resource is deleted |
| `LifecycleDeletion.ReleaseLeavesTheCredentialExactly` | `internal/account/modules/account/teardown.go:35-89` | Over every run that ends with the resource released: its credential is live if and only if it was there or some create stored it, and no permitted teardown got past its drop to a call that deleted it |
| `LifecycleDeletion.ForgottenLocatorEndsTeardown` | `internal/account/modules/account/teardown.go:42-49` | A teardown that records the empty locator is the last: the next reconcile releases the resource, and the credential stays live exactly when it was and its deletion did not take effect |
| `LifecycleDeletion.FailedDeletionLeavesTheCredential` | `internal/account/modules/account/teardown.go:42-49` | A concrete run: create, delete, the credential's deletion fails, and the resource is released with the credential live |
| `LifecycleDeletion.AccountHistory` | `internal/account/modules/account/teardown.go:35-70` | Over every run: an account exists only by `CREATE ACCOUNT`, is dropped only after its locator was recorded, and a recorded locator is forgotten only with the account dropped |
| `LifecycleDeletion.CredentialHistory` | `internal/account/modules/account/teardown.go:77-89` | Over every run: the credential is live exactly when it was there or stored and no teardown's call deleted it; once hidden in a deletion it never comes back |
| `LifecycleAnswers.TeardownExactly` | `internal/account/modules/account/teardown.go:35-89` | Everything a teardown does, whatever fails: drop the account if one is recorded, forget it, delete the credential, done only if nothing failed, and every failure a system error |
| `LifecycleAnswers.OpenGateTearsDown` | `internal/controller/snowflakeaccount/reconciler.go:267-279` | Behind an open gate a deletion does that, and records what it forgot whether or not it failed |
| `LifecycleAnswers.NoLabelsNoTeardown` | `internal/controller/snowflakeaccount/reconciler.go:271-274` | A deletion that cannot read the namespace does nothing |
| `LifecycleAnswers.ShutGateIsReported` | `internal/controller/snowflakeaccount/reconciler.go:259-264` | Behind a shut gate it touches nothing outside and takes Ready back |
| `Fleet.EachRunsAlone` | `internal/account/tenant/naming.go:26-45` | However the reconciles of different resources interleave over one secret store and one organization, a resource whose name no other has in a namespace with its suffix sees exactly the run it would have had alone |
| `Fleet.EachIsCrashSafe` | `internal/account/modules/account/apply.go:233-246` | So the crash-safe create and the reachability of the account hold for every such resource of many |
| `Fleet.NamesMeetExactly` | `internal/account/tenant/naming.go:40-45` | Two admitted resources never share a secret identifier; ignoring case, they share a resolved account name if and only if they have the same name and their namespaces the same suffix |
| `Fleet.PlacedIsSeen` | `internal/secrets/identifier.go:107-122` | What one resource does is seen by another not at all, or in the account alone, if they collide |
| `FleetCollision.RunsAloneExactly` | `specs/012-account-module.md:33-34` | Among resources just created, one runs as if alone in every run of the fleet if and only if no other collides with it |
| `FleetCollision.CollisionDropsTheOthersAccount` | `internal/account/modules/account/apply.go:149-160` | A concrete run of any two that collide: the second is refused once, adopts the first one's account, and its deletion drops it while the first still records the locator |
| `FleetCollision.OneMoves` | `internal/account/modules/account/apply.go:320-328` | While one resource runs, one it collides with sees the account come and go, and nothing else |
| `FleetCollision.FleetsExist` | `internal/account/tenant/naming.go:40-45` | Two admitted resources of one name exist, colliding or not as the digests will have it |
| `AccountModule.Module.Apply` | `internal/account/modules/account/apply.go:63-76` | Leaves the world, the status and the answer of the lifecycle specification |
| `AccountModule.Module.ReconcileExisting` | `internal/account/modules/account/apply.go:82-95` | Same, for an account whose locator is known |
| `AccountModule.Module.ConnectTenant` | `internal/account/modules/account/module.go:104-111` | Same; done only when an account is there to talk to |
| `AccountModule.Module.SyncPlatformEmail` | `internal/account/modules/account/apply.go:103-120` | Same; writes only on drift, and a missing row or email is drift |
| `AccountModule.Module.AcquireCredentials` | `internal/account/modules/account/apply.go:210-231` | Same; create-only, then recovery |
| `AccountModule.Module.ResumeCrashedCreate` | `internal/account/modules/account/apply.go:247-260` | Same; refuses what predates the resource |
| `AccountModule.Module.CreateAccount` | `internal/account/modules/account/apply.go:130-170` | Same; the pre-check only on a resumed attempt |
| `AccountModule.Module.FinishCreate` | `internal/account/modules/account/apply.go:269-273` | Same; locator and creation time |
| `AccountModule.Module.Observe` | `internal/account/modules/account/observe.go:32-48` | Same; existence from the recorded locator |
| `AccountModule.Module.Teardown` | `internal/account/modules/account/teardown.go:35-89` | Same; drop, forget the locator, delete the credential, stopping at the first failure |
| `AccountModule.Controller.Observe` | `internal/controller/snowflakeaccount/reconciler.go:188-203` | The new system state and the answer of the lifecycle specification, through the pipeline's Observe |
| `AccountModule.Controller.Apply` | `internal/controller/snowflakeaccount/reconciler.go:215-244` | Same, through the pipeline's Apply; the status is persisted whether or not the run failed |
| `AccountModule.Controller.RunPipeline` | `internal/account/pipeline/pipeline.go:210-225` | With one module, the run is complete and the generation recorded exactly when that module is done |
| `AccountModule.Controller.Delete` | `internal/controller/snowflakeaccount/reconciler.go:251-288` | The gate, the teardown and the consumption: the system moves as the specification says behind an open gate, is reported blocked behind a shut one, and is untouched when the permits cannot be listed; the permit found is consumed exactly after a Destroy that returned nil; and the call succeeds exactly when the gate passed, that Destroy returned nil and, with protection on, MarkConsumed did too |
| `AccountModule.Controller.Reconcile` | `internal/controller/snowflakeaccount/reconciler.go:178-288` | One whole reconcile, the gate decided by the listed permits, equals one step of the lifecycle's runs; permits change only behind a passed gate |
| `DeletionGate.DropNeedsAPermit` | `internal/controller/snowflakeaccount/reconciler.go:251-279` | Over every run, whatever fails: with protection on, an account is dropped only if some reconcile of its resource, while that was being deleted with its locator recorded, listed an active permit for it |
| `DeletionGate.DropIsADeletion` | `internal/account/modules/account/teardown.go:35-70` | An account is dropped only by a permitted reconcile of a resource being deleted whose locator is recorded |
| `Pipeline.Observe` | `internal/account/pipeline/pipeline.go:192-204` | Every module's answer in order, with the snapshots of generation and Ready; nothing changes |
| `Pipeline.Apply` | `internal/account/pipeline/pipeline.go:210-225` | The answers up to the first aborted one; observedGeneration moves exactly when all are done |
| `Pipeline.CompleteMeansEveryModule` | `internal/account/pipeline/pipeline.go:186-225` | A stopped run is never complete: a run counts as applied if and only if every registered module, reached or not, is done |
| `Pipeline.UpToDateExactly` | `internal/account/pipeline/pipeline.go:162-174` | Up to date if and only if the generation was applied and no module found drift |
| `Pipeline.OutcomesExactly` | `internal/account/pipeline/module.go:40-79` | What the constructors and Abort make of an outcome: only Abort stops the pipeline, and never a Done |
| `Pipeline.ReadyExactly` | `internal/account/pipeline/pipeline.go:119-132` | Ready is True if and only if it was or the run was complete |
| `Pipeline.ExistsExactly` | `internal/account/pipeline/pipeline.go:152-160` | The resource exists if and only if the account module's answer is Done or Drifted |
| `Pipeline.PendingReasonIsFirst` | `internal/account/pipeline/pipeline.go:96-105` | An unready resource shows the reason of the first pending module |
| `Pipeline.NoPendingNoReason` | `internal/account/pipeline/pipeline.go:96-105` | And none if no module is pending |
| `Pipeline.ReadyIsLatched` | `internal/account/pipeline/pipeline.go:119-150` | Over every history: Ready is True if and only if it was, or some complete Apply was ever recorded |
| `Pipeline.GenerationMeansApplied` | `internal/account/pipeline/pipeline.go:206-225` | Over every history: observedGeneration is current if and only if a complete Apply was recorded since the last edit, or it was current and nothing was edited |
| `Pipeline.Destroy` | `internal/account/pipeline/pipeline.go:238-245` | Calls the teardowns from the last module down, one by one, to the first or to the one that fails; those called before it are torn down, the earlier ones are as they were |
| `Pipeline.TeardownConverges` | `internal/account/pipeline/pipeline.go:227-245` | For a pipeline of any length and any failed attempts: the modules whose teardown was called and succeeded form a suffix, and a final success ends where one clean call ends |
| `Pipeline.TryKeepsSuffix` | `internal/account/pipeline/pipeline.go:238-245` | The modules whose teardown was called and succeeded stay a suffix of registration order |
| `Pipeline.CallsGoDown` | `internal/account/pipeline/pipeline.go:238-245` | The calls of one attempt go from the last module down to the first or the failing one |
| `Pipeline.AccountGoesLast` | `internal/account/pipeline/pipeline.go:227-229` | The first module, the account, is torn down only after every other one was, without a failure |
| `Pipeline.DestroyedExactly` | `internal/account/pipeline/pipeline.go:238-245` | Which modules an attempt tears down, and which it leaves as they were |
| `Pipeline.EarlierModulesWait` | `internal/account/pipeline/pipeline.go:227-245` | Over any attempts: as long as some module has not been torn down, every earlier one is untouched |
| `Rotation.RotateKeepsAgreement` | `internal/snowflake/pool/rotate.go:62-88` | No attempt, however it ends, takes the key in use out of the slots, and store and slots still agree on exactly one |
| `Rotation.RotatesExactlyWhenDue` | `internal/snowflake/pool/rotate.go:37-54` | An attempt in which nothing fails replaces the stored key if and only if it is older than the interval; no attempt before that changes anything |
| `Rotation.CompletedRotation` | `internal/snowflake/pool/rotate.go:62-88` | A completed rotation stores the fresh key with the time of the write and installs it beside the one that was in use |
| `Rotation.BrokenRotation` | `internal/snowflake/pool/rotate.go:62-88` | A rotation that goes wrong changes nothing if Snowflake was not changed, and otherwise leaves the new key in the slot not in use, the old one still stored |
| `Rotation.InUseUntilDue` | `internal/snowflake/pool/rotate.go:50-60` | Over any series of attempts, nothing changes until one comes later than the interval after the key was stored |
| `Rotation.RotationHistory` | `internal/snowflake/pool/rotate.go:50-138` | Over any series of attempts: agreement, a findable target slot, and the exact lifetime of the key a connection was dialed with: gone if and only if an `ALTER` was applied after a completed rotation |
| `Rotation.FindTargetSlot` | `internal/snowflake/pool/rotate.go:94-138` | The slot opposite to the one whose last shown fingerprint is the current one; none if neither is |
| `Rotation.LastNamedIsLast` | `internal/snowflake/pool/rotate.go:108-126` | Of the rows that name a slot and have two columns, the last one counts |
| `Rotation.Rotator.MaybeRotateLocked` | `internal/snowflake/pool/rotate.go:50-60` | Through the real cache and store, leaves user and store as the rotation specification says, does nothing before the credential is older than the interval or without a live one, swallows every failure, touches no other identifier |
| `Rotation.Rotator.RotateCredential` | `internal/snowflake/pool/rotate.go:68-88` | Describe, pick the slot, generate, `ALTER`, then store, each able to stop it |
| `Rotation.SnowflakeUser.Alter` | `internal/snowflake/pool/rotate.go:68-88` | Sets one slot, or not, and may report a failure either way |
| `KeyStore.OccupiedStaysOccupied` | `internal/secrets/fake.go:94-180` | Through any operations an occupied identifier stays occupied, and its value is that of the last effective Update: no Create ever overwrites, Restore brings back what Delete hid |
| `KeyStore.WritesReadBack` | `internal/secrets/keystore.go:37-63` | Create succeeds exactly on an unoccupied identifier, Update exactly on a readable one; what was written is read back; a failure changes nothing |
| `KeyStore.DeletionHides` | `internal/secrets/fake.go:137-180` | Nothing is read after a deletion; a scheduled one keeps the identifier occupied, says so, and is undone by Restore; an immediate one frees it |
| `KeyStore.FakeKeyStore.Get` | `internal/secrets/fake.go:74-92` | Absent, live and pending as the contract says |
| `KeyStore.FakeKeyStore.Create` | `internal/secrets/fake.go:94-114` | Same, for the whole map |
| `KeyStore.FakeKeyStore.Update` | `internal/secrets/fake.go:116-135` | Same |
| `KeyStore.FakeKeyStore.Delete` | `internal/secrets/fake.go:137-160` | Same; immediate or scheduled |
| `KeyStore.FakeKeyStore.Restore` | `internal/secrets/fake.go:169-180` | Same |
| `KeyManager.KeyManager.GetCredentials` | `internal/secrets/manager.go:53-70` | Hit or miss, the result is exactly what the store would return; a miss caches it until a lifetime after its insertion |
| `KeyManager.KeyManager.CreateCredentials` | `internal/secrets/manager.go:75-81` | Creates only; the cache stays coherent even if a success is reported as a failure |
| `KeyManager.KeyManager.UpdateCredentials` | `internal/secrets/manager.go:85-91` | The cache stays coherent if and only if no effective write that changed a cached value was reported as failed |
| `KeyManager.KeyManager.DeleteCredentials` | `internal/secrets/manager.go:129-135` | Same for a deletion |
| `KeyManager.KeyManager.Invalidate` | `internal/secrets/manager.go:140-144` | Forgets that identifier and no other |
| `CacheThreads.EveryServedValueIsRecent` | `internal/secrets/manager.go:53-91` | Over every run from an empty cache, under every interleaving: a served value was the store's, paired with the time of the same read, at an instant no earlier than the lifetime plus that entry's read-to-insert gap before; a hit comes strictly within the lifetime |
| `CacheThreads.SerialRunServesTheStore` | `internal/secrets/manager.go:53-144` | Over every run from an empty cache with operations on the identifier serialised, every served value is what the store holds at that moment |
| `CacheThreads.UnserialisedReadMayBeOverwritten` | `internal/secrets/manager.go:53-91` | Serialisation is needed: a concrete interleaving after which a hit returns the overwritten credential |
| `PoolThreads.RunKeepsInv` | `internal/snowflake/pool/pool.go:94-103` | Every run keeps the locks (one mutex a key, held exactly by the call inside it), the ownership of connections, and the account of all dialed ones |
| `PoolThreads.EveryConnectionHasOneOwner` | `internal/snowflake/pool/pool.go:185-301` | Under every interleaving of calls, evictions and Close, each dialed connection is exactly one of held by one call, cached under one key, closed; and closed at most once |
| `PoolThreads.ReturnsMatchTheRequest` | `internal/snowflake/pool/pool.go:185-249` | Every returned connection was dialed for the key, locator and region asked for, and no visible entry is closed |
| `PoolThreads.OneInsideEachKey` | `internal/snowflake/pool/pool.go:94-103` | At most one call is inside a key |
| `PoolProgress.SingleFlight` | `internal/snowflake/pool/pool.go:194-236` | Any number of callers of one key and target, undisturbed on that key, cause at most one successful dial (none if it was cached) and all get the same connection |
| `PoolProgress.NoKeyWaitsForAnother` | `internal/snowflake/pool/pool.go:90-103` | A blocked call waits for a call on its own key that can itself move: a dial for one key never blocks another, and there is no deadlock |
| `PoolProgress.EveryStepAdvances` | `internal/snowflake/pool/pool.go:194-236` | Each step of a call brings it nearer its end |
| `Pool.GetAloneIsARun` | `internal/snowflake/pool/pool.go:116-236` | What the pool object does in one call is a run of the thread machine with one thread moving |
| `Pool.EvictAloneIsARun` | `internal/snowflake/pool/pool.go:255-270` | Same for an eviction |
| `Pool.GetOutcome` | `internal/snowflake/pool/pool.go:185-249` | A request gets a connection if and only if the cached one has its locator and region or a dial works; a new one takes the entry and the old one is closed once |
| `Pool.EvictOutcome` | `internal/snowflake/pool/pool.go:255-270` | After an eviction the key has no entry, its connection has been closed once more, and nothing else changed |
| `Pool.CloseOutcome` | `internal/snowflake/pool/pool.go:279-301` | After Close nothing is cached, and everything that was is closed exactly once |
| `Pool.Pool.OrgAdminDB` | `internal/snowflake/pool/pool.go:116-157` | Reuses or dials the one org-admin connection, keeps ownership, rotates over whatever it hands out exactly as the cache and the store allow; on failure leaves secrets alone and says whose fault it is |
| `Pool.Pool.ObtainOrgAdmin` | `internal/snowflake/pool/pool.go:127-154` | Same for the org-admin connection |
| `Pool.Pool.TenantDB` | `internal/snowflake/pool/pool.go:185-249` | Hit, failed dial that leaves everything, or a dial that replaces and closes the stale entry; a dial works exactly when the host name, the credential through the cache, and the connection do; then the inline rotation, exactly as the cache and the store allow, never on failure |
| `Pool.Pool.ObtainTenant` | `internal/snowflake/pool/pool.go:198-232` | The cached connection or a new one: host name, credential, dial, each able to stop it with its own kind of error; and what is in the cache of credentials afterwards |
| `Pool.Pool.DialTenant` | `internal/snowflake/pool/pool.go:218-232` | Publishes the new entry and closes the stale one, once |
| `Pool.Pool.ReadCredentials` | `internal/snowflake/pool/pool.go:208-211` | Succeeds exactly when the credential is live and the cache or the store answers, and then leaves it cached, until when depending on whether it was |
| `Pool.Pool.MaybeRotate` | `internal/snowflake/pool/pool.go:198-201` | Leaves store and slots exactly as the rotation specification says, a failing read counting only if the credential is not cached |
| `Pool.Pool.EvictTenant` | `internal/snowflake/pool/pool.go:255-270` | Removes the entry and closes its connection once; nothing for an unknown key |
| `Pool.Pool.CloseEntries` | `internal/snowflake/pool/pool.go:291-297` | The loop closes each connection once and fails if and only if some close failed |
| `Pool.Pool.CloseOrgAdminDB` | `internal/snowflake/pool/pool.go:279-289` | The org-admin half of Close |
| `Pool.Pool.CloseTenantDBs` | `internal/snowflake/pool/pool.go:291-301` | The tenant half of Close |
| `Pool.Pool.Close` | `internal/snowflake/pool/pool.go:279-301` | Closes everything cached whichever closes fail, and reports whether any did |
| `PermitSafety.PermitsGateEveryRun` | `internal/controller/snowflakeaccount/reconciler.go:251-288` | Over every interleaving: each Destroy ran behind a gate taken in an earlier state of the run, and with protection on that gate found the earliest Active permit for that kind, name and namespace among all the API held in that state; Consumed only after a Destroy that returned nil; validUntil at most eight hours after creation, Expired only after it |
| `PermitSafety.ClosedStaysClosed` | `internal/controller/deletionpermit/reconciler.go:110-131` | Expired and Consumed are absorbing and freeze validUntil over every run, whatever either controller has in flight |
| `PermitSafety.RunKeepsInv` | `internal/deletion/consume.go:38-44` | The invariant behind both: what is read is never newer than the API, and identical at the same version |
| `PermitSafety.ConsumedForGood` | `internal/controller/snowflakeaccount/reconciler.go:276-285` | However a deletion ends whose Destroy returned nil, no later gate of any run finds its permit if and only if the permit was deleted, is terminal, or MarkConsumed ran and found it unwritten since the gate |
| `PermitSafety.ActiveIsNotOut` | `internal/deletion/lookup.go:39-60` | A permit still Active is found by some gate of some run |
| `PermitSafety.GatesWereTaken` | `internal/deletion/lookup.go:39-60` | Every gate a deletion or a Destroy refers to was taken in some state of the run, from the permits of that state |
| `PermitSafety.OnlyOpenPermitsPass` | `internal/deletion/lookup.go:39-60` | A terminal or deleted permit is never what the gate finds |
| `PermitRuns.OnePermitMayServeTwice` | `internal/controller/snowflakeaccount/reconciler.go:257-285` | A concrete run in which one permit, edited during the Destroy, lets two through |
| `PermitRuns.CrashMayLetItServeTwice` | `internal/controller/snowflakeaccount/reconciler.go:276-285` | A concrete run in which the controller crashes before MarkConsumed, the permit stays as it was, and a second Destroy runs behind it |
| `PermitRuns.DropMayFollowExpiry` | `internal/deletion/lookup.go:32-38` | A concrete run in which the Destroy follows the end of the window and the permit ends Expired |
| `PermitWindow.WindowHoldsExactly` | `internal/deletion/lookup.go:30-34` | Past the gate, every continuation reaching the Destroy within d seconds runs it inside the window if and only if the permit has at least d seconds left at the gate |
| `PermitWindow.LateByLagAndGap` | `specs/019-deletion-permit.md:235-238` | Over every run: if no active permit has gone unobserved for longer than the lag when a gate is passed, and no Destroy comes later than the gap after its gate, every Destroy runs at most lag plus gap after validUntil |
| `PermitWindow.TheBoundIsAttained` | `specs/019-deletion-permit.md:235-238` | For every lag and gap a run is exactly that late, its gate passed after the window by a permit still shown as Active |
| `PermitWindow.RunKeepsTime` | `internal/controller/deletionpermit/reconciler.go:121-131` | Over every run, an Active permit was last observed before its validUntil |
| `PermitWindow.WindowIsThePermitsOwn` | `internal/controller/deletionpermit/reconciler.go:121-131` | Over every run, a permit nobody edited is valid until its creation plus its own duration from its first observation on, and Expired only past that |
| `PermitSafety.ListFindsTheEarliest` | `internal/deletion/lookup.go:39-60` | Over any order of the list: the earliest-created Active match, and none if and only if no permit the API holds matches |
| `Permits.FindActivePermit` | `internal/deletion/lookup.go:39-60` | A failed listing is a system error; otherwise the loop returns the earliest match, the first of equals, or none exactly when nothing matches |
| `Permits.EarliestIsUnique` | `internal/deletion/lookup.go:45-57` | Earliest, and first among equals, determines the result |
| `Permits.PermitCr.Observe` | `internal/controller/deletionpermit/reconciler.go:116-140` | A permit being deleted is left alone and reported gone; a terminal one is left alone; any other is valid until its creation plus its duration, and Expired exactly past that |
| `Permits.ApiServer.StatusUpdate` | `internal/deletion/consume.go:38-44` | A versioned write: refused on a missing or newer object, and then nothing changes; a failing API is a failure, whether or not the write happened |
| `Permits.OnlyTheStatus` | `internal/deletion/consume.go:38-44` | A status write takes over the status and nothing else, of that permit and no other, and gives a new version exactly when it changes it |
| `Permits.ApiServer.MarkConsumed` | `internal/deletion/consume.go:38-44` | Succeeds exactly when the API answers and the permit is unwritten since it was read; then Consumed with the validUntil it had, else a system error, and no change unless only the answer was lost |
| `Backplane.FitsIsInclusion` | `internal/config/backplane/backplane.go:263-289` | The test on lengths and one address holds if and only if the candidate's whole block lies in the range's, whatever host bits it carries |
| `Backplane.OutsideAddress` | `internal/config/backplane/backplane.go:263-289` | A candidate that does not fit has an address outside the range |
| `Backplane.ContainsCIDR` | `internal/config/backplane/backplane.go:270-289` | True exactly when some range, all before it parsing, contains the candidate's block; false exactly when all parse and none does; else a user error |
| `Backplane.LoadInventory` | `internal/config/backplane/backplane.go:150-178` | Accepts exactly the inventories of named, typed, uniquely named connections whose ranges parse |
| `Backplane.CheckEntry` | `internal/config/backplane/backplane.go:187-226` | Accepts exactly the entries each of whose blocks lies inside one of the connection's |
| `Backplane.IndexByName` | `internal/config/backplane/backplane.go:144-234` | An index of exactly the inventory's names |
| `Backplane.LoadRegion` | `internal/config/backplane/backplane.go:144-234` | Accepts a region if and only if it is valid, and returns it with the omitted parts defaulted |
| `Backplane.RefusedExactly` | `internal/config/backplane/backplane.go:152-220` | A region is refused if and only if a connection lacks a name or a type or has an unparsable range, two share a name, or an allowlist entry is for no declared connection or has an address unparsable or outside all of its ranges |
| `Backplane.EntryRefusedExactly` | `internal/config/backplane/backplane.go:187-219` | Same for one allowlist entry |
| `Backplane.FindConnection` | `internal/config/backplane/backplane.go:254-261` | The first connection of that name |
| `Backplane.IndexAgreesWithSearch` | `internal/config/backplane/backplane.go:250-261` | On unique names the index and the linear search are the same lookup |
| `Backplane.AcceptedAllowlistIsContained` | `internal/config/backplane/backplane.go:187-226` | Every address an accepted region's allowlist permits lies in a range of the connection the search finds for it |
| `Identifiers.TenantIdentifierDecodes` | `internal/secrets/identifier.go:85-122` | A decoder recovers the three segments of every accepted tenant identifier, trailing separators included, character by character up to underscores read as dashes |
| `Identifiers.OrgAdminIdentifierDecodes` | `internal/secrets/identifier.go:124-147` | Same for org-admin identifiers |
| `Identifiers.TenantIdentifierAnswers` | `internal/secrets/identifier.go:107-122` | A user error if and only if some segment is malformed, a system error if and only if all are well formed and the whole has more than 127 characters |
| `Identifiers.OrgAdminIdentifierAnswers` | `internal/secrets/identifier.go:133-147` | Same for org-admin identifiers |
| `Identifiers.SegmentsExactly` | `internal/secrets/identifier.go:31-58` | The accepted segments are those a reader accepts letter by letter: letters and digits, with single separators between and after them |
| `Identifiers.DashedExactly` | `internal/secrets/identifier.go:60-66` | Normalising turns underscores into dashes and changes nothing else |
| `Identifiers.TenantIdentifiersCollideOnlyNormalised` | `internal/secrets/identifier.go:85-122` | Two tenant identifiers are equal if and only if the normalised tuples are |
| `Identifiers.TenantMeetsOrgAdmin` | `internal/secrets/identifier.go:124-147` | A tenant identifier equals an org-admin one if and only if its organization normalises to `orgadmin` and the other segments agree |
| `Identifiers.PoolKeysNeverShareASecret` | `internal/secrets/identifier.go:107-122` | On names Kubernetes admits, the identifier determines namespace and name |
| `Identifiers.NameFitsExactly` | `internal/account/modules/account/apply.go:192-200` | The length test accepts exactly the names whose label `<org>-<resolvedName>` has at most 63 characters |
| `Identifiers.AcceptedNameFitsTheIdentifier` | `internal/secrets/identifier.go:68-83` | Acceptance implies that the 127-character check cannot fail for any namespace of at most 63 |
| `Identifiers.CreatableExactly` | `internal/account/modules/account/apply.go:177-202` | A request passes if and only if its region is known and usable by this tenant and its label fits; a refusal is the tenant's mistake unless the label of the namespace could not be read |
| `Identifiers.ResolvedNamesAreDistinct` | `internal/account/tenant/naming.go:40-45` | Resolved names agree, ignoring case, only for the same name and namespace suffix |
| `Identifiers.ResolvedNameExactly` | `internal/account/tenant/naming.go:26-45` | The resolved name is the name with underscores for dashes, an underscore and the suffix, and an identifier Snowflake takes unquoted |
| `Identifiers.AccountNameIsASegment` | `internal/secrets/identifier.go:50-58` | Every name the resource's own validation admits is a valid segment |
| `Quoting.TwoPassesAreOneEscape` | `internal/snowflake/statement/render.go:50-54` | The two replacement passes equal one per-character escape |
| `Quoting.LiteralReadsBack` | `internal/snowflake/statement/render.go:38-54` | A lexer with backslash and doubled-quote escapes consumes exactly the literal and yields the value, if and only if the text after it does not begin with a quote |
| `Quoting.IdentifierReadsBack` | `internal/snowflake/statement/render.go:34-36` | Same for quoted identifiers |
| `Quoting.LiteralDecodesExactly` | `internal/snowflake/statement/render_test.go:119-185` | The strict decoder accepts a text with a value if and only if the text is that value's quotation |
| `Quoting.IdentifierDecodesExactly` | `internal/snowflake/statement/render_test.go:119-185` | Same for identifiers |
| `Quoting.BareReadsBack` | `internal/snowflake/statement/render.go:56-72` | A name is accepted as bare if and only if the lexer reads it back as one token, that is, if it is a letter followed by letters, digits and underscores |
| `Quoting.RotationStatementReadsBack` | `internal/snowflake/pool/rotate.go:78-150` | The statement rotation renders by hand parses back to the slot and key it was made of and the username with every lower-case letter, and nothing else, made upper-case |
| `Lookup.FindRowIsFirst` | `internal/snowflake/statement/result.go:35-46` | The first row whose column holds the value in any mixture of case, and nothing exactly when there is none |
| `Text.EqualFoldExactly` | `internal/snowflake/statement/result.go:35-46` | Two texts are equal ignoring case if and only if they have the same length and at each place the same character or the two cases of one letter |
| `Text.ToUpperExactly` | `internal/snowflake/pool/rotate.go:140-150` | Upper-casing leaves no lower-case letter and changes nothing else |
| `Lookup.ExactNameWins` | `internal/snowflake/statement/result.go:66-81` | A column of exactly the asked name is preferred to one that differs in case; only text is a string value |
| `Lookup.ValueIgnoresOrder` | `internal/snowflake/statement/result.go:66-81` | When no two columns differ only by case, the value is that of the column with the name in any case, in whatever order the map is scanned |
| `Lookup.LikeIsCoarser` | `internal/account/modules/account/apply.go:315-319` | Every resolved name LIKE-matches itself, in any case |
| `Lookup.CoarseThenExact` | `internal/account/modules/account/apply.go:320-328` | Filtering by LIKE and comparing exactly afterwards finds the same row as an exact search |
| `Lookup.FirstRowDecides` | `internal/account/modules/account/apply.go:320-328` | Over any rows, the lookup finds the locator of the first row of the name in any case, and nothing if that is no text or empty |
| `Lookup.NoRowNoLocator` | `internal/account/modules/account/apply.go:320-328` | And nothing if no row has the name |
| `Lookup.LocatorIsOfThatAccount` | `internal/account/modules/account/apply.go:311-328` | The lookup returns a locator if and only if it belongs to the account of that name, in whatever mixture of case Snowflake reports it |

## Left out

- Keys, PEM, SHA-256, base32 and JSON: keys are numbers with an injective fingerprint, the namespace suffix is a parameter of five characters.
- The AWS SDK, the Snowflake driver, the Kubernetes client and Crossplane's reconciler: environment steps with the contracts stated above.
- LifecycleConvergence.EveryCrashIsRecoverable: does not model Crossplane's create annotations, which stop the resource after a crash inside Create until somebody removes them; they belong to Crossplane, and only add refusals.
- IPv4-mapped IPv6 prefixes, where Go folds the address to four bytes: `net.ParseCIDR` is a parameter that yields no such prefix.
- YAML decoding, scalar range checks, host names and URLs, `syncStatus` writing accountName and accountUrl, events, messages and logging.
- Case folding beyond ASCII.
- Connection tuning and probing, and what a dial does inside: `Pool` has one outcome for parsing the key and connecting. `Teardown` evicts the pool's connection after the drop; that call is modelled in `Pool` only, since a warm connection to a dropped account does not answer anyway.
- Modules other than the account module do not exist in the source; `Pipeline` represents a module by the answers it gives.
- The read-back of the credential in `resumeCrashedCreate` goes through the cache in the source and straight to the store in `Lifecycle`; `KeyManager.GetCredentials` shows that on a coherent cache this is the same.
- The permit list of one namespace is, in `Permits`, the list of all permits with the namespace as part of the target.
- `MarkConsumed` failing before it took effect is, in the interleaved machine of `Permits`, a deletion that crashes; failing after it took effect, one that consumes.
- `Fleet` gives every resource a clock of its own.
- Deleting a permit is one step in `Permits`; while its finalizer is pending the permit controller writes nothing, which the model covers by a reconcile that writes back what it read.
- CheckEntry: the source reports which address failed and why; the model has one failure.
- FindTargetSlot: the fault of a row scan that fails half way is part of `describeFails` in the rotation attempt.
